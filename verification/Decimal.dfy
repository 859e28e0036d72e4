/**
 Decimal printing, and keys made by joining printed fields with a separator:
 the size key of `remote_size_key` and the seeds hashed into message ids.
 */
module Decimal {
  function Digit(d: nat): char
    requires d < 10
  {
    ('0' as int + d) as char
  }

  function Print(n: nat): string {
    if n < 10 then [Digit(n)] else Print(n / 10) + [Digit(n % 10)]
  }

  predicate Lacks(s: string, separator: char) {
    forall i :: 0 <= i < |s| ==> s[i] != separator
  }

  lemma {:induction false} PrintIsDigits(n: nat)
    ensures Print(n) != [] && forall i :: 0 <= i < |Print(n)| ==> '0' <= Print(n)[i] <= '9'
  {
    if n >= 10 {
      PrintIsDigits(n / 10);
    }
  }

  lemma {:induction false} DigitInjective(x: nat, y: nat)
    requires x < 10 && y < 10 && Digit(x) == Digit(y)
    ensures x == y
  {
    assert Digit(x) as int == '0' as int + x && Digit(y) as int == '0' as int + y;
  }

  lemma {:induction false} PrintEnds(n: nat)
    ensures Print(n) != [] && Print(n)[|Print(n)| - 1] == Digit(n % 10)
    ensures n >= 10 ==> Print(n)[..|Print(n)| - 1] == Print(n / 10) && |Print(n)| > 1
    ensures n < 10 ==> |Print(n)| == 1
  {
    if n >= 10 {
      PrintIsDigits(n / 10);
    }
  }

  lemma {:induction false} PrintInjective(m: nat, n: nat)
    requires Print(m) == Print(n)
    ensures m == n
  {
    PrintEnds(m);
    PrintEnds(n);
    DigitInjective(m % 10, n % 10);
    if m >= 10 && n >= 10 {
      PrintInjective(m / 10, n / 10);
    }
  }

  /** The last separator of a joined string is found again, so both parts are. */
  lemma {:induction false} SplitAtLast(a: string, b: string, a': string, b': string, separator: char)
    requires Lacks(b, separator) && Lacks(b', separator)
    requires a + [separator] + b == a' + [separator] + b'
    ensures a == a' && b == b'
  {
    var whole := a + [separator] + b;
    assert whole == a' + [separator] + b';
    assert whole[|a|] == separator && whole[|a'|] == separator;
    assert |a| == |a'|;
    assert a == whole[..|a|] == a';
    assert b == whole[|a| + 1..] == b';
  }

  // ----- the size key -----

  function RemoteSizeKey(localRole: string, uidvalidity: nat, uid: nat): string {
    localRole + "-" + Print(uidvalidity) + "-" + Print(uid)
  }

  /** The size key names one role, one UIDVALIDITY and one UID, even for a role with a '-' in it. */
  lemma {:induction false} RemoteSizeKeyInjective(role: string, v: nat, u: nat, role': string, v': nat, u': nat)
    requires RemoteSizeKey(role, v, u) == RemoteSizeKey(role', v', u')
    ensures role == role' && v == v' && u == u'
  {
    PrintIsDigits(v);
    PrintIsDigits(v');
    PrintIsDigits(u);
    PrintIsDigits(u');
    SplitAtLast(role + "-" + Print(v), Print(u), role' + "-" + Print(v'), Print(u'), '-');
    SplitAtLast(role, Print(v), role', Print(v'), '-');
    PrintInjective(u, u');
    PrintInjective(v, v');
  }

  function Count(s: string, c: char): nat {
    if s == [] then 0 else (if s[0] == c then 1 else 0) + Count(s[1..], c)
  }

  lemma {:induction false} CountConcat(a: string, b: string, c: char)
    ensures Count(a + b, c) == Count(a, c) + Count(b, c)
  {
    if a == [] {
      assert a + b == b;
    } else {
      assert (a + b)[1..] == a[1..] + b;
      CountConcat(a[1..], b, c);
    }
  }

  /**
   Rows without a binding are filed under their message id instead. No id the
   program generates ("msg_" or "proton-" and hex digits) has two dashes, so
   it never collides with a size key.
   */
  lemma {:induction false} GeneratedIdIsNoSizeKey(id: string, role: string, v: nat, u: nat)
    requires Count(id, '-') < 2
    ensures id != RemoteSizeKey(role, v, u)
  {
    CountConcat(role + "-" + Print(v) + "-", Print(u), '-');
    CountConcat(role + "-" + Print(v), "-", '-');
    CountConcat(role + "-", Print(v), '-');
    CountConcat(role, "-", '-');
    assert Count("-", '-') == 1;
  }

  // ----- the seed of a message id -----

  function RemoteSeed(account: string, role: string, content: string, mailbox: string, v: nat, u: nat): string {
    "remote\0" + account + "\0" + role + "\0" + content + "\0" + mailbox + "\0" + Print(v) + "\0" + Print(u)
  }

  /** Distinct bindings of distinct contents hash distinct seeds, as long as the names carry no NUL. */
  lemma {:induction false} RemoteSeedInjective(
      account: string, role: string, content: string, mailbox: string, v: nat, u: nat, account': string, role': string,
      content': string, mailbox': string, v': nat, u': nat)
    requires Lacks(account, '\0') && Lacks(role, '\0') && Lacks(content, '\0') && Lacks(mailbox, '\0')
    requires Lacks(account', '\0') && Lacks(role', '\0') && Lacks(content', '\0') && Lacks(mailbox', '\0')
    requires RemoteSeed(account, role, content, mailbox, v, u) ==
               RemoteSeed(account', role', content', mailbox', v', u')
    ensures account == account' && role == role' && content == content' && mailbox == mailbox' && v == v' && u == u'
  {
    PrintIsDigits(v);
    PrintIsDigits(v');
    PrintIsDigits(u);
    PrintIsDigits(u');
    var a1, b1 := "remote\0" + account, "remote\0" + account';
    var a2, b2 := a1 + "\0" + role, b1 + "\0" + role';
    var a3, b3 := a2 + "\0" + content, b2 + "\0" + content';
    var a4, b4 := a3 + "\0" + mailbox, b3 + "\0" + mailbox';
    SplitAtLast(a4 + "\0" + Print(v), Print(u), b4 + "\0" + Print(v'), Print(u'), '\0');
    SplitAtLast(a4, Print(v), b4, Print(v'), '\0');
    SplitAtLast(a3, mailbox, b3, mailbox', '\0');
    SplitAtLast(a2, content, b2, content', '\0');
    SplitAtLast(a1, role, b1, role', '\0');
    assert a1[7..] == account && b1[7..] == account';
    PrintInjective(u, u');
    PrintInjective(v, v');
  }
}
