/** The order of strings, and sequences sorted by a date and an id. */
module Ordering {
  predicate Less(a: string, b: string) {
    b != [] && (a == [] || a[0] < b[0] || (a[0] == b[0] && Less(a[1..], b[1..])))
  }

  lemma {:induction false} LessTotal(a: string, b: string)
    requires a != b
    ensures Less(a, b) <==> !Less(b, a)
  {
    if a != [] && b != [] && a[0] == b[0] {
      assert a == [a[0]] + a[1..] && b == [b[0]] + b[1..];
      LessTotal(a[1..], b[1..]);
    }
  }

  lemma {:induction false} LessIrreflexive(a: string)
    ensures !Less(a, a)
  {
    if a != [] {
      LessIrreflexive(a[1..]);
    }
  }

  lemma {:induction false} LessTransitive(a: string, b: string, c: string)
    requires Less(a, b) && Less(b, c)
    ensures Less(a, c)
  {
    if a != [] && a[0] == b[0] && b[0] == c[0] {
      LessTransitive(a[1..], b[1..], c[1..]);
    }
  }

  /** `a` and `b` are alike up to `k`, where `a` ends first or has the smaller character. */
  predicate DiffersFirstAt(a: string, b: string, k: nat) {
    k <= |a| && k < |b| && a[..k] == b[..k] && (k == |a| || a[k] < b[k])
  }

  /** The order is that of dictionaries: the first difference decides, and a prefix comes first. */
  lemma {:induction false} LessIffDiffersFirst(a: string, b: string)
    ensures Less(a, b) <==> exists k :: DiffersFirstAt(a, b, k)
  {
    if b != [] && a != [] && a[0] == b[0] {
      LessIffDiffersFirst(a[1..], b[1..]);
      if k: nat :| DiffersFirstAt(a[1..], b[1..], k) {
        assert a[..k + 1] == [a[0]] + a[1..][..k] && b[..k + 1] == [b[0]] + b[1..][..k];
        assert DiffersFirstAt(a, b, k + 1);
      }
      if k: nat :| DiffersFirstAt(a, b, k) {
        assert k > 0;
        assert a[1..][..k - 1] == a[..k][1..] && b[1..][..k - 1] == b[..k][1..];
        assert DiffersFirstAt(a[1..], b[1..], k - 1);
      }
    } else if Less(a, b) {
      assert DiffersFirstAt(a, b, 0);
    }
    forall k: nat | DiffersFirstAt(a, b, k) && k > 0
      ensures a[0] == b[0]
    {
      assert a[..k][0] == a[0] && b[..k][0] == b[0];
    }
  }

  datatype Stamp = Stamp(date: string, id: string)

  /** By date, then by id. */
  predicate Before(x: Stamp, y: Stamp) {
    Less(x.date, y.date) || (x.date == y.date && Less(x.id, y.id))
  }

  /** The date decides, and between equal dates the id. */
  lemma {:induction false} BeforeIff(x: Stamp, y: Stamp)
    ensures Before(x, y) <==> !Less(y.date, x.date) && (x.date == y.date ==> Less(x.id, y.id))
  {
    LessIrreflexive(x.date);
    if x.date != y.date {
      LessTotal(x.date, y.date);
    }
  }

  lemma {:induction false} BeforeTotal(x: Stamp, y: Stamp)
    requires x != y
    ensures Before(x, y) <==> !Before(y, x)
  {
    LessIrreflexive(x.date);
    if x.date == y.date {
      LessTotal(x.id, y.id);
    } else {
      LessTotal(x.date, y.date);
    }
  }

  lemma {:induction false} BeforeTransitive(x: Stamp, y: Stamp, z: Stamp)
    requires Before(x, y) && Before(y, z)
    ensures Before(x, z)
  {
    LessIrreflexive(x.date);
    if Less(x.date, y.date) && Less(y.date, z.date) {
      LessTransitive(x.date, y.date, z.date);
    }
    if x.date == y.date == z.date {
      LessTransitive(x.id, y.id, z.id);
    }
  }

  lemma {:induction false} BeforeIrreflexive(x: Stamp)
    ensures !Before(x, x)
  {
    LessIrreflexive(x.date);
    LessIrreflexive(x.id);
  }

  /** Strictly by the stamp of each element, so no two have the same. */
  predicate SortedBy<T>(list: seq<T>, key: T -> Stamp) {
    forall i, j :: 0 <= i < j < |list| ==> Before(key(list[i]), key(list[j]))
  }

  /** There is only one way to sort a set. */
  lemma {:induction false} SortedUnique<T>(s: seq<T>, t: seq<T>, key: T -> Stamp)
    requires SortedBy(s, key) && SortedBy(t, key)
    requires forall x :: x in s <==> x in t
    ensures s == t
  {
    if t != [] {
      assert t[0] in t;
    }
    if s != [] {
      assert s[0] in s;
      FirstIsLeast(s, t[0], key);
      FirstIsLeast(t, s[0], key);
      if s[0] != t[0] {
        BeforeTransitive(key(s[0]), key(t[0]), key(s[0]));
        BeforeIrreflexive(key(s[0]));
      }
      forall x
        ensures x in s[1..] <==> x in t[1..]
      {
        RestIsTheRest(s, x, key);
        RestIsTheRest(t, x, key);
      }
      SortedUnique(s[1..], t[1..], key);
      assert s == [s[0]] + s[1..] && t == [t[0]] + t[1..];
    }
  }

  lemma {:induction false} FirstIsLeast<T>(s: seq<T>, x: T, key: T -> Stamp)
    requires SortedBy(s, key) && x in s
    ensures x == s[0] || Before(key(s[0]), key(x))
  {
  }

  lemma {:induction false} RestIsTheRest<T>(s: seq<T>, x: T, key: T -> Stamp)
    requires SortedBy(s, key) && s != []
    ensures x in s[1..] <==> x in s && x != s[0]
  {
    BeforeIrreflexive(key(s[0]));
  }

  function InsertBy<T>(x: T, list: seq<T>, key: T -> Stamp): seq<T> {
    if list == [] || Before(key(x), key(list[0])) then [x] + list else [list[0]] + InsertBy(x, list[1..], key)
  }

  lemma {:induction false} InsertByHas<T>(x: T, list: seq<T>, key: T -> Stamp, y: T)
    ensures y in InsertBy(x, list, key) <==> y == x || y in list
  {
    if list != [] {
      InsertByHas(x, list[1..], key, y);
      assert list == [list[0]] + list[1..];
    }
  }

  /** Inserting an element with a stamp of its own keeps the list sorted. */
  lemma {:induction false} InsertBySorts<T>(x: T, list: seq<T>, key: T -> Stamp)
    requires SortedBy(list, key) && forall y :: y in list ==> key(y) != key(x)
    ensures SortedBy(InsertBy(x, list, key), key)
  {
    if list != [] {
      if Before(key(x), key(list[0])) {
        forall i | 0 <= i < |list|
          ensures Before(key(x), key(list[i]))
        {
          if i > 0 {
            BeforeTransitive(key(x), key(list[0]), key(list[i]));
          }
        }
      } else {
        BeforeTotal(key(x), key(list[0]));
        InsertBySorts(x, list[1..], key);
        var rest := InsertBy(x, list[1..], key);
        forall i | 0 <= i < |rest|
          ensures Before(key(list[0]), key(rest[i]))
        {
          assert rest[i] in rest;
          InsertByHas(x, list[1..], key, rest[i]);
        }
      }
    }
  }
}
