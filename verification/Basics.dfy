/** Types and functions shared by the components. */
module Basics {
  datatype Option<+T> = None | Some(value: T)

  /** A Rust `Result` whose error text is not modelled. */
  datatype Result<+T> = Ok(value: T) | Err

  type Bytes = seq<bv8>

  function Flatten<T>(parts: seq<seq<T>>): seq<T> {
    if parts == [] then [] else parts[0] + Flatten(parts[1..])
  }

  lemma {:induction false} FlattenConcat<T>(a: seq<seq<T>>, b: seq<seq<T>>)
    ensures Flatten(a + b) == Flatten(a) + Flatten(b)
  {
    if a == [] {
      assert a + b == b;
    } else {
      assert (a + b)[1..] == a[1..] + b;
      FlattenConcat(a[1..], b);
    }
  }

  lemma {:induction false} Regroup<T>(a: seq<T>, b: seq<T>, c: seq<T>)
    ensures a + (b + c) == a + b + c
  {
  }

  /** Whether a disk, a connection or the process fails at this point; `uninterrupted` says that none ever does. */
  method Fails(uninterrupted: bool) returns (failed: bool)
    ensures uninterrupted ==> !failed
  {
    if uninterrupted {
      return false;
    }
    failed := *;
  }

  /** `to_ascii_lowercase` on one character. */
  function Lower(c: char): char {
    if 'A' <= c <= 'Z' then (c as int + 32) as char else c
  }
}
