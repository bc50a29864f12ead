/** Small datatypes shared by the other modules. */
module Wrappers {
  datatype Option<+T> = None | Some(value: T)

  datatype Result<+T> = Ok(value: T) | Err(error: string)

  /** JavaScript's `String.prototype.startsWith`. */
  predicate StartsWith(s: string, prefix: string) {
    |prefix| <= |s| && s[..|prefix|] == prefix
  }

  function Min(a: int, b: int): int {
    if a <= b then a else b
  }

  /** A number above all those in use. */
  lemma {:induction false} UnusedNumber(used: set<nat>) returns (n: nat)
    ensures forall x :: x in used ==> x < n
  {
    n := 0;
    if used != {} {
      var d :| d in used;
      var e := UnusedNumber(used - {d});
      n := if d < e then e else d + 1;
      forall x | x in used ensures x < n {
        assert x == d || x in used - {d};
      }
    }
  }
}
