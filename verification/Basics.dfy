/** What several modules need and none of them owns. */
module Basics {

  datatype Option<T> = None | Some(value: T)

  ghost function Max(a: nat, b: nat): nat { if a < b then b else a }

  ghost function Min(a: nat, b: nat): nat { if a < b then a else b }

  /** The parts one after another. */
  function Concat<T>(parts: seq<seq<T>>): seq<T> {
    if parts == [] then [] else parts[0] + Concat(parts[1..])
  }

  lemma {:induction false} ConcatLast<T>(parts: seq<seq<T>>, part: seq<T>)
    ensures Concat(parts + [part]) == Concat(parts) + part
  {
    if parts == [] {
      assert [part][1..] == [];
    } else {
      assert (parts + [part])[1..] == parts[1..] + [part];
      ConcatLast(parts[1..], part);
      assert parts[0] + (Concat(parts[1..]) + part) == (parts[0] + Concat(parts[1..])) + part;
    }
  }

  ghost predicate NoRepeats<T>(s: seq<T>) {
    forall i, j | 0 <= i < j < |s| :: s[i] != s[j]
  }
}
