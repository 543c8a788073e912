/** Sequences of sequences. */
module Sequences {

  function Flatten<T>(parts: seq<seq<T>>): seq<T> {
    if parts == [] then [] else parts[0] + Flatten(parts[1..])
  }

  lemma NothingFlat<T>()
    ensures Flatten<T>([]) == []
  {
  }

  lemma {:induction false} FlattenLast<T>(parts: seq<seq<T>>, last: seq<T>)
    ensures Flatten(parts + [last]) == Flatten(parts) + last
    decreases |parts|
  {
    var all := parts + [last];
    if parts == [] {
      assert all[1..] == [];
      assert last + [] == last;
    } else {
      assert all[1..] == parts[1..] + [last];
      FlattenLast(parts[1..], last);
    }
  }
}
