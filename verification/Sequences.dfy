/** The concatenation of a sequence's parts. */
module Sequences {

  function Flatten<T>(parts: seq<seq<T>>): seq<T> {
    if parts == [] then [] else Flatten(parts[..|parts| - 1]) + parts[|parts| - 1]
  }

  lemma {:induction false} FlattenSplit<T>(parts: seq<seq<T>>, i: nat)
    requires i <= |parts|
    ensures Flatten(parts) == Flatten(parts[..i]) + Flatten(parts[i..])
    decreases |parts|
  {
    if i == |parts| {
      assert parts[..i] == parts && Flatten(parts[i..]) == [];
    } else {
      var n := |parts| - 1;
      FlattenSplit(parts[..n], i);
      assert parts[..n][..i] == parts[..i] && parts[..n][i..] == parts[i..][..n - i];
    }
  }

  lemma FlattenFirst<T>(parts: seq<seq<T>>)
    requires parts != []
    ensures Flatten(parts) == parts[0] + Flatten(parts[1..])
  {
    FlattenSplit(parts, 1);
    assert parts[..1][..0] == [] && Flatten(parts[..1]) == [] + parts[0];
  }
}
