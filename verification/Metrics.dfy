/** The Levenshtein table with backtracking behind the word and character error rates. */
module Metrics {

  /** An alignment entry is a pair of optional indices, never both absent. */
  datatype Entry = Both(i: nat, j: nat) | RefOnly(i: nat) | HypOnly(j: nat)

  type Alignment = seq<Entry>

  // ---- What an alignment is and costs -----------------------------------------------

  function RefIndex(e: Entry): seq<nat> { if e.HypOnly? then [] else [e.i] }
  function HypIndex(e: Entry): seq<nat> { if e.RefOnly? then [] else [e.j] }

  function RefIndices(a: Alignment): seq<nat> {
    if a == [] then [] else RefIndex(a[0]) + RefIndices(a[1..])
  }

  function HypIndices(a: Alignment): seq<nat> {
    if a == [] then [] else HypIndex(a[0]) + HypIndices(a[1..])
  }

  function Range(lo: nat, hi: nat): (r: seq<nat>)
    requires lo <= hi
    ensures |r| == hi - lo && forall k :: 0 <= k < |r| ==> r[k] == lo + k
  {
    seq(hi - lo, k requires 0 <= k => lo + k)
  }

  /** Lists every index of each side from `i` and `j` on exactly once, in increasing order. */
  predicate Aligns<T>(ref: seq<T>, hyp: seq<T>, a: Alignment, i: nat, j: nat) {
    i <= |ref| && j <= |hyp| && RefIndices(a) == Range(i, |ref|) && HypIndices(a) == Range(j, |hyp|)
  }

  function Mismatch<T(==)>(x: T, y: T): nat { if x != y then 1 else 0 }

  function EntryCost<T(==)>(ref: seq<T>, hyp: seq<T>, e: Entry): nat {
    if e.Both? && e.i < |ref| && e.j < |hyp| then Mismatch(ref[e.i], hyp[e.j]) else 1
  }

  function Cost<T(==)>(ref: seq<T>, hyp: seq<T>, a: Alignment): nat {
    if a == [] then 0 else EntryCost(ref, hyp, a[0]) + Cost(ref, hyp, a[1..])
  }

  // ---- The recurrence the table is filled by -----------------------------------------

  function Min(x: nat, y: nat): nat { if x <= y then x else y }

  function Distance<T(==)>(ref: seq<T>, hyp: seq<T>, i: nat, j: nat): nat
    requires i <= |ref| && j <= |hyp|
  {
    if i == 0 then j
    else if j == 0 then i
    else Min(Min(Distance(ref, hyp, i - 1, j) + 1, Distance(ref, hyp, i, j - 1) + 1),
             Distance(ref, hyp, i - 1, j - 1) + Mismatch(ref[i - 1], hyp[j - 1]))
  }

  /** The cell the table computes from its three neighbours. */
  function Cell(up: nat, left: nat, diagonal: nat, mismatch: nat): nat {
    Min(Min(up + 1, left + 1), diagonal + mismatch)
  }

  lemma Recurrence<T>(ref: seq<T>, hyp: seq<T>, i: nat, j: nat)
    requires i <= |ref| && j <= |hyp|
    ensures i == 0 ==> Distance(ref, hyp, i, j) == j
    ensures j == 0 ==> Distance(ref, hyp, i, j) == i
    ensures i > 0 && j > 0 ==>
      Distance(ref, hyp, i, j) == Cell(Distance(ref, hyp, i - 1, j), Distance(ref, hyp, i, j - 1),
                                       Distance(ref, hyp, i - 1, j - 1), Mismatch(ref[i - 1], hyp[j - 1]))
  {
  }

  /** Advancing either side costs at most one, advancing both at most the mismatch. */
  lemma Neighbours<T>(ref: seq<T>, hyp: seq<T>, i: nat, j: nat)
    requires i <= |ref| && j <= |hyp|
    ensures i < |ref| ==> Distance(ref, hyp, i + 1, j) <= Distance(ref, hyp, i, j) + 1
    ensures j < |hyp| ==> Distance(ref, hyp, i, j + 1) <= Distance(ref, hyp, i, j) + 1
    ensures i < |ref| && j < |hyp| ==>
      Distance(ref, hyp, i + 1, j + 1) <= Distance(ref, hyp, i, j) + Mismatch(ref[i], hyp[j])
  {
    hide Distance;
    Recurrence(ref, hyp, i, j);
    if i < |ref| { Recurrence(ref, hyp, i + 1, j); }
    if j < |hyp| { Recurrence(ref, hyp, i, j + 1); }
    if i < |ref| && j < |hyp| { Recurrence(ref, hyp, i + 1, j + 1); }
  }

  /** No alignment of the remainders closes the distance for less than it costs. */
  lemma {:induction false} NoAlignmentIsCheaper<T>(ref: seq<T>, hyp: seq<T>, a: Alignment, i: nat, j: nat)
    requires Aligns(ref, hyp, a, i, j)
    ensures Distance(ref, hyp, i, j) + Cost(ref, hyp, a) >= Distance(ref, hyp, |ref|, |hyp|)
    decreases |a|
  {
    hide Distance, Aligns, Mismatch;
    Peel(ref, hyp, a, i, j);
    if a != [] {
      Neighbours(ref, hyp, i, j);
      var next := Past(a[0], i, j);
      NoAlignmentIsCheaper(ref, hyp, a[1..], next.0, next.1);
    }
  }

  /** Where an entry leaves the two sides. */
  function Past(e: Entry, i: nat, j: nat): (nat, nat) {
    (if e.HypOnly? then i else i + 1, if e.RefOnly? then j else j + 1)
  }

  /** The first entry of an alignment consumes the next element of the sides it mentions. */
  lemma Peel<T>(ref: seq<T>, hyp: seq<T>, a: Alignment, i: nat, j: nat)
    requires Aligns(ref, hyp, a, i, j)
    ensures a == [] ==> i == |ref| && j == |hyp|
    ensures a != [] ==>
      && (!a[0].HypOnly? ==> a[0].i == i < |ref|) && (!a[0].RefOnly? ==> a[0].j == j < |hyp|)
      && Aligns(ref, hyp, a[1..], Past(a[0], i, j).0, Past(a[0], i, j).1)
  {
    if a == [] {
      assert |RefIndices(a)| == 0 && |HypIndices(a)| == 0;
    } else {
      var rest := a[1..];
      assert !a[0].HypOnly? ==> RefIndices(a)[0] == a[0].i && RefIndices(rest) == RefIndices(a)[1..];
      assert !a[0].RefOnly? ==> HypIndices(a)[0] == a[0].j && HypIndices(rest) == HypIndices(a)[1..];
    }
  }

  function Reverse(a: Alignment): (r: Alignment)
    ensures |r| == |a|
  {
    if a == [] then [] else [a[|a| - 1]] + Reverse(a[..|a| - 1])
  }

  /** One step of the backtrack: the entry is put in front of what was already aligned. */
  lemma Prepend<T>(ref: seq<T>, hyp: seq<T>, a: Alignment, e: Entry, i: nat, j: nat)
    requires Aligns(ref, hyp, Reverse(a), i, j)
    requires !e.HypOnly? ==> e.i + 1 == i
    requires !e.RefOnly? ==> e.j + 1 == j
    ensures Aligns(ref, hyp, Reverse(a + [e]), if e.HypOnly? then i else i - 1, if e.RefOnly? then j else j - 1)
    ensures Cost(ref, hyp, Reverse(a + [e])) == EntryCost(ref, hyp, e) + Cost(ref, hyp, Reverse(a))
  {
    assert (a + [e])[..|a|] == a;
    var back := Reverse(a + [e]);
    assert back[0] == e && back[1..] == Reverse(a);
  }

  lemma NothingAligned<T>(ref: seq<T>, hyp: seq<T>)
    ensures Aligns(ref, hyp, Reverse([]), |ref|, |hyp|) && Cost(ref, hyp, Reverse([])) == 0
  {
  }

  // ---- The table and the walk back ---------------------------------------------------

  method FillTable<T(==)>(ref: seq<T>, hyp: seq<T>) returns (d: array2<nat>)
    ensures fresh(d) && d.Length0 == |ref| + 1 && d.Length1 == |hyp| + 1
    ensures forall i, j :: 0 <= i <= |ref| && 0 <= j <= |hyp| ==> d[i, j] == Distance(ref, hyp, i, j)
  {
    hide Distance, Cell;
    var n, m := |ref|, |hyp|;
    d := new nat[n + 1, m + 1]((i, j) => 0);
    for i := 0 to n + 1
      invariant forall k :: 0 <= k < i ==> d[k, 0] == k
    {
      d[i, 0] := i;
    }
    for j := 0 to m + 1
      invariant forall k :: 0 <= k <= n ==> d[k, 0] == k
      invariant forall k :: 0 <= k < j ==> d[0, k] == k
    {
      d[0, j] := j;
    }
    forall l | 0 <= l <= m ensures Distance(ref, hyp, 0, l) == l { Recurrence(ref, hyp, 0, l); }
    for i := 1 to n + 1
      invariant forall k :: 0 <= k <= n ==> d[k, 0] == k
      invariant forall k, l :: 0 <= k < i && 0 <= l <= m ==> d[k, l] == Distance(ref, hyp, k, l)
    {
      Recurrence(ref, hyp, i, 0);
      for j := 1 to m + 1
        invariant forall k :: 0 <= k <= n ==> d[k, 0] == k
        invariant forall k, l :: 0 <= k < i && 0 <= l <= m ==> d[k, l] == Distance(ref, hyp, k, l)
        invariant forall l :: 0 <= l < j ==> d[i, l] == Distance(ref, hyp, i, l)
      {
        Recurrence(ref, hyp, i, j);
        d[i, j] := Cell(d[i - 1, j], d[i, j - 1], d[i - 1, j - 1], Mismatch(ref[i - 1], hyp[j - 1]));
      }
    }
  }

  /** The distance and an alignment attaining it; no alignment of the two sequences is cheaper. */
  method EditOps<T(==)>(ref: seq<T>, hyp: seq<T>) returns (distance: nat, alignment: Alignment)
    ensures Aligns(ref, hyp, alignment, 0, 0)
    ensures Cost(ref, hyp, alignment) == distance
    ensures forall a :: Aligns(ref, hyp, a, 0, 0) ==> distance <= Cost(ref, hyp, a)
    ensures distance == 0 <==> ref == hyp
  {
    hide Distance, Aligns, Cost, Reverse;
    var d := FillTable(ref, hyp);
    NothingAligned(ref, hyp);
    var i: nat, j: nat, align: Alignment := |ref|, |hyp|, [];
    Recurrence(ref, hyp, 0, 0);
    while i > 0 || j > 0
      invariant i <= |ref| && j <= |hyp|
      invariant forall k, l :: 0 <= k <= |ref| && 0 <= l <= |hyp| ==> d[k, l] == Distance(ref, hyp, k, l)
      invariant Aligns(ref, hyp, Reverse(align), i, j)
      invariant Distance(ref, hyp, i, j) + Cost(ref, hyp, Reverse(align)) == Distance(ref, hyp, |ref|, |hyp|)
      decreases i + j
    {
      Recurrence(ref, hyp, i, j);
      if i > 0 { Recurrence(ref, hyp, i - 1, j); }
      if j > 0 { Recurrence(ref, hyp, i, j - 1); }
      if i > 0 && j > 0 && d[i, j] == d[i - 1, j - 1] + Mismatch(ref[i - 1], hyp[j - 1]) {
        Prepend(ref, hyp, align, Both(i - 1, j - 1), i, j);
        align, i, j := align + [Both(i - 1, j - 1)], i - 1, j - 1;
      } else if i > 0 && d[i, j] == d[i - 1, j] + 1 {
        Prepend(ref, hyp, align, RefOnly(i - 1), i, j);
        align, i := align + [RefOnly(i - 1)], i - 1;
      } else {
        // Always a real insertion: there is a hypothesis element left, and it is what the table charged for.
        assert j > 0 && Distance(ref, hyp, i, j) == Distance(ref, hyp, i, j - 1) + 1;
        Prepend(ref, hyp, align, HypOnly(j - 1), i, j);
        align, j := align + [HypOnly(j - 1)], j - 1;
      }
    }
    distance, alignment := d[|ref|, |hyp|], Reverse(align);
    forall a | Aligns(ref, hyp, a, 0, 0) ensures distance <= Cost(ref, hyp, a) {
      NoAlignmentIsCheaper(ref, hyp, a, 0, 0);
    }
    ZeroMeansEqual(ref, hyp, |ref|, |hyp|);
  }

  lemma {:induction false} ZeroMeansEqual<T>(ref: seq<T>, hyp: seq<T>, i: nat, j: nat)
    requires i <= |ref| && j <= |hyp|
    ensures Distance(ref, hyp, i, j) == 0 <==> ref[..i] == hyp[..j]
    ensures Distance(ref, hyp, i, j) >= if i >= j then i - j else j - i
  {
    hide Distance;
    Recurrence(ref, hyp, i, j);
    if i > 0 && j > 0 {
      ZeroMeansEqual(ref, hyp, i - 1, j - 1);
      ZeroMeansEqual(ref, hyp, i - 1, j);
      ZeroMeansEqual(ref, hyp, i, j - 1);
      assert ref[..i] == ref[..i - 1] + [ref[i - 1]];
      assert hyp[..j] == hyp[..j - 1] + [hyp[j - 1]];
    }
  }

  /** The rates divide by the reference length, and the distance does not depend on which side is which. */
  lemma {:induction false} DistanceIsSymmetric<T>(ref: seq<T>, hyp: seq<T>, i: nat, j: nat)
    requires i <= |ref| && j <= |hyp|
    ensures Distance(ref, hyp, i, j) == Distance(hyp, ref, j, i)
  {
    hide Distance;
    Recurrence(ref, hyp, i, j);
    Recurrence(hyp, ref, j, i);
    if i > 0 && j > 0 {
      DistanceIsSymmetric(ref, hyp, i - 1, j);
      DistanceIsSymmetric(ref, hyp, i, j - 1);
      DistanceIsSymmetric(ref, hyp, i - 1, j - 1);
    }
  }
}
