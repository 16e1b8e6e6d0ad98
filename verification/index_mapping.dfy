/** Keep-vectors and the new-index -> old-index maps derived from them.

    A filtering stage of the pipeline decides, for every position of one axis
    of the matrix, whether it survives (a boolean keep-vector). Two things are
    derived from such a vector: the map from a surviving position's new index
    to its old index (`get_idx_mapping`), and the selection of the surviving
    elements themselves (numpy's boolean-mask indexing `A[cond]`). This module
    defines both independently and proves that they agree.
 */
module IndexMapping {

  /** Number of `true` entries of a keep-vector. */
  function CountTrue(cond: seq<bool>): (n: nat)
    ensures n <= |cond|
  {
    if |cond| == 0 then 0
    else CountTrue(cond[..|cond| - 1]) + (if cond[|cond| - 1] then 1 else 0)
  }

  predicate StrictlyIncreasing(m: seq<nat>)
  {
    forall i, j :: 0 <= i < j < |m| ==> m[i] < m[j]
  }

  /** The declarative description of an index map for `cond`: it lists, in
      increasing order, exactly the positions where `cond` holds. */
  predicate IsIndexMapOf(m: seq<nat>, cond: seq<bool>)
  {
    && StrictlyIncreasing(m)
    && (forall j :: 0 <= j < |m| ==> m[j] < |cond| && cond[m[j]])
    && (forall i :: 0 <= i < |cond| && cond[i] ==> i in m)
  }

  /** The new-index -> old-index map of a keep-vector: entry `j` is the old
      position of the `j`-th kept element. Built by scanning `cond` in order
      and giving the next new index to every kept position. */
  function IdxMapping(cond: seq<bool>): (m: seq<nat>)
    ensures |m| == CountTrue(cond)
    ensures IsIndexMapOf(m, cond)
  {
    if |cond| == 0 then []
    else
      var prefix := IdxMapping(cond[..|cond| - 1]);
      assert forall i :: 0 <= i < |cond| - 1 ==> cond[..|cond| - 1][i] == cond[i];
      if cond[|cond| - 1] then prefix + [|cond| - 1] else prefix
  }

  /** The loop of `get_idx_mapping`, building a dictionary keyed by the new
      index. Its keys are exactly `0 .. n-1` where `n` counts the kept
      positions, and it agrees with `IdxMapping` on every key. */
  method GetIdxMapping(cond: seq<bool>) returns (m: map<nat, nat>)
    ensures forall j: nat :: j in m <==> j < CountTrue(cond)
    ensures forall j :: j in m ==> j < |IdxMapping(cond)| && m[j] == IdxMapping(cond)[j]
  {
    m := map[];
    var curNewIdx: nat := 0;
    for oldIdx := 0 to |cond|
      invariant curNewIdx == CountTrue(cond[..oldIdx])
      invariant forall j: nat :: j in m <==> j < curNewIdx
      invariant forall j :: j in m ==> j < |IdxMapping(cond[..oldIdx])| && m[j] == IdxMapping(cond[..oldIdx])[j]
    {
      assert cond[..oldIdx + 1][..oldIdx] == cond[..oldIdx];
      if cond[oldIdx] {
        m := m[curNewIdx := oldIdx];
        curNewIdx := curNewIdx + 1;
      }
    }
    assert cond[..|cond|] == cond;
  }

  /** Dropping the last position of a keep-vector: when it is kept, the index
      map loses its last entry; otherwise the map is unchanged. */
  lemma DropLastKept(m: seq<nat>, cond: seq<bool>)
    requires |cond| > 0 && cond[|cond| - 1]
    requires IsIndexMapOf(m, cond)
    ensures |m| > 0 && m[|m| - 1] == |cond| - 1
    ensures IsIndexMapOf(m[..|m| - 1], cond[..|cond| - 1])
  {
    var n := |cond| - 1;
    assert n in m;
    var p :| 0 <= p < |m| && m[p] == n;
    assert m[|m| - 1] < |cond|;
    assert forall q :: 0 <= q < |m| - 1 ==> m[q] < m[|m| - 1];
    var front := m[..|m| - 1];
    forall i | 0 <= i < n && cond[..n][i]
      ensures i in front
    {
      assert cond[i];
      assert i in m;
      var q :| 0 <= q < |m| && m[q] == i;
      assert front[q] == i;
    }
  }

  lemma DropLastDropped(m: seq<nat>, cond: seq<bool>)
    requires |cond| > 0 && !cond[|cond| - 1]
    requires IsIndexMapOf(m, cond)
    ensures IsIndexMapOf(m, cond[..|cond| - 1])
  {
    var n := |cond| - 1;
    forall j | 0 <= j < |m|
      ensures m[j] < n
    {
      assert cond[m[j]];
    }
  }

  /** The declarative description determines the index map: any strictly
      increasing list of exactly the kept positions is `IdxMapping(cond)`. */
  lemma {:induction false} IndexMapUnique(m: seq<nat>, cond: seq<bool>)
    requires IsIndexMapOf(m, cond)
    ensures m == IdxMapping(cond)
    decreases |cond|
  {
    if |cond| == 0 {
      assert |m| == 0;
    } else if cond[|cond| - 1] {
      DropLastKept(m, cond);
      IndexMapUnique(m[..|m| - 1], cond[..|cond| - 1]);
      assert m == m[..|m| - 1] + [|cond| - 1];
    } else {
      DropLastDropped(m, cond);
      IndexMapUnique(m, cond[..|cond| - 1]);
    }
  }

  /** Boolean-mask selection: the elements of `xs` at kept positions, in order. */
  function Mask<T>(xs: seq<T>, cond: seq<bool>): (r: seq<T>)
    requires |xs| == |cond|
    ensures |r| == CountTrue(cond)
  {
    if |xs| == 0 then []
    else
      var prefix := Mask(xs[..|xs| - 1], cond[..|cond| - 1]);
      if cond[|cond| - 1] then prefix + [xs[|xs| - 1]] else prefix
  }

  /** Mask selection commutes with the index map: the `j`-th selected element
      is the element at old position `IdxMapping(cond)[j]`. */
  lemma {:induction false} MaskSelects<T>(xs: seq<T>, cond: seq<bool>)
    requires |xs| == |cond|
    ensures forall j :: 0 <= j < |Mask(xs, cond)| ==> Mask(xs, cond)[j] == xs[IdxMapping(cond)[j]]
    decreases |xs|
  {
    if |xs| > 0 {
      var n := |xs| - 1;
      MaskSelects(xs[..n], cond[..n]);
    }
  }

  /** Composition of two index maps: `outer` after `inner`, resolving an index
      of the innermost (most recent) stage to an index of the outer one. */
  function Compose(outer: seq<nat>, inner: seq<nat>): (c: seq<nat>)
    requires forall j :: 0 <= j < |inner| ==> inner[j] < |outer|
    ensures |c| == |inner|
    ensures StrictlyIncreasing(outer) && StrictlyIncreasing(inner) ==> StrictlyIncreasing(c)
  {
    seq(|inner|, j requires 0 <= j < |inner| => outer[inner[j]])
  }
}
