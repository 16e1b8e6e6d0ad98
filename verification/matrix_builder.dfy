/** The matrix builder of `run_bispectral`: the weighted matrix `A` and the
    0/1 presence matrix `S`, one row per indexed user and one column per
    indexed hashtag, filled by writing one cell per input entry in input
    order (so a repeated (user, hashtag) cell keeps the last write).
 */
module MatrixBuilder {
  import opened IndexMapping
  import opened IdentityIndex
  import opened Matrices

  /** Entry `e` writes the cell of user `u` and hashtag `h`. */
  predicate Writes(e: Entry, u: UserId, h: Hashtag)
  {
    e.userId == u && e.hashtag == h
  }

  /** Some input entry pairs user `u` with hashtag `h`. */
  predicate HasEntry(entries: seq<Entry>, u: UserId, h: Hashtag)
  {
    exists p :: 0 <= p < |entries| && Writes(entries[p], u, h)
  }

  /** Position `p` holds the last entry pairing `u` with `h`. */
  predicate IsLastWrite(entries: seq<Entry>, p: int, u: UserId, h: Hashtag)
  {
    && 0 <= p < |entries|
    && Writes(entries[p], u, h)
    && forall q :: p < q < |entries| ==> !Writes(entries[q], u, h)
  }

  /** Every entry's user and hashtag are indexed by `t`. */
  predicate Indexes(t: Tables, entries: seq<Entry>)
  {
    && Bijective(t.users)
    && Bijective(t.hashtags)
    && forall p :: 0 <= p < |entries| ==>
         entries[p].userId in t.users.toIdx && entries[p].hashtag in t.hashtags.toIdx
  }

  lemma TablesIndexEntries(entries: seq<Entry>)
    ensures Indexes(BuildTables(entries), entries)
  {
    forall p | 0 <= p < |entries|
      ensures entries[p].userId in BuildTables(entries).users.toIdx
      ensures entries[p].hashtag in BuildTables(entries).hashtags.toIdx
    {
      EntriesIndexed(entries, p);
    }
  }

  /** The value the builder writes for one entry: its weight into `A`, 1 into `S`. */
  function Written(e: Entry, presence: bool): nat
  {
    if presence then 1 else e.weight
  }

  /** The build loop: starting from zeros, write each entry's cell in order. */
  function Fill(entries: seq<Entry>, t: Tables, presence: bool): (m: Matrix)
    requires Indexes(t, entries)
    ensures Valid(m) && m.rows == |t.users.ofIdx| && m.cols == |t.hashtags.ofIdx|
  {
    if |entries| == 0 then Zeros(|t.users.ofIdx|, |t.hashtags.ofIdx|)
    else
      var n := |entries| - 1;
      var e := entries[n];
      Set(Fill(entries[..n], t, presence), t.users.toIdx[e.userId], t.hashtags.toIdx[e.hashtag], Written(e, presence))
  }

  /** Whenever some entry pairs `u` with `h`, one of them is the last. */
  lemma {:induction false} LastWriteExists(entries: seq<Entry>, u: UserId, h: Hashtag)
    requires HasEntry(entries, u, h)
    ensures exists p :: IsLastWrite(entries, p, u, h)
    decreases |entries|
  {
    var n := |entries| - 1;
    if Writes(entries[n], u, h) {
      assert IsLastWrite(entries, n, u, h);
    } else {
      var prefix := entries[..n];
      var p :| 0 <= p < |entries| && Writes(entries[p], u, h);
      assert prefix[p] == entries[p];
      LastWriteExists(prefix, u, h);
      var last :| IsLastWrite(prefix, last, u, h);
      assert IsLastWrite(entries, last, u, h);
    }
  }

  /** One step of the build loop: the last entry overwrites its own cell and
      leaves every other cell as the earlier entries left it. */
  lemma FillStep(entries: seq<Entry>, t: Tables, presence: bool, i: nat, j: nat)
    requires Indexes(t, entries) && |entries| > 0
    requires i < |t.users.ofIdx| && j < |t.hashtags.ofIdx|
    ensures Indexes(t, entries[..|entries| - 1])
    ensures var e := entries[|entries| - 1];
            Fill(entries, t, presence).cells[i][j]
            == if Writes(e, t.users.ofIdx[i], t.hashtags.ofIdx[j]) then Written(e, presence)
               else Fill(entries[..|entries| - 1], t, presence).cells[i][j]
  {
    var n := |entries| - 1;
    var e := entries[n];
    assert forall p :: 0 <= p < n ==> entries[..n][p] == entries[p];
    var a, b := t.users.toIdx[e.userId], t.hashtags.toIdx[e.hashtag];
    assert e.userId == t.users.ofIdx[a] && e.hashtag == t.hashtags.ofIdx[b];
    assert Writes(e, t.users.ofIdx[i], t.hashtags.ofIdx[j]) <==> a == i && b == j;
  }

  /** Cell `(i, j)` holds what the last entry for user `ofIdx[i]` and
      hashtag `ofIdx[j]` wrote. */
  lemma {:induction false} FillCellLast(entries: seq<Entry>, t: Tables, presence: bool, i: nat, j: nat, p: int)
    requires Indexes(t, entries)
    requires i < |t.users.ofIdx| && j < |t.hashtags.ofIdx|
    requires IsLastWrite(entries, p, t.users.ofIdx[i], t.hashtags.ofIdx[j])
    ensures Fill(entries, t, presence).cells[i][j] == Written(entries[p], presence)
    decreases |entries|
  {
    var n := |entries| - 1;
    FillStep(entries, t, presence, i, j);
    if p < n {
      var prefix := entries[..n];
      assert prefix[p] == entries[p];
      assert IsLastWrite(prefix, p, t.users.ofIdx[i], t.hashtags.ofIdx[j]);
      FillCellLast(prefix, t, presence, i, j, p);
    }
  }

  /** Cell `(i, j)` stays zero when no entry pairs user `ofIdx[i]` with
      hashtag `ofIdx[j]`. */
  lemma {:induction false} FillCellEmpty(entries: seq<Entry>, t: Tables, presence: bool, i: nat, j: nat)
    requires Indexes(t, entries)
    requires i < |t.users.ofIdx| && j < |t.hashtags.ofIdx|
    requires !HasEntry(entries, t.users.ofIdx[i], t.hashtags.ofIdx[j])
    ensures Fill(entries, t, presence).cells[i][j] == 0
    decreases |entries|
  {
    if |entries| > 0 {
      var n := |entries| - 1;
      var prefix := entries[..n];
      FillStep(entries, t, presence, i, j);
      assert !Writes(entries[n], t.users.ofIdx[i], t.hashtags.ofIdx[j]);
      assert !HasEntry(prefix, t.users.ofIdx[i], t.hashtags.ofIdx[j]) by {
        assert forall q :: 0 <= q < n ==> prefix[q] == entries[q];
      }
      FillCellEmpty(prefix, t, presence, i, j);
    }
  }

  /** The weighted matrix `A`: every entry writes its weight. */
  function WeightMatrix(entries: seq<Entry>, t: Tables): (a: Matrix)
    requires Indexes(t, entries)
    ensures Valid(a) && a.rows == |t.users.ofIdx| && a.cols == |t.hashtags.ofIdx|
  {
    Fill(entries, t, false)
  }

  /** The presence matrix `S`: every entry writes 1. */
  function PresenceMatrix(entries: seq<Entry>, t: Tables): (s: Matrix)
    requires Indexes(t, entries)
    ensures Valid(s) && s.rows == |t.users.ofIdx| && s.cols == |t.hashtags.ofIdx|
  {
    Fill(entries, t, true)
  }

  /** Last write wins: `A[u, h]` is the weight of the last entry for user `u`
      and hashtag `h`, or 0 when there is none, and `S[u, h]` is 1 exactly
      when such an entry exists. */
  lemma CellsAreLastWrites(entries: seq<Entry>, t: Tables, i: nat, j: nat)
    requires Indexes(t, entries)
    requires i < |t.users.ofIdx| && j < |t.hashtags.ofIdx|
    ensures forall p :: IsLastWrite(entries, p, t.users.ofIdx[i], t.hashtags.ofIdx[j]) ==>
              WeightMatrix(entries, t).cells[i][j] == entries[p].weight
    ensures !HasEntry(entries, t.users.ofIdx[i], t.hashtags.ofIdx[j]) ==> WeightMatrix(entries, t).cells[i][j] == 0
    ensures PresenceMatrix(entries, t).cells[i][j] == if HasEntry(entries, t.users.ofIdx[i], t.hashtags.ofIdx[j]) then 1 else 0
  {
    if HasEntry(entries, t.users.ofIdx[i], t.hashtags.ofIdx[j]) {
      LastWriteExists(entries, t.users.ofIdx[i], t.hashtags.ofIdx[j]);
    }
    forall p | IsLastWrite(entries, p, t.users.ofIdx[i], t.hashtags.ofIdx[j])
      ensures WeightMatrix(entries, t).cells[i][j] == entries[p].weight
    {
      FillCellLast(entries, t, false, i, j, p);
    }
    if HasEntry(entries, t.users.ofIdx[i], t.hashtags.ofIdx[j]) {
      var p :| IsLastWrite(entries, p, t.users.ofIdx[i], t.hashtags.ofIdx[j]);
      FillCellLast(entries, t, true, i, j, p);
    } else {
      FillCellEmpty(entries, t, false, i, j);
      FillCellEmpty(entries, t, true, i, j);
    }
  }

  /** Keep-vector over user rows: which indexed users have an entry with hashtag `h`. */
  function UsersWith(entries: seq<Entry>, t: Tables, h: Hashtag): (c: seq<bool>)
    ensures |c| == |t.users.ofIdx|
  {
    seq(|t.users.ofIdx|, i requires 0 <= i < |t.users.ofIdx| => HasEntry(entries, t.users.ofIdx[i], h))
  }

  /** The number of distinct indexed users that have an entry with hashtag `h`. */
  function DistinctUsers(entries: seq<Entry>, t: Tables, h: Hashtag): nat
  {
    CountTrue(UsersWith(entries, t, h))
  }

  /** Column `j` of `S` sums to the number of distinct users (rows) that have
      an entry with hashtag `j`. */
  lemma HashtagDegree(entries: seq<Entry>, t: Tables, j: nat)
    requires Indexes(t, entries) && j < |t.hashtags.ofIdx|
    ensures ColSum(PresenceMatrix(entries, t), j) == DistinctUsers(entries, t, t.hashtags.ofIdx[j])
  {
    var col := Column(PresenceMatrix(entries, t), j);
    var want := UsersWith(entries, t, t.hashtags.ofIdx[j]);
    forall i | 0 <= i < |col|
      ensures col[i] == if want[i] then 1 else 0
    {
      CellsAreLastWrites(entries, t, i, j);
    }
    SumZeroOne(col);
    assert seq(|col|, i requires 0 <= i < |col| => col[i] == 1) == want;
  }
}
