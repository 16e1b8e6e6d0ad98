/** End-to-end properties of `run_bispectral`: what the filters keep, how
    every cell of the active matrices traces back to the input, and what the
    two reported result sets contain.
 */
module Properties {
  import opened IndexMapping
  import opened IdentityIndex
  import opened Matrices
  import opened MatrixBuilder
  import opened Extraction
  import opened Pipeline

  /** The hashtag filter keeps a hashtag exactly when at least `minUser`
      distinct users have an entry with it. */
  lemma HashtagFilterKeeps(entries: seq<Entry>, t: Tables, minUser: int)
    requires Indexes(t, entries) && UsernamesKnown(t)
    ensures var f := FilterWith(entries, t, minUser);
            forall h :: 0 <= h < |t.hashtags.ofIdx| ==>
              (h in f.hashtagMap <==> DistinctUsers(entries, t, t.hashtags.ofIdx[h]) >= minUser)
  {
    var f := FilterWith(entries, t, minUser);
    assert f.presence == PresenceMatrix(entries, t);
    assert f.hashtagMap == IdxMapping(f.hashtagCond);
    forall h | 0 <= h < |t.hashtags.ofIdx|
      ensures h in f.hashtagMap <==> DistinctUsers(entries, t, t.hashtags.ofIdx[h]) >= minUser
    {
      HashtagDegree(entries, t, h);
      assert f.hashtagCond[h] == (ColSum(f.presence, h) >= minUser);
    }
  }

  /** Filter ordering: the user filter runs on the hashtag-filtered matrix, so
      a user is kept exactly when it has a positive weight towards some KEPT
      hashtag; a user whose only edges go to dropped hashtags is dropped. */
  lemma UserFilterKeeps(entries: seq<Entry>, t: Tables, minUser: int)
    requires Indexes(t, entries) && UsernamesKnown(t)
    ensures var f := FilterWith(entries, t, minUser);
            forall u :: 0 <= u < |t.users.ofIdx| ==>
              (u in f.userMap <==>
                 exists j :: 0 <= j < |f.hashtagMap| && f.weights.cells[u][f.hashtagMap[j]] > 0)
  {
    var f := FilterWith(entries, t, minUser);
    assert f.hashtagFiltered == SelectCols(f.weights, f.hashtagCond);
    assert f.hashtagMap == IdxMapping(f.hashtagCond);
    assert f.userMap == IdxMapping(f.userCond);
    assert f.userCond == UserCond(f.hashtagFiltered);
    forall u | 0 <= u < |t.users.ofIdx|
      ensures u in f.userMap <==>
                exists j :: 0 <= j < |f.hashtagMap| && f.weights.cells[u][f.hashtagMap[j]] > 0
    {
      SelectedRowPositive(f.weights, f.hashtagCond, u);
      assert f.userCond[u] == (RowSum(f.hashtagFiltered, u) > 0);
    }
  }

  /** Every cell of the first-pass active matrix is the input weight of the
      user and hashtag its indices resolve to: the last entry for the pair,
      or zero when there is none. */
  lemma ActiveCellsAreInputWeights(entries: seq<Entry>, t: Tables, minUser: int)
    requires Indexes(t, entries) && UsernamesKnown(t)
    ensures var f := FilterWith(entries, t, minUser);
            forall i, j :: 0 <= i < f.active.rows && 0 <= j < f.active.cols ==>
              var u := t.users.ofIdx[f.userMap[i]];
              var h := t.hashtags.ofIdx[f.hashtagMap[j]];
              && (forall p :: IsLastWrite(entries, p, u, h) ==> f.active.cells[i][j] == entries[p].weight)
              && (!HasEntry(entries, u, h) ==> f.active.cells[i][j] == 0)
  {
    var f := FilterWith(entries, t, minUser);
    forall i, j | 0 <= i < f.active.rows && 0 <= j < f.active.cols
      ensures var u := t.users.ofIdx[f.userMap[i]];
              var h := t.hashtags.ofIdx[f.hashtagMap[j]];
              && (forall p :: IsLastWrite(entries, p, u, h) ==> f.active.cells[i][j] == entries[p].weight)
              && (!HasEntry(entries, u, h) ==> f.active.cells[i][j] == 0)
    {
      CellsAreLastWrites(entries, t, f.userMap[i], f.hashtagMap[j]);
    }
  }

  /** The last input entry pairing user `u` with hashtag `h` has a positive
      weight. */
  predicate PositiveEntry(entries: seq<Entry>, u: UserId, h: Hashtag)
  {
    exists p :: 0 <= p < |entries| && IsLastWrite(entries, p, u, h) && entries[p].weight > 0
  }

  /** A positive cell of `A` was written by a last entry of positive weight. */
  lemma PositiveCellHasEntry(entries: seq<Entry>, t: Tables, i: nat, j: nat)
    requires Indexes(t, entries)
    requires i < |t.users.ofIdx| && j < |t.hashtags.ofIdx|
    requires WeightMatrix(entries, t).cells[i][j] > 0
    ensures PositiveEntry(entries, t.users.ofIdx[i], t.hashtags.ofIdx[j])
  {
    CellsAreLastWrites(entries, t, i, j);
    LastWriteExists(entries, t.users.ofIdx[i], t.hashtags.ofIdx[j]);
  }

  /** Kept users come from the input: every user the filters keep has an
      input entry of positive weight with some kept hashtag (the last entry
      for that pair). Second-pass chains end in kept rows, so this holds for
      the users of both result sets. */
  lemma KeptUsersFromInput(entries: seq<Entry>, t: Tables, minUser: int)
    requires Indexes(t, entries) && UsernamesKnown(t)
    ensures var f := FilterWith(entries, t, minUser);
            forall i :: 0 <= i < |f.userMap| ==>
              exists j :: 0 <= j < |f.hashtagMap| &&
                PositiveEntry(entries, t.users.ofIdx[f.userMap[i]], t.hashtags.ofIdx[f.hashtagMap[j]])
  {
    var f := FilterWith(entries, t, minUser);
    assert f.weights == WeightMatrix(entries, t);
    UserFilterKeeps(entries, t, minUser);
    forall i | 0 <= i < |f.userMap|
      ensures exists j :: 0 <= j < |f.hashtagMap| &&
                PositiveEntry(entries, t.users.ofIdx[f.userMap[i]], t.hashtags.ofIdx[f.hashtagMap[j]])
    {
      var u := f.userMap[i];
      assert u in f.userMap;
      var j :| 0 <= j < |f.hashtagMap| && f.weights.cells[u][f.hashtagMap[j]] > 0;
      PositiveCellHasEntry(entries, t, u, f.hashtagMap[j]);
    }
  }

  /** Kept hashtags come from the input: with `minUser >= 1`, every hashtag
      the filter keeps occurs in some input entry. */
  lemma KeptHashtagsFromInput(entries: seq<Entry>, t: Tables, minUser: int)
    requires Indexes(t, entries) && UsernamesKnown(t) && minUser >= 1
    ensures var f := FilterWith(entries, t, minUser);
            forall j :: 0 <= j < |f.hashtagMap| ==> t.hashtags.ofIdx[f.hashtagMap[j]] in HashtagsOf(entries)
  {
    var f := FilterWith(entries, t, minUser);
    HashtagFilterKeeps(entries, t, minUser);
    forall j | 0 <= j < |f.hashtagMap|
      ensures t.hashtags.ofIdx[f.hashtagMap[j]] in HashtagsOf(entries)
    {
      assert f.hashtagMap[j] in f.hashtagMap;
      UsedHashtagHasEntry(entries, t, t.hashtags.ofIdx[f.hashtagMap[j]]);
    }
  }

  /** A hashtag with at least one distinct user occurs in some entry. */
  lemma UsedHashtagHasEntry(entries: seq<Entry>, t: Tables, h: Hashtag)
    requires DistinctUsers(entries, t, h) >= 1
    ensures h in HashtagsOf(entries)
  {
    var users := UsersWith(entries, t, h);
    assert IsIndexMapOf(IdxMapping(users), users);
    var i := IdxMapping(users)[0];
    assert users[i];
    var p :| 0 <= p < |entries| && Writes(entries[p], t.users.ofIdx[i], h);
    assert HashtagsOf(entries)[p] == h;
  }

  /** First result set. Cluster `l` reports label `l` over the active matrix
      (`Reports`), listing in strictly increasing order exactly the active rows
      and columns the oracle labelled `l`; each user is named by resolving its
      row through the user filter map, `idx_to_userid` and
      `userid_to_username`, and each hashtag by resolving its column through
      the hashtag filter map and `idx_to_hashtag`. */
  lemma FirstPassReport(f: Filtered, k: nat, ans: Answer, l: nat)
    requires FilteredOk(f) && ans.Labelled? && Fits(ans, f.active, k)
    requires l < k
    ensures Reports(FirstPass(f, k, ans)[l], l, ans.rowLabels, ans.colLabels, f.active,
                    UserNames(f.tables, f.userMap), HashtagNames(f.tables, f.hashtagMap))
    ensures var rows := IdxMapping(LabelIs(ans.rowLabels, l));
            && StrictlyIncreasing(rows)
            && (forall r :: 0 <= r < f.active.rows ==> (r in rows <==> ans.rowLabels[r] == l))
            && forall j :: 0 <= j < |rows| ==>
                 FirstPass(f, k, ans)[l].users[j].name
                 == f.tables.usernames[f.tables.users.ofIdx[f.userMap[rows[j]]]]
    ensures var cols := IdxMapping(LabelIs(ans.colLabels, l));
            && StrictlyIncreasing(cols)
            && (forall h :: 0 <= h < f.active.cols ==> (h in cols <==> ans.colLabels[h] == l))
            && forall j :: 0 <= j < |cols| ==>
                 FirstPass(f, k, ans)[l].hashtags[j].name == f.tables.hashtags.ofIdx[f.hashtagMap[cols[j]]]
  {
    ExtractMembers(k, ans.rowLabels, ans.colLabels, f.active,
                   UserNames(f.tables, f.userMap), HashtagNames(f.tables, f.hashtagMap), l);
  }

  /** First result set: over all clusters there are as many user entries as
      kept users and as many hashtag entries as kept hashtags. With
      `FirstPassReport` (cluster `l` lists exactly the rows labelled `l`, in
      strictly increasing order) every kept user appears exactly once. */
  lemma FirstPassPartition(f: Filtered, k: nat, ans: Answer)
    requires FilteredOk(f) && ans.Labelled? && Fits(ans, f.active, k)
    ensures TotalSize(UsersPerCluster(FirstPass(f, k, ans))) == |f.userMap|
    ensures TotalSize(HashtagsPerCluster(FirstPass(f, k, ans))) == |f.hashtagMap|
  {
    ExtractPartition(k, ans.rowLabels, ans.colLabels, f.active,
                     UserNames(f.tables, f.userMap), HashtagNames(f.tables, f.hashtagMap));
  }

  /** The second-pass matrix holds exactly the first-pass rows and columns
      labelled `selected`, and each of its cells is the cell of the built
      matrix reached through the four maps (two per axis). When `selected` is
      not a label in `[0, k)` the restriction is empty. */
  lemma SecondPassRestriction(f: Filtered, k: nat, ans: Answer, selected: nat)
    requires FilteredOk(f) && ans.Labelled? && Fits(ans, f.active, k)
    ensures var rs := Restrict(f.active, ans, selected);
            && StrictlyIncreasing(rs.rowMap) && StrictlyIncreasing(rs.colMap)
            && (forall r :: 0 <= r < f.active.rows ==> (r in rs.rowMap <==> ans.rowLabels[r] == selected))
            && (forall h :: 0 <= h < f.active.cols ==> (h in rs.colMap <==> ans.colLabels[h] == selected))
            && (forall i, j :: 0 <= i < rs.active.rows && 0 <= j < rs.active.cols ==>
                  rs.active.cells[i][j] == f.weights.cells[f.userMap[rs.rowMap[i]]][f.hashtagMap[rs.colMap[j]]])
            && (selected >= k ==> rs.active.rows == 0 && rs.active.cols == 0)
  {
    if selected >= k {
      AbsentLabelSelectsNothing(ans.rowLabels, k, selected);
      AbsentLabelSelectsNothing(ans.colLabels, k, selected);
    }
  }

  /** Second result set. As for the first, over the second-pass matrix, with
      names resolved through the two-link chains (second-pass map, then
      filter map). */
  lemma SecondPassReport(f: Filtered, rs: Restriction, k: nat, ans: Answer, l: nat)
    requires FilteredOk(f) && RestrictionOk(f, rs)
    requires ans.Labelled? && Fits(ans, rs.active, k)
    requires l < k
    ensures Reports(SecondPass(f, rs, k, ans)[l], l, ans.rowLabels, ans.colLabels, rs.active,
                    UserNames(f.tables, Compose(f.userMap, rs.rowMap)),
                    HashtagNames(f.tables, Compose(f.hashtagMap, rs.colMap)))
    ensures var rows := IdxMapping(LabelIs(ans.rowLabels, l));
            && StrictlyIncreasing(rows)
            && (forall r :: 0 <= r < rs.active.rows ==> (r in rows <==> ans.rowLabels[r] == l))
            && forall j :: 0 <= j < |rows| ==>
                 SecondPass(f, rs, k, ans)[l].users[j].name
                 == f.tables.usernames[f.tables.users.ofIdx[f.userMap[rs.rowMap[rows[j]]]]]
    ensures var cols := IdxMapping(LabelIs(ans.colLabels, l));
            && StrictlyIncreasing(cols)
            && (forall h :: 0 <= h < rs.active.cols ==> (h in cols <==> ans.colLabels[h] == l))
            && forall j :: 0 <= j < |cols| ==>
                 SecondPass(f, rs, k, ans)[l].hashtags[j].name
                 == f.tables.hashtags.ofIdx[f.hashtagMap[rs.colMap[cols[j]]]]
  {
    ExtractMembers(k, ans.rowLabels, ans.colLabels, rs.active,
                   UserNames(f.tables, Compose(f.userMap, rs.rowMap)),
                   HashtagNames(f.tables, Compose(f.hashtagMap, rs.colMap)), l);
  }

  /** Second result set: over all clusters there are as many user entries as
      second-pass rows and as many hashtag entries as second-pass columns. */
  lemma SecondPassPartition(f: Filtered, rs: Restriction, k: nat, ans: Answer)
    requires FilteredOk(f) && RestrictionOk(f, rs)
    requires ans.Labelled? && Fits(ans, rs.active, k)
    ensures TotalSize(UsersPerCluster(SecondPass(f, rs, k, ans))) == |rs.rowMap|
    ensures TotalSize(HashtagsPerCluster(SecondPass(f, rs, k, ans))) == |rs.colMap|
  {
    ExtractPartition(k, ans.rowLabels, ans.colLabels, rs.active,
                     UserNames(f.tables, Compose(f.userMap, rs.rowMap)),
                     HashtagNames(f.tables, Compose(f.hashtagMap, rs.colMap)));
  }

  /** Every first-pass cluster reports its label over the active matrix. */
  lemma FirstPassReportsAll(f: Filtered, k: nat, ans: Answer)
    requires FilteredOk(f) && ans.Labelled? && Fits(ans, f.active, k)
    ensures forall l :: 0 <= l < k ==>
              Reports(FirstPass(f, k, ans)[l], l, ans.rowLabels, ans.colLabels, f.active,
                      UserNames(f.tables, f.userMap), HashtagNames(f.tables, f.hashtagMap))
  {
    forall l | 0 <= l < k
      ensures Reports(FirstPass(f, k, ans)[l], l, ans.rowLabels, ans.colLabels, f.active,
                      UserNames(f.tables, f.userMap), HashtagNames(f.tables, f.hashtagMap))
    {
      ExtractMembers(k, ans.rowLabels, ans.colLabels, f.active,
                     UserNames(f.tables, f.userMap), HashtagNames(f.tables, f.hashtagMap), l);
    }
  }

  /** Every second-pass cluster reports its label over the restricted matrix. */
  lemma SecondPassReportsAll(f: Filtered, rs: Restriction, k: nat, ans: Answer)
    requires FilteredOk(f) && RestrictionOk(f, rs)
    requires ans.Labelled? && Fits(ans, rs.active, k)
    ensures forall l :: 0 <= l < k ==>
              Reports(SecondPass(f, rs, k, ans)[l], l, ans.rowLabels, ans.colLabels, rs.active,
                      UserNames(f.tables, Compose(f.userMap, rs.rowMap)),
                      HashtagNames(f.tables, Compose(f.hashtagMap, rs.colMap)))
  {
    var userNames := UserNames(f.tables, Compose(f.userMap, rs.rowMap));
    var tagNames := HashtagNames(f.tables, Compose(f.hashtagMap, rs.colMap));
    forall l | 0 <= l < k
      ensures Reports(SecondPass(f, rs, k, ans)[l], l, ans.rowLabels, ans.colLabels, rs.active, userNames, tagNames)
    {
      ExtractMembers(k, ans.rowLabels, ans.colLabels, rs.active, userNames, tagNames, l);
    }
  }

  /** What the first result set holds: the first clustering labelled every
      active row and column, cluster `l` reports exactly the active rows and
      columns labelled `l`, named through the filter maps, and over all
      clusters there are as many user entries as users the filters kept and
      as many hashtag entries as hashtags they kept. */
  predicate FirstResultReports(f: Filtered, k: nat, oracle: Oracle, first: seq<Cluster>)
    requires FilteredOk(f)
  {
    var ans := oracle(f.active, k);
    && ans.Labelled? && Fits(ans, f.active, k) && |first| == k
    && (forall l :: 0 <= l < k ==>
          Reports(first[l], l, ans.rowLabels, ans.colLabels, f.active,
                  UserNames(f.tables, f.userMap), HashtagNames(f.tables, f.hashtagMap)))
    && TotalSize(UsersPerCluster(first)) == |f.userMap|
    && TotalSize(HashtagsPerCluster(first)) == |f.hashtagMap|
  }

  /** What the second result set holds: the second clustering labelled every
      row and column of the restriction to label `selected`, cluster `l`
      reports exactly those labelled `l`, named through the two-link chains,
      and over all clusters there are as many user entries as restricted rows
      and as many hashtag entries as restricted columns. */
  predicate SecondResultReports(f: Filtered, k: nat, selected: nat, oracle: Oracle, second: seq<Cluster>)
    requires FilteredOk(f)
  {
    var first := oracle(f.active, k);
    && first.Labelled? && Fits(first, f.active, k)
    && var rs := Restrict(f.active, first, selected);
       var ans := oracle(rs.active, k);
       && ans.Labelled? && Fits(ans, rs.active, k) && |second| == k
       && (forall l :: 0 <= l < k ==>
             Reports(second[l], l, ans.rowLabels, ans.colLabels, rs.active,
                     UserNames(f.tables, Compose(f.userMap, rs.rowMap)),
                     HashtagNames(f.tables, Compose(f.hashtagMap, rs.colMap))))
       && TotalSize(UsersPerCluster(second)) == |rs.rowMap|
       && TotalSize(HashtagsPerCluster(second)) == |rs.colMap|
  }

  /** The first result set a run writes, once it gets past the first
      clustering. */
  lemma RunFirstResult(f: Filtered, k: nat, selected: nat, oracle: Oracle)
    requires FilteredOk(f) && OracleContract(oracle)
    ensures var r := RunFiltered(f, k, selected, oracle);
            !r.FirstPassFailed? ==> FirstResultReports(f, k, oracle, r.first)
  {
    var ans := oracle(f.active, k);
    if ans.Labelled? {
      FirstPassReportsAll(f, k, ans);
      FirstPassPartition(f, k, ans);
    }
  }

  /** The second result set a run writes, once it completes. */
  lemma RunSecondResult(f: Filtered, k: nat, selected: nat, oracle: Oracle)
    requires FilteredOk(f) && OracleContract(oracle)
    ensures var r := RunFiltered(f, k, selected, oracle);
            r.Completed? ==> SecondResultReports(f, k, selected, oracle, r.second)
  {
    var first := oracle(f.active, k);
    if first.Labelled? {
      var rs := Restrict(f.active, first, selected);
      var ans := oracle(rs.active, k);
      if ans.Labelled? {
        assert RestrictionOk(f, rs);
        SecondPassReportsAll(f, rs, k, ans);
        SecondPassPartition(f, rs, k, ans);
      }
    }
  }

  /** Both result sets of `run_bispectral` itself: its run is the run after
      `Filter`, so the statements above hold with `f == Filter(entries, minUser)`. */
  lemma RunBispectralResults(entries: seq<Entry>, minUser: int, k: nat, selected: nat, oracle: Oracle)
    requires OracleContract(oracle)
    ensures var r := RunBispectral(entries, minUser, k, selected, oracle);
            !r.FirstPassFailed? ==> FirstResultReports(Filter(entries, minUser), k, oracle, r.first)
    ensures var r := RunBispectral(entries, minUser, k, selected, oracle);
            r.Completed? ==> SecondResultReports(Filter(entries, minUser), k, selected, oracle, r.second)
  {
    RunFirstResult(Filter(entries, minUser), k, selected, oracle);
    RunSecondResult(Filter(entries, minUser), k, selected, oracle);
  }
}
