/** `run_bispectral` as a whole: build the tables and matrices, filter
    hashtags by distinct-user degree and then users by remaining weight,
    co-cluster, extract named and weighted clusters, restrict the active
    matrix to one first-pass label and repeat the clustering and extraction.

    The co-clustering algorithm itself is not modelled: it is a parameter
    (the oracle) that either fails or returns one label per row and per
    column of the matrix it is given, each below `k`.
 */
module Pipeline {
  import opened IndexMapping
  import opened IdentityIndex
  import opened Matrices
  import opened MatrixBuilder
  import opened Extraction

  /** The outcome of one `SpectralCoclustering(n_clusters=k).fit(A)` call:
      either it raises, or it yields `row_labels_` and `column_labels_`. */
  datatype Answer = Failed | Labelled(rowLabels: seq<nat>, colLabels: seq<nat>)

  type Oracle = (Matrix, nat) -> Answer

  /** A successful answer labels every row and every column of `a` with a
      label in `[0, k)`. */
  predicate Fits(ans: Answer, a: Matrix, k: nat)
  {
    ans.Labelled? ==>
      && |ans.rowLabels| == a.rows && |ans.colLabels| == a.cols
      && InRange(ans.rowLabels, k) && InRange(ans.colLabels, k)
  }

  /** What the pipeline relies on from the co-clustering algorithm. */
  ghost predicate OracleContract(oracle: Oracle)
  {
    forall a: Matrix, k: nat :: Valid(a) ==> Fits(oracle(a, k), a, k)
  }

  /** Every indexed user id has a username, so `userid_to_username` lookups
      of an indexed user succeed. */
  predicate UsernamesKnown(t: Tables)
  {
    forall u :: u in t.users.toIdx ==> u in t.usernames
  }

  /** Everything the filtering stages produce, kept for the statements about it. */
  datatype Filtered = Filtered(
    tables: Tables,
    weights: Matrix,         // A as built
    presence: Matrix,        // S
    hashtagCond: seq<bool>,  // hashtag_cond
    hashtagMap: seq<nat>,    // hashtag_idx_mapping
    hashtagFiltered: Matrix, // A[:, hashtag_cond]
    userCond: seq<bool>,     // userid_cond
    userMap: seq<nat>,       // userid_idx_mapping
    active: Matrix)          // the matrix handed to the first clustering

  /** `S.sum(axis=0) >= min_user` */
  function HashtagCond(s: Matrix, minUser: int): (c: seq<bool>)
    requires Valid(s)
    ensures |c| == s.cols
  {
    seq(s.cols, j requires 0 <= j < s.cols => ColSum(s, j) >= minUser)
  }

  /** `A.sum(axis=1) > 0` */
  function UserCond(a: Matrix): (c: seq<bool>)
    requires Valid(a)
    ensures |c| == a.rows
  {
    seq(a.rows, i requires 0 <= i < a.rows => RowSum(a, i) > 0)
  }

  /** The invariants of the filtering stages that later stages depend on. */
  predicate FilteredOk(f: Filtered)
  {
    && Bijective(f.tables.users) && Bijective(f.tables.hashtags)
    && UsernamesKnown(f.tables)
    && Valid(f.weights)
    && f.weights.rows == |f.tables.users.ofIdx| && f.weights.cols == |f.tables.hashtags.ofIdx|
    && Valid(f.presence)
    && f.presence.rows == f.weights.rows && f.presence.cols == f.weights.cols
    && Valid(f.hashtagFiltered)
    && f.hashtagFiltered.rows == f.weights.rows
    && Valid(f.active)
    && f.active.rows == |f.userMap| && f.active.cols == |f.hashtagMap|
    && (forall i :: 0 <= i < |f.userMap| ==> f.userMap[i] < f.weights.rows)
    && (forall j :: 0 <= j < |f.hashtagMap| ==> f.hashtagMap[j] < f.weights.cols)
    && (forall i, j :: 0 <= i < f.active.rows && 0 <= j < f.active.cols ==>
          f.active.cells[i][j] == f.weights.cells[f.userMap[i]][f.hashtagMap[j]])
  }

  /** Matrix build, the hashtag filter and then the user filter, for tables
      `t` that index every entry. The active matrix is the weight matrix
      restricted to kept users and kept hashtags: its cell `(i, j)` is the
      built cell reached through the user map and the hashtag map. */
  function FilterWith(entries: seq<Entry>, t: Tables, minUser: int): (f: Filtered)
    requires Indexes(t, entries) && UsernamesKnown(t)
    ensures FilteredOk(f) && f.tables == t
  {
    var a := WeightMatrix(entries, t);
    var s := PresenceMatrix(entries, t);
    var hashtagCond := HashtagCond(s, minUser);
    var hashtagFiltered := SelectCols(a, hashtagCond);
    var userCond := UserCond(hashtagFiltered);
    Filtered(t, a, s, hashtagCond, IdxMapping(hashtagCond), hashtagFiltered,
             userCond, IdxMapping(userCond), SelectRows(hashtagFiltered, userCond))
  }

  /** Index construction followed by the filtering stages. */
  function Filter(entries: seq<Entry>, minUser: int): (f: Filtered)
    ensures FilteredOk(f)
    ensures Indexes(f.tables, entries)
    ensures forall u :: u in f.tables.users.toIdx <==> u in UserIds(entries)
    ensures forall h :: h in f.tables.hashtags.toIdx <==> h in HashtagsOf(entries)
  {
    TablesIndexEntries(entries);
    FilterWith(entries, BuildTables(entries), minUser)
  }

  /** `username` for every index of a user chain: `userid_to_username[idx_to_userid[chain[idx]]]`. */
  function UserNames(t: Tables, chain: seq<nat>): (names: seq<string>)
    requires Bijective(t.users) && UsernamesKnown(t)
    requires forall i :: 0 <= i < |chain| ==> chain[i] < |t.users.ofIdx|
    ensures |names| == |chain|
  {
    seq(|chain|, i requires 0 <= i < |chain| => t.usernames[t.users.ofIdx[chain[i]]])
  }

  /** `idx_to_hashtag[chain[idx]]` for every index of a hashtag chain. */
  function HashtagNames(t: Tables, chain: seq<nat>): (names: seq<string>)
    requires forall j :: 0 <= j < |chain| ==> chain[j] < |t.hashtags.ofIdx|
    ensures |names| == |chain|
  {
    seq(|chain|, j requires 0 <= j < |chain| => t.hashtags.ofIdx[chain[j]])
  }

  /** First pass: names resolve through one filter map per axis. */
  function FirstPass(f: Filtered, k: nat, ans: Answer): (clusters: seq<Cluster>)
    requires FilteredOk(f) && ans.Labelled? && Fits(ans, f.active, k)
    ensures |clusters| == k
  {
    Extract(k, ans.rowLabels, ans.colLabels, f.active,
            UserNames(f.tables, f.userMap), HashtagNames(f.tables, f.hashtagMap))
  }

  /** The second-pass restriction: the rows and the columns labelled
      `selected` in the first pass, with their maps into the first-pass matrix. */
  datatype Restriction = Restriction(rowMap: seq<nat>, colMap: seq<nat>, active: Matrix)

  function Restrict(a: Matrix, ans: Answer, selected: nat): (r: Restriction)
    requires Valid(a) && ans.Labelled?
    requires |ans.rowLabels| == a.rows && |ans.colLabels| == a.cols
    ensures Valid(r.active) && r.active.rows == |r.rowMap| && r.active.cols == |r.colMap|
    ensures forall i :: 0 <= i < |r.rowMap| ==> r.rowMap[i] < a.rows && ans.rowLabels[r.rowMap[i]] == selected
    ensures forall j :: 0 <= j < |r.colMap| ==> r.colMap[j] < a.cols && ans.colLabels[r.colMap[j]] == selected
    ensures forall i, j :: 0 <= i < r.active.rows && 0 <= j < r.active.cols ==>
              r.active.cells[i][j] == a.cells[r.rowMap[i]][r.colMap[j]]
  {
    var rowCond := LabelIs(ans.rowLabels, selected);
    var colCond := LabelIs(ans.colLabels, selected);
    Restriction(IdxMapping(rowCond), IdxMapping(colCond), SelectCols(SelectRows(a, rowCond), colCond))
  }

  /** What the second pass needs of the restriction it runs on: a matrix with
      one row and one column per map entry, and maps into the first-pass
      matrix. */
  predicate RestrictionOk(f: Filtered, rs: Restriction)
  {
    && Valid(rs.active)
    && rs.active.rows == |rs.rowMap| && rs.active.cols == |rs.colMap|
    && (forall i :: 0 <= i < |rs.rowMap| ==> rs.rowMap[i] < |f.userMap|)
    && (forall j :: 0 <= j < |rs.colMap| ==> rs.colMap[j] < |f.hashtagMap|)
  }

  /** Second pass: names resolve through the two-link chains. */
  function SecondPass(f: Filtered, rs: Restriction, k: nat, ans: Answer): (clusters: seq<Cluster>)
    requires FilteredOk(f) && RestrictionOk(f, rs)
    requires ans.Labelled? && Fits(ans, rs.active, k)
    ensures |clusters| == k
  {
    Extract(k, ans.rowLabels, ans.colLabels, rs.active,
            UserNames(f.tables, Compose(f.userMap, rs.rowMap)),
            HashtagNames(f.tables, Compose(f.hashtagMap, rs.colMap)))
  }

  /** Result of a run. The first result set is written out before the second
      clustering starts, so it survives a failure of that clustering. */
  datatype Run =
    | FirstPassFailed
    | SecondPassFailed(first: seq<Cluster>)
    | Completed(first: seq<Cluster>, second: seq<Cluster>)

  /** The run after the filtering stages: first clustering and extraction,
      restriction to label `selected`, second clustering and extraction. */
  function RunFiltered(f: Filtered, k: nat, selected: nat, oracle: Oracle): (r: Run)
    requires FilteredOk(f) && OracleContract(oracle)
    ensures r.FirstPassFailed? <==> oracle(f.active, k).Failed?
    ensures !r.FirstPassFailed? ==> |r.first| == k
    ensures var first := oracle(f.active, k);
            first.Labelled? ==>
              (r.SecondPassFailed? <==> oracle(Restrict(f.active, first, selected).active, k).Failed?)
    ensures r.Completed? ==> |r.second| == k
  {
    var first := oracle(f.active, k);
    if first.Failed? then FirstPassFailed
    else
      var clusters := FirstPass(f, k, first);
      var rs := Restrict(f.active, first, selected);
      var second := oracle(rs.active, k);
      if second.Failed? then SecondPassFailed(clusters)
      else Completed(clusters, SecondPass(f, rs, k, second))
  }

  /** `run_bispectral(input_data, min_user, k)` with the second-pass label
      `selected`. */
  function RunBispectral(entries: seq<Entry>, minUser: int, k: nat, selected: nat, oracle: Oracle): (r: Run)
    requires OracleContract(oracle)
    ensures r.FirstPassFailed? <==> oracle(Filter(entries, minUser).active, k).Failed?
    ensures !r.FirstPassFailed? ==> |r.first| == k
    ensures var f := Filter(entries, minUser);
            var first := oracle(f.active, k);
            first.Labelled? ==>
              (r.SecondPassFailed? <==> oracle(Restrict(f.active, first, selected).active, k).Failed?)
    ensures r.Completed? ==> |r.second| == k
  {
    RunFiltered(Filter(entries, minUser), k, selected, oracle)
  }

  /** The defaults of `run_bispectral` (`min_user = 10`, `k = 100`) and the
      label its second pass restricts to. */
  const DefaultMinUser: int := 10
  const DefaultK: nat := 100
  const SecondPassLabel: nat := 96

  /** `main`'s call `run_bispectral(input_data)`: the defaults, with the
      second pass on label 96. */
  function RunWithDefaults(entries: seq<Entry>, oracle: Oracle): (r: Run)
    requires OracleContract(oracle)
    ensures r.FirstPassFailed? <==> oracle(Filter(entries, 10).active, 100).Failed?
    ensures !r.FirstPassFailed? ==> |r.first| == 100
    ensures var f := Filter(entries, 10);
            var first := oracle(f.active, 100);
            first.Labelled? ==>
              (r.SecondPassFailed? <==> oracle(Restrict(f.active, first, 96).active, 100).Failed?)
    ensures r.Completed? ==> |r.second| == 100
  {
    RunBispectral(entries, DefaultMinUser, DefaultK, SecondPassLabel, oracle)
  }
}
