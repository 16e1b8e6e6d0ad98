/** The result extractor of `run_bispectral`: given one cluster label per row
    and per column of the active matrix, build for every label in `[0, k)` the
    list of its users and the list of its hashtags, each member carrying its
    resolved name and the sum of its row (or column) of the active matrix.
 */
module Extraction {
  import opened IndexMapping
  import opened Matrices

  /** `{"username": name, "weight": w}` or `{"hashtag": name, "weight": w}`. */
  datatype Member = Member(name: string, weight: nat)

  /** `{"users": [...], "hashtags": [...]}` for one label. */
  datatype Cluster = Cluster(users: seq<Member>, hashtags: seq<Member>)

  /** Every label lies in `[0, k)`. */
  predicate InRange(labels: seq<nat>, k: nat)
  {
    forall i :: 0 <= i < |labels| ==> labels[i] < k
  }

  /** The keep-vector `labels == l`. */
  function LabelIs(labels: seq<nat>, l: nat): (c: seq<bool>)
    ensures |c| == |labels|
  {
    seq(|labels|, i requires 0 <= i < |labels| => labels[i] == l)
  }

  /** A label outside `[0, k)` selects nothing. */
  lemma {:induction false} AbsentLabelSelectsNothing(labels: seq<nat>, k: nat, l: nat)
    requires InRange(labels, k) && l >= k
    ensures IdxMapping(LabelIs(labels, l)) == []
    decreases |labels|
  {
    if |labels| > 0 {
      var n := |labels| - 1;
      assert LabelIs(labels, l)[..n] == LabelIs(labels[..n], l);
      AbsentLabelSelectsNothing(labels[..n], k, l);
    }
  }

  /** The extraction loop: start with `k` empty buckets, then append item
      `idx` to the bucket of its label, for `idx` in ascending order. */
  function Distribute<T>(labels: seq<nat>, items: seq<T>, k: nat): (buckets: seq<seq<T>>)
    requires |labels| == |items| && InRange(labels, k)
    ensures |buckets| == k
  {
    if |items| == 0 then EmptyBuckets(k)
    else
      var n := |items| - 1;
      var b := Distribute(labels[..n], items[..n], k);
      b[labels[n] := b[labels[n]] + [items[n]]]
  }

  /** Bucket `l` holds exactly the items labelled `l`, in ascending index order. */
  lemma {:induction false} DistributeSelects<T>(labels: seq<nat>, items: seq<T>, k: nat, l: nat)
    requires |labels| == |items| && InRange(labels, k) && l < k
    ensures Distribute(labels, items, k)[l] == Mask(items, LabelIs(labels, l))
    decreases |items|
  {
    if |items| > 0 {
      var n := |items| - 1;
      assert LabelIs(labels, l)[..n] == LabelIs(labels[..n], l);
      DistributeSelects(labels[..n], items[..n], k, l);
    }
  }

  /** Total number of entries over all buckets. */
  function TotalSize<T>(buckets: seq<seq<T>>): nat
  {
    if |buckets| == 0 then 0
    else TotalSize(buckets[..|buckets| - 1]) + |buckets[|buckets| - 1]|
  }

  lemma {:induction false} TotalSizeAppend<T>(buckets: seq<seq<T>>, l: nat, x: T)
    requires l < |buckets|
    ensures TotalSize(buckets[l := buckets[l] + [x]]) == TotalSize(buckets) + 1
    decreases |buckets|
  {
    var n := |buckets| - 1;
    var updated := buckets[l := buckets[l] + [x]];
    if l < n {
      assert updated[..n] == buckets[..n][l := buckets[l] + [x]];
      TotalSizeAppend(buckets[..n], l, x);
    } else {
      assert updated[..n] == buckets[..n];
    }
  }

  /** No item is lost or duplicated: the buckets hold as many entries as there
      are items. */
  lemma {:induction false} DistributeTotal<T>(labels: seq<nat>, items: seq<T>, k: nat)
    requires |labels| == |items| && InRange(labels, k)
    ensures TotalSize(Distribute(labels, items, k)) == |items|
    decreases |items|
  {
    if |items| == 0 {
      EmptyBucketsSize<T>(k);
    } else {
      var n := |items| - 1;
      DistributeTotal(labels[..n], items[..n], k);
      TotalSizeAppend(Distribute(labels[..n], items[..n], k), labels[n], items[n]);
    }
  }

  function EmptyBuckets<T>(k: nat): (buckets: seq<seq<T>>)
    ensures |buckets| == k
  {
    seq(k, _ => [])
  }

  lemma {:induction false} EmptyBucketsSize<T>(k: nat)
    ensures TotalSize(EmptyBuckets<T>(k)) == 0
  {
    if k > 0 {
      assert EmptyBuckets<T>(k)[..k - 1] == EmptyBuckets<T>(k - 1);
      EmptyBucketsSize<T>(k - 1);
    }
  }

  /** The user entries of the active matrix: resolved name and row sum. */
  function UserMembers(a: Matrix, names: seq<string>): (ms: seq<Member>)
    requires Valid(a) && |names| == a.rows
    ensures |ms| == a.rows
  {
    seq(a.rows, i requires 0 <= i < a.rows => Member(names[i], RowSum(a, i)))
  }

  /** The hashtag entries of the active matrix: resolved name and column sum. */
  function HashtagMembers(a: Matrix, names: seq<string>): (ms: seq<Member>)
    requires Valid(a) && |names| == a.cols
    ensures |ms| == a.cols
  {
    seq(a.cols, j requires 0 <= j < a.cols => Member(names[j], ColSum(a, j)))
  }

  /** What the extractor needs: labels and names for every row and column of
      the active matrix, each label below `k`. */
  predicate Extractable(k: nat, rowLabels: seq<nat>, colLabels: seq<nat>, a: Matrix,
                        userNames: seq<string>, tagNames: seq<string>)
  {
    && Valid(a)
    && |rowLabels| == a.rows && |userNames| == a.rows
    && |colLabels| == a.cols && |tagNames| == a.cols
    && InRange(rowLabels, k) && InRange(colLabels, k)
  }

  /** `clustering_results`: one cluster per label in `[0, k)`. */
  function Extract(k: nat, rowLabels: seq<nat>, colLabels: seq<nat>, a: Matrix,
                   userNames: seq<string>, tagNames: seq<string>): (clusters: seq<Cluster>)
    requires Extractable(k, rowLabels, colLabels, a, userNames, tagNames)
    ensures |clusters| == k
  {
    var users := Distribute(rowLabels, UserMembers(a, userNames), k);
    var tags := Distribute(colLabels, HashtagMembers(a, tagNames), k);
    seq(k, l requires 0 <= l < k => Cluster(users[l], tags[l]))
  }

  /** Cluster `c` is the report of label `l`: its users are the rows labelled
      `l`, in ascending order, each with its name and row sum, and its
      hashtags are the columns labelled `l`, each with its name and column sum. */
  predicate Reports(c: Cluster, l: nat, rowLabels: seq<nat>, colLabels: seq<nat>, a: Matrix,
                    userNames: seq<string>, tagNames: seq<string>)
    requires Valid(a) && |rowLabels| == a.rows && |userNames| == a.rows
    requires |colLabels| == a.cols && |tagNames| == a.cols
  {
    var rows := IdxMapping(LabelIs(rowLabels, l));
    var cols := IdxMapping(LabelIs(colLabels, l));
    && |c.users| == |rows|
    && (forall j :: 0 <= j < |rows| ==> c.users[j] == Member(userNames[rows[j]], RowSum(a, rows[j])))
    && |c.hashtags| == |cols|
    && (forall j :: 0 <= j < |cols| ==> c.hashtags[j] == Member(tagNames[cols[j]], ColSum(a, cols[j])))
  }

  /** Cluster `l` reports label `l` (`Reports`), and the rows and columns it
      lists are, in strictly increasing order, exactly those labelled `l`. */
  lemma ExtractMembers(k: nat, rowLabels: seq<nat>, colLabels: seq<nat>, a: Matrix,
                       userNames: seq<string>, tagNames: seq<string>, l: nat)
    requires Extractable(k, rowLabels, colLabels, a, userNames, tagNames)
    requires l < k
    ensures Reports(Extract(k, rowLabels, colLabels, a, userNames, tagNames)[l], l,
                    rowLabels, colLabels, a, userNames, tagNames)
    ensures var rows := IdxMapping(LabelIs(rowLabels, l));
            && StrictlyIncreasing(rows)
            && (forall r :: 0 <= r < a.rows ==> (r in rows <==> rowLabels[r] == l))
    ensures var cols := IdxMapping(LabelIs(colLabels, l));
            && StrictlyIncreasing(cols)
            && (forall h :: 0 <= h < a.cols ==> (h in cols <==> colLabels[h] == l))
  {
    DistributeSelects(rowLabels, UserMembers(a, userNames), k, l);
    MaskSelects(UserMembers(a, userNames), LabelIs(rowLabels, l));
    DistributeSelects(colLabels, HashtagMembers(a, tagNames), k, l);
    MaskSelects(HashtagMembers(a, tagNames), LabelIs(colLabels, l));
  }

  function UsersPerCluster(clusters: seq<Cluster>): seq<seq<Member>>
  {
    seq(|clusters|, l requires 0 <= l < |clusters| => clusters[l].users)
  }

  function HashtagsPerCluster(clusters: seq<Cluster>): seq<seq<Member>>
  {
    seq(|clusters|, l requires 0 <= l < |clusters| => clusters[l].hashtags)
  }

  /** The clusters partition the rows and the columns: over all clusters there
      are as many user entries as rows and as many hashtag entries as columns. */
  lemma ExtractPartition(k: nat, rowLabels: seq<nat>, colLabels: seq<nat>, a: Matrix,
                         userNames: seq<string>, tagNames: seq<string>)
    requires Extractable(k, rowLabels, colLabels, a, userNames, tagNames)
    ensures TotalSize(UsersPerCluster(Extract(k, rowLabels, colLabels, a, userNames, tagNames))) == a.rows
    ensures TotalSize(HashtagsPerCluster(Extract(k, rowLabels, colLabels, a, userNames, tagNames))) == a.cols
  {
    var clusters := Extract(k, rowLabels, colLabels, a, userNames, tagNames);
    assert UsersPerCluster(clusters) == Distribute(rowLabels, UserMembers(a, userNames), k);
    assert HashtagsPerCluster(clusters) == Distribute(colLabels, HashtagMembers(a, tagNames), k);
    DistributeTotal(rowLabels, UserMembers(a, userNames), k);
    DistributeTotal(colLabels, HashtagMembers(a, tagNames), k);
  }
}
