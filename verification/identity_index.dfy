/** The identity index of `run_bispectral`: every user id and every hashtag of
    the input receives a dense integer index in order of first appearance,
    together with the inverse tables and the user id -> username table.
 */
module IdentityIndex {

  type UserId = string
  type Username = string
  type Hashtag = string

  /** One item of the input dictionary: the key `(userid, username, hashtag)`
      and its weight. The dictionary is modelled as the sequence of its items
      in iteration order. */
  datatype Entry = Entry(userId: UserId, username: Username, hashtag: Hashtag, weight: nat)

  /** The two tables of one axis: `toIdx` is `userid_to_idx` (or
      `hashtag_to_idx`), `ofIdx` lists `idx_to_userid` (or `idx_to_hashtag`)
      by index. */
  datatype Index = Index(toIdx: map<string, nat>, ofIdx: seq<string>)

  /** The two tables are mutually inverse over `[0, |ofIdx|)`. */
  predicate Bijective(ix: Index)
  {
    && |ix.toIdx| == |ix.ofIdx|
    && (forall i :: 0 <= i < |ix.ofIdx| ==> ix.ofIdx[i] in ix.toIdx && ix.toIdx[ix.ofIdx[i]] == i)
    && (forall x :: x in ix.toIdx ==> ix.toIdx[x] < |ix.ofIdx| && ix.ofIdx[ix.toIdx[x]] == x)
  }

  /** One step of the enumeration: a key not yet seen claims the index
      `len(to_idx)`; a key already seen leaves both tables unchanged. */
  function Insert(ix: Index, x: string): (r: Index)
    requires Bijective(ix)
    ensures Bijective(r)
    ensures forall y :: y in r.toIdx <==> y in ix.toIdx || y == x
    ensures forall y :: y in ix.toIdx ==> r.toIdx[y] == ix.toIdx[y]
    ensures x !in ix.toIdx ==> r.toIdx[x] == |ix.ofIdx|
  {
    if x in ix.toIdx then ix
    else Index(ix.toIdx[x := |ix.toIdx|], ix.ofIdx + [x])
  }

  /** Enumerates a sequence of keys in order. */
  function Enumerate(keys: seq<string>): (ix: Index)
    ensures Bijective(ix)
    ensures forall x :: x in ix.toIdx <==> x in keys
  {
    if |keys| == 0 then Index(map[], [])
    else Insert(Enumerate(keys[..|keys| - 1]), keys[|keys| - 1])
  }

  /** An index, once assigned, never changes as more keys are enumerated. */
  lemma {:induction false} EnumerateStable(keys: seq<string>, p: nat)
    requires p <= |keys|
    ensures forall x :: x in Enumerate(keys[..p]).toIdx ==>
              x in Enumerate(keys).toIdx && Enumerate(keys).toIdx[x] == Enumerate(keys[..p]).toIdx[x]
    decreases |keys| - p
  {
    if p < |keys| {
      var before := Enumerate(keys[..p]);
      var next := keys[..p + 1];
      assert next[..p] == keys[..p];
      assert Enumerate(next) == Insert(before, keys[p]);
      EnumerateStable(keys, p + 1);
    } else {
      assert keys[..|keys|] == keys;
    }
  }

  /** Number of distinct keys among the first `p`. */
  function DistinctBefore(keys: seq<string>, p: nat): nat
    requires p <= |keys|
  {
    |set x | x in keys[..p]|
  }

  /** Indices follow first-occurrence order: the key at position `p` gets the
      number of distinct keys seen before it if it occurs there for the first
      time, and a smaller index claimed earlier otherwise. */
  lemma EnumerateFirstOccurrence(keys: seq<string>, p: nat)
    requires p < |keys|
    ensures keys[p] !in keys[..p] ==> Enumerate(keys).toIdx[keys[p]] == DistinctBefore(keys, p)
    ensures keys[p] in keys[..p] ==> Enumerate(keys).toIdx[keys[p]] < DistinctBefore(keys, p)
  {
    var before := Enumerate(keys[..p]);
    assert keys[..p + 1][..p] == keys[..p];
    assert Enumerate(keys[..p + 1]) == Insert(before, keys[p]);
    assert before.toIdx.Keys == set x | x in keys[..p];
    assert |before.toIdx| == |before.toIdx.Keys|;
    EnumerateStable(keys, p + 1);
    EnumerateStable(keys, p);
  }

  function UserIds(entries: seq<Entry>): (ids: seq<UserId>)
    ensures |ids| == |entries|
  {
    seq(|entries|, i requires 0 <= i < |entries| => entries[i].userId)
  }

  function HashtagsOf(entries: seq<Entry>): (tags: seq<Hashtag>)
    ensures |tags| == |entries|
  {
    seq(|entries|, i requires 0 <= i < |entries| => entries[i].hashtag)
  }

  /** `userid_to_username`: every entry overwrites the name of its user. */
  function Usernames(entries: seq<Entry>): (names: map<UserId, Username>)
    ensures forall u :: u in names <==> u in UserIds(entries)
  {
    if |entries| == 0 then map[]
    else
      var n := |entries| - 1;
      assert UserIds(entries) == UserIds(entries[..n]) + [entries[n].userId];
      Usernames(entries[..n])[entries[n].userId := entries[n].username]
  }

  /** Position `p` holds the last entry of user `u`. */
  predicate IsLastOfUser(entries: seq<Entry>, p: int, u: UserId)
  {
    && 0 <= p < |entries|
    && entries[p].userId == u
    && forall q :: p < q < |entries| ==> entries[q].userId != u
  }

  /** The recorded username of a user is the one of its last entry. */
  lemma {:induction false} UsernameIsLast(entries: seq<Entry>, p: int)
    requires 0 <= p < |entries|
    requires IsLastOfUser(entries, p, entries[p].userId)
    ensures entries[p].userId in Usernames(entries)
    ensures Usernames(entries)[entries[p].userId] == entries[p].username
    decreases |entries|
  {
    var n := |entries| - 1;
    if p < n {
      assert IsLastOfUser(entries[..n], p, entries[p].userId);
      UsernameIsLast(entries[..n], p);
    }
  }

  /** All tables built by the first loop of `run_bispectral`. */
  datatype Tables = Tables(users: Index, hashtags: Index, usernames: map<UserId, Username>)

  function BuildTables(entries: seq<Entry>): (t: Tables)
    ensures Bijective(t.users) && Bijective(t.hashtags)
    ensures forall u :: u in t.users.toIdx <==> u in UserIds(entries)
    ensures forall h :: h in t.hashtags.toIdx <==> h in HashtagsOf(entries)
    ensures forall u :: u in t.users.toIdx ==> u in t.usernames
  {
    Tables(Enumerate(UserIds(entries)), Enumerate(HashtagsOf(entries)), Usernames(entries))
  }

  /** Every entry's user and hashtag are indexed. */
  lemma EntriesIndexed(entries: seq<Entry>, i: int)
    requires 0 <= i < |entries|
    ensures entries[i].userId in BuildTables(entries).users.toIdx
    ensures entries[i].hashtag in BuildTables(entries).hashtags.toIdx
  {
    assert UserIds(entries)[i] == entries[i].userId;
    assert HashtagsOf(entries)[i] == entries[i].hashtag;
  }
}
