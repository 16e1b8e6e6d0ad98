/** A worked instance of the filtering stages: three users and three
    hashtags with `min_user = 2`. User 1 tags `#a` and `#b`, user 2 tags `#a`,
    and user 3 tags `#b` and `#c`, each entry with weight 1. The identity
    index is taken in first-occurrence order (users 1, 2, 3; hashtags `#a`,
    `#b`, `#c`), and every fact below is derived from the general lemmas about
    the filters and the matrix builder.
 */
module Example {
  import opened IndexMapping
  import opened IdentityIndex
  import opened Matrices
  import opened MatrixBuilder
  import opened Pipeline
  import opened Properties

  /** The example input, in dictionary order. */
  predicate IsThreeUsers(e: seq<Entry>)
  {
    && |e| == 5
    && e[0] == Entry("1", "u1", "#a", 1)
    && e[1] == Entry("1", "u1", "#b", 1)
    && e[2] == Entry("2", "u2", "#a", 1)
    && e[3] == Entry("3", "u3", "#b", 1)
    && e[4] == Entry("3", "u3", "#c", 1)
  }

  function ExampleUsers(): Index
  {
    Index(map["1" := 0, "2" := 1, "3" := 2], ["1", "2", "3"])
  }

  function ExampleHashtags(): Index
  {
    Index(map["#a" := 0, "#b" := 1, "#c" := 2], ["#a", "#b", "#c"])
  }

  /** The tables the identity index assigns to the example, in
      first-occurrence order. */
  function ThreeUsersTables(): Tables
  {
    Tables(ExampleUsers(), ExampleHashtags(), map["1" := "u1", "2" := "u2", "3" := "u3"])
  }

  /** Every entry's user and hashtag have an index in the example tables. */
  lemma EntriesIndexedByExample(e: seq<Entry>)
    requires IsThreeUsers(e)
    ensures forall p :: 0 <= p < |e| ==> e[p].userId in ExampleUsers().toIdx
    ensures forall p :: 0 <= p < |e| ==> e[p].hashtag in ExampleHashtags().toIdx
  {
  }

  lemma TablesFit(e: seq<Entry>)
    requires IsThreeUsers(e)
    ensures Indexes(ThreeUsersTables(), e) && UsernamesKnown(ThreeUsersTables())
  {
    assert Bijective(ExampleUsers()) && Bijective(ExampleHashtags());
    EntriesIndexedByExample(e);
  }

  /** `CountTrue` over a vector of three. */
  lemma CountThree(c: seq<bool>)
    requires |c| == 3
    ensures CountTrue(c) == (if c[0] then 1 else 0) + (if c[1] then 1 else 0) + (if c[2] then 1 else 0)
  {
    assert c[..2][..1][..0] == [];
    assert c[..2][..1] == [c[0]];
  }

  /** `#a` and `#b` have two distinct users each, `#c` only one. */
  lemma Degrees(e: seq<Entry>)
    requires IsThreeUsers(e)
    ensures DistinctUsers(e, ThreeUsersTables(), "#a") == 2
    ensures DistinctUsers(e, ThreeUsersTables(), "#b") == 2
    ensures DistinctUsers(e, ThreeUsersTables(), "#c") == 1
  {
    var t := ThreeUsersTables();
    assert Writes(e[0], "1", "#a") && Writes(e[2], "2", "#a");
    assert !HasEntry(e, "3", "#a");
    assert UsersWith(e, t, "#a") == [true, true, false];
    CountThree(UsersWith(e, t, "#a"));
    assert Writes(e[1], "1", "#b") && Writes(e[3], "3", "#b");
    assert !HasEntry(e, "2", "#b");
    assert UsersWith(e, t, "#b") == [true, false, true];
    CountThree(UsersWith(e, t, "#b"));
    assert Writes(e[4], "3", "#c");
    assert !HasEntry(e, "1", "#c") && !HasEntry(e, "2", "#c");
    assert UsersWith(e, t, "#c") == [false, false, true];
    CountThree(UsersWith(e, t, "#c"));
  }

  /** The hashtag filter keeps `#a` and `#b` and drops `#c`. */
  lemma HashtagMembership(e: seq<Entry>)
    requires IsThreeUsers(e)
    ensures Indexes(ThreeUsersTables(), e) && UsernamesKnown(ThreeUsersTables())
    ensures var f := FilterWith(e, ThreeUsersTables(), 2);
            0 in f.hashtagMap && 1 in f.hashtagMap && 2 !in f.hashtagMap
  {
    TablesFit(e);
    var t := ThreeUsersTables();
    Degrees(e);
    HashtagFilterKeeps(e, t, 2);
    assert t.hashtags.ofIdx == ["#a", "#b", "#c"];
  }

  /** Over three positions, a keep-vector is fixed by which positions its
      index map holds. */
  lemma KeepVectorOfThree(m: seq<nat>, cond: seq<bool>, a: bool, b: bool, c: bool)
    requires |cond| == 3 && IsIndexMapOf(m, cond)
    requires (0 in m <==> a) && (1 in m <==> b) && (2 in m <==> c)
    ensures cond == [a, b, c]
  {
    forall i | 0 <= i < 3
      ensures cond[i] <==> i in m
    {
      if i in m {
        var j :| 0 <= j < |m| && m[j] == i;
      }
    }
  }

  /** The hashtag map of the example is `[0, 1]`. */
  lemma HashtagsKept(e: seq<Entry>)
    requires IsThreeUsers(e)
    ensures Indexes(ThreeUsersTables(), e) && UsernamesKnown(ThreeUsersTables())
    ensures FilterWith(e, ThreeUsersTables(), 2).hashtagMap == [0, 1]
  {
    HashtagMembership(e);
    var f := FilterWith(e, ThreeUsersTables(), 2);
    assert f.hashtagMap == IdxMapping(f.hashtagCond) && |f.hashtagCond| == 3;
    KeepVectorOfThree(f.hashtagMap, f.hashtagCond, true, true, false);
    IndexMapUnique([0, 1], f.hashtagCond);
  }

  /** Which entry wrote each cell of the kept columns last, if any. */
  lemma LastWrites(e: seq<Entry>)
    requires IsThreeUsers(e)
    ensures IsLastWrite(e, 0, "1", "#a") && IsLastWrite(e, 1, "1", "#b")
    ensures IsLastWrite(e, 2, "2", "#a") && !HasEntry(e, "2", "#b")
    ensures !HasEntry(e, "3", "#a") && IsLastWrite(e, 3, "3", "#b")
  {
  }

  /** The kept columns of `A`: `[[1, 1], [1, 0], [0, 1]]`. */
  lemma WeightCells(e: seq<Entry>)
    requires IsThreeUsers(e)
    ensures Indexes(ThreeUsersTables(), e)
    ensures var w := WeightMatrix(e, ThreeUsersTables());
            && w.cells[0][0] == 1 && w.cells[0][1] == 1
            && w.cells[1][0] == 1 && w.cells[1][1] == 0
            && w.cells[2][0] == 0 && w.cells[2][1] == 1
  {
    TablesFit(e);
    var t := ThreeUsersTables();
    LastWrites(e);
    assert t.users.ofIdx == ["1", "2", "3"] && t.hashtags.ofIdx == ["#a", "#b", "#c"];
    CellsAreLastWrites(e, t, 0, 0);
    CellsAreLastWrites(e, t, 0, 1);
    CellsAreLastWrites(e, t, 1, 0);
    CellsAreLastWrites(e, t, 1, 1);
    CellsAreLastWrites(e, t, 2, 0);
    CellsAreLastWrites(e, t, 2, 1);
  }

  /** Every user keeps an edge to `#a` or `#b`, so the user filter keeps all three. */
  lemma UserMembership(e: seq<Entry>)
    requires IsThreeUsers(e)
    ensures Indexes(ThreeUsersTables(), e) && UsernamesKnown(ThreeUsersTables())
    ensures var f := FilterWith(e, ThreeUsersTables(), 2);
            0 in f.userMap && 1 in f.userMap && 2 in f.userMap
  {
    HashtagsKept(e);
    WeightCells(e);
    var t := ThreeUsersTables();
    var f := FilterWith(e, t, 2);
    UserFilterKeeps(e, t, 2);
    assert f.weights == WeightMatrix(e, t);
    assert |t.users.ofIdx| == 3;
    assert f.weights.cells[0][f.hashtagMap[0]] > 0;
    assert f.weights.cells[1][f.hashtagMap[0]] > 0;
    assert f.weights.cells[2][f.hashtagMap[1]] > 0;
  }

  /** The user map of the example is `[0, 1, 2]`. */
  lemma UsersKept(e: seq<Entry>)
    requires IsThreeUsers(e)
    ensures Indexes(ThreeUsersTables(), e) && UsernamesKnown(ThreeUsersTables())
    ensures FilterWith(e, ThreeUsersTables(), 2).userMap == [0, 1, 2]
  {
    UserMembership(e);
    var f := FilterWith(e, ThreeUsersTables(), 2);
    assert f.userMap == IdxMapping(f.userCond) && |f.userCond| == 3;
    AllThreeKept(f.userCond);
  }

  /** A keep-vector of three whose index map holds all three positions. */
  lemma AllThreeKept(cond: seq<bool>)
    requires |cond| == 3
    requires 0 in IdxMapping(cond) && 1 in IdxMapping(cond) && 2 in IdxMapping(cond)
    ensures IdxMapping(cond) == [0, 1, 2]
  {
    var m := IdxMapping(cond);
    assert IsIndexMapOf(m, cond) && |m| <= 3;
    assert m[0] == 0 && m[1] == 1 && m[2] == 2 by {
      var a, b, c :| 0 <= a < |m| && 0 <= b < |m| && 0 <= c < |m| && m[a] == 0 && m[b] == 1 && m[c] == 2;
    }
  }

  /** `Sum` over a vector of two. */
  lemma SumTwo(s: seq<nat>)
    requires |s| == 2
    ensures Sum(s) == s[0] + s[1]
  {
    assert s[..1][..0] == [];
    assert Sum(s[..1]) == s[0];
  }

  /** The matrix handed to the first clustering. */
  lemma ActiveMatrix(e: seq<Entry>)
    requires IsThreeUsers(e)
    ensures Indexes(ThreeUsersTables(), e) && UsernamesKnown(ThreeUsersTables())
    ensures FilterWith(e, ThreeUsersTables(), 2).active.cells == [[1, 1], [1, 0], [0, 1]]
  {
    HashtagsKept(e);
    UsersKept(e);
    WeightCells(e);
    var t := ThreeUsersTables();
    var f := FilterWith(e, t, 2);
    assert f.weights == WeightMatrix(e, t);
    assert f.active.rows == 3 && f.active.cols == 2;
    assert f.active.cells[0] == [1, 1];
    assert f.active.cells[1] == [1, 0];
    assert f.active.cells[2] == [0, 1];
  }

  /** With `min_user = 2`, hashtag `#c` (one user) is dropped and `#a`, `#b`
      are kept; all three users keep an edge and stay. The active matrix is
      `[[1, 1], [1, 0], [0, 1]]`, so the users' weights are 2, 1 and 1. */
  lemma ThreeUsersExample(e: seq<Entry>)
    requires IsThreeUsers(e)
    ensures Indexes(ThreeUsersTables(), e) && UsernamesKnown(ThreeUsersTables())
    ensures var f := FilterWith(e, ThreeUsersTables(), 2);
            && HashtagNames(f.tables, f.hashtagMap) == ["#a", "#b"]
            && UserNames(f.tables, f.userMap) == ["u1", "u2", "u3"]
            && f.active.cells == [[1, 1], [1, 0], [0, 1]]
            && RowSum(f.active, 0) == 2 && RowSum(f.active, 1) == 1 && RowSum(f.active, 2) == 1
  {
    TablesFit(e);
    var t := ThreeUsersTables();
    var f := FilterWith(e, t, 2);
    HashtagsKept(e);
    UsersKept(e);
    ActiveMatrix(e);
    SumTwo(f.active.cells[0]);
    SumTwo(f.active.cells[1]);
    SumTwo(f.active.cells[2]);
  }
}
