/** `greedy_balance_teams`: sort the players by rating, highest first, then
    deal them one by one to the team whose running total is not larger. */
module TeamBalancer {
  import opened Wrappers
  import opened Players

  /** Ratings never increase from left to right. */
  predicate DescendingByRating(s: seq<Player>)
  {
    forall i, j :: 0 <= i < j < |s| ==> s[i].rating >= s[j].rating
  }

  /** The players of `s` whose rating is `v`, in their order in `s`. */
  function WithRating(s: seq<Player>, v: int): seq<Player>
  {
    if s == [] then []
    else (if s[0].rating == v then [s[0]] else []) + WithRating(s[1..], v)
  }

  /** Every player of `s` is rated at most `v`. */
  predicate RatedAtMost(s: seq<Player>, v: int)
  {
    forall i :: 0 <= i < |s| ==> s[i].rating <= v
  }

  /** Every player of `s` is rated at least `v`. */
  predicate RatedAtLeast(s: seq<Player>, v: int)
  {
    forall i :: 0 <= i < |s| ==> s[i].rating >= v
  }

  lemma PrependDescending(x: Player, s: seq<Player>)
    requires DescendingByRating(s) && RatedAtMost(s, x.rating)
    ensures DescendingByRating([x] + s)
  {
    var r := [x] + s;
    forall i, j | 0 <= i < j < |r| ensures r[i].rating >= r[j].rating {
      assert r[j] == s[j - 1];
      if i > 0 { assert r[i] == s[i - 1]; }
    }
  }

  lemma AppendDescending(s: seq<Player>, x: Player)
    requires DescendingByRating(s) && RatedAtLeast(s, x.rating)
    ensures DescendingByRating(s + [x])
  {
    var r := s + [x];
    forall i, j | 0 <= i < j < |r| ensures r[i].rating >= r[j].rating {
      assert r[i] == s[i];
      if j < |s| { assert r[j] == s[j]; }
    }
  }

  /** Puts `p` in front of the first player whose rating is not above its own,
      so that it stays ahead of the equal-rated players that came after it. */
  function Insert(p: Player, s: seq<Player>): (r: seq<Player>)
    ensures multiset(r) == multiset{p} + multiset(s)
    ensures |r| == |s| + 1
  {
    if s == [] || s[0].rating <= p.rating then [p] + s
    else
      MultisetSplitFirst(s);
      [s[0]] + Insert(p, s[1..])
  }

  lemma MultisetSplitFirst(s: seq<Player>)
    requires s != []
    ensures multiset(s) == multiset{s[0]} + multiset(s[1..])
  {
    assert s == [s[0]] + s[1..];
  }

  /** Every player of `r` whose multiset lies within that of `s` is rated at
      most `v` when every player of `s` is. */
  lemma RatedAtMostSub(r: seq<Player>, s: seq<Player>, v: int)
    requires multiset(r) <= multiset(s) && RatedAtMost(s, v)
    ensures RatedAtMost(r, v)
  {
    forall i | 0 <= i < |r| ensures r[i].rating <= v {
      assert r[i] in multiset(r);
      assert r[i] in s;
      var k :| 0 <= k < |s| && s[k] == r[i];
    }
  }

  /** The tail of a descending sequence is descending and rated at most its head. */
  lemma DescendingTail(s: seq<Player>)
    requires s != [] && DescendingByRating(s)
    ensures DescendingByRating(s[1..]) && RatedAtMost(s[1..], s[0].rating)
  {
    var t := s[1..];
    forall i, j | 0 <= i < j < |t| ensures t[i].rating >= t[j].rating {
      assert t[i] == s[i + 1] && t[j] == s[j + 1];
    }
    forall i | 0 <= i < |t| ensures t[i].rating <= s[0].rating {
      assert t[i] == s[i + 1];
    }
  }

  /** Inserting into a descending sequence keeps it descending. */
  lemma {:induction false} InsertDescending(p: Player, s: seq<Player>)
    requires DescendingByRating(s)
    ensures DescendingByRating(Insert(p, s))
  {
    if s == [] {
      PrependDescending(p, s);
    } else if s[0].rating <= p.rating {
      DescendingTail(s);
      RatedAtMostSub(s, [s[0]] + s[1..], p.rating) by {
        assert s == [s[0]] + s[1..];
        forall i | 0 <= i < |s| ensures s[i].rating <= p.rating {
          if i > 0 { assert s[i] == s[1..][i - 1]; }
        }
      }
      PrependDescending(p, s);
    } else {
      DescendingTail(s);
      InsertDescending(p, s[1..]);
      var rest := Insert(p, s[1..]);
      assert RatedAtMost([p] + s[1..], s[0].rating) by {
        var q := [p] + s[1..];
        forall i | 0 <= i < |q| ensures q[i].rating <= s[0].rating {
          if i > 0 { assert q[i] == s[1..][i - 1]; }
        }
      }
      assert multiset(rest) == multiset([p] + s[1..]);
      RatedAtMostSub(rest, [p] + s[1..], s[0].rating);
      PrependDescending(s[0], rest);
    }
  }

  /** `sorted(players, key=rating, reverse=True)`: a stable sort, highest rating first. */
  function SortByRatingDesc(s: seq<Player>): (r: seq<Player>)
    ensures multiset(r) == multiset(s)
    ensures DescendingByRating(r)
  {
    if s == [] then []
    else
      MultisetSplitFirst(s);
      InsertDescending(s[0], SortByRatingDesc(s[1..]));
      Insert(s[0], SortByRatingDesc(s[1..]))
  }

  lemma {:induction false} InsertStable(p: Player, s: seq<Player>, v: int)
    ensures WithRating(Insert(p, s), v) == (if p.rating == v then [p] else []) + WithRating(s, v)
    decreases |s|, 1
  {
    if s == [] || s[0].rating <= p.rating {
      InsertFirst(p, s);
      WithRatingCons(p, s, v);
    } else {
      InsertPastStable(p, s, v);
    }
  }

  lemma {:induction false} InsertPastStable(p: Player, s: seq<Player>, v: int)
    requires s != [] && s[0].rating > p.rating
    ensures WithRating(Insert(p, s), v) == (if p.rating == v then [p] else []) + WithRating(s, v)
    decreases |s|, 0
  {
    var rest := Insert(p, s[1..]);
    var w := WithRating(s[1..], v);
    InsertPast(p, s);
    InsertStable(p, s[1..], v);
    WithRatingCons(s[0], rest, v);
    if p.rating == v {
      assert WithRating(rest, v) == [p] + w;
      assert WithRating(s, v) == w;
      assert WithRating(Insert(p, s), v) == [] + ([p] + w);
      assert [] + ([p] + w) == [p] + w;
    } else {
      assert WithRating(rest, v) == [] + w;
      assert [] + w == w;
    }
  }

  lemma WithRatingCons(x: Player, u: seq<Player>, v: int)
    ensures WithRating([x] + u, v) == (if x.rating == v then [x] else []) + WithRating(u, v)
  {
    assert ([x] + u)[1..] == u;
  }

  /** The sort is stable: players with equal ratings keep their input order. */
  lemma {:induction false} SortIsStable(s: seq<Player>, v: int)
    ensures WithRating(SortByRatingDesc(s), v) == WithRating(s, v)
  {
    if s != [] {
      SortIsStable(s[1..], v);
      InsertStable(s[0], SortByRatingDesc(s[1..]), v);
    }
  }

  /** `team` is opened by a player rated at least as high as everyone in `players`. */
  predicate OpensWithTopRated(players: seq<Player>, team: seq<Player>)
  {
    team != [] && forall i :: 0 <= i < |players| ==> players[i].rating <= team[0].rating
  }

  /** The two teams of one balancing run (`team_1`, `team_2`). */
  datatype Teams = Teams(team1: seq<Player>, team2: seq<Player>)

  /** One iteration of the loop: `if sum_1 <= sum_2` the player joins team 1,
      otherwise team 2. */
  function Assign(t: Teams, p: Player): Teams
  {
    if Total(t.team1) <= Total(t.team2) then Teams(t.team1 + [p], t.team2)
    else Teams(t.team1, t.team2 + [p])
  }

  /** The greedy pass over `s`, in the order given. */
  function Deal(s: seq<Player>): Teams
  {
    if s == [] then Teams([], [])
    else Assign(Deal(s[..|s| - 1]), s[|s| - 1])
  }

  /** What `greedy_balance_teams(players)` returns. */
  function Balance(players: seq<Player>): Teams
  {
    Deal(SortByRatingDesc(players))
  }

  /** The deal splits `s` into two teams holding exactly the players of `s`. */
  lemma {:induction false} DealPartition(s: seq<Player>)
    ensures multiset(Deal(s).team1) + multiset(Deal(s).team2) == multiset(s)
    ensures |Deal(s).team1| + |Deal(s).team2| == |s|
  {
    if s != [] {
      var n := |s| - 1;
      DealPartition(s[..n]);
      AssignPartition(Deal(s[..n]), s[n]);
      MultisetSplitLast(s);
    }
  }

  lemma MultisetSplitLast(s: seq<Player>)
    requires s != []
    ensures multiset(s) == multiset(s[..|s| - 1]) + multiset{s[|s| - 1]}
  {
    assert s == s[..|s| - 1] + [s[|s| - 1]];
  }

  /** `Assign` adds the player to exactly one of the two teams. */
  lemma AssignPartition(t: Teams, p: Player)
    ensures multiset(Assign(t, p).team1) + multiset(Assign(t, p).team2)
         == multiset(t.team1) + multiset(t.team2) + multiset{p}
    ensures |Assign(t, p).team1| + |Assign(t, p).team2| == |t.team1| + |t.team2| + 1
  {
  }

  /** With a non-empty input, team 1 starts with the first player dealt, and
      only ever grows at its end. */
  lemma {:induction false} DealFirst(s: seq<Player>)
    requires s != []
    ensures Deal(s).team1 != [] && Deal(s).team1[0] == s[0]
  {
    var n := |s| - 1;
    if n > 0 {
      DealFirst(s[..n]);
    }
  }

  /** Dealing a descending sequence gives descending teams. */
  lemma {:induction false} DealDescending(s: seq<Player>)
    requires DescendingByRating(s)
    ensures DescendingByRating(Deal(s).team1) && DescendingByRating(Deal(s).team2)
  {
    if s != [] {
      var n := |s| - 1;
      PrefixDescending(s, n);
      DealDescending(s[..n]);
      DealtRatedAtLeast(s, n);
      AssignDescending(Deal(s[..n]), s[n]);
    }
  }

  /** Both teams dealt from the first `n` players of a descending `s` are
      rated at least as high as `s[n]`. */
  lemma DealtRatedAtLeast(s: seq<Player>, n: nat)
    requires n < |s| && DescendingByRating(s)
    ensures RatedAtLeast(Deal(s[..n]).team1, s[n].rating) && RatedAtLeast(Deal(s[..n]).team2, s[n].rating)
  {
    var t := Deal(s[..n]);
    DealPartition(s[..n]);
    assert multiset(t.team1) <= multiset(s[..n]) && multiset(t.team2) <= multiset(s[..n]) by {
      assert multiset(t.team1) + multiset(t.team2) == multiset(s[..n]);
    }
    RatedAtLeastDealt(s[..n], t.team1, s[n].rating, s, n);
    RatedAtLeastDealt(s[..n], t.team2, s[n].rating, s, n);
  }

  lemma AssignDescending(t: Teams, x: Player)
    requires DescendingByRating(t.team1) && DescendingByRating(t.team2)
    requires RatedAtLeast(t.team1, x.rating) && RatedAtLeast(t.team2, x.rating)
    ensures DescendingByRating(Assign(t, x).team1) && DescendingByRating(Assign(t, x).team2)
  {
    if Total(t.team1) <= Total(t.team2) {
      AppendDescending(t.team1, x);
    } else {
      AppendDescending(t.team2, x);
    }
  }

  lemma PrefixDescending(s: seq<Player>, n: nat)
    requires n <= |s| && DescendingByRating(s)
    ensures DescendingByRating(s[..n])
  {
    forall i, j | 0 <= i < j < n ensures s[..n][i].rating >= s[..n][j].rating {
      assert s[..n][i] == s[i] && s[..n][j] == s[j];
    }
  }

  /** A team dealt from the first `n` players of a descending `s` is rated at
      least as high as `s[n]`. */
  lemma RatedAtLeastDealt(prefix: seq<Player>, team: seq<Player>, v: int, s: seq<Player>, n: nat)
    requires n < |s| && prefix == s[..n] && DescendingByRating(s) && v == s[n].rating
    requires multiset(team) <= multiset(prefix)
    ensures RatedAtLeast(team, v)
  {
    forall i | 0 <= i < |team| ensures team[i].rating >= v {
      assert team[i] in multiset(team);
      assert team[i] in prefix;
      var k :| 0 <= k < n && prefix[k] == team[i];
      assert s[k] == prefix[k];
    }
  }

  /** If every rating lies in [0, bound], the deal leaves the two totals at
      most `bound` apart. */
  lemma {:induction false} DealGap(s: seq<Player>, bound: int)
    requires 0 <= bound
    requires forall i :: 0 <= i < |s| ==> 0 <= s[i].rating <= bound
    ensures -bound <= Total(Deal(s).team1) - Total(Deal(s).team2) <= bound
  {
    if s == [] {
    } else {
      var n := |s| - 1;
      var t := Deal(s[..n]);
      DealGap(s[..n], bound);
      TotalAppend(t.team1, [s[n]]);
      TotalAppend(t.team2, [s[n]]);
      assert Total([s[n]]) == s[n].rating by {
        assert [s[n]][..0] == [];
      }
    }
  }

  lemma FullPrefix(s: seq<Player>)
    ensures s[..|s|] == s
  {
  }

  /** Dealing one more player is one more `Assign`. */
  lemma DealExtend(s: seq<Player>, i: nat)
    requires i < |s|
    ensures Deal(s[..i + 1]) == Assign(Deal(s[..i]), s[i])
  {
    assert s[..i + 1][..i] == s[..i];
  }

  lemma TotalAppendOne(team: seq<Player>, p: Player)
    ensures Total(team + [p]) == Total(team) + p.rating
  {
    TotalAppend(team, [p]);
    assert [p][..0] == [];
  }

  /** `greedy_balance_teams` returns every input player exactly once, split
      over the two teams, and the two totals add up to the input's total. */
  lemma BalancePartition(players: seq<Player>)
    ensures multiset(Balance(players).team1) + multiset(Balance(players).team2) == multiset(players)
    ensures |Balance(players).team1| + |Balance(players).team2| == |players|
    ensures Total(Balance(players).team1) + Total(Balance(players).team2) == Total(players)
  {
    var sorted := SortByRatingDesc(players);
    var t := Balance(players);
    DealPartition(sorted);
    TotalAppend(t.team1, t.team2);
    TotalPermutation(t.team1 + t.team2, players);
  }

  /** Tie-break: on the first player the totals are equal (0 and 0), so the
      highest-rated player always opens team 1. */
  lemma BalanceTieBreak(players: seq<Player>)
    requires players != []
    ensures Balance(players).team1 != []
    ensures Balance(players).team1[0] in players
    ensures forall i :: 0 <= i < |players| ==> players[i].rating <= Balance(players).team1[0].rating
  {
    var sorted := SortByRatingDesc(players);
    assert |sorted| == |multiset(players)| == |players|;
    DealFirst(sorted);
    assert sorted[0] in multiset(players);
    forall i | 0 <= i < |players| ensures players[i].rating <= sorted[0].rating {
      assert players[i] in multiset(sorted);
      var k :| 0 <= k < |sorted| && sorted[k] == players[i];
    }
  }

  /** Each team lists its players highest rating first. */
  lemma BalanceDescending(players: seq<Player>)
    ensures DescendingByRating(Balance(players).team1) && DescendingByRating(Balance(players).team2)
  {
    DealDescending(SortByRatingDesc(players));
  }

  /** With non-negative ratings, the final gap is at most the highest rating
      in the input (the rating of the player that opens team 1). */
  lemma BalanceGap(players: seq<Player>)
    requires players != []
    requires forall i :: 0 <= i < |players| ==> 0 <= players[i].rating
    ensures Balance(players).team1 != []
    ensures Gap(Balance(players).team1, Balance(players).team2) <= Balance(players).team1[0].rating
  {
    var sorted := SortByRatingDesc(players);
    BalanceTieBreak(players);
    var top := Balance(players).team1[0].rating;
    forall i | 0 <= i < |sorted| ensures 0 <= sorted[i].rating <= top {
      assert sorted[i] in multiset(players);
      var k :| 0 <= k < |players| && players[k] == sorted[i];
    }
    DealGap(sorted, top);
  }

  /** The loop of `greedy_balance_teams`: `team_1`/`team_2` grow by appends
      and `sum_1`/`sum_2` are their running totals. */
  method GreedyBalanceTeams(players: seq<Player>) returns (team1: seq<Player>, team2: seq<Player>)
    ensures Teams(team1, team2) == Balance(players)
    ensures multiset(team1) + multiset(team2) == multiset(players)
    ensures DescendingByRating(team1) && DescendingByRating(team2)
    ensures players != [] ==> OpensWithTopRated(players, team1)
  {
    var sorted := SortByRatingDesc(players);
    team1, team2 := [], [];
    var sum1, sum2 := 0, 0;
    for i := 0 to |sorted|
      invariant Teams(team1, team2) == Deal(sorted[..i])
      invariant sum1 == Total(team1) && sum2 == Total(team2)
    {
      var player := sorted[i];
      DealExtend(sorted, i);
      if sum1 <= sum2 {
        TotalAppendOne(team1, player);
        team1 := team1 + [player];
        sum1 := sum1 + player.rating;
      } else {
        TotalAppendOne(team2, player);
        team2 := team2 + [player];
        sum2 := sum2 + player.rating;
      }
    }
    FullPrefix(sorted);
    BalanceFacts(players);
  }

  /** The facts the loop method promises about `Balance`, gathered. */
  lemma BalanceFacts(players: seq<Player>)
    ensures multiset(Balance(players).team1) + multiset(Balance(players).team2) == multiset(players)
    ensures DescendingByRating(Balance(players).team1) && DescendingByRating(Balance(players).team2)
    ensures players != [] ==> OpensWithTopRated(players, Balance(players).team1)
  {
    BalancePartition(players);
    BalanceDescending(players);
    if players != [] {
      BalanceTieBreak(players);
    }
  }

  /** No players give two empty teams; a single player lands in team 1. */
  lemma BalanceEmptyAndSingle(p: Player)
    ensures Balance([]) == Teams([], [])
    ensures Balance([p]) == Teams([p], [])
  {
    assert SortByRatingDesc([p]) == [p] by {
      assert [p][1..] == [];
    }
    DealExtend([p], 0);
    assert [p][..0] == [] && [p][..1] == [p] && [] + [p] == [p];
  }

  /** Ratings 100, 700, 1200: sorted 1200, 700, 100; 1200 opens team 1 on
      the 0-0 tie, 700 and 100 go to team 2, and the gap is 400. */
  lemma ThreePlayerScenario(a: Player, b: Player, c: Player)
    requires a.rating == 100 && b.rating == 700 && c.rating == 1200
    ensures Balance([a, b, c]) == Teams([c], [b, a])
    ensures Gap([c], [b, a]) == 400
  {
    SortThreeExample(a, b, c);
    DealThreeExample(a, b, c);
    TotalSingle(c);
    TotalSingle(b);
    TotalAppendOne([b], a);
    assert [b] + [a] == [b, a];
  }

  /** Dealing 1200, 700, 100 in that order. */
  lemma DealThreeExample(a: Player, b: Player, c: Player)
    requires a.rating == 100 && b.rating == 700 && c.rating == 1200
    ensures Deal([c, b, a]) == Teams([c], [b, a])
  {
    var s := [c, b, a];
    TotalSingle(c);
    TotalSingle(b);
    assert Deal(s[..1]) == Teams([c], []) by {
      DealExtend(s, 0);
      assert s[..0] == [] && [] + [c] == [c];
    }
    assert Deal(s[..2]) == Teams([c], [b]) by {
      DealExtend(s, 1);
      assert [] + [b] == [b];
    }
    DealExtend(s, 2);
    assert s[..3] == s && [b] + [a] == [b, a];
  }

  /** The sort orders ratings 100, 700, 1200 as 1200, 700, 100. */
  lemma SortThreeExample(a: Player, b: Player, c: Player)
    requires a.rating == 100 && b.rating == 700 && c.rating == 1200
    ensures SortByRatingDesc([a, b, c]) == [c, b, a]
  {
    SortTwoExample(b, c);
    SortStep([a, b, c]);
    assert [a, b, c][1..] == [b, c];
    InsertBehindTwo(a, c, b);
  }

  lemma SortTwoExample(b: Player, c: Player)
    requires b.rating < c.rating
    ensures SortByRatingDesc([b, c]) == [c, b]
  {
    SortStep([b, c]);
    assert [b, c][1..] == [c];
    SortStep([c]);
    assert [c][1..] == [];
    InsertFirst(c, []);
    InsertPast(b, [c]);
    assert [c][1..] == [];
    InsertFirst(b, []);
  }

  lemma InsertBehindTwo(p: Player, x: Player, y: Player)
    requires p.rating < y.rating && p.rating < x.rating
    ensures Insert(p, [x, y]) == [x, y, p]
  {
    InsertPast(p, [x, y]);
    assert [x, y][1..] == [y];
    InsertPast(p, [y]);
    assert [y][1..] == [];
    InsertFirst(p, []);
  }

  lemma SortStep(s: seq<Player>)
    requires s != []
    ensures SortByRatingDesc(s) == Insert(s[0], SortByRatingDesc(s[1..]))
  {
  }

  lemma InsertFirst(p: Player, s: seq<Player>)
    requires s == [] || s[0].rating <= p.rating
    ensures Insert(p, s) == [p] + s
  {
  }

  lemma InsertPast(p: Player, s: seq<Player>)
    requires s != [] && s[0].rating > p.rating
    ensures Insert(p, s) == [s[0]] + Insert(p, s[1..])
  {
  }

  lemma TotalSingle(p: Player)
    ensures Total([p]) == p.rating
  {
    assert [p][..0] == [];
  }
}
