/** Player records as the dashboard sees them, and the rating total of a team. */
module Players {
  import opened Wrappers

  /** A player snapshot: store id, display name, rating (MMR) and the id of its rank tier, if any. */
  datatype Player = Player(id: int, name: string, rating: int, rankId: Option<int>)

  /** `sum(p.rating for p in team)`; 0 for an empty team. */
  function Total(team: seq<Player>): int
  {
    if team == [] then 0 else Total(team[..|team| - 1]) + team[|team| - 1].rating
  }

  /** `abs(sum(team_a) - sum(team_b))`: how far apart the two team totals are. */
  function Gap(a: seq<Player>, b: seq<Player>): nat
  {
    if Total(a) <= Total(b) then Total(b) - Total(a) else Total(a) - Total(b)
  }

  /** The rating total is additive over concatenation. */
  lemma {:induction false} TotalAppend(a: seq<Player>, b: seq<Player>)
    ensures Total(a + b) == Total(a) + Total(b)
  {
    if b == [] {
      assert a + b == a;
    } else {
      assert (a + b)[..|a + b| - 1] == a + b[..|b| - 1];
      TotalAppend(a, b[..|b| - 1]);
    }
  }

  /** Taking one player out of a team lowers its total by that player's rating. */
  lemma TotalRemoveAt(b: seq<Player>, j: nat)
    requires j < |b|
    ensures Total(b) == Total(b[..j] + b[j + 1..]) + b[j].rating
  {
    var left, x, right := b[..j], b[j], b[j + 1..];
    assert b == left + ([x] + right);
    TotalAppend(left, [x] + right);
    TotalAppend([x], right);
    TotalAppend(left, right);
    assert Total([x]) == x.rating by {
      assert [x][..0] == [];
    }
  }

  /** The rating total depends only on who is in the team, not on their order. */
  lemma {:induction false} TotalPermutation(a: seq<Player>, b: seq<Player>)
    requires multiset(a) == multiset(b)
    ensures Total(a) == Total(b)
  {
    if a == [] {
      assert |b| == |multiset(b)| == 0;
    } else {
      var x := a[|a| - 1];
      var a' := a[..|a| - 1];
      assert a == a' + [x];
      assert x in multiset(b);
      var j :| 0 <= j < |b| && b[j] == x;
      var b' := b[..j] + b[j + 1..];
      assert b == b[..j] + [x] + b[j + 1..];
      assert multiset(b') == multiset(b) - multiset{x};
      TotalPermutation(a', b');
      TotalRemoveAt(b, j);
    }
  }
}
