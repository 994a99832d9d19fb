/** The "Find Match" run of the dashboard: narrow the roster to a rating
    band, draw `2 * team_size` participants, balance them, report the totals
    and the gap. */
module Matchmaking {
  import opened Players
  import opened TeamBalancer

  /** The four entries of the "Rank Pool Filter" select box. */
  datatype RankFilter = AllRanks | Low | Mid | High

  /** Whether a rating belongs to the band a filter selects. */
  predicate InBand(f: RankFilter, rating: int)
  {
    match f
    case AllRanks => true
    case Low => rating < 1000
    case Mid => 1000 <= rating <= 2000
    case High => rating > 2000
  }

  /** `r` is `s` with some players left out, the rest in their order. */
  ghost predicate IsSubsequence(r: seq<Player>, s: seq<Player>)
    decreases |s|
  {
    if r == [] then true
    else if s == [] then false
    else if r[0] == s[0] then IsSubsequence(r[1..], s[1..])
    else IsSubsequence(r, s[1..])
  }

  /** The list comprehension `[p for p in s if <band test>]`. */
  function KeepInBand(s: seq<Player>, f: RankFilter): (r: seq<Player>)
    ensures forall p :: p in r ==> InBand(f, p.rating)
    ensures forall p: Player :: InBand(f, p.rating) ==> multiset(r)[p] == multiset(s)[p]
    ensures IsSubsequence(r, s)
  {
    if s == [] then []
    else
      var rest := KeepInBand(s[1..], f);
      assert s == [s[0]] + s[1..];
      if InBand(f, s[0].rating) then
        assert ([s[0]] + rest)[1..] == rest;
        [s[0]] + rest
      else
        assert rest == [] || rest[0] != s[0] by {
          if rest != [] { assert rest[0] in rest; }
        }
        rest
  }

  /** The pool of a run: the whole roster for "All Ranks", otherwise the
      players of the selected band, in roster order. */
  function FilterPool(roster: seq<Player>, f: RankFilter): (pool: seq<Player>)
    ensures forall p :: p in pool ==> InBand(f, p.rating)
    ensures forall p: Player :: InBand(f, p.rating) ==> multiset(pool)[p] == multiset(roster)[p]
    ensures IsSubsequence(pool, roster)
  {
    if f == AllRanks then
      SubsequenceOfItself(roster);
      roster
    else KeepInBand(roster, f)
  }

  lemma {:induction false} SubsequenceOfItself(s: seq<Player>)
    ensures IsSubsequence(s, s)
  {
    if s != [] {
      SubsequenceOfItself(s[1..]);
    }
  }

  /** "All Ranks" keeps the roster unchanged. */
  lemma FilterAllIsRoster(roster: seq<Player>)
    ensures FilterPool(roster, AllRanks) == roster
  {
  }

  /** Low, Mid and High between them take every player exactly once. */
  lemma {:induction false} BandsPartitionRoster(roster: seq<Player>)
    ensures |KeepInBand(roster, Low)| + |KeepInBand(roster, Mid)| + |KeepInBand(roster, High)| == |roster|
  {
    if roster != [] {
      BandsPartitionRoster(roster[1..]);
    }
  }

  function Min(a: int, b: int): int
  {
    if a <= b then a else b
  }

  /** `random.sample(pool, k)`: `k` players at distinct positions of the
      pool, in an order the random source decides. */
  method Sample(pool: seq<Player>, k: nat) returns (picked: seq<Player>)
    requires k <= |pool|
    ensures |picked| == k
    ensures multiset(picked) <= multiset(pool)
  {
    assert pool == pool[..k] + pool[k..];
    assert |pool[..k]| == k && multiset(pool[..k]) <= multiset(pool);
    picked :| |picked| == k && multiset(picked) <= multiset(pool);
  }

  /** No player appears twice. */
  predicate NoDuplicates(s: seq<Player>)
  {
    forall i, j :: 0 <= i < j < |s| ==> s[i] != s[j]
  }

  lemma {:induction false} NoDuplicatesCount(s: seq<Player>, x: Player)
    requires NoDuplicates(s)
    ensures multiset(s)[x] <= 1
  {
    if s != [] {
      var n := |s| - 1;
      assert s == s[..n] + [s[n]];
      assert NoDuplicates(s[..n]) by {
        forall i, j | 0 <= i < j < n ensures s[..n][i] != s[..n][j] {
          assert s[..n][i] == s[i] && s[..n][j] == s[j];
        }
      }
      NoDuplicatesCount(s[..n], x);
      if x == s[n] {
        assert x !in s[..n] by {
          forall i | 0 <= i < n ensures s[..n][i] != x {
            assert s[..n][i] == s[i];
          }
        }
      }
    }
  }

  /** Drawn from a pool of distinct players, the participants are distinct. */
  lemma SampleDistinct(picked: seq<Player>, pool: seq<Player>)
    requires multiset(picked) <= multiset(pool) && NoDuplicates(pool)
    ensures NoDuplicates(picked)
  {
    forall i, j | 0 <= i < j < |picked| ensures picked[i] != picked[j] {
      if picked[i] == picked[j] {
        var x := picked[i];
        assert picked == picked[..i] + [x] + picked[i + 1..j] + [x] + picked[j + 1..];
        assert multiset(picked)[x] >= 2;
        NoDuplicatesCount(pool, x);
        assert false;
      }
    }
  }

  /** The participants of a run: the whole pool when it has at most
      `2 * team_size` players (with a shortfall notice when it has fewer),
      otherwise a random sample of exactly that many. */
  method SelectParticipants(pool: seq<Player>, teamSize: nat) returns (participants: seq<Player>, shortfall: bool)
    ensures |pool| <= 2 * teamSize ==> participants == pool
    ensures |participants| == Min(2 * teamSize, |pool|)
    ensures multiset(participants) <= multiset(pool)
    ensures shortfall <==> |pool| < 2 * teamSize
  {
    var totalNeeded := teamSize * 2;
    var availableCount := |pool|;
    shortfall := false;
    if availableCount <= totalNeeded {
      participants := pool;
      if availableCount < totalNeeded {
        shortfall := true;
      }
    } else {
      participants := Sample(pool, totalNeeded);
    }
  }

  /** Participants drawn from a pool of a roster with non-negative ratings
      have non-negative ratings. */
  lemma DrawnFromRoster(roster: seq<Player>, f: RankFilter, participants: seq<Player>)
    requires multiset(participants) <= multiset(FilterPool(roster, f))
    requires forall i :: 0 <= i < |roster| ==> 0 <= roster[i].rating
    ensures forall i :: 0 <= i < |participants| ==> 0 <= participants[i].rating
  {
    var pool := FilterPool(roster, f);
    forall i | 0 <= i < |participants| ensures 0 <= participants[i].rating {
      var x := participants[i];
      assert x in multiset(participants);
      assert x in pool;
      assert multiset(roster)[x] == multiset(pool)[x] > 0;
      assert x in roster;
      var k :| 0 <= k < |roster| && roster[k] == x;
    }
  }

  /** What a "Find Match" press shows: a warning for an empty pool, or the
      two teams with their totals and the gap. */
  datatype MatchOutcome =
    | EmptyPool
    | Matched(participants: seq<Player>, teamRed: seq<Player>, teamBlue: seq<Player>,
              totalRed: int, totalBlue: int, gap: nat, shortfall: bool)

  /** Balances the participants and computes what the page reports: each
      team's total (`display_team_stats`) and the gap between them. */
  method BalanceAndReport(participants: seq<Player>, shortfall: bool) returns (outcome: MatchOutcome)
    ensures outcome.Matched? && outcome.participants == participants && outcome.shortfall == shortfall
    ensures Teams(outcome.teamRed, outcome.teamBlue) == Balance(participants)
    ensures multiset(outcome.teamRed) + multiset(outcome.teamBlue) == multiset(participants)
    ensures outcome.totalRed == Total(outcome.teamRed) && outcome.totalBlue == Total(outcome.teamBlue)
    ensures outcome.gap == Gap(outcome.teamRed, outcome.teamBlue)
    ensures participants != [] ==> OpensWithTopRated(participants, outcome.teamRed)
    ensures participants != [] && (forall i :: 0 <= i < |participants| ==> 0 <= participants[i].rating) ==>
      outcome.gap <= outcome.teamRed[0].rating
  {
    var teamA, teamB := GreedyBalanceTeams(participants);
    if participants != [] && forall i :: 0 <= i < |participants| ==> 0 <= participants[i].rating {
      BalanceGap(participants);
    }
    var totalA, totalB := Total(teamA), Total(teamB);
    var diff := if totalA - totalB < 0 then totalB - totalA else totalA - totalB;
    outcome := Matched(participants, teamA, teamB, totalA, totalB, diff, shortfall);
  }

  /** One run of the matchmaking page for a roster, a filter and a team size. */
  method FindMatch(roster: seq<Player>, f: RankFilter, teamSize: nat) returns (outcome: MatchOutcome)
    ensures outcome.EmptyPool? <==> FilterPool(roster, f) == []
    ensures outcome.Matched? ==>
      var pool := FilterPool(roster, f);
      && multiset(outcome.participants) <= multiset(pool)
      && |outcome.participants| == Min(2 * teamSize, |pool|)
      && (|pool| <= 2 * teamSize ==> outcome.participants == pool)
      && (outcome.shortfall <==> |pool| < 2 * teamSize)
      && Teams(outcome.teamRed, outcome.teamBlue) == Balance(outcome.participants)
      && multiset(outcome.teamRed) + multiset(outcome.teamBlue) == multiset(outcome.participants)
      && outcome.totalRed == Total(outcome.teamRed)
      && outcome.totalBlue == Total(outcome.teamBlue)
      && outcome.gap == Gap(outcome.teamRed, outcome.teamBlue)
    ensures outcome.Matched? && outcome.participants != [] ==>
      && OpensWithTopRated(outcome.participants, outcome.teamRed)
      && ((forall i :: 0 <= i < |roster| ==> 0 <= roster[i].rating) ==> outcome.gap <= outcome.teamRed[0].rating)
  {
    var pool := FilterPool(roster, f);
    var availableCount := |pool|;
    if availableCount == 0 {
      outcome := EmptyPool;
    } else {
      var participants, shortfall := SelectParticipants(pool, teamSize);
      if forall i :: 0 <= i < |roster| ==> 0 <= roster[i].rating {
        DrawnFromRoster(roster, f, participants);
      }
      outcome := BalanceAndReport(participants, shortfall);
    }
  }
}
