/** The player table as `Player.create` and `Player.delete_by_name` use it:
    an in-memory list of tiers and players in place of the Prisma client. */
module Database {
  import opened Wrappers
  import opened Players
  import opened Ranks

  /** Why a store operation failed. */
  datatype StoreError = NoRankForRating(rating: int) | PlayerNotFound(name: string)

  /** `find_first(where={'name': name})`: the position of the first player
      with that name, if any. */
  function FindByName(players: seq<Player>, name: string): (r: Option<nat>)
    ensures r.Some? ==> r.value < |players| && players[r.value].name == name
    ensures r.Some? ==> forall j :: 0 <= j < r.value ==> players[j].name != name
    ensures r.None? <==> forall j :: 0 <= j < |players| ==> players[j].name != name
  {
    if players == [] then None
    else if players[0].name == name then Some(0)
    else
      match FindByName(players[1..], name)
      case None => None
      case Some(k) => Some(k + 1)
  }

  /** `delete(where={'id': id})` on the player list. */
  function DeleteById(players: seq<Player>, id: int): seq<Player>
  {
    if players == [] then []
    else if players[0].id == id then DeleteById(players[1..], id)
    else [players[0]] + DeleteById(players[1..], id)
  }

  /** No two players share an id. */
  predicate UniqueIds(players: seq<Player>)
  {
    forall i, j :: 0 <= i < j < |players| ==> players[i].id != players[j].id
  }

  /** Every player id is below `bound`. */
  predicate IdsBelow(players: seq<Player>, bound: int)
  {
    forall i :: 0 <= i < |players| ==> players[i].id < bound
  }

  /** With unique ids, deleting the id of the player at position `i` removes
      exactly that player. */
  lemma {:induction false} DeleteUniqueId(players: seq<Player>, i: nat)
    requires i < |players| && UniqueIds(players)
    ensures DeleteById(players, players[i].id) == players[..i] + players[i + 1..]
  {
    var id := players[i].id;
    var tail := players[1..];
    assert UniqueIds(tail) by {
      forall a, b | 0 <= a < b < |tail| ensures tail[a].id != tail[b].id {
        assert tail[a] == players[a + 1] && tail[b] == players[b + 1];
      }
    }
    if i == 0 {
      NoIdIn(tail, id, players);
      assert players[1..] == players[..0] + players[1..];
    } else {
      assert players[0].id != id;
      DeleteUniqueId(tail, i - 1);
      assert tail[i - 1] == players[i];
      assert players[..i] == [players[0]] + tail[..i - 1];
      assert players[i + 1..] == tail[i..];
    }
  }

  /** When `players[0]` holds `id` and ids are unique, no later player
      holds it, so deleting it from the tail changes nothing. */
  lemma NoIdIn(tail: seq<Player>, id: int, players: seq<Player>)
    requires players != [] && tail == players[1..] && players[0].id == id && UniqueIds(players)
    ensures DeleteById(tail, id) == tail
  {
    forall k | 0 <= k < |tail| ensures tail[k].id != id {
      assert tail[k] == players[k + 1];
    }
    DeleteAbsentId(tail, id);
  }

  lemma {:induction false} DeleteAbsentId(s: seq<Player>, id: int)
    requires forall k :: 0 <= k < |s| ==> s[k].id != id
    ensures DeleteById(s, id) == s
  {
    if s != [] {
      DeleteAbsentId(s[1..], id);
      assert s == [s[0]] + s[1..];
    }
  }

  /** Removing one player keeps ids unique and below the bound. */
  lemma RemoveAtKeepsIds(before: seq<Player>, i: nat, bound: int)
    requires i < |before| && UniqueIds(before)
    requires IdsBelow(before, bound)
    ensures UniqueIds(before[..i] + before[i + 1..])
    ensures IdsBelow(before[..i] + before[i + 1..], bound)
  {
    var after := before[..i] + before[i + 1..];
    forall a | 0 <= a < |after| ensures after[a] == before[if a < i then a else a + 1] {
    }
  }

  /** The database: the rank tiers, the players, and the id the next created
      player receives (the table's autoincrement). */
  class Store {
    var ranks: seq<Rank>
    var players: seq<Player>
    var nextId: int

    /** Player ids are unique and all below `nextId`. */
    ghost predicate Valid()
      reads this
    {
      && UniqueIds(players)
      && IdsBelow(players, nextId)
    }

    /** An empty player table over the given tiers. */
    constructor (tiers: seq<Rank>)
      ensures Valid()
      ensures ranks == tiers && players == [] && nextId == 1
    {
      ranks := tiers;
      players := [];
      nextId := 1;
    }

    /** `Player.create`: resolve the rating's tier; with none, fail and leave
        the table as it was; otherwise add one player carrying the tier's id. */
    method Create(name: string, rating: int) returns (result: Result<Player, StoreError>)
      requires Valid()
      modifies this
      ensures Valid() && ranks == old(ranks)
      ensures GetByMmr(ranks, rating).None? ==>
        && result == Failure(NoRankForRating(rating))
        && players == old(players) && nextId == old(nextId)
      ensures GetByMmr(ranks, rating).Some? ==>
        && result == Success(Player(old(nextId), name, rating, Some(GetByMmr(ranks, rating).value.id)))
        && players == old(players) + [result.value]
        && nextId == old(nextId) + 1
    {
      var rank := GetByMmr(ranks, rating);
      if rank.None? {
        result := Failure(NoRankForRating(rating));
      } else {
        var player := Player(nextId, name, rating, Some(rank.value.id));
        players := players + [player];
        nextId := nextId + 1;
        result := Success(player);
      }
    }

    /** `Player.delete_by_name`: find the first player with the name; with
        none, fail and change nothing; otherwise delete that player by id. */
    method DeleteByName(name: string) returns (result: Result<Player, StoreError>)
      requires Valid()
      modifies this
      ensures Valid() && ranks == old(ranks) && nextId == old(nextId)
      ensures FindByName(old(players), name).None? ==>
        result == Failure(PlayerNotFound(name)) && players == old(players)
      ensures FindByName(old(players), name).Some? ==>
        var i := FindByName(old(players), name).value;
        && result == Success(old(players)[i])
        && players == old(players)[..i] + old(players)[i + 1..]
    {
      var found := FindByName(players, name);
      if found.None? {
        result := Failure(PlayerNotFound(name));
      } else {
        var i := found.value;
        var player := players[i];
        DeleteUniqueId(players, i);
        players := DeleteById(players, player.id);
        result := Success(player);
        RemoveAtKeepsIds(old(players), i, nextId);
      }
    }
  }
}
