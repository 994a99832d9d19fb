# Auto matchmaking and rank resolution, in Dafny

This project models the matchmaking logic of a Streamlit/Prisma admin dashboard that manages
players and rank tiers. It covers two parts.

- **The "Find Match" run** (`src/miniature/pages/dashboard.py`). The roster is narrowed to a
  rating band (All, Low `< 1000`, Mid `1000..2000`, High `> 2000`). If the pool is empty, the run
  stops with a warning. Otherwise it uses the whole pool when that holds at most
  `2 * team_size` players; a smaller pool also raises a shortfall notice. A larger pool is
  sampled down to exactly `2 * team_size` players. `greedy_balance_teams` then splits the
  participants into two teams. It sorts them by rating, highest first, and gives each one to the
  team whose running total is not larger, so ties go to team 1. The page reports each team's
  total and the gap between the totals.
- **Rank resolution and the player table** (`src/miniature/libs/database.py`, and its copy
  `libs/database.py`). `Rank.get_by_mmr` resolves the tier with the greatest `min_rating` that is
  not above the rating. `Player.create` refuses a rating that no tier covers. `Player.delete_by_name`
  refuses a name that no player has. Otherwise it deletes the first player with that name, by id.

The two `database.py` files share the same logic; only their imports and type annotations
differ. A line of `libs/database.py` is the line two above it in `src/miniature/libs/database.py`
(for example, `get_by_mmr` is at lines 9-17 there and at lines 7-15 here). One set of members
models both files, and the table below cites whichever copy is clearer for each row.

Modules, one per component:

- `Wrappers` (wrappers.dfy): `Option` and `Result`. They replace the source's `(success, value)` pairs.
- `Players` (players.dfy): the player snapshot, team totals (`Total`) and the gap (`Gap`).
- `TeamBalancer` (balance.dfy): the stable descending sort, the greedy deal as a function
  (`Deal`, one `Assign` per player), the loop as a method (`GreedyBalanceTeams`), and the lemmas
  about them.
- `Matchmaking` (matchmaking.dfy): the band filter, `random.sample`, participant selection,
  the report, and the whole run (`FindMatch`).
- `Ranks` (ranks.dfy): rank tiers and `GetByMmr`.
- `Database` (database.dfy): the class `Store`, which holds the tiers and the player list in
  memory instead of the Prisma client. It has the methods `Create` and `DeleteByName`.

`random.sample` is modelled as an arbitrary choice (`:|`), constrained only by its promise:
exactly `k` players taken from `k` distinct positions of the pool. Prisma's autoincrement id is
modelled as the `nextId` field of the store.

## Model

| member | source | states |
|---|---|---|
| TeamBalancer.SortByRatingDesc | src/miniature/pages/dashboard.py:21 | the sorted list is a permutation of the input (same multiset) and its ratings never increase |
| TeamBalancer.SortIsStable | src/miniature/pages/dashboard.py:21 | for every rating value, the players with that rating appear in the same order before and after sorting (Python's `sorted` is stable, also with `reverse=True`) |
| TeamBalancer.DealPartition | src/miniature/pages/dashboard.py:23-36 | the greedy pass puts every player of its input into exactly one team: the two teams' multisets add up to the input's, and their lengths add up to its length |
| TeamBalancer.DealFirst | src/miniature/pages/dashboard.py:28-31 | on a non-empty input the first player dealt opens team 1, because the totals start equal (0 and 0) and `sum_1 <= sum_2` sends ties to team 1 |
| TeamBalancer.DealDescending | src/miniature/pages/dashboard.py:28-34 | dealing a non-increasing sequence yields two non-increasing teams (each team only gets appends, in sorted order) |
| TeamBalancer.DealGap | src/miniature/pages/dashboard.py:25-34 | if every rating lies in `[0, bound]`, the two running totals end at most `bound` apart |
| TeamBalancer.BalancePartition | src/miniature/pages/dashboard.py:15-36 | `greedy_balance_teams` returns a partition of its input: no player is dropped or duplicated, `len(team_1) + len(team_2) == len(players)`, and the team totals add up to the input's total |
| TeamBalancer.BalanceTieBreak | src/miniature/pages/dashboard.py:21-31 | on a non-empty input team 1 is non-empty, and it opens with an input player rated at least as high as every input player |
| TeamBalancer.BalanceDescending | src/miniature/pages/dashboard.py:21-34 | both returned teams list their players highest rating first |
| TeamBalancer.BalanceGap | src/miniature/pages/dashboard.py:21-34 | with non-negative ratings, the final gap `abs(sum_1 - sum_2)` is at most the highest rating in the input, which is the rating of team 1's first player |
| TeamBalancer.BalanceEmptyAndSingle | src/miniature/pages/dashboard.py:23-36 | an empty input gives two empty teams, and a single player goes to team 1 |
| TeamBalancer.ThreePlayerScenario | src/miniature/pages/dashboard.py:21-36 | ratings 100, 700, 1200 give team 1 = [1200] and team 2 = [700, 100], with a gap of 400 |
| TeamBalancer.GreedyBalanceTeams | src/miniature/pages/dashboard.py:15-36 | the loop with `sum_1`/`sum_2` computes exactly the greedy deal of the sorted input, with the sums equal to the team totals at every step. It returns a permutation of the input split into two non-increasing teams, and team 1 opens with a top-rated player |
| Players.TotalPermutation | src/miniature/pages/dashboard.py:44 | a team's total `sum(p.rating for p in players)` depends only on who is in the team, not on their order |
| Matchmaking.KeepInBand | src/miniature/pages/dashboard.py:103-108 | the list comprehension keeps exactly the players in the band (Low `< 1000`, Mid `1000 <= r <= 2000`, High `> 2000`), with their multiplicity, as an order-preserving subsequence of the roster |
| Matchmaking.FilterPool | src/miniature/pages/dashboard.py:102-110 | the pool holds only players in the selected band, holds every such roster player as often as the roster does, and keeps roster order |
| Matchmaking.FilterAllIsRoster | src/miniature/pages/dashboard.py:109-110 | "All Ranks" uses the roster itself, unchanged |
| Matchmaking.BandsPartitionRoster | src/miniature/pages/dashboard.py:103-108 | the Low, Mid and High pools together are as long as the roster: each player falls in exactly one band |
| Matchmaking.Sample | src/miniature/pages/dashboard.py:129 | `random.sample(pool, k)` with `k <= len(pool)` returns exactly `k` players, drawn from distinct positions of the pool (a sub-multiset) |
| Matchmaking.SampleDistinct | src/miniature/pages/dashboard.py:129 | players drawn from a pool without duplicates are themselves without duplicates |
| Matchmaking.SelectParticipants | src/miniature/pages/dashboard.py:112-129 | a pool of at most `2 * team_size` players is used whole, and the shortfall notice fires exactly when it is smaller. A larger pool gives exactly `2 * team_size` of its players. Either way the count is `min(2 * team_size, len(pool))` |
| Matchmaking.BalanceAndReport | src/miniature/pages/dashboard.py:131-141 | the teams are the balancer's result for the participants. The reported totals are the teams' rating sums, and the gap is the absolute difference of the two sums. With non-negative ratings, the gap is at most the top participant's rating |
| Matchmaking.FindMatch | src/miniature/pages/dashboard.py:101-141 | an empty pool ends the run with the warning, and balancing never runs. Otherwise the participants, teams, totals, gap and shortfall flag are as selection and balancing define them. With non-negative ratings in the roster, the gap is at most Team Red's first rating |
| Ranks.GetByMmr | src/miniature/libs/database.py:7-15 | a resolved tier is one of the tiers, its `min_rating` is at most the rating, and no qualifying tier has a greater `min_rating`. The result is none exactly when every tier's `min_rating` is above the rating |
| Ranks.GetByMmrMonotone | libs/database.py:11-14 | raising the rating never loses the tier and never resolves to a tier with a smaller `min_rating` |
| Ranks.ThreeTierExample | libs/database.py:9-17 | with tiers Low 0, Mid 1000 and High 2000, ratings 999, 1000 and 2500 resolve to Low, Mid and High, and -1 resolves to none |
| Database.FindByName | libs/database.py:95-100 | `find_first(where name)` gives the position of the first player with that name, and gives none exactly when no player has it |
| Database.DeleteUniqueId | libs/database.py:109 | when player ids are unique, `delete(where id)` with the id of the player at position `i` removes exactly that player |
| Database.Store.Create | src/miniature/libs/database.py:113-127 | when no tier resolves for the rating, it fails and leaves the players and the id counter unchanged. Otherwise it appends exactly one player, with the given name and rating, a fresh id, and the resolved tier's id as `rank_id`. Tiers are untouched, and ids stay unique |
| Database.Store.DeleteByName | src/miniature/libs/database.py:101-110 | when no player has the name, it fails and changes nothing. Otherwise it removes exactly the first player with that name, returns it, and keeps everyone else in order. Tiers and the id counter are untouched |

## Left out

- Streamlit rendering is not modelled: widgets, metrics, data frames, toasts, spinners and session state. Only the values the page computes are kept, and the shortfall toast becomes a flag.
- The float average and its `.0f` formatting (`display_team_stats`, line 45) are not modelled; only the integer totals are.
- The `team_size` widget's bounds (1 to 10) are not required: every natural team size is accepted, and a size of 0 gives two empty teams.
- Matchmaking.Sample: says nothing about the uniform distribution of `random.sample`. It states only the size, membership and distinctness of the draw.
- The connection, the asyncio event loop and the `asyncio.sleep(0.5)` delay are timing and I/O, and are not modelled.
- Database errors are not modelled: connection failures and the exception-to-`(False, e)` wrapping. Only the two failures the code raises itself remain, as `StoreError` values.
- The schema's unique constraint on player names is enforced by the database, not by this code, so it is not modelled. Two players may share a name, and `DeleteByName` removes the first one.
- When tiers share a `min_rating`, the database decides which one `find_first` returns. `GetByMmr` takes the earliest such tier, and its contract does not depend on the choice. The code does not report duplicate thresholds as a data-integrity error, and neither does the model.
- The rest of the store API is not modelled: rank CRUD, `Player.update`, `update_by_name` and `get_all`'s ordering. These are direct pass-through calls with no logic of their own, and the matchmaking run accepts any roster order.
- The page-discovery helpers, `generate_random_string` and `pages/master.py` are UI glue, globbing or randomness with nothing to state, and are not modelled. That includes master.py's inverted warn/delete branch for ranks.
