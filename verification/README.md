# Player-statistics puller: verified model of its core

This project models the core of a small Rust service. The service polls an external
ranking service for a tracked population of players and keeps a follower table in an embedded
redb store. Three pieces of the Rust code are modelled as pure Dafny functions, each with
proved properties:

- **`ping_player`** (`Api`). This fetches one player and derives the player's total match count. It flattens
  the optional list of ratings and treats a missing count as 0. It sums the counts in `i64`
  and casts the result to `u64`. The fetch is an oracle parameter: a function from the `i64`
  request id to a response or an error. A rating's `match_count` is modelled as an optional
  `i64`.
- **`pulling_players_response`** (`Jobs`). This reads the tracked population and computes the
  pacing period `60000 / len` ms. It launches one fetch per tracked entry, then keeps only the
  successful responses, in completion order. Timers and the task set are abstracted away:
  - the pacing is kept as the period value;
  - `outcomes[i]` is how the task for the i-th entry ended;
  - `completed` is the order in which `join_next` yields those outcomes, which is any
    permutation of them.
- **`Db::insert_follow_table` / `Db::qurey_follow_table`** (`Table`). The follower multimap is a
  state `map<Uid, set<Uid>>`, keyed by followee. The state also records whether redb has created
  the table yet. A store failure is an explicit `Option` input naming the step that fails.
  A query takes the state and returns only its result, so it cannot change the state.

Helper modules: `Wrappers` (`Option`, `Result`) and `Ints` (`i64`/`u64` and the `as` casts
between them, written out as two's complement).

The model follows the code where it departs from the intended behaviour:
- An empty tracked population divides by zero, although an empty population is meant to be a
  no-op.
- The puller does not derive match counts or write anything back to the store. The code stops at
  a "write to the database here" comment (src/apps/jobs.rs:21).

## Model

| member | source | states |
|---|---|---|
| Ints.WrapI64 | src/net/api.rs:15 | the wrapping `i64` addition of `.sum::<i64>()` in a release build: the result lies in `i64`, is congruent to the exact value modulo 2^64, and equals it when it fits |
| Ints.AsU64 | src/net/api.rs:15 | `as u64` on the `i64` sum is its residue modulo 2^64 |
| Ints.AsI64 | src/apps/jobs.rs:37 | `id as i64` (also `uid as i64` in src/net/api.rs:8) is congruent to the id modulo 2^64 and equals it below 2^63 |
| Ints.AsI64Injective | src/net/api.rs:8 | `uid as i64` is injective, so distinct player ids are never sent as the same request id |
| Api.SumI64 | src/net/api.rs:14-15 | the wrapping `i64` sum is congruent modulo 2^64 to the exact sum of the contributions |
| Api.DeriveMatchCount | src/net/api.rs:9-15 | an absent ratings list gives 0; otherwise the count is the exact total of present counts (absent ones as 0) reduced modulo 2^64 |
| Api.PingPlayer | src/net/api.rs:7-18 | the service is asked for `uid as i64`; a fetch error is propagated unchanged and yields no count; a success yields the total modulo 2^64 |
| Api.AbsentCountContributesZero | src/net/api.rs:14 | a rating with no `match_count`, anywhere in the list, leaves the derived count unchanged |
| Api.DerivedIsExactWithoutOverflow | src/net/api.rs:13-15 | if the exact total lies in [0, 2^63), the derived count equals it |
| Api.TotalMatchesPermutation | src/net/api.rs:13-15 | the exact total is the same for any reordering of the ratings |
| Api.DeriveMatchCountOrderIndependent | src/net/api.rs:9-15 | the derived count does not depend on the order of the ratings |
| Api.AppendRatingAddsCount | src/net/api.rs:14-15 | appending a rating with count c adds c to the derived count modulo 2^64 |
| Api.AppendRatingAddsCountExactly | src/net/api.rs:14-15 | with non-negative counts and no overflow, appending a rating with count c adds exactly c |
| Jobs.LaunchDelay | src/apps/jobs.rs:32-33 | the delay d is the floor quotient: d·len ≤ 60000 < (d+1)·len, and d ≥ 1 exactly when len ≤ 60000 |
| Jobs.LaunchDelayUnique | src/apps/jobs.rs:33 | any d with d·len ≤ 60000 < (d+1)·len is the computed delay |
| Jobs.IntervalPeriod | src/apps/jobs.rs:33 | the interval is built exactly when 1 ≤ len ≤ 60000, with the floor period p ≥ 1 ms (p·len ≤ 60000 < (p+1)·len); len 0 panics on division, len > 60000 on a zero period |
| Jobs.Launches | src/apps/jobs.rs:35-40 | one fetch per entry, in order, each requesting that entry's id as `i64` |
| Jobs.LaunchesIgnoreStoredCounts | src/apps/jobs.rs:35 | the stored counts play no part: populations with the same ids launch the same fetches |
| Jobs.LaunchesDistinct | src/apps/jobs.rs:37 | entries with distinct ids get distinct requests |
| Jobs.Successes | src/apps/jobs.rs:41-50 | the kept responses, as a multiset, are exactly the successful outcomes; API and join errors are dropped; at most one per task |
| Jobs.CollectResults | src/apps/jobs.rs:41-50 | the collection loop keeps each successful response as often as the tasks yielded it |
| Jobs.SuccessesOrderIndependent | src/apps/jobs.rs:42 | the collected multiset does not depend on the order in which tasks complete |
| Jobs.NothingDroppedIffAllSucceed | src/apps/jobs.rs:43-49 | as many responses as tasks are kept exactly when every task joined with a successful fetch |
| Jobs.AllSucceededKeepsAll | src/apps/jobs.rs:42-50 | if every task joined with a successful fetch, one response per task is kept |
| Jobs.FailureIsDropped | src/apps/jobs.rs:46-48 | a single API error or join error leaves fewer responses than tasks |
| Jobs.PullPlayers | src/apps/jobs.rs:29-52 | a population read error is returned before any launch; len 0 and len > 60000 panic before any launch; otherwise the period is the floor of 60000 / len (p·len ≤ 60000 < (p+1)·len), one launch per entry, and the results are the successful outcomes as a multiset |
| Jobs.PullPlayersOrderIndependent | src/apps/jobs.rs:42-51 | two runs that differ only in completion order return the same multiset of responses |
| Jobs.EmptyPopulationPanics | src/apps/jobs.rs:32-33 | an empty population makes the code panic on division by zero |
| Jobs.LargePopulationPanics | src/apps/jobs.rs:33 | a population of 60001 entries makes the code panic on a zero interval period |
| Jobs.GuardedPeriod | src/apps/jobs.rs:33 | the corrected period never panics, keeps period·len ≤ 60000, and is the floor delay for len ≥ 1 |
| Jobs.PullPlayersGuarded | src/apps/jobs.rs:29-52 | the corrected puller never panics: an empty population returns no responses and launches nothing; otherwise the period is the floor of 60000 / len (0, unpaced, above 60000 entries), with the same launches and results as the code |
| Jobs.GuardedAgreesWhenNoPanic | src/apps/jobs.rs:29-52 | wherever the code as written does not panic, the corrected puller returns the same outcome |
| Table.InsertFollow | src/database/table.rs:35-42 | a failing step leaves the state unchanged and returns its error; success creates the table and adds exactly (followee, follower); every other followee's set is unchanged; validity is preserved |
| Table.QueryFollowers | src/database/table.rs:24-34 | succeeds exactly when no step fails and the table exists; a failing step's error is passed on unchanged, and a missing table (past `begin_read`) gives `TableDoesNotExist`; the result lists the followee's follower set without duplicates, in ascending order |
| Table.InsertThenQueryFinds | src/database/table.rs:24-42 | after inserting (a, b), querying a succeeds and contains b |
| Table.InsertIdempotent | src/database/table.rs:35-42 | in a valid state, inserting a pair already present leaves the state unchanged |
| Table.InsertTwiceIsOnce | src/database/table.rs:35-42 | inserting the same pair twice gives the same state as inserting it once |
| Table.InsertCommutes | src/database/table.rs:35-42 | two insertions give the same state in either order |
| Table.QueryUnfollowedIsEmpty | src/database/table.rs:24-33 | once the table exists, a followee never followed is reported with an empty list |
| Table.QueryBeforeAnyInsertFails | src/database/table.rs:27-28 | on a fresh store the table cannot be opened for reading, so the query is an error, not an empty list |
| Table.QueryHasNoDuplicates | src/database/table.rs:24-31 | a successful query contains no id twice |

## Left out

- The outer 120-second loop and its detached `tokio::spawn` per cycle (src/apps/jobs.rs:10-28) are not modelled. They are concurrency and timers with no sequential behaviour to state.
- Real sleeping, interval ticking and `JoinSet` scheduling are not modelled. The model keeps only the pacing period and the multiset of task outcomes.
- `player_id_get` is not modelled. It is a network call, so it appears as an oracle parameter (`Api.PingPlayer`) or as given task outcomes (`Jobs`).
- The `error!` and `println!` logging of dropped outcomes is not modelled. It is output only.
- `get_all_player_matchcounts` and `insert_player_matchcount_table` are not part of this model. Their definitions are not among the source files, so the tracked population is an input `Result` of entries.
- `Db::new` and redb file creation, durability and I/O are not modelled. They are foreign library calls. Store failures are injected per step instead.
- `PING_STATUS_TABLE` is not modelled. It is declared but never used.
- Deriving match counts and writing results back to the store are not modelled, because the code does not implement them.
- Removing follow edges and the player-record table are not modelled. No source for them exists.
- src/main.rs is not modelled. It only wires the process together and seeds three ids.
- The query and its ordering are ghost functions (`Table.QueryFollowers`), because picking a set's minimum uses a non-deterministic choice. The ascending order reflects how redb stores multimap values.
- Table.QueryFollowers: store faults are injected per step regardless of the data, so a `ReadValue` fault is reported even for a followee with no followers, where the code reads no value and so cannot fail at that step.
- Api.DeriveMatchCount: uses release-build semantics, where `i64` addition wraps. A debug build panics on overflow instead. The two agree whenever no partial sum overflows.
- Api.PlayerResponse: keeps only `name` and `ratings`. The service's other response fields are not read by this core.

## Findings

| source | as written | input that shows it | evidently intended | confidence | as-written member | corrected member |
|---|---|---|---|---|---|---|
| src/apps/jobs.rs:32-33 | `time::interval(Duration::from_millis(60000 / len as u64))` with no guard on `len` | an empty tracked population (division by zero); 60001 entries (delay 0, and `time::interval` panics on a zero period) | an empty population returns no responses; a delay that rounds to 0 launches without pacing | high for the empty population; medium for the large one, which rests on tokio's documented panic for a zero period; not executed | Jobs.PullPlayers (shown by Jobs.EmptyPopulationPanics, Jobs.LargePopulationPanics) | Jobs.PullPlayersGuarded (Jobs.GuardedAgreesWhenNoPanic) |
