/** `pulling_players_response` (src/apps/jobs.rs): read the tracked
    population, launch one paced fetch per entry, and keep the successful
    responses in whatever order the tasks complete. Timers, sleeping and task
    scheduling are abstracted away: the pacing is kept as the period value, and
    the tasks' outcomes are inputs. */
module Jobs {
  import opened Wrappers
  import opened Ints
  import opened Api

  /** The wall-clock budget, in milliseconds, over which one cycle's launches
      are spread. */
  const FETCH_BUDGET_MS: nat := 60000

  /** One row of the match-count table: a tracked player id and its stored
      count (which the puller ignores). */
  datatype Entry = Entry(id: U64, count: U64)

  /** The failure of reading the tracked population from the store. */
  datatype PopulationError = PopulationError(reason: string)

  /** A task that could not be joined (it panicked or was cancelled). */
  datatype JoinError = JoinError(reason: string)

  /** What `join_next` yields for one launched task. */
  datatype JoinOutcome =
    | Joined(response: Result<PlayerResponse, ApiError>)
    | JoinFailed(error: JoinError)

  /** The two ways the pacing set-up panics: `60000 / len` with `len == 0`,
      and a zero period handed to `time::interval`, which rejects it. */
  datatype Panic = DivideByZero | ZeroPeriod

  /** The outcome of one call: the pacing period, the request id of every
      launched fetch in launch order and the collected responses; or the
      population read error; or a panic before anything was launched. */
  datatype PullOutcome =
    | Pulled(periodMs: nat, launched: seq<I64>, results: seq<PlayerResponse>)
    | PopulationReadFailed(error: PopulationError)
    | Panicked(reason: Panic)

  /** The per-launch delay `60000 / len` (floor division): the largest delay
      whose `len` repetitions fit in the budget. */
  function LaunchDelay(len: nat): (d: nat)
    requires len >= 1
    ensures d * len <= FETCH_BUDGET_MS < (d + 1) * len
    ensures d >= 1 <==> len <= FETCH_BUDGET_MS
  {
    FETCH_BUDGET_MS / len
  }

  /** The floor characterisation determines the delay uniquely. */
  lemma LaunchDelayUnique(len: nat, d: nat)
    requires len >= 1
    requires d * len <= FETCH_BUDGET_MS < (d + 1) * len
    ensures d == LaunchDelay(len)
  {
    var e := LaunchDelay(len);
    if d < e {
      MulMonotone(d + 1, e, len);
    } else if e < d {
      MulMonotone(e + 1, d, len);
    }
  }

  lemma MulMonotone(a: nat, b: nat, n: nat)
    requires a <= b
    ensures a * n <= b * n
  {
  }

  /** The pacing set-up as written: `time::interval(Duration::from_millis(60000
      / len))`. It panics for an empty population and, because the delay
      rounds down to 0, for more than 60000 entries. */
  function IntervalPeriod(len: nat): (r: Result<nat, Panic>)
    ensures len == 0 ==> r == Failure(DivideByZero)
    ensures len > FETCH_BUDGET_MS ==> r == Failure(ZeroPeriod)
    ensures r.Success? <==> 1 <= len <= FETCH_BUDGET_MS
    ensures r.Success? ==> r.value >= 1 && r.value * len <= FETCH_BUDGET_MS < (r.value + 1) * len
  {
    if len == 0 then Failure(DivideByZero)
    else if LaunchDelay(len) == 0 then Failure(ZeroPeriod)
    else Success(LaunchDelay(len))
  }

  /** The launch loop: one fetch per entry, in order, requesting the entry's
      id cast to `i64`; the stored count plays no part. */
  function Launches(population: seq<Entry>): (ids: seq<I64>)
    ensures |ids| == |population|
    ensures forall i :: 0 <= i < |population| ==> ids[i] == AsI64(population[i].id)
  {
    if population == [] then []
    else Launches(population[..|population| - 1]) + [AsI64(population[|population| - 1].id)]
  }

  /** Populations that track the same ids, whatever their stored counts,
      launch exactly the same fetches. */
  lemma LaunchesIgnoreStoredCounts(p: seq<Entry>, q: seq<Entry>)
    requires |p| == |q|
    requires forall i :: 0 <= i < |p| ==> p[i].id == q[i].id
    ensures Launches(p) == Launches(q)
  {
  }

  /** Distinct tracked ids lead to distinct requests. */
  lemma LaunchesDistinct(population: seq<Entry>, i: nat, j: nat)
    requires i < |population| && j < |population|
    requires population[i].id != population[j].id
    ensures Launches(population)[i] != Launches(population)[j]
  {
    AsI64Injective(population[i].id, population[j].id);
  }

  /** The responses kept from tasks joined in the given order: successful
      fetches are kept, API errors and join errors are dropped. Each response
      is kept exactly as often as a task yielded it. */
  function Successes(completed: seq<JoinOutcome>): (r: seq<PlayerResponse>)
    ensures |r| <= |completed|
    ensures forall p {:trigger multiset(r)[p]} :: multiset(r)[p] == multiset(completed)[Joined(Success(p))]
  {
    if completed == [] then []
    else
      var earlier := completed[..|completed| - 1];
      var last := completed[|completed| - 1];
      assert completed == earlier + [last];
      match last
      case Joined(Success(p)) => Successes(earlier) + [p]
      case _ => Successes(earlier)
  }

  /** The `while let Some(res) = set.join_next()` loop: push each successful
      response, log and drop everything else. */
  method CollectResults(completed: seq<JoinOutcome>) returns (results: seq<PlayerResponse>)
    ensures results == Successes(completed)
    ensures forall p :: multiset(results)[p] == multiset(completed)[Joined(Success(p))]
  {
    results := [];
    var i := 0;
    while i < |completed|
      invariant 0 <= i <= |completed|
      invariant results == Successes(completed[..i])
    {
      SuccessesStep(completed, i);
      match completed[i] {
        case Joined(Success(p)) =>
          results := results + [p];
        case Joined(Failure(_)) =>
        case JoinFailed(_) =>
      }
      i := i + 1;
    }
    assert completed[..i] == completed;
  }

  /** One iteration of the collection loop, on the prefix of length i + 1. */
  lemma SuccessesStep(completed: seq<JoinOutcome>, i: nat)
    requires i < |completed|
    ensures Successes(completed[..i + 1])
         == if Succeeded(completed[i])
            then Successes(completed[..i]) + [completed[i].response.value]
            else Successes(completed[..i])
  {
    assert completed[..i + 1][..i] == completed[..i];
  }

  /** The responses collected do not depend on the order the tasks complete
      in, as a multiset. */
  lemma SuccessesOrderIndependent(xs: seq<JoinOutcome>, ys: seq<JoinOutcome>)
    requires multiset(xs) == multiset(ys)
    ensures multiset(Successes(xs)) == multiset(Successes(ys))
  {
    forall p
      ensures multiset(Successes(xs))[p] == multiset(Successes(ys))[p]
    {
    }
  }

  /** Every launched task succeeded exactly when nothing was dropped. */
  lemma NothingDroppedIffAllSucceed(completed: seq<JoinOutcome>)
    ensures |Successes(completed)| == |completed| <==>
              forall i :: 0 <= i < |completed| ==> Succeeded(completed[i])
  {
    if forall i :: 0 <= i < |completed| ==> Succeeded(completed[i]) {
      AllSucceededKeepsAll(completed);
    } else {
      var k :| 0 <= k < |completed| && !Succeeded(completed[k]);
      FailureIsDropped(completed, k);
    }
  }

  /** When every task succeeded, every response is kept. */
  lemma {:induction false} AllSucceededKeepsAll(completed: seq<JoinOutcome>)
    requires forall i :: 0 <= i < |completed| ==> Succeeded(completed[i])
    ensures |Successes(completed)| == |completed|
  {
    if completed != [] {
      var n := |completed| - 1;
      assert forall i :: 0 <= i < n ==> completed[..n][i] == completed[i];
      AllSucceededKeepsAll(completed[..n]);
      SuccessesLastStep(completed);
    }
  }

  /** One failed or unjoinable task means fewer responses than tasks. */
  lemma {:induction false} FailureIsDropped(completed: seq<JoinOutcome>, k: nat)
    requires k < |completed| && !Succeeded(completed[k])
    ensures |Successes(completed)| < |completed|
  {
    var n := |completed| - 1;
    var rest := completed[..n];
    var kept, keptRest := |Successes(completed)|, |Successes(rest)|;
    assert keptRest <= n;
    assert kept == keptRest + (if Succeeded(completed[n]) then 1 else 0) by {
      SuccessesLastStep(completed);
    }
    if k < n {
      assert rest[k] == completed[k];
      FailureIsDropped(rest, k);
    }
  }

  /** Unfolding the collection once: the last outcome adds one response
      exactly when it succeeded. */
  lemma SuccessesLastStep(completed: seq<JoinOutcome>)
    requires completed != []
    ensures |Successes(completed)|
         == |Successes(completed[..|completed| - 1])| + (if Succeeded(completed[|completed| - 1]) then 1 else 0)
  {
  }

  /** The task joined and its fetch succeeded. */
  predicate Succeeded(o: JoinOutcome)
  {
    o.Joined? && o.response.Success?
  }

  /** The required link between the tasks: `outcomes[i]` is how the task for
      the i-th entry ended, and `completed` yields each of them once. */
  ghost predicate Joins(population: seq<Entry>, outcomes: seq<JoinOutcome>, completed: seq<JoinOutcome>)
  {
    |outcomes| == |population| && multiset(completed) == multiset(outcomes)
  }

  /** `pulling_players_response` as written. */
  function PullPlayers(read: Result<seq<Entry>, PopulationError>,
                       outcomes: seq<JoinOutcome>, completed: seq<JoinOutcome>): (r: PullOutcome)
    requires read.Success? && 1 <= |read.value| <= FETCH_BUDGET_MS ==> Joins(read.value, outcomes, completed)
    ensures read.Failure? ==> r == PopulationReadFailed(read.error)
    ensures read.Success? && |read.value| == 0 ==> r == Panicked(DivideByZero)
    ensures read.Success? && |read.value| > FETCH_BUDGET_MS ==> r == Panicked(ZeroPeriod)
    ensures r.Pulled? <==> read.Success? && 1 <= |read.value| <= FETCH_BUDGET_MS
    ensures r.Pulled? ==>
              && r.periodMs >= 1
              && r.periodMs * |read.value| <= FETCH_BUDGET_MS < (r.periodMs + 1) * |read.value|
              && |r.launched| == |read.value|
              && (forall i :: 0 <= i < |read.value| ==> r.launched[i] == AsI64(read.value[i].id))
              && |r.results| <= |read.value|
              && (forall p :: multiset(r.results)[p] == multiset(outcomes)[Joined(Success(p))])
  {
    match read
    case Failure(e) => PopulationReadFailed(e)
    case Success(population) =>
      match IntervalPeriod(|population|)
      case Failure(reason) => Panicked(reason)
      case Success(period) =>
        assert |completed| == |multiset(completed)| == |multiset(outcomes)| == |outcomes|;
        Pulled(period, Launches(population), Successes(completed))
  }

  /** Two runs that differ only in the order their tasks complete collect the
      same responses, as a multiset. */
  lemma PullPlayersOrderIndependent(read: Result<seq<Entry>, PopulationError>, outcomes: seq<JoinOutcome>,
                                    completed1: seq<JoinOutcome>, completed2: seq<JoinOutcome>)
    requires read.Success? && 1 <= |read.value| <= FETCH_BUDGET_MS ==>
               Joins(read.value, outcomes, completed1) && Joins(read.value, outcomes, completed2)
    ensures PullPlayers(read, outcomes, completed1).Pulled? <==> PullPlayers(read, outcomes, completed2).Pulled?
    ensures PullPlayers(read, outcomes, completed1).Pulled? ==>
              multiset(PullPlayers(read, outcomes, completed1).results)
              == multiset(PullPlayers(read, outcomes, completed2).results)
  {
    if read.Success? && 1 <= |read.value| <= FETCH_BUDGET_MS {
      SuccessesOrderIndependent(completed1, completed2);
    }
  }

  /** The empty population makes the code as written panic. */
  lemma EmptyPopulationPanics()
    ensures PullPlayers(Success([]), [], []) == Panicked(DivideByZero)
  {
  }

  /** 60001 tracked entries make the code as written panic on a zero period. */
  lemma LargePopulationPanics(population: seq<Entry>)
    requires |population| == FETCH_BUDGET_MS + 1
    ensures PullPlayers(Success(population), [], []) == Panicked(ZeroPeriod)
  {
  }

  /** Corrected pacing: an empty population needs no pacing, and a delay that
      rounds down to 0 means launching back to back instead of building a
      zero-period interval. */
  function GuardedPeriod(len: nat): (p: nat)
    ensures p * len <= FETCH_BUDGET_MS
    ensures len >= 1 ==> FETCH_BUDGET_MS < (p + 1) * len
  {
    if len == 0 then 0 else LaunchDelay(len)
  }

  /** `pulling_players_response` with the pacing corrected: an empty population
      is a no-op returning no responses, and a large one is launched unpaced. */
  function PullPlayersGuarded(read: Result<seq<Entry>, PopulationError>,
                              outcomes: seq<JoinOutcome>, completed: seq<JoinOutcome>): (r: PullOutcome)
    requires read.Success? ==> Joins(read.value, outcomes, completed)
    ensures read.Failure? ==> r == PopulationReadFailed(read.error)
    ensures r.Pulled? <==> read.Success?
    ensures read.Success? && |read.value| == 0 ==> r == Pulled(0, [], [])
    ensures r.Pulled? ==>
              && r.periodMs * |read.value| <= FETCH_BUDGET_MS
              && (|read.value| >= 1 ==> FETCH_BUDGET_MS < (r.periodMs + 1) * |read.value|)
              && |r.launched| == |read.value|
              && (forall i :: 0 <= i < |read.value| ==> r.launched[i] == AsI64(read.value[i].id))
              && |r.results| <= |read.value|
              && (forall p :: multiset(r.results)[p] == multiset(outcomes)[Joined(Success(p))])
  {
    match read
    case Failure(e) => PopulationReadFailed(e)
    case Success(population) =>
      assert |completed| == |multiset(completed)| == |multiset(outcomes)| == |outcomes|;
      Pulled(GuardedPeriod(|population|), Launches(population), Successes(completed))
  }

  /** Where the code as written does not panic, the corrected version behaves
      identically. */
  lemma GuardedAgreesWhenNoPanic(read: Result<seq<Entry>, PopulationError>,
                                 outcomes: seq<JoinOutcome>, completed: seq<JoinOutcome>)
    requires read.Success? ==> Joins(read.value, outcomes, completed)
    requires !PullPlayers(read, outcomes, completed).Panicked?
    ensures PullPlayersGuarded(read, outcomes, completed) == PullPlayers(read, outcomes, completed)
  {
  }
}
