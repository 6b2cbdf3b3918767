/**
  One execution of a scheduled agent task: it is claimed, processed, and finalised, while the
  caller may be cancelled at every await and others use the database
  (`AgentTaskExecutionService`, `execute_scheduled_task`).

  A transaction that has started runs to completion. What happens at the awaits is given by
  scripts: sequences of ticks, after which everything goes well.
 */
module TaskExecution {
  import opened TaskRuns
  import opened Wrappers

  class TaskDatabase {
    var db: Db

    constructor (db: Db)
      ensures this.db == db
    {
      this.db := db;
    }

    /** The transaction of a claim; True if it created the run, whose identity is new. */
    method BeginRun(task: TaskId, run: RunId) returns (created: bool)
      requires run !in db.used
      modifies this
      ensures created <==>
        task in old(db).tasks && old(db).tasks[task].enabled && old(db).tasks[task].status != Running
      ensures db == old(db).Begin(task, run)
    {
      if task !in db.tasks || !db.tasks[task].enabled || db.tasks[task].status == Running {
        return false;
      }
      var row := db.tasks[task];
      db := db.(tasks := db.tasks[task := row.(status := Running, lastRun := Some(run))], used := db.used + {run});
      db := db.(runs := db.runs[run := RunRow(task, row.trigger, Running)]);
      return true;
    }

    /** The transaction of a finalisation */
    method FinishRun(run: RunId, success: bool) returns (outcome: FinishOutcome)
      modifies this
      ensures db == old(db).Finish(run, success) && outcome == old(db).Outcome(run, success)
    {
      var status := if success then Success else Failed;
      if run !in db.runs || db.runs[run].status != Running {
        return FinishOutcome(false, false, false);
      }
      var r := db.runs[run];
      db := db.(runs := db.runs[run := r.(status := status)], ended := db.ended + [run]);
      if r.task in db.tasks && db.tasks[r.task].lastRun == Some(run) {
        var row := db.tasks[r.task].(status := status);
        if r.trigger.Once? && row.trigger == r.trigger {
          row := row.(enabled := false);
        }
        db := db.(tasks := db.tasks[r.task := row]);
      }
      var updated := r.task in db.tasks && db.tasks[r.task].lastRun == Some(run) && db.tasks[r.task].status == status;
      return FinishOutcome(true, updated, updated && r.trigger.Once? && !db.tasks[r.task].enabled);
    }

    /** What others do to the database meanwhile: anything but beginning or finishing this run */
    method Meanwhile(others: seq<Transaction>, ghost run: RunId)
      requires db.Valid() && AllForeign(others, run)
      modifies this
      ensures db == AfterAll(old(db), others) && Tracks(old(db), db, run)
    {
      ForeignersTrack(db, others, run);
      db := AfterAll(db, others);
    }
  }

  // ----- the service

  /** A call of the scheduler's `remove_schedule` */
  datatype Removal = Removal(task: TaskId, generation: nat, run: RunId)

  /** What the scheduler passes along: the generation of its registration, and a callback */
  datatype Schedule = Schedule(generation: Option<nat>, canRemove: bool)
  {
    function Removals(task: TaskId, run: RunId, disabled: bool): seq<Removal> {
      if disabled && generation.Some? && canRemove then [Removal(task, generation.value, run)] else []
    }
  }

  /** While a transaction is awaited others act; then the worker is full, or it commits, or the caller is cancelled. */
  datatype Tick = Tick(others: seq<Transaction>, happens: Happening)

  /** A cancellation may find the transaction started. */
  datatype Happening = Overloaded | Commits | Cancelled(started: bool)

  predicate Foreign(script: seq<Tick>, run: RunId) {
    forall i :: 0 <= i < |script| ==> AllForeign(script[i].others, run)
  }

  function FirstTick(script: seq<Tick>): Tick {
    if script == [] then Tick([], Commits) else script[0]
  }

  function LaterTicks(script: seq<Tick>): seq<Tick> {
    if script == [] then [] else script[1..]
  }

  /** Whether the caller is cancelled before the terminal transaction has returned, or together with it */
  predicate CancelledWhileFinishing(script: seq<Tick>) {
    script != [] &&
    match script[0].happens
    case Overloaded => CancelledWhileFinishing(script[1..])
    case Cancelled(_) => true
    case Commits => |script| > 1 && script[1].happens.Cancelled?
  }

  predicate CancelledWhileClaiming(script: seq<Tick>) {
    script != [] &&
    match script[0].happens
    case Overloaded => CancelledWhileClaiming(script[1..])
    case Cancelled(_) => true
    case Commits => |script| > 1 && script[1].happens.Cancelled?
  }

  /** Whether the transaction of a claim is started at all */
  predicate Starts(script: seq<Tick>) {
    match FirstTick(script).happens
    case Overloaded => script != [] && Starts(script[1..])
    case Cancelled(started) => started
    case Commits => true
  }

  datatype ClaimResult = Claimed | Rejected(missingOrDisabled: bool) | ClaimWasCancelled

  class AgentTaskExecutionService {
    const database: TaskDatabase
    var removals: seq<Removal>

    constructor (database: TaskDatabase)
      ensures this.database == database && removals == []
    {
      this.database, removals := database, [];
    }

    /**
      `_finalize`. A cancellation is noted and let out only after the terminal transaction has
      returned; the schedule is removed at most once, and only for a task that it disabled.
      `at` is the database when that transaction began.
     */
    method Finalize(task: TaskId, run: RunId, success: bool, schedule: Schedule, script: seq<Tick>)
      returns (outcome: FinishOutcome, cancelled: bool, ghost at: Db)
      requires database.db.Valid() && Foreign(script, run)
      modifies this, database
      ensures Tracks(old(database.db), at, run)
      ensures database.db == at.Finish(run, success) && outcome == at.Outcome(run, success)
      ensures removals == old(removals) + schedule.Removals(task, run, outcome.dateTaskDisabled)
      ensures cancelled <==> CancelledWhileFinishing(script)
    {
      var rest := script;
      var done := false;
      cancelled, at := false, database.db;
      outcome := FinishOutcome(false, false, false);
      StillTracks(database.db, run);
      while !done
        invariant Foreign(rest, run) && removals == old(removals)
        invariant Tracks(old(database.db), at, run)
        invariant !done ==> at == database.db
        invariant done ==> database.db == at.Finish(run, success) && outcome == at.Outcome(run, success)
        invariant CancelledWhileFinishing(script) <==>
                  cancelled || if done then rest != [] && rest[0].happens.Cancelled? else CancelledWhileFinishing(rest)
        decreases !done, |rest|
      {
        hide Tracks, Db.Finish, Db.Outcome;
        var tick := FirstTick(rest);
        ghost var before := database.db;
        assert before.Valid() by {
          TrackedIsValid(old(database.db), before, run);
        }
        database.Meanwhile(tick.others, run);
        TracksTwice(old(database.db), before, database.db, run);
        rest := LaterTicks(rest);
        at := database.db;
        match tick.happens
        case Overloaded =>
        case Cancelled(_) => cancelled := true;
        case Commits =>
          outcome := database.FinishRun(run, success);
          done := true;
      }
      // A cancellation that comes together with the result is noted as well.
      if rest != [] && rest[0].happens.Cancelled? {
        cancelled := true;
      }
      if outcome.dateTaskDisabled && schedule.generation.Some? && schedule.canRemove {
        removals := removals + [Removal(task, schedule.generation.value, run)];
      }
    }

    /**
      `claim`. When it is cancelled after its transaction created the run, it first finalises
      the run as failed; that cannot be interrupted. `at` is the database when the transaction
      began, if it did; `ending` the one when the compensation began, if there was one.
     */
    method Claim(task: TaskId, run: RunId, schedule: Schedule, script: seq<Tick>, compensation: seq<Tick>)
      returns (result: ClaimResult, ghost at: Db, ghost ending: Db)
      requires database.db.Valid() && run !in database.db.used && Foreign(script, run) && Foreign(compensation, run)
      modifies this, database
      ensures result.ClaimWasCancelled? <==> CancelledWhileClaiming(script)
      ensures Tracks(old(database.db), at, run) && (result.Claimed? || result.Rejected? ==> Starts(script))
      ensures result.Claimed? ==> at.Admits(task) && database.db == at.Begin(task, run)
      ensures result.Rejected? ==> !at.Admits(task) && database.db == at
      ensures result.Rejected? ==> (result.missingOrDisabled <==> task !in at.tasks || !at.tasks[task].enabled)
      ensures result.ClaimWasCancelled? ==>
        if Starts(script) && at.Admits(task) then
          && Tracks(at.Begin(task, run), ending, run) && database.db == ending.Finish(run, false)
          && removals == old(removals) + schedule.Removals(task, run, ending.Outcome(run, false).dateTaskDisabled)
        else database.db == at
      ensures !(result.ClaimWasCancelled? && Starts(script) && at.Admits(task)) ==> removals == old(removals)
    {
      hide Tracks, Db.Finish, Db.Outcome;
      var rest := script;
      at, ending := database.db, database.db;
      StillTracks(database.db, run);
      while true
        invariant Foreign(rest, run) && removals == old(removals)
        invariant Tracks(old(database.db), database.db, run) && database.db.Valid() && run !in database.db.used
        invariant CancelledWhileClaiming(rest) == CancelledWhileClaiming(script) && Starts(rest) == Starts(script)
        decreases |rest|
      {
        var tick := FirstTick(rest);
        ghost var before := database.db;
        database.Meanwhile(tick.others, run);
        TracksTwice(old(database.db), before, database.db, run);
        TrackedIsValid(before, database.db, run);
        rest := LaterTicks(rest);
        at := database.db;
        var started := tick.happens.Commits? || (tick.happens.Cancelled? && tick.happens.started);
        var cancelled := tick.happens.Cancelled? || (tick.happens.Commits? && rest != [] && rest[0].happens.Cancelled?);
        var created, missing := false, false;
        if started {
          missing := task !in database.db.tasks || !database.db.tasks[task].enabled;
          created := database.BeginRun(task, run);
          BeginKeeps(at, task, run);
        }
        if cancelled {
          if created {
            var _, _, finishing := Finalize(task, run, false, schedule, compensation);
            ending := finishing;
          }
          result := ClaimWasCancelled;
          return;
        }
        if started {
          result := if created then Claimed else Rejected(missing);
          return;
        }
      }
    }
  }

  lemma TrackedIsValid(a: Db, b: Db, run: RunId)
    requires Tracks(a, b, run)
    ensures b.Valid() && (run in b.used <==> run in a.used)
  {
  }

  // ----- one execution

  /** How `process_message` ends; an ordinary error is reported, which may be cancelled or fail in turn */
  datatype Processing = Returned(accepted: bool) | Raised(reporting: Reporting) | ProcessingCancelled

  datatype Reporting = Reported | ReportingRaised | ReportingCancelled

  datatype Execution =
    | NotClaimed(missingOrDisabled: bool)
    | Completed(success: bool)
    | ExecutionRaised
    | ExecutionCancelled

  /** When the run was brought to its end: `at` is the database at the finalisation's transaction. */
  ghost predicate Finalised(before: seq<Removal>, after: seq<Removal>, at: Db, now: Db, task: TaskId, run: RunId,
                            schedule: Schedule, success: bool)
  {
    && at.Valid() && run in at.used && now == at.Finish(run, success)
    && (at.IsRunning(run) || run in at.ended)
    && after == before + schedule.Removals(task, run, at.IsRunning(run) && at.runs[run].trigger.Once?)
  }

  /**
    `execute_scheduled_task`, from the claim on. If a run was created it has ended afterwards:
    by the finalisation of this execution, or before that by an interruption. It ended as a
    success only if processing returned an accepted result. The schedule is removed exactly if
    the finalisation ended the run of a task that was due once.
   */
  method ExecuteScheduledTask(
    service: AgentTaskExecutionService, task: TaskId, run: RunId, schedule: Schedule, claiming: seq<Tick>,
    compensation: seq<Tick>, others: seq<Transaction>, processing: Processing, finishing: seq<Tick>)
    returns (execution: Execution, ghost created: bool, ghost at: Db)
    requires service.database.db.Valid() && run !in service.database.db.used
    requires Foreign(claiming, run) && Foreign(compensation, run) && AllForeign(others, run) && Foreign(finishing, run)
    modifies service, service.database
    ensures service.database.db.Valid()
    ensures created <==> run in service.database.db.used
    ensures created ==> Finalised(old(service.removals), service.removals, at, service.database.db, task, run, schedule,
              processing == Returned(true) && !CancelledWhileClaiming(claiming))
    ensures created ==> run in service.database.db.ended && !service.database.db.IsRunning(run)
    ensures created && run in service.database.db.runs && service.database.db.runs[run].status == Success ==>
              processing == Returned(true) && !CancelledWhileClaiming(claiming)
    ensures !created ==>
      && service.removals == old(service.removals)
      && service.database.db == at && Tracks(old(service.database.db), at, run)
      && (Starts(claiming) ==> !at.Admits(task))
    ensures execution.NotClaimed? <==> !created && !CancelledWhileClaiming(claiming)
    ensures execution.Completed? ==> created && (execution.success <==> processing == Returned(true))
    ensures execution.ExecutionRaised? ==> created && processing == Raised(ReportingRaised)
    ensures execution.ExecutionCancelled? <==>
      || CancelledWhileClaiming(claiming)
      || (created && (processing.ProcessingCancelled? || processing == Raised(ReportingCancelled)))
      || (created && CancelledWhileFinishing(finishing))
  {
    hide Tracks, Db.Finish, Db.Outcome, Db.Begin;
    var claim, claimedAt, ending := service.Claim(task, run, schedule, claiming, compensation);
    at := claimedAt;
    created := Starts(claiming) && claimedAt.Admits(task);
    TrackedIsValid(old(service.database.db), claimedAt, run);
    if created {
      BegunIsRunning(claimedAt, task, run);
    }
    match claim {
      case Rejected(missing) =>
        execution := NotClaimed(missing);
        return;
      case ClaimWasCancelled =>
        if created {
          at := ending;
          TrackedHasEnded(claimedAt.Begin(task, run), ending, run, false);
        }
        execution := ExecutionCancelled;
        return;
      case Claimed =>
    }
    ghost var begun := service.database.db;
    service.database.Meanwhile(others, run);
    ghost var processed := service.database.db;
    TrackedIsValid(begun, processed, run);
    var success := processing == Returned(true);
    var pending := match processing
      case Returned(_) => Completed(success)
      case ProcessingCancelled => ExecutionCancelled
      case Raised(Reported) => Completed(false)
      case Raised(ReportingRaised) => ExecutionRaised
      case Raised(ReportingCancelled) => ExecutionCancelled;
    // The `finally` of the execution
    var _, cancelled, finalisedAt := service.Finalize(task, run, success, schedule, finishing);
    at := finalisedAt;
    TracksTwice(begun, processed, at, run);
    TrackedHasEnded(begun, at, run, success);
    execution := if cancelled then ExecutionCancelled else pending;
  }

  lemma BegunIsRunning(db: Db, task: TaskId, run: RunId)
    requires db.Valid() && db.Admits(task) && run !in db.used
    ensures db.Begin(task, run).IsRunning(run) && db.Begin(task, run).Valid() && run in db.Begin(task, run).used
  {
    BeginKeeps(db, task, run);
  }

  /** Whatever others did to a running run, its finalisation leaves it ended. */
  lemma TrackedHasEnded(begun: Db, at: Db, run: RunId, success: bool)
    requires begun.Valid() && begun.IsRunning(run) && Tracks(begun, at, run)
    ensures
      var now := at.Finish(run, success);
      && at.Valid() && run in at.used && now.Valid() && run in now.used && (at.IsRunning(run) || run in at.ended)
      && run in now.ended && !now.IsRunning(run)
      && (run in now.runs && now.runs[run].status == Success ==> success)
      && (at.Outcome(run, success).dateTaskDisabled <==> at.IsRunning(run) && at.runs[run].trigger.Once?)
  {
    FinishKeeps(at, run, success);
    DisabledExactly(at, run, success);
  }
}
