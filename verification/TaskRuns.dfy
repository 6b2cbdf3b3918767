/**
  The rows of scheduled agent tasks and of their runs, and the transactions that change them
  (`AgentTaskRun`, `AgentTask`, `finish_run_outcome`). Every transaction is atomic.
 */
module TaskRuns {
  import opened Wrappers

  type TaskId = nat
  type RunId = nat

  datatype Status = Waiting | Running | Success | Failed | Interrupted

  /** When a task is due: once at a date, or repeatedly */
  datatype Trigger = Once(runAt: string) | Repeated(cron: string)

  datatype TaskRow = TaskRow(enabled: bool, status: Status, lastRun: Option<RunId>, trigger: Trigger)

  /** A run keeps a snapshot of what it was claimed for. */
  datatype RunRow = RunRow(task: TaskId, trigger: Trigger, status: Status)

  /** The tables, with the history of the run identities used and of the runs brought to an end, in order */
  datatype Db = Db(tasks: map<TaskId, TaskRow>, runs: map<RunId, RunRow>, used: set<RunId>, ended: seq<RunId>)
  {
    predicate Admits(task: TaskId) {
      task in tasks && tasks[task].enabled && tasks[task].status != Running
    }

    predicate IsRunning(run: RunId) {
      run in runs && runs[run].status == Running
    }

    /** The row may be edited or deleted. */
    predicate IsIdle(task: TaskId) {
      task in tasks && tasks[task].status != Running
    }

    /** `begin_run` */
    function Begin(task: TaskId, run: RunId): Db {
      if !Admits(task) || run in used then this
      else
        this.(tasks := tasks[task := tasks[task].(status := Running, lastRun := Some(run))],
              runs := runs[run := RunRow(task, tasks[task].trigger, Running)], used := used + {run})
    }

    /** The row shows this run. */
    predicate IsLatest(run: RunId)
      requires run in runs
    {
      runs[run].task in tasks && tasks[runs[run].task].lastRun == Some(run)
    }

    /** `finish_run`, which disables a task that was due once */
    function Finish(run: RunId, success: bool): Db {
      if !IsRunning(run) then this
      else
        var r, status := runs[run], if success then Success else Failed;
        var db := this.(runs := runs[run := r.(status := status)], ended := ended + [run]);
        if !IsLatest(run) then db
        else
          var row := tasks[r.task];
          var disabled := r.trigger.Once? && row.trigger == r.trigger;
          db.(tasks := tasks[r.task := row.(status := status, enabled := row.enabled && !disabled)])
    }

    /** `finish_run_outcome` reads the row again in the same transaction. */
    function Outcome(run: RunId, success: bool): FinishOutcome {
      var db := Finish(run, success);
      var updated :=
        IsRunning(run) && db.IsLatest(run) && db.tasks[runs[run].task].status == if success then Success else Failed;
      FinishOutcome(IsRunning(run), updated, updated && runs[run].trigger.Once? && !db.tasks[runs[run].task].enabled)
    }

    /** `interrupt_task`, of a start that finds a task still marked as running */
    function Interrupt(task: TaskId): Db {
      if task !in tasks || tasks[task].status != Running then this
      else
        var tasks' := tasks[task := tasks[task].(status := Interrupted)];
        match tasks[task].lastRun
        case None => this.(tasks := tasks')
        case Some(run) =>
          if IsRunning(run) && runs[run].task == task
          then this.(tasks := tasks', runs := runs[run := runs[run].(status := Interrupted)], ended := ended + [run])
          else this
    }

    function Add(task: TaskId, trigger: Trigger): Db {
      if task in tasks then this else this.(tasks := tasks[task := TaskRow(true, Waiting, None, trigger)])
    }

    /** `update_task` */
    function Edit(task: TaskId, enabled: bool, trigger: Trigger, waits: bool): Db {
      if !IsIdle(task) then this
      else
        var row := tasks[task];
        var status := if waits then Waiting else row.status;
        this.(tasks := tasks[task := row.(enabled := enabled, trigger := trigger, status := status)])
    }

    /** `delete_task_and_runs` */
    function Delete(task: TaskId): Db {
      if !IsIdle(task) then this
      else this.(tasks := tasks - {task}, runs := map r | r in runs && runs[r].task != task :: runs[r])
    }

    /** A running run is the one its task's row shows, with the trigger that the row still has. */
    ghost predicate RunsMatchRows() {
      && (forall r :: IsRunning(r) ==>
            && IsLatest(r)
            && var row := tasks[runs[r].task]; row.status == Running && row.enabled && row.trigger == runs[r].trigger)
      && (forall t :: t in tasks && tasks[t].status == Running && tasks[t].lastRun.Some? ==>
            IsRunning(tasks[t].lastRun.value) && runs[tasks[t].lastRun.value].task == t)
    }

    /** A run that was ever begun is running or has ended, once. */
    ghost predicate HistoryMatches() {
      && runs.Keys <= used
      && (forall r :: r in used ==> (r in ended <==> !IsRunning(r)))
      && (forall r :: r in ended ==> r in used)
      && (forall i, j :: 0 <= i < j < |ended| ==> ended[i] != ended[j])
    }

    ghost predicate Valid() {
      RunsMatchRows() && HistoryMatches()
    }
  }

  datatype FinishOutcome = FinishOutcome(runFinalized: bool, projectionUpdated: bool, dateTaskDisabled: bool)

  datatype Transaction =
    | Begin(task: TaskId, run: RunId)
    | Finish(run: RunId, success: bool)
    | Interrupt(task: TaskId)
    | Add(task: TaskId, trigger: Trigger)
    | Edit(task: TaskId, enabled: bool, trigger: Trigger, waits: bool)
    | Delete(task: TaskId)

  function After(db: Db, t: Transaction): Db {
    match t
    case Begin(task, run) => db.Begin(task, run)
    case Finish(run, success) => db.Finish(run, success)
    case Interrupt(task) => db.Interrupt(task)
    case Add(task, trigger) => db.Add(task, trigger)
    case Edit(task, enabled, trigger, waits) => db.Edit(task, enabled, trigger, waits)
    case Delete(task) => db.Delete(task)
  }

  function AfterAll(db: Db, ts: seq<Transaction>): Db
    decreases |ts|
  {
    if ts == [] then db else AfterAll(After(db, ts[0]), ts[1..])
  }

  // ----- every transaction keeps the tables consistent

  lemma EndedOnce(db: Db, db': Db, run: RunId)
    requires db.HistoryMatches() && db.IsRunning(run)
    requires db'.ended == db.ended + [run] && db'.used == db.used
    requires db'.runs.Keys == db.runs.Keys && !db'.IsRunning(run)
    requires forall r :: r in db.runs && r != run ==> db'.runs[r] == db.runs[r]
    ensures db'.HistoryMatches()
  {
    assert forall r :: r != run ==> (db'.IsRunning(r) <==> db.IsRunning(r));
    assert run !in db.ended;
  }

  lemma BeginKeeps(db: Db, task: TaskId, run: RunId)
    requires db.Valid()
    ensures db.Begin(task, run).Valid()
  {
  }

  lemma FinishKeeps(db: Db, run: RunId, success: bool)
    requires db.Valid()
    ensures db.Finish(run, success).Valid()
  {
    var db' := db.Finish(run, success);
    if db.IsRunning(run) {
      EndedOnce(db, db', run);
      hide Db.HistoryMatches;
      assert forall r :: r != run ==> (db'.IsRunning(r) <==> db.IsRunning(r));
    }
  }

  lemma InterruptKeeps(db: Db, task: TaskId)
    requires db.Valid()
    ensures db.Interrupt(task).Valid()
  {
    var db' := db.Interrupt(task);
    if task in db.tasks && db.tasks[task].status == Running && db.tasks[task].lastRun.Some? {
      var run := db.tasks[task].lastRun.value;
      EndedOnce(db, db', run);
      hide Db.HistoryMatches;
      assert forall r :: r != run ==> (db'.IsRunning(r) <==> db.IsRunning(r));
    }
  }

  lemma DeleteKeeps(db: Db, task: TaskId)
    requires db.Valid()
    ensures db.Delete(task).Valid()
  {
    var db' := db.Delete(task);
    if db.IsIdle(task) {
      assert forall r :: db.IsRunning(r) ==> db.runs[r].task != task;
      assert forall r :: db'.IsRunning(r) <==> db.IsRunning(r);
    }
  }

  lemma TransactionKeeps(db: Db, t: Transaction)
    requires db.Valid()
    ensures After(db, t).Valid()
  {
    match t
    case Begin(task, run) => BeginKeeps(db, task, run);
    case Finish(run, success) => FinishKeeps(db, run, success);
    case Interrupt(task) => InterruptKeeps(db, task);
    case Add(task, trigger) =>
    case Edit(task, enabled, trigger, waits) =>
    case Delete(task) => DeleteKeeps(db, task);
  }

  lemma {:induction false} TransactionsKeep(db: Db, ts: seq<Transaction>)
    requires db.Valid()
    ensures AfterAll(db, ts).Valid()
    decreases |ts|
  {
    hide After, Db.Valid;
    if ts != [] {
      TransactionKeeps(db, ts[0]);
      TransactionsKeep(After(db, ts[0]), ts[1..]);
    }
  }

  /**
    Whatever transactions come in whatever order: no task has two running runs, none of its
    rows is changed while one runs, and a run that was ever begun is running or has ended once.
   */
  lemma RunsEndOnce(ts: seq<Transaction>, run: RunId)
    ensures
      var db := AfterAll(Db(map[], map[], {}, []), ts);
      && (forall r, q :: db.IsRunning(r) && db.IsRunning(q) && db.runs[r].task == db.runs[q].task ==> r == q)
      && (forall r :: db.IsRunning(r) ==>
            db.runs[r].task in db.tasks && !db.IsIdle(db.runs[r].task)
            && db.tasks[db.runs[r].task].trigger == db.runs[r].trigger)
      && (run in db.used ==> multiset(db.ended)[run] == if db.IsRunning(run) then 0 else 1)
  {
    var empty := Db(map[], map[], {}, []);
    assert empty.Valid();
    TransactionsKeep(empty, ts);
    var db := AfterAll(empty, ts);
    hide AfterAll;
    Occurrences(db.ended, run);
  }

  lemma {:induction false} Occurrences(rs: seq<RunId>, run: RunId)
    requires forall i, j :: 0 <= i < j < |rs| ==> rs[i] != rs[j]
    ensures multiset(rs)[run] == if run in rs then 1 else 0
  {
    if rs != [] {
      var rest := rs[..|rs| - 1];
      Occurrences(rest, run);
      assert rs == rest + [rs[|rs| - 1]];
    }
  }

  // ----- what the transactions of others do to one run

  /** A transaction that neither begins nor finishes the run */
  predicate IsForeign(t: Transaction, run: RunId) {
    !(t.Begin? && t.run == run) && !(t.Finish? && t.run == run)
  }

  predicate AllForeign(ts: seq<Transaction>, run: RunId) {
    forall i :: 0 <= i < |ts| ==> IsForeign(ts[i], run)
  }

  /**
    Between `a` and `b` others acted: the run was not begun, it was left running, or it was
    interrupted; once it has ended it stays as it is until it is deleted.
   */
  ghost predicate Tracks(a: Db, b: Db, run: RunId) {
    && b.Valid() && a.ended <= b.ended
    && (run in b.used <==> run in a.used)
    && (run in b.runs ==>
          && run in a.runs
          && (b.runs[run] == a.runs[run]
              || (a.IsRunning(run) && b.runs[run] == a.runs[run].(status := Interrupted))))
  }

  lemma ForeignTracks(db: Db, t: Transaction, run: RunId)
    requires db.Valid() && IsForeign(t, run)
    ensures Tracks(db, After(db, t), run)
  {
    TransactionKeeps(db, t);
  }

  lemma TracksTwice(a: Db, b: Db, c: Db, run: RunId)
    requires Tracks(a, b, run) && Tracks(b, c, run)
    ensures Tracks(a, c, run)
  {
  }

  lemma {:induction false} ForeignersTrack(db: Db, ts: seq<Transaction>, run: RunId)
    requires db.Valid() && AllForeign(ts, run)
    ensures Tracks(db, AfterAll(db, ts), run)
    decreases |ts|
  {
    hide After, Tracks, IsForeign;
    if ts == [] {
      StillTracks(db, run);
    } else {
      ForeignTracks(db, ts[0], run);
      assert After(db, ts[0]).Valid() by {
        TransactionKeeps(db, ts[0]);
      }
      ForeignersTrack(After(db, ts[0]), ts[1..], run);
      TracksTwice(db, After(db, ts[0]), AfterAll(db, ts), run);
    }
  }

  lemma StillTracks(db: Db, run: RunId)
    requires db.Valid()
    ensures Tracks(db, db, run)
  {
  }

  // ----- what the rows show after a transaction

  /** A running run of this task was due once. */
  predicate RunsOnce(db: Db, run: RunId, task: TaskId) {
    db.IsRunning(run) && db.runs[run].task == task && db.runs[run].trigger.Once?
  }

  /**
    The rows after a finalisation: a running run has succeeded or failed as it was told, its
    task's row shows the same, and is disabled exactly if the run was due once; a run that is
    not running is left alone, and so is every other row.
   */
  lemma FinishedRows(db: Db, run: RunId, success: bool)
    requires db.Valid()
    ensures
      var db' := db.Finish(run, success);
      && db'.runs.Keys == db.runs.Keys && db'.tasks.Keys == db.tasks.Keys
      && (forall r :: r in db.runs && (r != run || !db.IsRunning(run)) ==> db'.runs[r] == db.runs[r])
      && (db.IsRunning(run) ==>
            && db'.runs[run].task == db.runs[run].task && db'.runs[run].trigger == db.runs[run].trigger
            && (db'.runs[run].status == Success <==> success) && (db'.runs[run].status == Failed <==> !success))
    ensures
      var db' := db.Finish(run, success);
      && (forall t :: t in db.tasks && !(db.IsRunning(run) && db.runs[run].task == t) ==> db'.tasks[t] == db.tasks[t])
      && (db.IsRunning(run) ==>
            var t := db.runs[run].task;
            && t in db.tasks && db'.tasks[t].status == db'.runs[run].status
            && db'.tasks[t].lastRun == db.tasks[t].lastRun && db'.tasks[t].trigger == db.tasks[t].trigger)
      && (forall t :: t in db.tasks ==> (db'.tasks[t].enabled <==> db.tasks[t].enabled && !RunsOnce(db, run, t)))
  {
    hide Db.HistoryMatches;
  }

  /** A claim that its row admits leaves a running run with the row's trigger, which the row shows; no other changes. */
  lemma BegunRows(db: Db, task: TaskId, run: RunId)
    requires db.Valid() && run !in db.used
    ensures
      var db' := db.Begin(task, run);
      && (db'.IsRunning(run) <==> task in db.tasks && db.tasks[task].enabled && db.tasks[task].status != Running)
      && (db'.IsRunning(run) ==>
            && db'.runs[run] == RunRow(task, db.tasks[task].trigger, Running)
            && db'.tasks[task] == TaskRow(true, Running, Some(run), db.tasks[task].trigger))
      && (!db'.IsRunning(run) ==> db' == db)
      && (forall r :: r in db.runs ==> r in db'.runs && db'.runs[r] == db.runs[r])
      && (forall t :: t in db.tasks ==> t in db'.tasks && (t != task ==> db'.tasks[t] == db.tasks[t]))
  {
  }

  /** An interruption ends the one running run of a task that is marked as running, and no other. */
  lemma InterruptedRows(db: Db, task: TaskId)
    requires db.Valid()
    ensures
      var db' := db.Interrupt(task);
      && db'.runs.Keys == db.runs.Keys && db'.tasks.Keys == db.tasks.Keys
      && (forall r :: r in db.runs ==>
            db'.runs[r] ==
              if db.IsRunning(r) && db.runs[r].task == task then db.runs[r].(status := Interrupted) else db.runs[r])
      && (forall t :: t in db.tasks ==>
            db'.tasks[t] == if t == task && !db.IsIdle(t) then db.tasks[t].(status := Interrupted) else db.tasks[t])
  {
    hide Db.HistoryMatches;
  }

  /** A deletion takes an idle task with exactly its own runs; a running or unknown one it leaves alone. */
  lemma DeletedRows(db: Db, task: TaskId)
    ensures
      var db', deleted := db.Delete(task), task in db.tasks && db.tasks[task].status != Running;
      && (forall t :: t in db'.tasks <==> t in db.tasks && !(deleted && t == task))
      && (forall r :: r in db'.runs <==> r in db.runs && !(deleted && db.runs[r].task == task))
      && (forall t :: t in db'.tasks ==> db'.tasks[t] == db.tasks[t])
      && (forall r :: r in db'.runs ==> db'.runs[r] == db.runs[r])
      && db'.used == db.used && db'.ended == db.ended
  {
  }

  /**
    Among all transactions only two change whether a task is enabled: the end of a run that was
    due once, which disables it, and an edit while it is idle.
   */
  lemma EnabledChangesExactly(db: Db, e: Transaction, t: TaskId)
    requires db.Valid() && t in db.tasks && t in After(db, e).tasks
    ensures After(db, e).tasks[t].enabled != db.tasks[t].enabled <==>
      || (e.Finish? && RunsOnce(db, e.run, t))
      || (e.Edit? && e.task == t && db.tasks[t].status != Running && e.enabled != db.tasks[t].enabled)
  {
    hide Db.HistoryMatches;
    if e.Finish? {
      FinishedRows(db, e.run, e.success);
    } else if e.Interrupt? {
      InterruptedRows(db, e.task);
    }
    hide Db.Finish, Db.Interrupt;
  }

  /** A finalisation reports exactly when it ended the run, and when that disabled the task. */
  lemma DisabledExactly(db: Db, run: RunId, success: bool)
    requires db.Valid()
    ensures db.Outcome(run, success).dateTaskDisabled <==> db.IsRunning(run) && db.runs[run].trigger.Once?
    ensures db.Outcome(run, success).runFinalized <==> db.Finish(run, success).ended == db.ended + [run]
    ensures db.Outcome(run, success).projectionUpdated == db.Outcome(run, success).runFinalized
    ensures db.Outcome(run, success).dateTaskDisabled <==>
      exists t :: t in db.tasks && t in db.Finish(run, success).tasks
        && db.tasks[t].enabled && !db.Finish(run, success).tasks[t].enabled
  {
    FinishedRows(db, run, success);
    if RunsOnce(db, run, if db.IsRunning(run) then db.runs[run].task else 0) {
      assert db.tasks[db.runs[run].task].enabled;
    }
  }
}
