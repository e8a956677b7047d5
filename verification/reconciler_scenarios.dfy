/**
 * The scenarios of `ExplicitReconcilerTest`, replayed call by call from a fresh reconciler. Each scenario is
 * stated as transitions between named states, the clock standing at `DefaultTimeMs` until the
 * scenario moves it. A longer test is split into one lemma per phase; consecutive phases meet in the same
 * named state.
 */
module ExplicitReconcilerScenarios {
  import opened Wrappers
  import opened Tasks
  import opened ExplicitReconciler

  const Status1 := TaskStatus("task-1", Running)
  const Status2 := TaskStatus("task-2", Lost)
  const DefaultTimeMs := 12345

  /** Both tasks pending, with the given last-request reading. */
  function BothPending(minIntervalMs: nat, lastRequestMs: Option<int>): Reconciler
  {
    Reconciler(map["task-1" := Status1, "task-2" := Status2], lastRequestMs, minIntervalMs)
  }

  /** Only task-1 pending. */
  function Task1Pending(minIntervalMs: nat, lastRequestMs: Option<int>): Reconciler
  {
    Reconciler(map["task-1" := Status1], lastRequestMs, minIntervalMs)
  }

  /** Only task-2 pending. */
  function Task2Pending(minIntervalMs: nat, lastRequestMs: Option<int>): Reconciler
  {
    Reconciler(map["task-2" := Status2], lastRequestMs, minIntervalMs)
  }

  /** Nothing pending. */
  function NonePending(minIntervalMs: nat, lastRequestMs: Option<int>): Reconciler
  {
    Reconciler(map[], lastRequestMs, minIntervalMs)
  }

  /** The statuses stored in a one-entry map. */
  lemma ValuesOne(id: string, s: TaskStatus)
    ensures map[id := s].Values == {s}
  {
    assert s in map[id := s].Values by { assert map[id := s][id] == s; }
  }

  /** The statuses stored in a two-entry map with distinct keys. */
  lemma ValuesTwo(id1: string, s1: TaskStatus, id2: string, s2: TaskStatus)
    requires id1 != id2
    ensures map[id1 := s1, id2 := s2].Values == {s1, s2}
  {
    var m := map[id1 := s1, id2 := s2];
    assert m[id1] == s1 && m[id2] == s2;
  }

  /** Both statuses fetched into a fresh reconciler leave both tasks pending (the opening of two scenarios). */
  lemma StartBoth(minIntervalMs: nat)
    ensures Start(Init(minIntervalMs), [Status1, Status2]) == BothPending(minIntervalMs, None)
  {
    assert [Status1, Status2][1..] == [Status2];
    assert Merge(map[], [Status1, Status2]) == Merge(map["task-1" := Status1], [Status2]);
    assert [Status2][1..] == [];
  }

  /** Starting from an empty snapshot keeps the reconciler reconciled, and `reconcile()` then calls nothing. */
  lemma StartEmptyScenario(minIntervalMs: nat)
    ensures IsReconciled(Init(minIntervalMs))
    ensures Start(Init(minIntervalMs), []) == NonePending(minIntervalMs, None)
    ensures IsReconciled(NonePending(minIntervalMs, None)) && |Remaining(NonePending(minIntervalMs, None))| == 0
    ensures Reconcile(NonePending(minIntervalMs, None), DefaultTimeMs).sent.None?
  {
    assert Start(Init(minIntervalMs), []).pending == map[];
  }

  /*
   * `testUpdatesBeforeReconcile`: after `StartBoth`, updates that arrive before any request clear their
   * tasks one by one, and a repeated update changes nothing.
   */

  /** A status for task-1 leaves task-2 alone pending. */
  lemma UpdateFirstBeforeReconcile(minIntervalMs: nat)
    ensures Update(BothPending(minIntervalMs, None), Status1) == Task2Pending(minIntervalMs, None)
    ensures !IsReconciled(Task2Pending(minIntervalMs, None)) && Remaining(Task2Pending(minIntervalMs, None)) == {"task-2"}
  {
    assert map["task-1" := Status1, "task-2" := Status2] - {"task-1"} == map["task-2" := Status2];
  }

  /** A repeated task-1 status changes nothing; a task-2 status reconciles, and `reconcile()` then calls nothing. */
  lemma UpdateRepeatedThenSecond(minIntervalMs: nat)
    ensures Update(Task2Pending(minIntervalMs, None), Status1) == Task2Pending(minIntervalMs, None)
    ensures Update(Task2Pending(minIntervalMs, None), Status2) == NonePending(minIntervalMs, None)
    ensures IsReconciled(NonePending(minIntervalMs, None))
    ensures Reconcile(NonePending(minIntervalMs, None), DefaultTimeMs).sent.None?
  {
    assert Update(Task2Pending(minIntervalMs, None), Status2).pending == map[];
  }

  /*
   * `testReconcileSequence`: after `StartBoth`, and with an interval of at most 30 s, the five `reconcile()`
   * calls send both statuses, then nothing (same clock reading), then task-1 alone (30 s later), then nothing
   * twice once all is reconciled: two driver calls in all, of sizes 2 and 1.
   */

  /** The first request sends both stored statuses, two of them, and records the reading. */
  lemma SequenceFirstRequest(minIntervalMs: nat)
    ensures Reconcile(BothPending(minIntervalMs, None), DefaultTimeMs)
      == ReconcileStep(BothPending(minIntervalMs, Some(DefaultTimeMs)), Some({Status1, Status2}))
    ensures |{Status1, Status2}| == 2
  {
    ValuesTwo("task-1", Status1, "task-2", Status2);
  }

  /** Two task-2 statuses leave task-1 alone pending. */
  lemma SequenceUpdates(minIntervalMs: nat)
    ensures Update(BothPending(minIntervalMs, Some(DefaultTimeMs)), Status2) == Task1Pending(minIntervalMs, Some(DefaultTimeMs))
    ensures Update(Task1Pending(minIntervalMs, Some(DefaultTimeMs)), Status2) == Task1Pending(minIntervalMs, Some(DefaultTimeMs))
    ensures Remaining(Task1Pending(minIntervalMs, Some(DefaultTimeMs))) == {"task-1"}
  {
  }

  /** Throttled at the same reading, sent again 30 s later. */
  lemma SequenceThrottled(minIntervalMs: nat)
    requires 0 < minIntervalMs <= 30000
    ensures Reconcile(Task1Pending(minIntervalMs, Some(DefaultTimeMs)), DefaultTimeMs)
      == ReconcileStep(Task1Pending(minIntervalMs, Some(DefaultTimeMs)), None)
    ensures Reconcile(Task1Pending(minIntervalMs, Some(DefaultTimeMs)), DefaultTimeMs + 30000)
      == ReconcileStep(Task1Pending(minIntervalMs, Some(DefaultTimeMs + 30000)), Some({Status1}))
  {
    ValuesOne("task-1", Status1);
  }

  /** The task-1 status reconciles; later requests send nothing. */
  lemma SequenceEnd(minIntervalMs: nat)
    ensures Update(Task1Pending(minIntervalMs, Some(DefaultTimeMs + 30000)), Status1)
      == NonePending(minIntervalMs, Some(DefaultTimeMs + 30000))
    ensures IsReconciled(NonePending(minIntervalMs, Some(DefaultTimeMs + 30000)))
    ensures Reconcile(NonePending(minIntervalMs, Some(DefaultTimeMs + 30000)), DefaultTimeMs + 30000)
      == ReconcileStep(NonePending(minIntervalMs, Some(DefaultTimeMs + 30000)), None)
  {
    assert Update(Task1Pending(minIntervalMs, Some(DefaultTimeMs + 30000)), Status1).pending == map[];
  }

  /** The actions of `testReconcileSequence`, in order, in three phases. */
  function SequenceActions(): seq<Action>
  {
    SequenceOpening() + SequenceMiddle() + SequenceClosing()
  }

  /** Both tasks fetched, then the first request. */
  function SequenceOpening(): seq<Action>
  {
    [Fetched([Status1, Status2]), Tick(DefaultTimeMs)]
  }

  /** Two task-2 statuses, a throttled request and a request 30 s later. */
  function SequenceMiddle(): seq<Action>
  {
    [StatusReceived(Status2), StatusReceived(Status2), Tick(DefaultTimeMs), Tick(DefaultTimeMs + 30000)]
  }

  /** The task-1 status and two more requests. */
  function SequenceClosing(): seq<Action>
  {
    [StatusReceived(Status1), Tick(DefaultTimeMs + 30000), Tick(DefaultTimeMs + 30000)]
  }

  /** A run's driver calls are the first action's call, if any, followed by the rest of the run's calls. */
  lemma RunFirst(r: Reconciler, actions: seq<Action>, next: Reconciler, sent: Option<set<TaskStatus>>)
    requires actions != [] && Step(r, actions[0]) == ReconcileStep(next, sent)
    ensures Run(r, actions).final == Run(next, actions[1..]).final
    ensures Run(r, actions).driverCalls == (if sent.Some? then [sent.value] else []) + Run(next, actions[1..]).driverCalls
  {
  }

  /** The opening phase leaves both tasks pending after one call carrying both statuses. */
  lemma OpeningRun(minIntervalMs: nat)
    ensures Run(Init(minIntervalMs), SequenceOpening())
      == Trace(BothPending(minIntervalMs, Some(DefaultTimeMs)), [{Status1, Status2}])
  {
    var m := minIntervalMs;
    var acts := SequenceOpening();
    assert acts[1..] == [Tick(DefaultTimeMs)];
    assert Run(BothPending(m, None), [Tick(DefaultTimeMs)])
        == Trace(BothPending(m, Some(DefaultTimeMs)), [{Status1, Status2}]) by {
      SequenceFirstRequest(m);
      assert [Tick(DefaultTimeMs)][1..] == [];
      RunFirst(BothPending(m, None), [Tick(DefaultTimeMs)], BothPending(m, Some(DefaultTimeMs)), Some({Status1, Status2}));
    }
    assert Step(Init(m), acts[0]) == ReconcileStep(BothPending(m, None), None) by {
      StartBoth(m);
    }
    RunFirst(Init(m), acts, BothPending(m, None), None);
  }

  /** The middle phase leaves task-1 pending after one call carrying its status alone. */
  lemma MiddleRun(minIntervalMs: nat)
    requires 0 < minIntervalMs <= 30000
    ensures Run(BothPending(minIntervalMs, Some(DefaultTimeMs)), SequenceMiddle())
      == Trace(Task1Pending(minIntervalMs, Some(DefaultTimeMs + 30000)), [{Status1}])
  {
    var m := minIntervalMs;
    var acts := SequenceMiddle();
    SequenceUpdates(m);
    SequenceThrottled(m);
    assert acts[4..] == [];
    RunFirst(Task1Pending(m, Some(DefaultTimeMs)), acts[3..], Task1Pending(m, Some(DefaultTimeMs + 30000)), Some({Status1}));
    RunFirst(Task1Pending(m, Some(DefaultTimeMs)), acts[2..], Task1Pending(m, Some(DefaultTimeMs)), None);
    RunFirst(Task1Pending(m, Some(DefaultTimeMs)), acts[1..], Task1Pending(m, Some(DefaultTimeMs)), None);
    RunFirst(BothPending(m, Some(DefaultTimeMs)), acts, Task1Pending(m, Some(DefaultTimeMs)), None);
  }

  /** The closing phase reconciles task-1 and calls the driver no more. */
  lemma ClosingRun(minIntervalMs: nat)
    ensures Run(Task1Pending(minIntervalMs, Some(DefaultTimeMs + 30000)), SequenceClosing())
      == Trace(NonePending(minIntervalMs, Some(DefaultTimeMs + 30000)), [])
  {
    var m := minIntervalMs;
    var later := DefaultTimeMs + 30000;
    var acts := SequenceClosing();
    SequenceEnd(m);
    assert acts[3..] == [];
    RunFirst(NonePending(m, Some(later)), acts[2..], NonePending(m, Some(later)), None);
    RunFirst(NonePending(m, Some(later)), acts[1..], NonePending(m, Some(later)), None);
    RunFirst(Task1Pending(m, Some(later)), acts, NonePending(m, Some(later)), None);
  }

  /**
   * The whole of `testReconcileSequence`: with an interval of at most 30 s the driver is called exactly
   * twice, first with both statuses and then with task-1's alone, and every task ends reconciled.
   */
  lemma ReconcileSequenceDriverCalls(minIntervalMs: nat)
    requires 0 < minIntervalMs <= 30000
    ensures Run(Init(minIntervalMs), SequenceActions()).driverCalls == [{Status1, Status2}, {Status1}]
    ensures IsReconciled(Run(Init(minIntervalMs), SequenceActions()).final)
  {
    var m := minIntervalMs;
    OpeningRun(m);
    MiddleRun(m);
    ClosingRun(m);
    RunAppend(Init(m), SequenceOpening(), SequenceMiddle());
    RunAppend(Init(m), SequenceOpening() + SequenceMiddle(), SequenceClosing());
  }

  /**
   * The driver receives the stored status verbatim (task-2 as lost), and a later status for task-2 carrying
   * a different state still reconciles it.
   */
  lemma LostToRunningScenario(minIntervalMs: nat)
    ensures Start(Init(minIntervalMs), [Status2]) == Task2Pending(minIntervalMs, None)
    ensures !IsReconciled(Task2Pending(minIntervalMs, None)) && |Remaining(Task2Pending(minIntervalMs, None))| == 1
    ensures Reconcile(Task2Pending(minIntervalMs, None), DefaultTimeMs)
      == ReconcileStep(Task2Pending(minIntervalMs, Some(DefaultTimeMs)), Some({Status2}))
    ensures Update(Task2Pending(minIntervalMs, Some(DefaultTimeMs)), TaskStatus("task-2", Running))
      == NonePending(minIntervalMs, Some(DefaultTimeMs))
    ensures IsReconciled(NonePending(minIntervalMs, Some(DefaultTimeMs)))
    ensures Reconcile(NonePending(minIntervalMs, Some(DefaultTimeMs)), DefaultTimeMs).sent.None?
  {
    assert [Status2][1..] == [];
    assert Start(Init(minIntervalMs), [Status2]).pending == map["task-2" := Status2];
    ValuesOne("task-2", Status2);
    assert Update(Task2Pending(minIntervalMs, Some(DefaultTimeMs)), TaskStatus("task-2", Running)).pending == map[];
  }
}
