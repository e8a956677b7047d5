/**
 * The explicit task-status reconciler: it remembers which tasks still need their status confirmed by the
 * resource manager, asks the driver to reconcile them at most once per throttle interval, and forgets a task
 * as soon as any status for it arrives.
 */
module ExplicitReconciler {
  import opened Wrappers
  import opened Tasks

  /**
   * The reconciler's state. `pending` maps each unconfirmed task id to its last-known status;
   * `lastRequestMs` is the clock reading of the last reconcile request actually sent (None: never sent);
   * `minIntervalMs` is the throttle interval between two requests.
   */
  datatype Reconciler = Reconciler(
    pending: map<string, TaskStatus>,
    lastRequestMs: Option<int>,
    minIntervalMs: nat)

  /** Every pending entry is keyed by the id of the status it stores. */
  ghost predicate Valid(r: Reconciler)
  {
    forall id :: id in r.pending ==> r.pending[id].taskId == id
  }

  /**
   * The ids of the tasks still waiting for a status. In a valid reconciler these are exactly the task ids
   * of the stored statuses.
   */
  function Remaining(r: Reconciler): (ids: set<string>)
    ensures Valid(r) ==> forall s :: s in r.pending.Values ==> s.taskId in ids
    ensures Valid(r) ==> forall id :: id in ids ==> id in r.pending && r.pending[id].taskId == id
  {
    r.pending.Keys
  }

  /** A new reconciler: nothing pending and no request sent yet. */
  function Init(minIntervalMs: nat): (r: Reconciler)
    ensures Valid(r)
    ensures IsReconciled(r) && Remaining(r) == {}
    ensures r.lastRequestMs.None? && r.minIntervalMs == minIntervalMs
  {
    Reconciler(map[], None, minIntervalMs)
  }

  /** True when no task is waiting for a status. */
  function IsReconciled(r: Reconciler): (b: bool)
    ensures b <==> Remaining(r) == {}
  {
    |r.pending| == 0
  }

  /**
   * Adds each fetched status under its task id, one after the other. An id that is already present keeps
   * its entry. The contract promises only that every entry is the earlier one or a fetched status for the id.
   */
  function Merge(pending: map<string, TaskStatus>, fetched: seq<TaskStatus>): (m: map<string, TaskStatus>)
    ensures m.Keys == pending.Keys + IdsOf(fetched)
    ensures forall id :: id in m ==>
      (id in pending && m[id] == pending[id]) || (m[id] in fetched && m[id].taskId == id)
    decreases |fetched|
  {
    if fetched == [] then pending
    else
      var s := fetched[0];
      IdsOfCons(fetched);
      Merge(if s.taskId in pending then pending else pending[s.taskId := s], fetched[1..])
  }

  /** `start()`: merges a freshly fetched snapshot of statuses into the pending map, keyed by task id. */
  function Start(r: Reconciler, fetched: seq<TaskStatus>): (r': Reconciler)
    ensures Remaining(r') == Remaining(r) + IdsOf(fetched)
    ensures forall id :: id in Remaining(r') - Remaining(r) ==> r'.pending[id] in fetched
    ensures forall id :: id in r.pending && id !in IdsOf(fetched) ==> r'.pending[id] == r.pending[id]
    ensures Valid(r) ==> Valid(r')
    ensures r'.lastRequestMs == r.lastRequestMs && r'.minIntervalMs == r.minIntervalMs
  {
    r.(pending := Merge(r.pending, fetched))
  }

  /** `update(status)`: a status arrived for `status.taskId`, whatever its state, so that task is confirmed. */
  function Update(r: Reconciler, status: TaskStatus): (r': Reconciler)
    ensures Remaining(r') == Remaining(r) - {status.taskId}
    ensures forall id :: id in r'.pending ==> r'.pending[id] == r.pending[id]
    ensures status.taskId !in Remaining(r) ==> r' == r
    ensures Valid(r) ==> Valid(r')
    ensures r'.lastRequestMs == r.lastRequestMs && r'.minIntervalMs == r.minIntervalMs
  {
    if status.taskId in r.pending then r.(pending := r.pending - {status.taskId}) else r
  }

  /** The throttle interval has passed since the last request, or no request was ever sent. */
  predicate IntervalElapsed(r: Reconciler, nowMs: int)
  {
    r.lastRequestMs.None? || nowMs - r.lastRequestMs.value >= r.minIntervalMs
  }

  /** The result of one `reconcile()` call: the next state and the collection sent to the driver, if any. */
  datatype ReconcileStep = ReconcileStep(next: Reconciler, sent: Option<set<TaskStatus>>)

  /**
   * `reconcile()` at clock reading `nowMs`: when tasks are pending and the interval has elapsed, asks the
   * driver to reconcile the last-known status of every pending task and records `nowMs`; otherwise does nothing.
   * An empty collection is never sent, since the driver reads that as a request for implicit reconciliation.
   */
  function Reconcile(r: Reconciler, nowMs: int): (step: ReconcileStep)
    ensures step.sent.Some? <==> !IsReconciled(r) && IntervalElapsed(r, nowMs)
    ensures step.sent.Some? ==> step.sent.value != {}
    ensures step.sent.Some? ==> forall id :: id in r.pending ==> r.pending[id] in step.sent.value
    ensures step.sent.Some? && Valid(r) ==>
      (forall s :: s in step.sent.value ==> s.taskId in r.pending && r.pending[s.taskId] == s)
    ensures step.sent.Some? && Valid(r) ==> |step.sent.value| == |Remaining(r)|
    ensures step.next.pending == r.pending && step.next.minIntervalMs == r.minIntervalMs
    ensures step.next.lastRequestMs == if step.sent.Some? then Some(nowMs) else r.lastRequestMs
  {
    if |r.pending| > 0 && IntervalElapsed(r, nowMs) then
      ValuesOfValidMap(r.pending);
      ReconcileStep(r.(lastRequestMs := Some(nowMs)), Some(r.pending.Values))
    else
      ReconcileStep(r, None)
  }

  /** Successive `start()` calls merge like one call on the concatenated snapshots. */
  lemma {:induction false} StartConcat(r: Reconciler, first: seq<TaskStatus>, second: seq<TaskStatus>)
    ensures Start(Start(r, first), second) == Start(r, first + second)
  {
    MergeConcat(r.pending, first, second);
  }

  lemma {:induction false} MergeConcat(pending: map<string, TaskStatus>, first: seq<TaskStatus>, second: seq<TaskStatus>)
    ensures Merge(Merge(pending, first), second) == Merge(pending, first + second)
    decreases |first|
  {
    if first != [] {
      var s := first[0];
      var pending' := if s.taskId in pending then pending else pending[s.taskId := s];
      assert (first + second)[0] == s;
      assert (first + second)[1..] == first[1..] + second;
      MergeConcat(pending', first[1..], second);
    } else {
      assert first + second == second;
    }
  }

  /**
   * Starting a fresh reconciler with N statuses of distinct tasks leaves exactly N tasks pending, and it is
   * reconciled exactly when N is zero.
   */
  lemma StartFresh(minIntervalMs: nat, fetched: seq<TaskStatus>)
    requires DistinctIds(fetched)
    ensures Remaining(Start(Init(minIntervalMs), fetched)) == IdsOf(fetched)
    ensures |Remaining(Start(Init(minIntervalMs), fetched))| == |fetched|
    ensures IsReconciled(Start(Init(minIntervalMs), fetched)) <==> fetched == []
  {
    DistinctIdsCount(fetched);
  }

  /** Re-supplying only tasks that are already pending does not change which tasks are pending. */
  lemma StartResupply(r: Reconciler, fetched: seq<TaskStatus>)
    requires IdsOf(fetched) <= Remaining(r)
    ensures Remaining(Start(r, fetched)) == Remaining(r)
    // the size assertion after the merging `start()` in ExplicitReconcilerTest.java:104
    ensures |Remaining(Start(r, fetched))| == |Remaining(r)|
  {
  }

  /** Only the task id of an update matters: two statuses for the same task have the same effect. */
  lemma UpdateIgnoresState(r: Reconciler, status: TaskStatus, other: TaskStatus)
    requires status.taskId == other.taskId
    ensures Update(r, status) == Update(r, other)
  {
  }

  /** Once a status for a task has arrived, the next `reconcile()` does not ask about that task. */
  lemma UpdateThenReconcile(r: Reconciler, status: TaskStatus, nowMs: int)
    requires Valid(r)
    ensures var step := Reconcile(Update(r, status), nowMs);
      step.sent.Some? ==> forall s :: s in step.sent.value ==> s.taskId != status.taskId
  {
  }

  /**
   * The throttle: after a request sent at `sentMs`, a call earlier than `sentMs + minIntervalMs` sends nothing,
   * and a call at or after it sends again as long as tasks are pending.
   */
  lemma Throttle(r: Reconciler, sentMs: int, nowMs: int)
    requires Reconcile(r, sentMs).sent.Some?
    ensures var next := Reconcile(r, sentMs).next;
      Reconcile(next, nowMs).sent.Some? <==> nowMs >= sentMs + r.minIntervalMs
  {
  }

  /** What the scheduler does to the reconciler: a fetched snapshot, an incoming status, or a clock tick. */
  datatype Action =
    | Fetched(statuses: seq<TaskStatus>)
    | StatusReceived(status: TaskStatus)
    | Tick(nowMs: int)

  /** Applies one action; only a tick may call the driver. */
  function Step(r: Reconciler, a: Action): (step: ReconcileStep)
    ensures !a.Tick? ==> step.sent.None?
    ensures step.sent.Some? ==> step.sent.value != {}
    ensures Valid(r) ==> Valid(step.next)
    ensures step.next.minIntervalMs == r.minIntervalMs
  {
    match a
    case Fetched(statuses) => ReconcileStep(Start(r, statuses), None)
    case StatusReceived(status) => ReconcileStep(Update(r, status), None)
    case Tick(nowMs) => Reconcile(r, nowMs)
  }

  /** The final state after a run of actions and the collections sent to the driver, in order. */
  datatype Trace = Trace(final: Reconciler, driverCalls: seq<set<TaskStatus>>)

  /**
   * Runs a sequence of actions. Whatever the actions, the driver is never sent an empty collection, it is
   * called at most once per tick, and the pending map stays keyed by task id.
   */
  function Run(r: Reconciler, actions: seq<Action>): (t: Trace)
    ensures forall i :: 0 <= i < |t.driverCalls| ==> t.driverCalls[i] != {}
    ensures |t.driverCalls| <= Ticks(actions)
    ensures Valid(r) ==> Valid(t.final)
    ensures t.final.minIntervalMs == r.minIntervalMs
    decreases |actions|
  {
    if actions == [] then Trace(r, [])
    else
      var step := Step(r, actions[0]);
      var rest := Run(step.next, actions[1..]);
      Trace(rest.final, (if step.sent.Some? then [step.sent.value] else []) + rest.driverCalls)
  }

  /** Running two action sequences one after the other is running their concatenation. */
  lemma {:induction false} RunAppend(r: Reconciler, a: seq<Action>, b: seq<Action>)
    ensures Run(r, a + b).final == Run(Run(r, a).final, b).final
    ensures Run(r, a + b).driverCalls == Run(r, a).driverCalls + Run(Run(r, a).final, b).driverCalls
    decreases |a|
  {
    if a == [] {
      assert a + b == b;
    } else {
      var step := Step(r, a[0]);
      var first := if step.sent.Some? then [step.sent.value] else [];
      var mid := Run(step.next, a[1..]);
      var rest := Run(step.next, a[1..] + b);
      assert Run(r, a + b) == Trace(rest.final, first + rest.driverCalls) by {
        assert (a + b)[0] == a[0] && (a + b)[1..] == a[1..] + b;
      }
      assert Run(r, a) == Trace(mid.final, first + mid.driverCalls);
      RunAppend(step.next, a[1..], b);
      ConcatAssoc(first, mid.driverCalls, Run(mid.final, b).driverCalls);
    }
  }

  /** Sequence concatenation is associative. */
  lemma ConcatAssoc<T>(x: seq<T>, y: seq<T>, z: seq<T>)
    ensures x + (y + z) == (x + y) + z
  {
  }

  /**
   * A task that is not pending is never sent to the driver again, whatever statuses arrive and however the
   * clock moves, as long as no later snapshot fetches it again.
   */
  lemma {:induction false} ConfirmedNeverResent(r: Reconciler, id: string, actions: seq<Action>)
    requires Valid(r) && id !in r.pending
    requires forall i :: 0 <= i < |actions| && actions[i].Fetched? ==> id !in IdsOf(actions[i].statuses)
    ensures forall c, s :: c in Run(r, actions).driverCalls && s in c ==> s.taskId != id
    decreases |actions|
  {
    if actions != [] {
      var step := Step(r, actions[0]);
      assert id !in step.next.pending by {
        if actions[0].Fetched? {
          assert id !in IdsOf(actions[0].statuses);
        }
      }
      assert step.sent.Some? ==> forall s :: s in step.sent.value ==> s.taskId in r.pending;
      forall i | 0 <= i < |actions[1..]| && actions[1..][i].Fetched?
        ensures id !in IdsOf(actions[1..][i].statuses)
      {
        assert actions[1..][i] == actions[i + 1];
      }
      ConfirmedNeverResent(step.next, id, actions[1..]);
    }
  }

  /** The number of clock ticks among the actions. */
  function Ticks(actions: seq<Action>): nat
  {
    if actions == [] then 0 else (if actions[0].Tick? then 1 else 0) + Ticks(actions[1..])
  }

  /** A map whose every value is keyed by its own task id has as many distinct values as keys. */
  lemma ValuesOfValidMap(m: map<string, TaskStatus>)
    ensures (forall id :: id in m ==> m[id].taskId == id) ==> |m.Values| == |m.Keys|
  {
    if forall id :: id in m ==> m[id].taskId == id {
      ValidMapValuesCount(m);
    }
  }

  lemma {:induction false} ValidMapValuesCount(m: map<string, TaskStatus>)
    requires forall id :: id in m ==> m[id].taskId == id
    ensures |m.Values| == |m.Keys|
    decreases |m|
  {
    if |m| > 0 {
      var k :| k in m;
      var rest := m - {k};
      assert rest.Keys == m.Keys - {k};
      ValidMapValuesCount(rest);
      assert m.Values == rest.Values + {m[k]} by {
        forall v | v in m.Values
          ensures v in rest.Values + {m[k]}
        {
          var id :| id in m && m[id] == v;
          if id != k { assert rest[id] == v; }
        }
      }
      assert m[k] !in rest.Values;
    }
  }
}
