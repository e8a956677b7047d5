# Leadership lock and explicit task reconciliation

A Dafny model of the two start-up state machines of the dcos-commons scheduler SDK:

- **ExplicitReconciler** (`reconciler.dfy`). It keeps a map from task id to the last-known status of every
  task whose status the resource manager has not yet confirmed. `start` merges a snapshot fetched from the
  state store into that map. `update` drops the id of any status that arrives. `isReconciled` and `remaining`
  report on the map. `reconcile` asks the driver to reconcile the pending statuses. It does so only when some
  are pending and the throttle interval has passed since the last request it sent, and it then records the
  clock reading. The implementation class is not part of this model: its behaviour is taken from what
  `ExplicitReconcilerTest.java` asserts. The clock is a parameter of `Reconcile`. The fetched snapshot is a
  parameter of `Start`. The throttle interval is the field `minIntervalMs`. A driver call is returned as the
  set of statuses sent. `Run` replays a sequence of actions and returns the list of driver calls.
  `reconciler_scenarios.dfy` replays four of the six test methods call by call, one lemma per phase. The
  other two, `testStart` and `testStartMultipleTimes`, follow from `StartFresh` and from `Start` with
  `StartResupply`.
- **CuratorLocker** (`curator_locker.dfy`). This is the process-wide lock on the service's `lock` node in
  ZooKeeper. The static state holds the `enabled` switch, the `instance` slot and whether the shutdown hook is
  registered. Each instance has nullable `curatorClient` and `curatorMutex` slots. `lockInternal` tries to
  acquire at most `LOCK_ATTEMPTS` = 3 times. On success it keeps the mutex. Otherwise it clears the client and
  calls `exit()`. `unlockInternal` releases the mutex, swallowing a failed release, and then clears both
  slots. ZooKeeper is an oracle. Each acquire call's outcome (acquired, timed out, threw) comes from an input
  sequence, and a failing release is a boolean input. `exit()` is counted, not executed. The service-root-path
  and path-join conventions are supplied as a `PathConvention` value.

`wrappers.dfy` holds `Option` (Java `null`) and `Result` (a thrown `IllegalStateException`).
`tasks.dfy` holds the task status record `(taskId, state)`.

Two details of the code worth noting:

- `unlock()` with no instance is a silent no-op (`CuratorLocker.java:73-75`). Only `unlockInternal()` fails,
  with "Already unlocked".
- When acquisition fails, `lockInternal` only nulls the client slot (`CuratorLocker.java:128`). It does not
  close the client.

## Model

| member | source | states |
|---|---|---|
| ExplicitReconciler.Init | sdk/scheduler/src/test/java/com/mesosphere/sdk/scheduler/ExplicitReconcilerTest.java:53-59 | a fresh reconciler has nothing pending, is reconciled and has never sent a request |
| ExplicitReconciler.IsReconciled | sdk/scheduler/src/test/java/com/mesosphere/sdk/scheduler/ExplicitReconcilerTest.java:125-128 | `isReconciled()` holds exactly when `remaining()` is empty |
| ExplicitReconciler.Merge | sdk/scheduler/src/test/java/com/mesosphere/sdk/scheduler/ExplicitReconcilerTest.java:88-104 | merging fetched statuses yields exactly the old ids plus the fetched ids; every entry is the old one or a fetched status for that id |
| ExplicitReconciler.Start | sdk/scheduler/src/test/java/com/mesosphere/sdk/scheduler/ExplicitReconcilerTest.java:83-105 | `start` makes the pending ids the union of the old and fetched ids; a newly added id maps to a fetched status; an id absent from the snapshot keeps its stored status; the map stays keyed by task id; the timer is untouched |
| ExplicitReconciler.StartFresh | sdk/scheduler/src/test/java/com/mesosphere/sdk/scheduler/ExplicitReconcilerTest.java:72-80 | `start` on a fresh reconciler with N statuses of distinct tasks leaves N pending, and it is reconciled exactly when N = 0 |
| ExplicitReconciler.StartResupply | sdk/scheduler/src/test/java/com/mesosphere/sdk/scheduler/ExplicitReconcilerTest.java:100-104 | re-supplying only already-pending ids leaves `remaining()` and its size unchanged |
| ExplicitReconciler.StartConcat | sdk/scheduler/src/test/java/com/mesosphere/sdk/scheduler/ExplicitReconcilerTest.java:88-98 | two successive `start` calls equal one `start` on the concatenated snapshots |
| ExplicitReconciler.Remaining | sdk/scheduler/src/test/java/com/mesosphere/sdk/scheduler/ExplicitReconcilerTest.java:115-117 | in a well-formed reconciler, `remaining()` holds exactly the task ids of the stored statuses: every stored status's id is remaining, and every remaining id keys a status carrying that id |
| ExplicitReconciler.Update | sdk/scheduler/src/test/java/com/mesosphere/sdk/scheduler/ExplicitReconcilerTest.java:107-128 | `update(s)` removes exactly `s`'s id, every other entry keeps its status, and an id that is not pending changes nothing |
| ExplicitReconciler.UpdateIgnoresState | sdk/scheduler/src/test/java/com/mesosphere/sdk/scheduler/ExplicitReconcilerTest.java:206-214 | two statuses for the same task with different states have the same effect on `update` |
| ExplicitReconciler.Reconcile | sdk/scheduler/src/test/java/com/mesosphere/sdk/scheduler/ExplicitReconcilerTest.java:134-190 | the driver is called iff tasks are pending and the interval has elapsed (or nothing was sent yet); the call carries every stored status verbatim and one per pending task, is never empty, and records `now` |
| ExplicitReconciler.Throttle | sdk/scheduler/src/test/java/com/mesosphere/sdk/scheduler/ExplicitReconcilerTest.java:156-165 | after a request at time t, the next `reconcile()` sends again iff the clock reads at least t + interval |
| ExplicitReconciler.UpdateThenReconcile | sdk/scheduler/src/test/java/com/mesosphere/sdk/scheduler/ExplicitReconcilerTest.java:144-169 | once a status for a task arrived, the next `reconcile()` sends no status for that task |
| ExplicitReconciler.ConfirmedNeverResent | sdk/scheduler/src/test/java/com/mesosphere/sdk/scheduler/ExplicitReconcilerTest.java:144-181 | a task that is not pending (for instance, just updated) is never sent to the driver again over any run of updates and clock ticks, as long as no later snapshot re-fetches its id |
| ExplicitReconciler.Run | sdk/scheduler/src/test/java/com/mesosphere/sdk/scheduler/ExplicitReconcilerTest.java:176-187 | over any sequence of starts, updates and ticks, the driver is never sent an empty collection (no implicit reconciliation), is called at most once per tick, and the map stays keyed by task id |
| ExplicitReconciler.RunAppend | sdk/scheduler/src/test/java/com/mesosphere/sdk/scheduler/ExplicitReconcilerTest.java:134-190 | running two action sequences one after the other gives the same final state and the same driver calls, in order, as running their concatenation |
| ExplicitReconcilerScenarios.StartEmptyScenario | sdk/scheduler/src/test/java/com/mesosphere/sdk/scheduler/ExplicitReconcilerTest.java:57-70 | starting with an empty snapshot stays reconciled with nothing remaining, and `reconcile()` then calls nothing |
| ExplicitReconcilerScenarios.StartBoth | sdk/scheduler/src/test/java/com/mesosphere/sdk/scheduler/ExplicitReconcilerTest.java:109-110 | fetching task-1 and task-2 into a fresh reconciler leaves both pending with no request sent (the opening of the next two tests) |
| ExplicitReconcilerScenarios.UpdateFirstBeforeReconcile | sdk/scheduler/src/test/java/com/mesosphere/sdk/scheduler/ExplicitReconcilerTest.java:112-117 | before any request, a status for task-1 leaves task-2 alone remaining, not reconciled |
| ExplicitReconcilerScenarios.UpdateRepeatedThenSecond | sdk/scheduler/src/test/java/com/mesosphere/sdk/scheduler/ExplicitReconcilerTest.java:119-131 | a repeated task-1 status changes nothing; the task-2 status reconciles; `reconcile()` then calls nothing |
| ExplicitReconcilerScenarios.SequenceFirstRequest | sdk/scheduler/src/test/java/com/mesosphere/sdk/scheduler/ExplicitReconcilerTest.java:139-142 | the first `reconcile()` sends {task-1, task-2}, a call of size 2, and records the clock reading |
| ExplicitReconcilerScenarios.SequenceUpdates | sdk/scheduler/src/test/java/com/mesosphere/sdk/scheduler/ExplicitReconcilerTest.java:144-154 | two task-2 statuses leave task-1 alone remaining |
| ExplicitReconcilerScenarios.SequenceThrottled | sdk/scheduler/src/test/java/com/mesosphere/sdk/scheduler/ExplicitReconcilerTest.java:156-169 | with an interval in (0, 30000] ms, `reconcile()` at the same reading sends nothing, and 30 s later sends {task-1}, a call of size 1 |
| ExplicitReconcilerScenarios.SequenceEnd | sdk/scheduler/src/test/java/com/mesosphere/sdk/scheduler/ExplicitReconcilerTest.java:171-181 | the task-1 status reconciles, and the last two `reconcile()` calls send nothing |
| ExplicitReconcilerScenarios.ReconcileSequenceDriverCalls | sdk/scheduler/src/test/java/com/mesosphere/sdk/scheduler/ExplicitReconcilerTest.java:185-189 | with an interval in (0, 30000] ms, the whole action sequence of the test makes exactly two driver calls, {task-1, task-2} then {task-1}, and ends reconciled |
| ExplicitReconcilerScenarios.LostToRunningScenario | sdk/scheduler/src/test/java/com/mesosphere/sdk/scheduler/ExplicitReconcilerTest.java:192-215 | the driver receives the stored lost status of task-2 verbatim, and a running status for task-2 still reconciles it |
| CuratorLocker.InitialWf | sdk/scheduler/src/main/java/com/mesosphere/sdk/curator/CuratorLocker.java:25-27 | locking starts enabled with no instance, in a well-formed state |
| CuratorLocker.SetEnabledForTests | sdk/scheduler/src/main/java/com/mesosphere/sdk/curator/CuratorLocker.java:65-68 | `setEnabledForTests` sets the switch and leaves the instance and hook alone |
| CuratorLocker.LockPath | sdk/scheduler/src/main/java/com/mesosphere/sdk/curator/CuratorLocker.java:105 | the lock node is the service's root path joined with `LOCK_PATH_NAME` (`lock`); when joining separates roots, another service's lock node is the same one exactly when it has the same root path |
| CuratorLocker.AcquireLoop | sdk/scheduler/src/main/java/com/mesosphere/sdk/curator/CuratorLocker.java:112-127 | the loop makes at most 3 acquire calls; every call before the last timed out; it succeeds iff the last call acquired; it stops early only on a success or an exception |
| CuratorLocker.LockInternal | sdk/scheduler/src/main/java/com/mesosphere/sdk/curator/CuratorLocker.java:98-130 | fails with "Already locked" iff a client exists; otherwise makes 1 to 3 acquire calls, and on success keeps a mutex on `<service root>/lock` without calling `exit()`, and on failure clears the client, leaves the mutex slot alone and calls `exit()` once |
| CuratorLocker.UnlockInternal | sdk/scheduler/src/main/java/com/mesosphere/sdk/curator/CuratorLocker.java:136-148 | fails with "Already unlocked" iff no client exists; otherwise clears client and mutex whether or not the release fails |
| CuratorLocker.Lock | sdk/scheduler/src/main/java/com/mesosphere/sdk/curator/CuratorLocker.java:47-60 | disabled: changes nothing; instance present: "Already locked"; otherwise installs an instance for the service, registers the hook, and holds the lock exactly when no `exit()` was called; well-formedness is kept |
| CuratorLocker.Unlock | sdk/scheduler/src/main/java/com/mesosphere/sdk/curator/CuratorLocker.java:71-81 | no instance: changes nothing; otherwise unlocks the instance and clears the slot and the hook, or propagates "Already unlocked" unchanged; well-formedness is kept |
| CuratorLocker.LockSucceedsIff | sdk/scheduler/src/main/java/com/mesosphere/sdk/curator/CuratorLocker.java:114-129 | `lock()` avoids `exit()` exactly when a success arrives within 3 attempts before any exception |
| CuratorLocker.LockUnlockLock | sdk/scheduler/src/main/java/com/mesosphere/sdk/curator/CuratorLocker.java:47-81 | lock, unlock, lock again from the initial state: when each lock's acquire calls succeed within the 3 attempts, both locks hold the lock node, and the unlock restores the initial state |
| CuratorLocker.FailedLockLeavesInstance | sdk/scheduler/src/main/java/com/mesosphere/sdk/curator/CuratorLocker.java:125-129 | if acquisition fails and `exit()` returns, the instance remains without a client: `lock()` then fails "Already locked" and `unlock()` fails "Already unlocked" |

## Left out

- ExplicitReconciler.Merge: when `start` re-supplies a pending id, the contract does not say which status is kept. The tests assert only sizes. The model's body keeps the entry that was already pending.
- ExplicitReconciler.Start: does not promise which status a re-supplied id keeps, for the same reason. Ids that the snapshot does not mention keep their stored status.
- The implementation of `ExplicitReconciler` is not part of this model. Its constructor options are also left out: the default interval, any back-off, and any filtering of fetched statuses by state. The tests pin down none of these. A task with a lost status counts as pending, and an interval of at most 30 s lets the second request through.
- `start` leaving the last-request time untouched is a modelling choice, since the tests cannot observe it.
- Failures of the state store inside `start` and of the driver inside `reconcile` are not modelled. Whether such failures are wrapped or passed through cannot be told from the test alone. The snapshot is an argument, and the driver call is a returned value.
- Java `long` overflow in the clock arithmetic is not modelled. Clock readings are unbounded integers.
- Concurrency is not modelled. The `synchronized (INSTANCE_LOCK)` sections and the reconciler's one-at-a-time operations are atomic steps.
- Mutual exclusion between two processes (two schedulers contending for one node) is not modelled. It is the coordination service's guarantee, and that service is an oracle here.
- Building, starting and closing the ZooKeeper client, and their failures, are not modelled. A failing build or start would propagate out of `lock()` with the instance already set.
- The shutdown hook's body is not modelled, nor the runtime's refusal to register one hook twice. Only a `hookRegistered` flag is kept. Under `Wf` the hook is never registered twice.
- `ProcessExit.exit` and its exit status are not modelled. `exit()` is a counted event that returns, as the overridable method does in tests.
- Logging, `TimeUnit` and the 10-unit acquire wait are not modelled.
- CuratorLocker.LockInternal, CuratorLocker.Lock, CuratorLocker.AcquireLoop: the oracle must supply at least `LOCK_ATTEMPTS` outcomes (`requires |outcomes| >= LockAttempts`), one per acquire call that can happen.
