/**
 * The process-wide leadership lock. Before a scheduler does anything else it takes an exclusive lock on a
 * node under its service's root path in the coordination service, trying a bounded number of times and ending
 * the process when it cannot. The coordination service itself is an oracle: each acquire call's outcome and
 * whether a release fails are inputs.
 */
module CuratorLocker {
  import opened Wrappers

  /** How many times the lock is requested before giving up. */
  const LockAttempts: nat := 3
  /** The name of the lock node under the service's root path. */
  const LockPathName: string := "lock"

  /**
   * The shared path conventions used to locate a service's nodes: the root path of a service and how two
   * path segments are joined. They live outside this component, so they are supplied rather than defined.
   */
  datatype PathConvention = PathConvention(serviceRootPath: string -> string, joinPaths: (string, string) -> string)

  /** Joining `LockPathName` onto two different root paths never yields the same path. */
  ghost predicate JoinSeparatesRoots(conv: PathConvention)
  {
    forall x, y :: conv.joinPaths(x, LockPathName) == conv.joinPaths(y, LockPathName) ==> x == y
  }

  /**
   * The node a service locks: its root path joined with `LockPathName`. When joining separates roots,
   * two services share a lock node exactly when they share a root path.
   */
  function LockPath(conv: PathConvention, serviceName: string): (p: string)
    ensures JoinSeparatesRoots(conv) ==> forall other ::
      (conv.serviceRootPath(other) == conv.serviceRootPath(serviceName)
       <==> conv.joinPaths(conv.serviceRootPath(other), LockPathName) == p)
  {
    conv.joinPaths(conv.serviceRootPath(serviceName), LockPathName)
  }

  /** A started coordination-service client. */
  datatype Client = StartedClient

  /** A held mutex on a coordination-service node. */
  datatype Mutex = Mutex(path: string)

  /** One locker instance: the service it locks for and its (nullable) client and mutex slots. */
  datatype Locker = Locker(serviceName: string, curatorClient: Option<Client>, curatorMutex: Option<Mutex>)

  /**
   * The static state: the test switch `enabled`, the `instance` slot, and whether the release-on-exit hook
   * is registered with the runtime.
   */
  datatype LockerState = LockerState(enabled: bool, instance: Option<Locker>, hookRegistered: bool)

  /** The two programming errors the locker fails fast on. */
  datatype LockError = AlreadyLocked | AlreadyUnlocked

  /** What one bounded acquire call does: obtains the lock, times out, or throws. */
  datatype AcquireOutcome = Acquired | TimedOut | Threw

  /** The initial static state: locking enabled, no instance, no hook. */
  function Initial(): LockerState
  {
    LockerState(true, None, false)
  }

  /**
   * The states the public operations keep: the hook is registered exactly while an instance exists, and an
   * instance holds a client exactly when it holds a mutex.
   */
  ghost predicate Wf(g: LockerState)
  {
    && (g.hookRegistered <==> g.instance.Some?)
    && (g.instance.Some? ==> (g.instance.value.curatorClient.Some? <==> g.instance.value.curatorMutex.Some?))
  }

  /** The state holds the lock on `path`: an instance with a live client and a mutex on that node. */
  ghost predicate Holds(g: LockerState, path: string)
  {
    && g.instance.Some?
    && g.instance.value.curatorClient.Some?
    && g.instance.value.curatorMutex == Some(Mutex(path))
  }

  /** `setEnabledForTests(enabled)`: flips the switch and nothing else. */
  function SetEnabledForTests(g: LockerState, enabled: bool): (g': LockerState)
    ensures g'.enabled == enabled
    ensures g'.instance == g.instance && g'.hookRegistered == g.hookRegistered
    ensures Wf(g) ==> Wf(g')
  {
    g.(enabled := enabled)
  }

  /** Where the acquire loop ended: whether the lock was obtained, and how many acquire calls were made. */
  datatype LoopEnd = LoopEnd(acquired: bool, calls: nat)

  /**
   * The acquire loop from attempt number `attempt` on (attempts are numbered 1 to `LockAttempts`); call k uses
   * `outcomes[k - 1]`. It stops at the first success, at the first exception, or after the last attempt.
   */
  function AcquireLoop(outcomes: seq<AcquireOutcome>, attempt: nat): (e: LoopEnd)
    requires 1 <= attempt <= LockAttempts + 1
    requires |outcomes| >= LockAttempts
    ensures attempt - 1 <= e.calls <= LockAttempts
    ensures forall k :: attempt - 1 <= k < e.calls - 1 ==> outcomes[k] == TimedOut
    ensures e.acquired <==> e.calls >= attempt && outcomes[e.calls - 1] == Acquired
    ensures e.calls >= attempt && outcomes[e.calls - 1] == TimedOut ==> e.calls == LockAttempts
    ensures e.calls < attempt ==> e.calls == LockAttempts
    decreases LockAttempts + 1 - attempt
  {
    if attempt > LockAttempts then LoopEnd(false, LockAttempts)
    else
      match outcomes[attempt - 1]
      case Acquired => LoopEnd(true, attempt)
      case Threw => LoopEnd(false, attempt)
      case TimedOut => AcquireLoop(outcomes, attempt + 1)
  }

  /** The locker after `lockInternal()`, the number of acquire calls made and the number of `exit()` calls. */
  datatype LockRun = LockRun(locker: Locker, acquireCalls: nat, exitCalls: nat)

  /**
   * `lockInternal()`: fails with `AlreadyLocked` if a client exists; otherwise builds and starts a client and
   * runs the acquire loop on the service's lock node. On success the mutex is kept and `exit()` is not
   * called. When every attempt times out or an attempt throws, the client slot is cleared, the mutex slot is
   * left as it was, and `exit()` is called once.
   */
  function LockInternal(locker: Locker, conv: PathConvention, outcomes: seq<AcquireOutcome>): (r: Result<LockRun, LockError>)
    requires |outcomes| >= LockAttempts
    ensures r.Failure? <==> locker.curatorClient.Some?
    ensures r.Failure? ==> r.error == AlreadyLocked
    ensures r.Success? ==>
      var run := r.value;
      && run.locker.serviceName == locker.serviceName
      && 1 <= run.acquireCalls <= LockAttempts
      && (forall k :: 0 <= k < run.acquireCalls - 1 ==> outcomes[k] == TimedOut)
      && (run.exitCalls == 0 <==> outcomes[run.acquireCalls - 1] == Acquired)
      && (outcomes[run.acquireCalls - 1] == TimedOut ==> run.acquireCalls == LockAttempts)
      && (run.exitCalls == 0 ==>
            run.locker.curatorClient.Some? && run.locker.curatorMutex == Some(Mutex(LockPath(conv, locker.serviceName))))
      && (run.exitCalls != 0 ==>
            run.exitCalls == 1 && run.locker.curatorClient.None? && run.locker.curatorMutex == locker.curatorMutex)
  {
    if locker.curatorClient.Some? then Failure(AlreadyLocked)
    else
      var mutex := Mutex(LockPath(conv, locker.serviceName));
      var e := AcquireLoop(outcomes, 1);
      if e.acquired then
        Success(LockRun(locker.(curatorClient := Some(StartedClient), curatorMutex := Some(mutex)), e.calls, 0))
      else
        Success(LockRun(locker.(curatorClient := None), e.calls, 1))
  }

  /** The locker after `unlockInternal()` and whether the mutex was released without error. */
  datatype UnlockRun = UnlockRun(locker: Locker, released: bool)

  /**
   * `unlockInternal()`: fails with `AlreadyUnlocked` if no client exists. Otherwise releases the mutex, closes
   * the client and clears both slots. A failing release (`releaseFails`, or an empty mutex slot) is logged and
   * swallowed: the slots are cleared all the same.
   */
  function UnlockInternal(locker: Locker, releaseFails: bool): (r: Result<UnlockRun, LockError>)
    ensures r.Failure? <==> locker.curatorClient.None?
    ensures r.Failure? ==> r.error == AlreadyUnlocked
    ensures r.Success? ==>
      && r.value.locker == Locker(locker.serviceName, None, None)
      && (r.value.released <==> locker.curatorMutex.Some? && !releaseFails)
  {
    if locker.curatorClient.None? then Failure(AlreadyUnlocked)
    else
      var released := locker.curatorMutex.Some? && !releaseFails;
      Success(UnlockRun(locker.(curatorClient := None, curatorMutex := None), released))
  }

  /** The static state after `lock()`, with the acquire and `exit()` calls it made. */
  datatype LockStep = LockStep(state: LockerState, acquireCalls: nat, exitCalls: nat)

  /**
   * `lock(serviceName)`: a no-op when disabled; `AlreadyLocked` while an instance exists; otherwise creates the
   * instance, runs `lockInternal()` on it and registers the release-on-exit hook.
   */
  function Lock(g: LockerState, serviceName: string, conv: PathConvention, outcomes: seq<AcquireOutcome>): (r: Result<LockStep, LockError>)
    requires |outcomes| >= LockAttempts
    ensures !g.enabled ==> r == Success(LockStep(g, 0, 0))
    ensures g.enabled && g.instance.Some? ==> r == Failure(AlreadyLocked)
    ensures g.enabled && g.instance.None? ==>
      && r.Success?
      && r.value.state.enabled && r.value.state.hookRegistered
      && r.value.state.instance.Some? && r.value.state.instance.value.serviceName == serviceName
      && 1 <= r.value.acquireCalls <= LockAttempts
      && (r.value.exitCalls == 0 <==> outcomes[r.value.acquireCalls - 1] == Acquired)
      && (r.value.exitCalls == 0 ==> Holds(r.value.state, LockPath(conv, serviceName)))
      && (r.value.exitCalls != 0 ==>
            r.value.exitCalls == 1 && r.value.state.instance.value == Locker(serviceName, None, None))
    ensures r.Success? && Wf(g) ==> Wf(r.value.state)
  {
    if !g.enabled then Success(LockStep(g, 0, 0))
    else if g.instance.Some? then Failure(AlreadyLocked)
    else
      match LockInternal(Locker(serviceName, None, None), conv, outcomes)
      case Failure(e) => Failure(e)
      case Success(run) =>
        Success(LockStep(LockerState(g.enabled, Some(run.locker), true), run.acquireCalls, run.exitCalls))
  }

  /** The static state after `unlock()` and whether the mutex was released without error. */
  datatype UnlockStep = UnlockStep(state: LockerState, released: bool)

  /**
   * `unlock()`: a no-op without an instance; otherwise runs `unlockInternal()` on the instance, clears the
   * instance slot and removes the hook. If `unlockInternal()` fails, that error propagates and nothing changes.
   */
  function Unlock(g: LockerState, releaseFails: bool): (r: Result<UnlockStep, LockError>)
    ensures g.instance.None? ==> r == Success(UnlockStep(g, false))
    ensures g.instance.Some? ==>
      if g.instance.value.curatorClient.None? then r == Failure(AlreadyUnlocked)
      else
        && r.Success?
        && r.value.state == LockerState(g.enabled, None, false)
        && (r.value.released <==> g.instance.value.curatorMutex.Some? && !releaseFails)
    ensures r.Success? && Wf(g) ==> Wf(r.value.state)
  {
    if g.instance.None? then Success(UnlockStep(g, false))
    else
      match UnlockInternal(g.instance.value, releaseFails)
      case Failure(e) => Failure(e)
      case Success(run) => Success(UnlockStep(g.(instance := None, hookRegistered := false), run.released))
  }

  /** The initial state is well formed and holds no lock. */
  lemma InitialWf()
    ensures Wf(Initial()) && Initial().instance.None? && Initial().enabled
  {
  }

  /** Within the attempt budget, some call obtains the lock and every call before it timed out. */
  ghost predicate AcquiresWithinBudget(outcomes: seq<AcquireOutcome>)
  {
    exists k :: 0 <= k < LockAttempts && k < |outcomes| && outcomes[k] == Acquired
      && forall j :: 0 <= j < k ==> outcomes[j] == TimedOut
  }

  /**
   * An enabled `lock()` with no instance avoids `exit()` exactly when the acquire outcomes reach a success
   * within the budget before any exception.
   */
  lemma LockSucceedsIff(g: LockerState, serviceName: string, conv: PathConvention, outcomes: seq<AcquireOutcome>)
    requires |outcomes| >= LockAttempts
    requires g.enabled && g.instance.None?
    ensures Lock(g, serviceName, conv, outcomes).Success?
    ensures Lock(g, serviceName, conv, outcomes).value.exitCalls == 0 <==> AcquiresWithinBudget(outcomes)
  {
  }

  /** lock, unlock, lock again: each `lock()` whose acquire succeeds within the budget holds the lock. */
  lemma LockUnlockLock(serviceName: string, conv: PathConvention, first: seq<AcquireOutcome>,
                       releaseFails: bool, second: seq<AcquireOutcome>)
    requires |first| >= LockAttempts && |second| >= LockAttempts
    requires AcquiresWithinBudget(first) && AcquiresWithinBudget(second)
    ensures var l1 := Lock(Initial(), serviceName, conv, first);
      && l1.Success? && l1.value.exitCalls == 0 && Holds(l1.value.state, LockPath(conv, serviceName))
      && var u := Unlock(l1.value.state, releaseFails);
      && u.Success? && u.value.state == Initial()
      && var l2 := Lock(u.value.state, serviceName, conv, second);
      && l2.Success? && l2.value.exitCalls == 0 && Holds(l2.value.state, LockPath(conv, serviceName))
  {
    LockSucceedsIff(Initial(), serviceName, conv, first);
    LockSucceedsIff(Initial(), serviceName, conv, second);
  }

  /**
   * If the acquire loop fails and `exit()` returns (the model counts it instead of ending the process), the
   * instance stays in place without a client: a second `lock()` fails with `AlreadyLocked` and `unlock()` fails with `AlreadyUnlocked`.
   */
  lemma FailedLockLeavesInstance(serviceName: string, conv: PathConvention, outcomes: seq<AcquireOutcome>,
                                 again: seq<AcquireOutcome>, releaseFails: bool)
    requires |outcomes| >= LockAttempts && |again| >= LockAttempts
    requires !AcquiresWithinBudget(outcomes)
    ensures var l := Lock(Initial(), serviceName, conv, outcomes);
      && l.Success? && l.value.exitCalls == 1
      && Lock(l.value.state, serviceName, conv, again) == Failure(AlreadyLocked)
      && Unlock(l.value.state, releaseFails) == Failure(AlreadyUnlocked)
  {
    LockSucceedsIff(Initial(), serviceName, conv, outcomes);
  }
}
