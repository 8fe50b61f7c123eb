/**
  src/lsp.rs: the sliding-window restart limiter and the lifecycle of one language server.
  Instants and durations are numbers on one monotone clock.
 */
module ServerLifecycle {
  import opened Wrappers

  predicate Monotone(times: seq<nat>) {
    forall i, j :: 0 <= i <= j < |times| ==> times[i] <= times[j]
  }

  predicate NotAfter(times: seq<nat>, latest: nat) {
    forall i :: 0 <= i < |times| ==> times[i] <= latest
  }

  /** Any `max` consecutive intervals add up to at least one window. */
  predicate Spaced(times: seq<nat>, max: nat, window: nat) {
    forall i :: 0 <= i && i + max < |times| ==> times[i + max] - times[i] >= window
  }

  /** `attempts` are the latest of `grants`; those forgotten are at least a window old. */
  ghost predicate Remembers(attempts: seq<nat>, grants: seq<nat>, latest: nat, window: nat) {
    && |attempts| <= |grants|
    && attempts == grants[|grants| - |attempts|..]
    && forall i :: 0 <= i < |grants| - |attempts| ==> latest - grants[i] >= window
  }

  lemma {:induction false} ForgetOne(attempts: seq<nat>, grants: seq<nat>, latest: nat, window: nat)
    requires Remembers(attempts, grants, latest, window) && attempts != []
    requires latest - attempts[0] >= window
    ensures Remembers(attempts[1..], grants, latest, window)
  {
    assert attempts[0] == grants[|grants| - |attempts|];
  }

  lemma {:induction false} LaterRemembers(attempts: seq<nat>, grants: seq<nat>, latest: nat, now: nat, window: nat)
    requires Remembers(attempts, grants, latest, window) && NotAfter(grants, latest) && latest <= now
    ensures Remembers(attempts, grants, now, window) && NotAfter(grants, now)
  {
  }

  /** Whether `max` grants lie inside the window can be read off the remembered ones. */
  lemma {:induction false} WindowIsRemembered(attempts: seq<nat>, grants: seq<nat>, latest: nat, max: nat, window: nat)
    requires Remembers(attempts, grants, latest, window) && |attempts| <= max
    requires attempts != [] ==> latest - attempts[0] < window
    ensures |attempts| == max > 0 ==> |grants| >= max && latest - grants[|grants| - max] < window
    ensures |attempts| < max <= |grants| ==> latest - grants[|grants| - max] >= window
  {
    assert attempts != [] ==> attempts[0] == grants[|grants| - |attempts|];
  }

  lemma {:induction false} RecordOne(attempts: seq<nat>, grants: seq<nat>, latest: nat, max: nat, window: nat)
    requires Remembers(attempts, grants, latest, window) && |attempts| < max
    requires Monotone(grants) && Spaced(grants, max, window) && NotAfter(grants, latest)
    ensures Remembers(attempts + [latest], grants + [latest], latest, window)
    ensures Monotone(grants + [latest]) && Spaced(grants + [latest], max, window) && NotAfter(grants + [latest], latest)
  {
  }

  class RestartHistory {
    var attempts: seq<nat>
    /** Every grant so far, and the latest time this history was asked at. */
    ghost var grants: seq<nat>
    ghost var latest: nat

    ghost predicate Valid(max: nat, window: nat)
      reads this
    {
      && Monotone(grants) && NotAfter(grants, latest)
      && Remembers(attempts, grants, latest, window)
      && |attempts| <= max
      && Spaced(grants, max, window)
    }

    constructor ()
      ensures forall max, window :: Valid(max, window)
      ensures grants == [] && latest == 0
    {
      attempts, grants, latest := [], [], 0;
    }

    /** A restart is granted exactly when fewer than `max` grants lie inside the window that ends now. */
    method TryRecord(now: nat, max: nat, window: nat) returns (granted: bool)
      requires Valid(max, window) && latest <= now
      modifies this
      ensures Valid(max, window) && latest == now
      ensures grants == old(grants) + (if granted then [now] else [])
      ensures granted <==>
                max > 0 && (|old(grants)| < max || now - old(grants)[|old(grants)| - max] >= window)
    {
      hide Monotone, Spaced, Remembers, NotAfter;
      LaterRemembers(attempts, grants, latest, now, window);
      latest := now;
      while attempts != [] && now - attempts[0] >= window
        invariant Valid(max, window) && latest == now && grants == old(grants)
        decreases |attempts|
      {
        ForgetOne(attempts, grants, now, window);
        attempts := attempts[1..];
      }
      WindowIsRemembered(attempts, grants, now, max, window);
      if |attempts| >= max {
        return false;
      }
      RecordOne(attempts, grants, now, max, window);
      attempts := attempts + [now];
      grants := grants + [now];
      granted := true;
    }
  }

  // ----- the lifecycle of a server -----

  datatype LifecycleError = TransportClosed | RestartLimitReached | StopFailed | StartFailed

  datatype Limits = Limits(maxRestarts: nat, window: nat) {
    /** Fewer than the maximum of all grants lie inside the window that ends now. */
    predicate HasRoom(grants: seq<nat>, now: nat) {
      maxRestarts > 0 && (|grants| < maxRestarts || now - grants[|grants| - maxRestarts] >= window)
    }
  }

  /** `spawns` and `grants` are the times at which a process was spawned and a restart was granted. */
  datatype Lifecycle = Lifecycle(running: bool, startAttempted: bool, stopped: bool, spawns: seq<nat>, grants: seq<nat>)

  const FRESH := Lifecycle(false, false, false, [], [])

  /**
    Asking for the active server at a time, or shutting it down.  Whether the transport has
    failed, whether the old process can be stopped and whether a new one starts is up to the environment.
   */
  datatype Operation = Use(now: nat, failed: bool, stopFails: bool, startFails: bool) | Shutdown

  function Answer(limits: Limits, s: Lifecycle, op: Operation): Result<(), LifecycleError>
    requires op.Use?
  {
    if s.stopped then Err(TransportClosed)
    else if s.running && !op.failed then Ok(())
    else if s.startAttempted && !limits.HasRoom(s.grants, op.now) then Err(RestartLimitReached)
    else if s.running && op.stopFails then Err(StopFailed)
    else if op.startFails then Err(StartFailed)
    else Ok(())
  }

  /** A process is spawned when none serves any more and nothing stands in the way, and every restart takes a grant. */
  function Next(limits: Limits, s: Lifecycle, op: Operation): Lifecycle {
    match op
    case Shutdown => s.(running := false, stopped := true)
    case Use(now, failed, stopFails, startFails) =>
      if s.stopped || (s.running && !failed) then s
      else if s.startAttempted && !limits.HasRoom(s.grants, now) then s
      else
        var grants := if s.startAttempted then s.grants + [now] else s.grants;
        if s.running && stopFails then s.(running := false, grants := grants)
        else Lifecycle(!startFails, true, false, s.spawns + [now], grants)
  }

  class LazyLanguageServer {
    const limits: Limits
    const restartHistory: RestartHistory
    var running: bool
    var startAttempted: bool
    var stopped: bool
    ghost var spawns: seq<nat>

    ghost predicate Valid()
      reads this, restartHistory
    {
      restartHistory.Valid(limits.maxRestarts, limits.window) && (running ==> startAttempted && !stopped)
    }

    ghost function State(): Lifecycle
      reads this, restartHistory
    {
      Lifecycle(running, startAttempted, stopped, spawns, restartHistory.grants)
    }

    constructor (limits: Limits)
      ensures Valid() && State() == FRESH && this.limits == limits && fresh(restartHistory)
    {
      this.limits := limits;
      restartHistory := new RestartHistory();
      running, startAttempted, stopped := false, false, false;
      spawns := [];
    }

    /** `active_server_with_cancellation` */
    method ActiveServer(now: nat, failed: bool, stopFails: bool, startFails: bool) returns (r: Result<(),
                        LifecycleError>)
      requires Valid() && restartHistory.latest <= now
      modifies this, restartHistory
      ensures Valid() && restartHistory.latest <= now
      ensures r == Answer(limits, old(State()), Use(now, failed, stopFails, startFails))
      ensures State() == Next(limits, old(State()), Use(now, failed, stopFails, startFails))
      ensures r.Ok? ==> running
    {
      if stopped {
        return Err(TransportClosed);
      }
      if running && !failed {
        return Ok(());
      }
      if startAttempted {
        var granted := restartHistory.TryRecord(now, limits.maxRestarts, limits.window);
        if !granted {
          return Err(RestartLimitReached);
        }
      }
      if running {
        running := false;
        if stopFails {
          return Err(StopFailed);
        }
      }
      startAttempted := true;
      spawns := spawns + [now];
      if startFails {
        return Err(StartFailed);
      }
      running := true;
      r := Ok(());
    }

    /** `shutdown`, up to the point where the running server is taken out of the state */
    method Shutdown()
      requires Valid()
      modifies this
      ensures Valid() && State() == Next(limits, old(State()), Operation.Shutdown)
    {
      stopped := true;
      running := false;
    }
  }

  // ----- whole runs -----

  function Run(limits: Limits, s: Lifecycle, ops: seq<Operation>): Lifecycle
    decreases |ops|
  {
    if ops == [] then s else Next(limits, Run(limits, s, ops[..|ops| - 1]), ops[|ops| - 1])
  }

  /** After a shutdown, whatever is asked for, every answer is a refusal and nothing is spawned or granted any more. */
  lemma {:induction false} ShutdownIsFinal(limits: Limits, before: Lifecycle, ops: seq<Operation>, op: Operation)
    requires op.Use?
    ensures var s := Next(limits, before, Shutdown);
            && s.stopped && !s.running && s.spawns == before.spawns
            && Run(limits, s, ops) == s && Answer(limits, Run(limits, s, ops), op) == Err(TransportClosed)
    decreases |ops|
  {
    if ops != [] {
      ShutdownIsFinal(limits, before, ops[..|ops| - 1], op);
    }
  }

  // When a server is kept and when it is replaced, told by what was asked and answered before.

  /** The state in front of operation `n` of a run. */
  function Before(limits: Limits, ops: seq<Operation>, n: nat): Lifecycle
    requires n <= |ops|
  {
    Run(limits, FRESH, ops[..n])
  }

  function AnswerAt(limits: Limits, ops: seq<Operation>, i: nat): Result<(), LifecycleError>
    requires i < |ops| && ops[i].Use?
  {
    Answer(limits, Before(limits, ops, i), ops[i])
  }

  /** Operation `k` has found the server in order, or was refused its restart. */
  ghost predicate LeftAlone(limits: Limits, ops: seq<Operation>, k: nat) {
    && k < |ops|
    && (ops[k].Use? && (ops[k].failed ==> AnswerAt(limits, ops, k) == Err(RestartLimitReached)))
  }

  /** Operation `i` was given a server, and no operation since has taken that server away. */
  ghost predicate UpSince(limits: Limits, ops: seq<Operation>, i: nat, n: nat) {
    && i < n <= |ops|
    && ops[i].Use? && AnswerAt(limits, ops, i) == Ok(())
    && forall k :: i < k < n ==> LeftAlone(limits, ops, k)
  }

  ghost predicate Up(limits: Limits, ops: seq<Operation>, n: nat) {
    && n <= |ops|
    && exists i :: 0 <= i < n && UpSince(limits, ops, i, n)
  }

  ghost predicate ShutDown(ops: seq<Operation>, n: nat) {
    && n <= |ops|
    && exists k :: 0 <= k < n && ops[k] == Shutdown
  }

  lemma {:induction false} OneStep(limits: Limits, ops: seq<Operation>, n: nat)
    requires n < |ops|
    ensures Before(limits, ops, n + 1) == Next(limits, Before(limits, ops, n), ops[n])
    ensures Before(limits, ops, 0) == FRESH
  {
    assert ops[..n + 1][..n] == ops[..n];
  }

  lemma {:induction false} UpStep(limits: Limits, ops: seq<Operation>, n: nat)
    requires n < |ops|
    ensures Up(limits, ops, n + 1) <==>
              (ops[n].Use? && AnswerAt(limits, ops, n) == Ok(())) || (Up(limits, ops, n) && LeftAlone(limits, ops, n))
    ensures ShutDown(ops, n + 1) <==> ShutDown(ops, n) || ops[n] == Shutdown
  {
    hide AnswerAt;
    if Up(limits, ops, n + 1) {
      var i :| 0 <= i < n + 1 && UpSince(limits, ops, i, n + 1);
      assert i < n ==> UpSince(limits, ops, i, n) && LeftAlone(limits, ops, n);
    }
    if Up(limits, ops, n) && LeftAlone(limits, ops, n) {
      var i :| 0 <= i < n && UpSince(limits, ops, i, n);
      assert UpSince(limits, ops, i, n + 1);
    }
    if ops[n].Use? && AnswerAt(limits, ops, n) == Ok(()) {
      assert UpSince(limits, ops, n, n + 1);
    }
  }

  /** The fields of the state tell what has happened: a server is up, one was started before, or all was shut down. */
  lemma {:induction false} StateIsHistory(limits: Limits, ops: seq<Operation>, n: nat)
    requires n <= |ops|
    ensures var s := Before(limits, ops, n);
            && (s.running <==> Up(limits, ops, n)) && (s.stopped <==> ShutDown(ops, n))
            && (s.startAttempted <==> s.spawns != []) && (s.running ==> s.startAttempted && !s.stopped)
  {
    hide Up, ShutDown, Limits.HasRoom;
    if n == 0 {
      assert !Up(limits, ops, 0) && !ShutDown(ops, 0) by {
        NothingUp(limits, ops);
      }
    } else {
      StateIsHistory(limits, ops, n - 1);
      OneStep(limits, ops, n - 1);
      UpStep(limits, ops, n - 1);
    }
  }

  lemma {:induction false} NothingUp(limits: Limits, ops: seq<Operation>)
    ensures !Up(limits, ops, 0) && !ShutDown(ops, 0)
  {
  }

  /**
    Each answer over any run, by what has happened before it: refused after a shutdown and for a
    restart when the window is full, else served by the server that is up and in order, else by a new one.
   */
  lemma {:induction false} AnsweredExactly(limits: Limits, ops: seq<Operation>, n: nat)
    requires n < |ops| && ops[n].Use?
    ensures var op, r, before := ops[n], AnswerAt(limits, ops, n), Before(limits, ops, n);
            var inOrder := Up(limits, ops, n) && !op.failed;
            var full := before.spawns != [] && !limits.HasRoom(before.grants, op.now);
            && (r == Err(TransportClosed) <==> ShutDown(ops, n))
            && (r == Err(RestartLimitReached) <==> !ShutDown(ops, n) && !inOrder && full)
            && (r == Err(StopFailed) <==>
                  !ShutDown(ops, n) && !full && Up(limits, ops, n) && op.failed && op.stopFails)
            && (r == Err(StartFailed) <==>
                  && !ShutDown(ops, n) && !inOrder && !full && !(Up(limits, ops, n) && op.stopFails)
                  && op.startFails)
  {
    hide Up, ShutDown, Limits.HasRoom;
    StateIsHistory(limits, ops, n);
  }

  /** A server once given out is given out again as long as it is found in order, and costs no spawn and no grant. */
  lemma {:induction false} HealthyServerIsKept(limits: Limits, ops: seq<Operation>, i: nat, j: nat)
    requires i < j < |ops| && ops[i].Use? && AnswerAt(limits, ops, i) == Ok(())
    requires forall k :: i < k <= j ==> ops[k].Use? && !ops[k].failed
    ensures AnswerAt(limits, ops, j) == Ok(())
    ensures Before(limits, ops, j + 1).spawns == Before(limits, ops, i + 1).spawns
    ensures Before(limits, ops, j + 1).grants == Before(limits, ops, i + 1).grants
  {
    if i + 1 < j {
      HealthyServerIsKept(limits, ops, i, j - 1);
    }
    assert UpSince(limits, ops, i, j);
    hide UpSince, Limits.HasRoom;
    StateIsHistory(limits, ops, j);
    OneStep(limits, ops, j);
  }

  /** What is given out for a server found failed, or with none up, was spawned for it just now. */
  lemma {:induction false} FailedServerIsReplaced(limits: Limits, ops: seq<Operation>, n: nat)
    requires n < |ops| && ops[n].Use? && AnswerAt(limits, ops, n) == Ok(()) && (ops[n].failed || !Up(limits, ops, n))
    ensures Before(limits, ops, n + 1).spawns == Before(limits, ops, n).spawns + [ops[n].now]
  {
    hide Up, Limits.HasRoom;
    StateIsHistory(limits, ops, n);
    OneStep(limits, ops, n);
  }

  /**
    Nothing is spawned, and no restart granted, but for the first start, for a server found failed, or
    when none is up since a start or a stop has failed; a grant is spent on no first start.
   */
  lemma {:induction false} SpawnsHaveAReason(limits: Limits, ops: seq<Operation>, n: nat)
    requires n < |ops|
    ensures var before, after := Before(limits, ops, n), Before(limits, ops, n + 1);
            && (after.spawns != before.spawns ==>
                  && ops[n].Use? && after.spawns == before.spawns + [ops[n].now]
                  && (before.spawns == [] || ops[n].failed || !Up(limits, ops, n)))
            && (after.grants != before.grants ==>
                  && ops[n].Use? && after.grants == before.grants + [ops[n].now]
                  && before.spawns != [] && (ops[n].failed || !Up(limits, ops, n)))
            && (!Up(limits, ops, n) && before.spawns != [] && !before.stopped ==>
                  exists k :: 0 <= k < n && ops[k].Use? &&
                    (AnswerAt(limits, ops, k) == Err(StopFailed) || AnswerAt(limits, ops, k) == Err(StartFailed)))
  {
    hide Up, Limits.HasRoom, AnswerAt;
    StateIsHistory(limits, ops, n);
    OneStep(limits, ops, n);
    if !Up(limits, ops, n) && Before(limits, ops, n).spawns != [] && !Before(limits, ops, n).stopped {
      var k := DownSince(limits, ops, n);
    }
  }

  /** When a server was started before and none is up, a stop or a start has failed. */
  lemma {:induction false} DownSince(limits: Limits, ops: seq<Operation>, n: nat) returns (k: nat)
    requires n <= |ops| && !Before(limits, ops, n).running && Before(limits, ops, n).spawns != []
    requires !Before(limits, ops, n).stopped
    ensures k < n && ops[k].Use?
    ensures AnswerAt(limits, ops, k) == Err(StopFailed) || AnswerAt(limits, ops, k) == Err(StartFailed)
  {
    hide Up, Limits.HasRoom, Run;
    k := 0;
    if n == 0 {
      BeforeAll(limits, ops);
    } else {
      OneStep(limits, ops, n - 1);
      StateIsHistory(limits, ops, n - 1);
      var before := Before(limits, ops, n - 1);
      if before.running || before.spawns == [] {
        k := n - 1;
      } else if AnswerAt(limits, ops, n - 1) == Err(StartFailed) {
        k := n - 1;
      } else {
        k := DownSince(limits, ops, n - 1);
      }
    }
  }

  lemma {:induction false} BeforeAll(limits: Limits, ops: seq<Operation>)
    ensures Before(limits, ops, 0) == FRESH
  {
  }

  /** The clock does not run backwards; `latest` is where it stands after the operations. */
  predicate InOrder(ops: seq<Operation>, latest: nat)
    decreases |ops|
  {
    ops == [] ||
    var front, last := ops[..|ops| - 1], ops[|ops| - 1];
    if last.Use? then last.now <= latest && InOrder(front, last.now) else InOrder(front, latest)
  }

  ghost predicate Sound(limits: Limits, s: Lifecycle, paidBy: seq<nat>, latest: nat) {
    && Monotone(s.grants) && Spaced(s.grants, limits.maxRestarts, limits.window) && NotAfter(s.grants, latest)
    && (s.startAttempted <==> s.spawns != []) && (s.running ==> s.startAttempted && !s.stopped)
    && |paidBy| == (if s.spawns == [] then 0 else |s.spawns| - 1) && Paid(s.spawns, paidBy, s.grants)
  }

  lemma {:induction false} GrantKeeps(limits: Limits, grants: seq<nat>, latest: nat, now: nat)
    requires Monotone(grants) && Spaced(grants, limits.maxRestarts, limits.window) && NotAfter(grants, latest) && latest <= now
    requires limits.HasRoom(grants, now)
    ensures var more := grants + [now];
            Monotone(more) && Spaced(more, limits.maxRestarts, limits.window) && NotAfter(more, now)
  {
  }

  lemma {:induction false} StepIsSound(limits: Limits, s: Lifecycle, paidBy: seq<nat>, latest: nat, op: Operation,
                                       now: nat)
    returns (paid: seq<nat>)
    requires Sound(limits, s, paidBy, latest) && latest <= now && (op.Use? ==> op.now == now)
    ensures Sound(limits, Next(limits, s, op), paid, now)
  {
    hide Monotone, Spaced, Paid, Limits.HasRoom, NotAfter;
    paid := paidBy;
    LaterNotAfter(s.grants, latest, now);
    if Next(limits, s, op).grants != s.grants {
      GrantKeeps(limits, s.grants, latest, now);
      if Next(limits, s, op).spawns == s.spawns {
        MoreGrants(s.spawns, paidBy, s.grants, now);
      } else {
        PayOne(s.spawns, paidBy, s.grants, now);
        paid := paidBy + [|s.grants|];
      }
    } else if op.Use? && Next(limits, s, op).spawns != s.spawns {
      FirstSpawnIsFree(s.grants, now);
      assert paidBy == [] && s.spawns + [now] == [now];
    }
  }

  lemma {:induction false} LaterNotAfter(times: seq<nat>, latest: nat, now: nat)
    requires NotAfter(times, latest) && latest <= now
    ensures NotAfter(times, now)
  {
  }

  lemma {:induction false} FirstSpawnIsFree(grants: seq<nat>, now: nat)
    ensures Paid([now], [], grants)
  {
  }

  lemma {:induction false} RunIsSound(limits: Limits, ops: seq<Operation>, latest: nat) returns (paidBy: seq<nat>)
    requires InOrder(ops, latest)
    ensures Sound(limits, Run(limits, FRESH, ops), paidBy, latest)
    decreases |ops|
  {
    hide Next, Monotone, Spaced, Paid, NotAfter;
    if ops == [] {
      paidBy := [];
      NothingIsSound(limits, latest);
    } else {
      var front, last := ops[..|ops| - 1], ops[|ops| - 1];
      var before := if last.Use? then last.now else latest;
      var earlier := RunIsSound(limits, front, before);
      paidBy := StepIsSound(limits, Run(limits, FRESH, front), earlier, before, last, before);
      LaterNotAfter(Run(limits, FRESH, ops).grants, before, latest);
    }
  }

  lemma {:induction false} NothingIsSound(limits: Limits, latest: nat)
    ensures Sound(limits, FRESH, [], latest)
  {
  }

  /** Every spawn but the first happened at a grant of its own. */
  ghost predicate Paid(spawns: seq<nat>, paidBy: seq<nat>, grants: seq<nat>) {
    && (forall i :: 0 <= i < |paidBy| ==>
          paidBy[i] < |grants| && i + 1 < |spawns| && spawns[i + 1] == grants[paidBy[i]])
    && forall i, j :: 0 <= i < j < |paidBy| ==> paidBy[i] < paidBy[j]
  }

  lemma {:induction false} PayOne(spawns: seq<nat>, paidBy: seq<nat>, grants: seq<nat>, now: nat)
    requires Paid(spawns, paidBy, grants) && |paidBy| + 1 == |spawns|
    ensures Paid(spawns + [now], paidBy + [|grants|], grants + [now])
  {
    MoreGrants(spawns, paidBy, grants, now);
  }

  lemma {:induction false} MoreGrants(spawns: seq<nat>, paidBy: seq<nat>, grants: seq<nat>, now: nat)
    requires Paid(spawns, paidBy, grants)
    ensures Paid(spawns, paidBy, grants + [now])
  {
    forall i | 0 <= i < |paidBy|
      ensures paidBy[i] < |grants| && (grants + [now])[paidBy[i]] == grants[paidBy[i]]
    {
    }
  }

  lemma {:induction false} PaymentsSpread(paidBy: seq<nat>, i: nat, j: nat)
    requires i <= j < |paidBy|
    requires forall i, j :: 0 <= i < j < |paidBy| ==> paidBy[i] < paidBy[j]
    ensures paidBy[j] - paidBy[i] >= j - i
  {
    if i < j {
      PaymentsSpread(paidBy, i, j - 1);
    }
  }

  lemma {:induction false} PaidSpawnsSpread(spawns: seq<nat>, paidBy: seq<nat>, grants: seq<nat>, max: nat,
                                            window: nat, i: nat)
    requires Paid(spawns, paidBy, grants) && |paidBy| + 1 == |spawns|
    requires Monotone(grants) && Spaced(grants, max, window)
    requires 1 <= i && i + max < |spawns|
    ensures spawns[i + max] - spawns[i] >= window
  {
    PaymentsSpread(paidBy, i - 1, i - 1 + max);
    assert grants[paidBy[i - 1] + max] - grants[paidBy[i - 1]] >= window;
  }

  /** However often it crashes and is asked for, a server is not respawned more than `maxRestarts` times within one window. */
  lemma {:induction false} RespawnsAreLimited(limits: Limits, ops: seq<Operation>, latest: nat, i: nat)
    requires InOrder(ops, latest)
    requires 1 <= i && i + limits.maxRestarts < |Run(limits, FRESH, ops).spawns|
    ensures var spawns := Run(limits, FRESH, ops).spawns;
            spawns[i + limits.maxRestarts] - spawns[i] >= limits.window
  {
    hide Run, Monotone, Spaced, Paid, NotAfter;
    var s := Run(limits, FRESH, ops);
    var paidBy := RunIsSound(limits, ops, latest);
    PaidSpawnsSpread(s.spawns, paidBy, s.grants, limits.maxRestarts, limits.window, i);
  }

  /** Every spawn attempt but the first is paid for by a grant, and no grant pays twice. */
  lemma {:induction false} SpawnsArePaid(limits: Limits, ops: seq<Operation>, latest: nat)
    requires InOrder(ops, latest)
    ensures |Run(limits, FRESH, ops).spawns| <= 1 + |Run(limits, FRESH, ops).grants|
    ensures forall i :: 1 <= i < |Run(limits, FRESH, ops).spawns| ==>
              Run(limits, FRESH, ops).spawns[i] in Run(limits, FRESH, ops).grants
  {
    hide Run, Monotone, Spaced, NotAfter;
    var s := Run(limits, FRESH, ops);
    var paidBy := RunIsSound(limits, ops, latest);
    if |s.spawns| > 1 {
      PaymentsSpread(paidBy, 0, |paidBy| - 1);
    }
    forall i | 1 <= i < |s.spawns|
      ensures s.spawns[i] in s.grants
    {
      assert s.spawns[i] == s.grants[paidBy[i - 1]];
    }
  }

  /** A restart is refused only while the maximum of grants lies inside the window; with none allowed, always. */
  lemma {:induction false} RefusedOnlyWhenFull(limits: Limits, ops: seq<Operation>, latest: nat, op: Operation)
    requires InOrder(ops, latest) && op.Use? && latest <= op.now
    requires Answer(limits, Run(limits, FRESH, ops), op) == Err(RestartLimitReached) && limits.maxRestarts > 0
    ensures var grants := Run(limits, FRESH, ops).grants;
            && |grants| >= limits.maxRestarts
            && forall i :: |grants| - limits.maxRestarts <= i < |grants| ==> 0 <= op.now - grants[i] < limits.window
  {
    hide Run, Spaced, Paid;
    var paidBy := RunIsSound(limits, ops, latest);
  }
}
