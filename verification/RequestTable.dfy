/**
  src/lsp.rs: the table of pending requests that request tasks share with the reader.  Each
  critical section is one step of a transition system; what the server is sent and what the
  tasks are told is kept in a log, over which the safety of every run is stated.
 */
module RequestTable {
  import opened Wrappers

  datatype Failure = ServerExited | ResponseTooLarge

  /** What a task receives: the server's response, here only named, or the failure of the reader. */
  datatype Outcome = Reply(response: nat) | Broken(failure: Failure)

  // ----- the shared table -----

  /** `RequestState` as a value; each pending id stands for the sender stored under it. */
  datatype Table = Table(pending: set<nat>, failure: Option<Failure>) {
    function Register(id: nat): Table {
      if failure.Some? then this else this.(pending := pending + {id})
    }

    function Remove(id: nat): Table {
      this.(pending := pending - {id})
    }

    function Fail(with: Failure): Table {
      Table({}, Some(with))
    }
  }

  /** `RequestState`, behind its mutex; every method is one critical section. */
  class RequestState {
    var pending: set<nat>
    var failure: Option<Failure>

    function View(): Table
      reads this
    {
      Table(pending, failure)
    }

    constructor ()
      ensures View() == Table({}, None)
    {
      pending, failure := {}, None;
    }

    /** Registration in `request_attempt`. */
    method Register(id: nat) returns (refusal: Option<Failure>)
      modifies this
      ensures View() == old(View()).Register(id)
      ensures refusal == old(failure)
    {
      if failure.Some? {
        return failure;
      }
      pending := pending + {id};
      return None;
    }

    /** `pending.remove(&id)`: a response, a refused send or a cancellation takes the sender out. */
    method Remove(id: nat) returns (present: bool)
      modifies this
      ensures View() == old(View()).Remove(id)
      ensures present <==> id in old(pending)
    {
      present := id in pending;
      pending := pending - {id};
    }

    /** The end of `reader_loop`. */
    method Fail(with: Failure) returns (taken: set<nat>)
      modifies this
      ensures View() == old(View()).Fail(with)
      ensures taken == old(pending)
    {
      failure := Some(with);
      taken, pending := pending, {};
    }
  }

  // ----- steps -----

  /** Where a call of `request_attempt` that holds a permit has got to. */
  datatype Phase =
    | Admitted
    | Numbered(id: nat)
    | Registered(id: nat)
    | Rejected(id: nat)
    | Waiting(id: nat)
    | Notifying(id: nat)

  predicate HasId(p: Phase) {
    !p.Admitted?
  }

  datatype Event =
    | Entered(id: nat)
    | Sent(id: nat)
    | Failed
    | Resolved(id: nat, outcome: Outcome)
    | Dropped(id: nat)
    | Cancelled(id: nat)
    | Notice(id: nat)
    | Returned(id: nat, outcome: Outcome)

  /**
    `taken` are the ids whose senders the stopped reader has still to use, `inbox` what was
    sent and not yet received, and `tasks` the calls that hold one of `capacity` permits.
   */
  datatype State = State(capacity: nat, next: nat, table: Table, taken: set<nat>, inbox: map<nat, Outcome>,
                         tasks: map<nat, Phase>, log: seq<Event>)

  function Start(capacity: nat): State {
    State(capacity, 0, Table({}, None), {}, map[], map[], [])
  }

  datatype Step =
    | Acquire(task: nat)
    | GiveUp(task: nat)
    | Number(task: nat)
    | Enter(task: nat)
    | TrySend(task: nat, accepted: bool)
    | Withdraw(task: nat)
    | Receive(task: nat)
    | StopWaiting(task: nat)
    | Notify(task: nat, accepted: bool)
    | Response(id: nat, response: nat)
    | Fail(failure: Failure)
    | FailOne(id: nat)

  function Move(s: State, task: nat, p: Phase): State {
    s.(tasks := s.tasks[task := p])
  }

  /** The call returns and its permit is released. */
  function Finish(s: State, task: nat): State {
    s.(tasks := s.tasks - {task})
  }

  function Log(s: State, e: Event): State {
    s.(log := s.log + [e])
  }

  /** One step of a task in phase `p`, or `None` when that phase has no such step. */
  function TaskStep(s: State, task: nat, p: Phase, step: Step): Option<State> {
    match (p, step)
    // A check failed, or the document changed, before an id was drawn.
    case (Admitted, GiveUp(_)) => Some(Finish(s, task))
    case (Admitted, Number(_)) => Some(Move(s, task, Numbered(s.next)).(next := s.next + 1))
    case (Numbered(id), Enter(_)) =>
      if s.table.failure.Some? then Some(Finish(s, task))
      else Some(Log(Move(s, task, Registered(id)).(table := s.table.Register(id)), Entered(id)))
    case (Registered(id), TrySend(_, accepted)) =>
      Some(if accepted then Log(Move(s, task, Waiting(id)), Sent(id)) else Move(s, task, Rejected(id)))
    case (Rejected(id), Withdraw(_)) =>
      var gone := Finish(s, task).(table := s.table.Remove(id));
      Some(if id in s.table.pending then Log(gone, Dropped(id)) else gone)
    case (Waiting(id), Receive(_)) =>
      if id !in s.inbox then None
      else Some(Log(Finish(s, task).(inbox := s.inbox - {id}), Returned(id, s.inbox[id])))
    // Cancellation or the deadline comes first.
    case (Waiting(id), StopWaiting(_)) =>
      Some(if id in s.table.pending
           then Log(Move(s, task, Notifying(id)).(table := s.table.Remove(id)), Cancelled(id))
           else Finish(s, task))
    case (Notifying(id), Notify(_, accepted)) =>
      Some(if accepted then Log(Finish(s, task), Notice(id)) else Finish(s, task))
    case _ => None
  }

  function Next(s: State, step: Step): Option<State> {
    match step
    case Acquire(task) => if task in s.tasks || |s.tasks| >= s.capacity then None else Some(Move(s, task, Admitted))
    // The reader handles no message after it has failed.
    case Response(id, response) =>
      if s.table.failure.Some? then None
      else if id !in s.table.pending then Some(s)
      else
        Some(Log(s.(table := s.table.Remove(id), inbox := s.inbox[id := Reply(response)]), Resolved(id, Reply(response))))
    case Fail(failure) =>
      if s.table.failure.Some? then None
      else Some(Log(s.(table := s.table.Fail(failure), taken := s.table.pending), Failed))
    case FailOne(id) =>
      if id !in s.taken || s.table.failure.None? then None
      else
        var outcome := Broken(s.table.failure.value);
        Some(Log(s.(taken := s.taken - {id}, inbox := s.inbox[id := outcome]), Resolved(id, outcome)))
    case _ => if step.task !in s.tasks then None else TaskStep(s, step.task, s.tasks[step.task], step)
  }

  function Run(s: State, steps: seq<Step>): Option<State>
    decreases |steps|
  {
    if steps == [] then Some(s)
    else
      match Next(s, steps[0])
      case None => None
      case Some(t) => Run(t, steps[1..])
  }

  // ----- the life of one id, as a reader of the log sees it -----

  datatype Place = Unused | Pending | Taken | Answered(outcome: Outcome) | Used | Gone | Abandoned

  datatype Life = Life(place: Place, sent: bool, notified: bool)

  const UNUSED := Life(Unused, false, false)

  /** The life after `e`, or `None` when `e` may not happen in this life. */
  function Advance(l: Life, e: Event, id: nat): Option<Life> {
    match e
    case Failed => Some(if l.place.Pending? then l.(place := Taken) else l)
    case Entered(_) => if e.id != id then Some(l) else if l == UNUSED then Some(l.(place := Pending)) else None
    case Sent(_) =>
      if e.id != id then Some(l)
      else if !l.sent && (l.place.Pending? || l.place.Taken? || l.place.Answered?) then Some(l.(sent := true))
      else None
    case Resolved(_, outcome) =>
      if e.id != id then Some(l)
      else if (l.place.Pending? && outcome.Reply?) || (l.place.Taken? && outcome.Broken?)
      then Some(l.(place := Answered(outcome)))
      else None
    case Dropped(_) => if e.id != id then Some(l) else if l.place.Pending? && !l.sent then Some(l.(place := Gone)) else None
    case Cancelled(_) =>
      if e.id != id then Some(l) else if l.place.Pending? && l.sent then Some(l.(place := Abandoned)) else None
    case Notice(_) =>
      if e.id != id then Some(l) else if l.place.Abandoned? && !l.notified then Some(l.(notified := true)) else None
    case Returned(_, outcome) =>
      if e.id != id then Some(l)
      else if l.sent && l.place == Answered(outcome) then Some(l.(place := Used))
      else None
  }

  function Judge(log: seq<Event>, id: nat): Option<Life> {
    if log == [] then Some(UNUSED)
    else
      match Judge(log[..|log| - 1], id)
      case None => None
      case Some(l) => Advance(l, log[|log| - 1], id)
  }

  lemma {:induction false} JudgeOneMore(log: seq<Event>, e: Event, id: nat)
    ensures Judge(log + [e], id) == match Judge(log, id) { case None => None case Some(l) => Advance(l, e, id) }
  {
    assert (log + [e])[..|log|] == log;
  }

  // ----- the invariant -----

  /** The life of an id agrees with where the state has it. */
  ghost predicate IdFits(s: State, id: nat) {
    && Judge(s.log, id).Some?
    && var l := Judge(s.log, id).value;
       && (l.place.Pending? <==> id in s.table.pending)
       && (l.place.Taken? <==> id in s.taken)
       && (l.place.Answered? <==> id in s.inbox)
       && (l.place.Answered? ==> l.place.outcome == s.inbox[id])
       && (id >= s.next ==> l == UNUSED)
  }

  predicate Held(l: Life) {
    !l.notified && (l.place.Pending? || l.place.Taken? || l.place.Answered?)
  }

  predicate PhaseFits(p: Phase, l: Life) {
    match p
    case Admitted => true
    case Numbered(_) => l == UNUSED
    case Registered(_) => Held(l) && !l.sent
    case Rejected(_) => Held(l) && !l.sent
    case Waiting(_) => Held(l) && l.sent
    case Notifying(_) => l == Life(Abandoned, true, false)
  }

  ghost predicate TaskFits(s: State, task: nat) {
    && task in s.tasks
    && var p := s.tasks[task];
       HasId(p) ==> p.id < s.next && Judge(s.log, p.id).Some? && PhaseFits(p, Judge(s.log, p.id).value)
  }

  predicate Apart(p: Phase, q: Phase) {
    HasId(p) && HasId(q) ==> p.id != q.id
  }

  predicate OwnedBy(s: State, id: nat, task: nat) {
    task in s.tasks && HasId(s.tasks[task]) && s.tasks[task].id == id
  }

  ghost predicate Owned(s: State, id: nat) {
    exists task :: OwnedBy(s, id, task)
  }

  ghost predicate Inv(s: State) {
    && (forall id: nat :: IdFits(s, id))
    && (forall task :: task in s.tasks ==> TaskFits(s, task))
    && (forall t, u :: t in s.tasks && u in s.tasks && t != u ==> Apart(s.tasks[t], s.tasks[u]))
    && (forall id :: id in s.table.pending ==> Owned(s, id))
    && |s.tasks| <= s.capacity
    && (s.table.failure.Some? ==> s.table.pending == {})
    && (s.table.failure.None? ==> s.taken == {})
  }

  predicate About(e: Event, id: nat) {
    !e.Failed? && e.id == id
  }

  /** Two states agree on every id but `id`, and the log tells of nothing but `id`. */
  ghost predicate Elsewhere(s: State, t: State, id: nat, e: Option<Event>) {
    && t.capacity == s.capacity && t.next == s.next && t.table.failure == s.table.failure
    && t.table.pending - {id} == s.table.pending - {id}
    && t.taken - {id} == s.taken - {id}
    && t.inbox - {id} == s.inbox - {id}
    && (e.None? ==> t.log == s.log)
    && (e.Some? ==> About(e.value, id) && t.log == s.log + [e.value])
  }

  lemma {:induction false} OtherIdFits(s: State, t: State, id: nat, e: Option<Event>, other: nat)
    requires Elsewhere(s, t, id, e) && IdFits(s, other) && other != id
    ensures IdFits(t, other) && Judge(t.log, other) == Judge(s.log, other)
  {
    hide Judge;
    if e.Some? {
      JudgeOneMore(s.log, e.value, other);
    }
    assert other in t.table.pending <==> other in t.table.pending - {id};
    assert other in s.table.pending <==> other in s.table.pending - {id};
    assert other in t.taken <==> other in t.taken - {id};
    assert other in s.taken <==> other in s.taken - {id};
    assert other in t.inbox <==> other in (t.inbox - {id});
    assert other in s.inbox <==> other in (s.inbox - {id});
    if other in s.inbox {
      assert (t.inbox - {id})[other] == (s.inbox - {id})[other];
    }
  }

  /** A step of the task that owns `id` keeps the invariant when it keeps it for that id and that task. */
  lemma {:induction false} TaskMoves(s: State, t: State, task: nat, id: nat, e: Option<Event>)
    requires Inv(s) && OwnedBy(s, id, task) && Elsewhere(s, t, id, e)
    requires t.taken == s.taken || id !in t.taken
    requires t.tasks == s.tasks - {task} || (task in t.tasks && OwnedBy(t, id, task) && t.tasks == s.tasks[task := t.tasks[task]])
    requires IdFits(t, id) && (task in t.tasks ==> TaskFits(t, task))
    requires id in t.table.pending ==> task in t.tasks && t.table.failure.None?
    ensures Inv(t)
  {
    hide Judge, IdFits, PhaseFits, Elsewhere;
    forall other: nat
      ensures IdFits(t, other)
    {
      if other != id {
        OtherIdFits(s, t, id, e, other);
      }
    }
    forall u | u in t.tasks
      ensures TaskFits(t, u)
    {
      if u != task {
        assert Apart(s.tasks[u], s.tasks[task]);
        OtherTaskFits(s, t, id, e, u);
      }
    }
    PendingOwned(s, t, task, id, e);
    TasksShrink(s, t, task);
    NoneLeft(s, t, id, e);
  }

  lemma {:induction false} OtherTaskFits(s: State, t: State, id: nat, e: Option<Event>, u: nat)
    requires u in s.tasks && u in t.tasks && t.tasks[u] == s.tasks[u] && TaskFits(s, u)
    requires Elsewhere(s, t, id, e) && (HasId(s.tasks[u]) ==> s.tasks[u].id != id && IdFits(s, s.tasks[u].id))
    ensures TaskFits(t, u)
  {
    hide Judge, PhaseFits, IdFits;
    if HasId(s.tasks[u]) {
      OtherIdFits(s, t, id, e, s.tasks[u].id);
    }
  }

  lemma {:induction false} PendingOwned(s: State, t: State, task: nat, id: nat, e: Option<Event>)
    requires Inv(s) && OwnedBy(s, id, task) && Elsewhere(s, t, id, e)
    requires t.tasks == s.tasks - {task} || (task in t.tasks && OwnedBy(t, id, task) && t.tasks == s.tasks[task := t.tasks[task]])
    requires id in t.table.pending ==> task in t.tasks
    ensures forall other :: other in t.table.pending ==> Owned(t, other)
  {
    hide Judge, IdFits, PhaseFits;
    forall other | other in t.table.pending
      ensures Owned(t, other)
    {
      if other == id {
        assert OwnedBy(t, id, task);
      } else {
        assert other in t.table.pending - {id};
        assert other in s.table.pending;
        var u :| OwnedBy(s, other, u);
        assert OwnedBy(t, other, u);
      }
    }
  }

  lemma {:induction false} TasksShrink(s: State, t: State, task: nat)
    requires task in s.tasks && |s.tasks| <= s.capacity
    requires t.tasks == s.tasks - {task} || (task in t.tasks && t.tasks == s.tasks[task := t.tasks[task]])
    ensures |t.tasks| <= s.capacity
  {
    if t.tasks == s.tasks - {task} {
      assert t.tasks.Keys == s.tasks.Keys - {task};
      assert |t.tasks| == |t.tasks.Keys| && |s.tasks| == |s.tasks.Keys|;
    } else {
      assert t.tasks.Keys == s.tasks.Keys;
      assert |t.tasks| == |t.tasks.Keys| && |s.tasks| == |s.tasks.Keys|;
    }
  }

  lemma {:induction false} NoneLeft(s: State, t: State, id: nat, e: Option<Event>)
    requires Elsewhere(s, t, id, e)
    requires s.table.failure.Some? ==> s.table.pending == {}
    requires s.table.failure.None? ==> s.taken == {}
    requires id in t.table.pending ==> t.table.failure.None?
    requires t.taken == s.taken || id !in t.taken
    ensures t.table.failure.Some? ==> t.table.pending == {}
    ensures t.table.failure.None? ==> t.taken == {}
    ensures t.capacity == s.capacity
  {
    if t.table.failure.Some? {
      assert t.table.pending == t.table.pending - {id};
      assert s.table.pending - {id} == {};
    } else {
      assert id !in t.taken;
      assert t.taken == t.taken - {id};
      assert s.taken - {id} == {};
    }
  }

  // ----- every step keeps it -----

  lemma {:induction false} EnterKeeps(s: State, task: nat, id: nat)
    requires Inv(s) && task in s.tasks && s.tasks[task] == Numbered(id) && s.table.failure.None?
    ensures Inv(Log(Move(s, task, Registered(id)).(table := s.table.Register(id)), Entered(id)))
  {
    hide Judge;
    var t := Log(Move(s, task, Registered(id)).(table := s.table.Register(id)), Entered(id));
    assert TaskFits(s, task) && IdFits(s, id);
    JudgeOneMore(s.log, Entered(id), id);
    TaskMoves(s, t, task, id, Some(Entered(id)));
  }

  lemma {:induction false} LeaveKeeps(s: State, task: nat)
    requires Inv(s) && task in s.tasks
    requires HasId(s.tasks[task]) ==> s.tasks[task].id !in s.table.pending
    ensures Inv(Finish(s, task))
  {
    hide Judge, PhaseFits, IdFits;
    var t := Finish(s, task);
    forall id: nat
      ensures IdFits(t, id)
    {
      SameIdFits(s, t, id);
    }
    forall u | u in t.tasks
      ensures TaskFits(t, u)
    {
      assert TaskFits(s, u);
    }
    forall id | id in t.table.pending
      ensures Owned(t, id)
    {
      var u :| OwnedBy(s, id, u);
      assert OwnedBy(t, id, u);
    }
    TasksShrink(s, t, task);
  }

  lemma {:induction false} SameIdFits(s: State, t: State, id: nat)
    requires IdFits(s, id)
    requires t.log == s.log && t.table == s.table && t.taken == s.taken && t.inbox == s.inbox && t.next >= s.next
    ensures IdFits(t, id)
  {
    hide Judge;
  }

  lemma {:induction false} TrySendKeeps(s: State, task: nat, id: nat, accepted: bool)
    requires Inv(s) && task in s.tasks && s.tasks[task] == Registered(id)
    ensures Inv(if accepted then Log(Move(s, task, Waiting(id)), Sent(id)) else Move(s, task, Rejected(id)))
  {
    hide Judge;
    assert TaskFits(s, task) && IdFits(s, id);
    FailedIsEmpty(s, id);
    if accepted {
      JudgeOneMore(s.log, Sent(id), id);
      TaskMoves(s, Log(Move(s, task, Waiting(id)), Sent(id)), task, id, Some(Sent(id)));
    } else {
      TaskMoves(s, Move(s, task, Rejected(id)), task, id, None);
    }
  }

  lemma {:induction false} FailedIsEmpty(s: State, id: nat)
    requires Inv(s)
    ensures id in s.table.pending ==> s.table.failure.None?
    ensures id in s.taken ==> s.table.failure.Some?
    ensures s.table.failure.Some? ==> s.table.pending == {}
  {
  }

  lemma {:induction false} DropKeeps(s: State, task: nat, id: nat)
    requires Inv(s) && task in s.tasks && s.tasks[task] == Rejected(id) && id in s.table.pending
    ensures Inv(Log(Finish(s, task).(table := s.table.Remove(id)), Dropped(id)))
  {
    hide Judge;
    assert TaskFits(s, task) && IdFits(s, id);
    JudgeOneMore(s.log, Dropped(id), id);
    var t := Log(Finish(s, task).(table := s.table.Remove(id)), Dropped(id));
    TaskMoves(s, t, task, id, Some(Dropped(id)));
  }

  lemma {:induction false} WithdrawKeeps(s: State, task: nat, id: nat)
    requires Inv(s) && task in s.tasks && s.tasks[task] == Rejected(id)
    ensures Inv(TaskStep(s, task, Rejected(id), Withdraw(task)).value)
  {
    hide Judge;
    if id in s.table.pending {
      DropKeeps(s, task, id);
    } else {
      assert s.table.Remove(id) == s.table;
      LeaveKeeps(s, task);
    }
  }

  lemma {:induction false} ReceiveKeeps(s: State, task: nat, id: nat)
    requires Inv(s) && task in s.tasks && s.tasks[task] == Waiting(id) && id in s.inbox
    ensures Inv(TaskStep(s, task, Waiting(id), Receive(task)).value)
  {
    hide Judge;
    assert TaskFits(s, task) && IdFits(s, id);
    var e := Returned(id, s.inbox[id]);
    JudgeOneMore(s.log, e, id);
    TaskMoves(s, Log(Finish(s, task).(inbox := s.inbox - {id}), e), task, id, Some(e));
  }

  lemma {:induction false} CancelKeeps(s: State, task: nat, id: nat)
    requires Inv(s) && task in s.tasks && s.tasks[task] == Waiting(id) && id in s.table.pending
    ensures Inv(Log(Move(s, task, Notifying(id)).(table := s.table.Remove(id)), Cancelled(id)))
  {
    hide Judge;
    assert TaskFits(s, task) && IdFits(s, id);
    FailedIsEmpty(s, id);
    JudgeOneMore(s.log, Cancelled(id), id);
    TaskMoves(s, Log(Move(s, task, Notifying(id)).(table := s.table.Remove(id)), Cancelled(id)), task, id, Some(Cancelled(id)));
  }

  lemma {:induction false} StopKeeps(s: State, task: nat, id: nat)
    requires Inv(s) && task in s.tasks && s.tasks[task] == Waiting(id)
    ensures Inv(TaskStep(s, task, Waiting(id), StopWaiting(task)).value)
  {
    hide Judge, Inv;
    if id in s.table.pending {
      CancelKeeps(s, task, id);
    } else {
      LeaveKeeps(s, task);
    }
  }

  lemma {:induction false} NotPending(s: State, task: nat, id: nat)
    requires Inv(s) && task in s.tasks && s.tasks[task] == Notifying(id)
    ensures id !in s.table.pending
  {
    hide Judge;
    assert TaskFits(s, task) && IdFits(s, id);
  }

  lemma {:induction false} NoticeKeeps(s: State, task: nat, id: nat)
    requires Inv(s) && task in s.tasks && s.tasks[task] == Notifying(id)
    ensures Inv(Log(Finish(s, task), Notice(id)))
  {
    hide Judge;
    assert TaskFits(s, task) && IdFits(s, id);
    JudgeOneMore(s.log, Notice(id), id);
    TaskMoves(s, Log(Finish(s, task), Notice(id)), task, id, Some(Notice(id)));
  }

  lemma {:induction false} NotifyKeeps(s: State, task: nat, id: nat, accepted: bool)
    requires Inv(s) && task in s.tasks && s.tasks[task] == Notifying(id)
    ensures Inv(TaskStep(s, task, Notifying(id), Notify(task, accepted)).value)
  {
    hide Inv;
    if accepted {
      NoticeKeeps(s, task, id);
    } else {
      NotPending(s, task, id);
      LeaveKeeps(s, task);
    }
  }

  lemma {:induction false} AcquireKeeps(s: State, task: nat)
    requires Inv(s) && task !in s.tasks && |s.tasks| < s.capacity
    ensures Inv(Move(s, task, Admitted))
  {
    hide Judge, IdFits, PhaseFits;
    WithoutIdKeeps(s, Move(s, task, Admitted), task);
    OneMoreTask(s.tasks, task, Admitted);
  }

  lemma {:induction false} OneMoreTask(tasks: map<nat, Phase>, task: nat, p: Phase)
    requires task !in tasks
    ensures |tasks[task := p]| == |tasks| + 1
  {
    assert tasks[task := p].Keys == tasks.Keys + {task};
    assert |tasks[task := p]| == |tasks[task := p].Keys| && |tasks| == |tasks.Keys|;
  }

  /** The task had no id before the step, and has none or a new one after it. */
  lemma {:induction false} WithoutIdKeeps(s: State, t: State, task: nat)
    requires Inv(s) && (task in s.tasks ==> s.tasks[task].Admitted?)
    requires t.log == s.log && t.table == s.table && t.taken == s.taken && t.inbox == s.inbox
    requires task in t.tasks && t.tasks == s.tasks[task := t.tasks[task]]
    requires (t.tasks[task] == Admitted && t.next == s.next) || (t.tasks[task] == Numbered(s.next) && t.next == s.next + 1)
    ensures forall id: nat :: IdFits(t, id)
    ensures forall u :: u in t.tasks ==> TaskFits(t, u)
    ensures forall u, v :: u in t.tasks && v in t.tasks && u != v ==> Apart(t.tasks[u], t.tasks[v])
    ensures forall id :: id in t.table.pending ==> Owned(t, id)
  {
    hide Judge;
    forall id: nat
      ensures IdFits(t, id)
    {
      assert IdFits(s, id);
      SameIdFits(s, t, id);
    }
    forall u | u in t.tasks
      ensures TaskFits(t, u)
    {
      if u != task {
        assert TaskFits(s, u);
      } else {
        assert IdFits(s, s.next);
      }
    }
    forall u, v | u in t.tasks && v in t.tasks && u != v
      ensures Apart(t.tasks[u], t.tasks[v])
    {
      assert u != task ==> TaskFits(s, u);
      assert v != task ==> TaskFits(s, v);
    }
    forall id | id in t.table.pending
      ensures Owned(t, id)
    {
      var u :| OwnedBy(s, id, u);
      assert OwnedBy(t, id, u);
    }
  }

  lemma {:induction false} NumberKeeps(s: State, task: nat)
    requires Inv(s) && task in s.tasks && s.tasks[task].Admitted?
    ensures Inv(Move(s, task, Numbered(s.next)).(next := s.next + 1))
  {
    hide Judge, IdFits, PhaseFits;
    var t := Move(s, task, Numbered(s.next)).(next := s.next + 1);
    WithoutIdKeeps(s, t, task);
    TasksShrink(s, t, task);
  }

  /** A step of the reader that resolves `id`. */
  lemma {:induction false} ResolveKeeps(s: State, t: State, id: nat, outcome: Outcome)
    requires Inv(s) && Elsewhere(s, t, id, Some(Resolved(id, outcome))) && t.tasks == s.tasks
    requires (id in s.table.pending && outcome.Reply?) || (id in s.taken && outcome.Broken?)
    requires id !in t.table.pending && id !in t.taken && id in t.inbox && t.inbox[id] == outcome
    ensures Inv(t)
  {
    hide Judge;
    var e := Resolved(id, outcome);
    assert IdFits(s, id);
    JudgeOneMore(s.log, e, id);
    forall other: nat
      ensures IdFits(t, other)
    {
      if other != id {
        OtherIdFits(s, t, id, Some(e), other);
      }
    }
    forall u | u in t.tasks
      ensures TaskFits(t, u)
    {
      assert TaskFits(s, u);
      if HasId(s.tasks[u]) && s.tasks[u].id != id {
        OtherTaskFits(s, t, id, Some(e), u);
      }
    }
    forall other | other in t.table.pending
      ensures Owned(t, other)
    {
      assert other in t.table.pending - {id};
      assert other in s.table.pending;
      var u :| OwnedBy(s, other, u);
      assert OwnedBy(t, other, u);
    }
    NoneLeft(s, t, id, Some(e));
  }

  lemma {:induction false} FailKeeps(s: State, failure: Failure)
    requires Inv(s) && s.table.failure.None?
    ensures Inv(Log(s.(table := s.table.Fail(failure), taken := s.table.pending), Failed))
  {
    hide Judge;
    var t := Log(s.(table := s.table.Fail(failure), taken := s.table.pending), Failed);
    forall id: nat
      ensures IdFits(t, id)
    {
      assert IdFits(s, id);
      JudgeOneMore(s.log, Failed, id);
    }
    forall u | u in t.tasks
      ensures TaskFits(t, u)
    {
      assert TaskFits(s, u);
      if HasId(s.tasks[u]) {
        JudgeOneMore(s.log, Failed, s.tasks[u].id);
      }
    }
  }

  lemma {:induction false} StepKeeps(s: State, step: Step)
    requires Inv(s) && Next(s, step).Some?
    ensures Inv(Next(s, step).value)
  {
    hide Judge, IdFits, PhaseFits, Elsewhere, Inv;
    match step
    case Acquire(task) => AcquireKeeps(s, task);
    case Response(id, response) =>
      if id in s.table.pending {
        ResponseKeeps(s, id, response);
      }
    case Fail(failure) => FailKeeps(s, failure);
    case FailOne(id) => FailOneKeeps(s, id);
    case GiveUp(task) => LeaveKeeps(s, task);
    case Number(task) => NumberKeeps(s, task);
    case Enter(task) =>
      var id := s.tasks[task].id;
      if s.table.failure.Some? {
        FailedIsEmpty(s, id);
        LeaveKeeps(s, task);
      } else {
        EnterKeeps(s, task, id);
      }
    case TrySend(task, accepted) => TrySendKeeps(s, task, s.tasks[task].id, accepted);
    case Withdraw(task) => WithdrawKeeps(s, task, s.tasks[task].id);
    case Receive(task) => ReceiveKeeps(s, task, s.tasks[task].id);
    case StopWaiting(task) => StopKeeps(s, task, s.tasks[task].id);
    case Notify(task, accepted) => NotifyKeeps(s, task, s.tasks[task].id, accepted);
  }

  lemma {:induction false} ResponseKeeps(s: State, id: nat, response: nat)
    requires Inv(s) && id in s.table.pending && s.table.failure.None?
    ensures Inv(Next(s, Response(id, response)).value)
  {
    hide Judge, Inv;
    var t := Next(s, Response(id, response)).value;
    FailedIsEmpty(s, id);
    assert t.inbox - {id} == s.inbox - {id};
    ResolveKeeps(s, t, id, Reply(response));
  }

  lemma {:induction false} FailOneKeeps(s: State, id: nat)
    requires Inv(s) && Next(s, FailOne(id)).Some?
    ensures Inv(Next(s, FailOne(id)).value)
  {
    hide Judge, Inv;
    var t := Next(s, FailOne(id)).value;
    FailedIsEmpty(s, id);
    assert t.inbox - {id} == s.inbox - {id};
    ResolveKeeps(s, t, id, Broken(s.table.failure.value));
  }

  lemma {:induction false} RunKeeps(s: State, steps: seq<Step>)
    requires Inv(s) && Run(s, steps).Some?
    ensures Inv(Run(s, steps).value)
    decreases |steps|
  {
    hide Inv, Next;
    if steps != [] {
      StepKeeps(s, steps[0]);
      RunKeeps(Next(s, steps[0]).value, steps[1..]);
    }
  }

  lemma {:induction false} StartFits(capacity: nat)
    ensures Inv(Start(capacity))
  {
    var s := Start(capacity);
    assert forall id: nat :: Judge(s.log, id) == Some(UNUSED);
  }

  // ----- what every run keeps -----

  predicate Reached(capacity: nat, steps: seq<Step>, s: State) {
    Run(Start(capacity), steps) == Some(s)
  }

  lemma {:induction false} ReachedFits(capacity: nat, steps: seq<Step>, s: State)
    requires Reached(capacity, steps, s)
    ensures Inv(s)
  {
    hide Inv;
    StartFits(capacity);
    RunKeeps(Start(capacity), steps);
  }

  /** How often the log has each kind of event about one id. */
  datatype Tally = Tally(entered: nat, sent: nat, resolved: nat, dropped: nat, cancelled: nat, notices: nat, returned: nat)

  function CountOne(c: Tally, e: Event): Tally {
    match e
    case Entered(_) => c.(entered := c.entered + 1)
    case Sent(_) => c.(sent := c.sent + 1)
    case Failed => c
    case Resolved(_, _) => c.(resolved := c.resolved + 1)
    case Dropped(_) => c.(dropped := c.dropped + 1)
    case Cancelled(_) => c.(cancelled := c.cancelled + 1)
    case Notice(_) => c.(notices := c.notices + 1)
    case Returned(_, _) => c.(returned := c.returned + 1)
  }

  function CountUp(log: seq<Event>, id: nat): Tally {
    if log == [] then Tally(0, 0, 0, 0, 0, 0, 0)
    else
      var before := CountUp(log[..|log| - 1], id);
      if About(log[|log| - 1], id) then CountOne(before, log[|log| - 1]) else before
  }

  predicate TallyFits(c: Tally, l: Life) {
    && c.entered == (if l.place.Unused? then 0 else 1)
    && c.sent == (if l.sent then 1 else 0)
    && c.resolved == (if l.place.Answered? || l.place.Used? then 1 else 0)
    && c.dropped == (if l.place.Gone? then 1 else 0)
    && c.cancelled == (if l.place.Abandoned? then 1 else 0)
    && c.notices == (if l.notified then 1 else 0)
    && c.returned == (if l.place.Used? then 1 else 0)
    && (l.notified ==> l.place.Abandoned?) && (l.place.Abandoned? || l.place.Used? ==> l.sent)
    && (l.sent ==> !l.place.Unused? && !l.place.Gone?)
  }

  lemma {:induction false} TalliesFit(log: seq<Event>, id: nat)
    requires Judge(log, id).Some?
    ensures TallyFits(CountUp(log, id), Judge(log, id).value)
    decreases |log|
  {
    if log != [] {
      TalliesFit(log[..|log| - 1], id);
    }
  }

  lemma {:induction false} PrefixJudged(log: seq<Event>, n: nat, id: nat)
    requires n <= |log| && Judge(log, id).Some?
    ensures Judge(log[..n], id).Some?
    decreases |log|
  {
    if n < |log| {
      PrefixJudged(log[..|log| - 1], n, id);
      assert log[..|log| - 1][..n] == log[..n];
    } else {
      assert log[..n] == log;
    }
  }

  /** At most one of each, and nothing before what it follows from. */
  predicate OnceEach(c: Tally) {
    && c.entered <= 1 && c.resolved + c.dropped + c.cancelled <= c.entered
    && c.cancelled <= c.sent <= c.entered
    && c.notices <= c.cancelled
    && c.returned <= c.resolved && c.returned <= c.sent
  }

  /**
    At every moment of every run, each id was registered at most once and enqueued at most
    once after that; it was resolved, withdrawn or cancelled at most once altogether; a cancel
    notice went out at most once, and only for an enqueued request that was still pending when
    it was cancelled, so that it was never resolved.
   */
  lemma {:induction false} EachIdOnce(capacity: nat, steps: seq<Step>, s: State, n: nat, id: nat)
    requires Reached(capacity, steps, s) && n <= |s.log|
    ensures OnceEach(CountUp(s.log[..n], id))
  {
    hide Judge, CountUp, Reached;
    ReachedFits(capacity, steps, s);
    assert IdFits(s, id);
    PrefixJudged(s.log, n, id);
    TalliesFit(s.log[..n], id);
  }

  lemma {:induction false} AnswerWasResolved(log: seq<Event>, id: nat)
    requires Judge(log, id).Some? && Judge(log, id).value.place.Answered?
    ensures Resolved(id, Judge(log, id).value.place.outcome) in log
    decreases |log|
  {
    if log != [] {
      var before := log[..|log| - 1];
      assert log == before + [log[|log| - 1]];
      if Judge(before, id).value.place.Answered? {
        AnswerWasResolved(before, id);
      }
    }
  }

  /** What a call returns was sent to its own id before. */
  lemma {:induction false} ReturnsItsOwn(capacity: nat, steps: seq<Step>, s: State, n: nat, id: nat, outcome: Outcome)
    requires Reached(capacity, steps, s) && n < |s.log| && s.log[n] == Returned(id, outcome)
    ensures Resolved(id, outcome) in s.log[..n]
  {
    hide Reached;
    ReachedFits(capacity, steps, s);
    assert IdFits(s, id);
    PrefixJudged(s.log, n + 1, id);
    assert s.log[..n + 1][..n] == s.log[..n];
    AnswerWasResolved(s.log[..n], id);
  }

  lemma {:induction false} OwnersSuffice(s: State, ids: set<nat>)
    requires forall id :: id in ids ==> Owned(s, id)
    ensures |ids| <= |s.tasks|
    decreases |ids|
  {
    if ids != {} {
      var id :| id in ids;
      var task :| OwnedBy(s, id, task);
      var t := Finish(s, task);
      forall other | other in ids - {id}
        ensures Owned(t, other)
      {
        var u :| OwnedBy(s, other, u);
        assert OwnedBy(t, other, u);
      }
      OwnersSuffice(t, ids - {id});
      assert t.tasks.Keys == s.tasks.Keys - {task};
      assert |t.tasks| == |t.tasks.Keys| && |s.tasks| == |s.tasks.Keys|;
    }
  }

  /** The table never holds more entries than there are permits. */
  lemma {:induction false} TableWithinPermits(capacity: nat, steps: seq<Step>, s: State)
    requires Reached(capacity, steps, s)
    ensures |s.table.pending| <= |s.tasks| <= s.capacity == capacity
  {
    hide Judge, IdFits, TaskFits, Reached;
    ReachedFits(capacity, steps, s);
    OwnersSuffice(s, s.table.pending);
    assert Start(capacity).capacity == capacity;
    CapacityStays(capacity, steps, s);
  }

  lemma {:induction false} CapacityStays(capacity: nat, steps: seq<Step>, s: State)
    requires Reached(capacity, steps, s)
    ensures s.capacity == capacity
  {
    RunExtends(Start(capacity), steps);
  }

  lemma {:induction false} RunExtends(s: State, steps: seq<Step>)
    requires Run(s, steps).Some?
    ensures var t := Run(s, steps).value;
            t.capacity == s.capacity && s.log <= t.log
    decreases |steps|
  {
    if steps != [] {
      StepExtends(s, steps[0]);
      RunExtends(Next(s, steps[0]).value, steps[1..]);
    }
  }

  lemma {:induction false} StepExtends(s: State, step: Step)
    requires Next(s, step).Some?
    ensures var t := Next(s, step).value;
            t.capacity == s.capacity && s.log <= t.log
  {
  }

  /** A response changes something exactly when its id is pending. */
  lemma {:induction false} StaleResponseExactly(s: State, id: nat, response: nat)
    requires s.table.failure.None?
    ensures Next(s, Response(id, response)) == Some(s) <==> id !in s.table.pending
  {
    if id in s.table.pending {
      assert |Next(s, Response(id, response)).value.log| == |s.log| + 1;
    }
  }

  /** A late or duplicate response, one whose request was already settled, changes nothing. */
  lemma {:induction false} LateResponse(capacity: nat, steps: seq<Step>, s: State, id: nat, response: nat)
    requires Reached(capacity, steps, s) && s.table.failure.None?
    requires var c := CountUp(s.log, id);
             c.entered == 0 || c.resolved + c.dropped + c.cancelled > 0
    ensures Next(s, Response(id, response)) == Some(s)
  {
    hide Judge, CountUp, Reached;
    ReachedFits(capacity, steps, s);
    assert IdFits(s, id);
    TalliesFit(s.log, id);
  }

  // ----- the end of the reader -----

  /** What holds from the failure of the reader on. */
  ghost predicate AfterFailure(s: State, t: State) {
    && s.table.failure.Some?
    && t.table == s.table && s.log <= t.log && t.taken <= s.taken
    && (forall k :: |s.log| <= k < |t.log| ==> !t.log[k].Entered?)
    && forall id :: id in s.taken ==> id in t.taken || Resolved(id, Broken(s.table.failure.value)) in t.log
  }

  lemma {:induction false} StepAfterFailure(s: State, step: Step)
    requires Next(s, step).Some? && s.table.failure.Some? && s.table.pending == {}
    ensures AfterFailure(s, Next(s, step).value)
  {
    var t := Next(s, step).value;
    if step.Withdraw? {
      assert s.table.Remove(s.tasks[step.task].id) == s.table;
    } else if step.FailOne? {
      assert t.log[|s.log|] == Resolved(step.id, Broken(s.table.failure.value));
    }
  }

  /**
    Once the reader's failure is recorded, the table stays empty and the failure stays, in
    every continuation; no request enters it any more; and every id that was pending is
    resolved with that failure as soon as the reader has used all the senders it took.
   */
  lemma {:induction false} FailureIsFinal(s: State, steps: seq<Step>)
    requires Run(s, steps).Some? && s.table.failure.Some? && s.table.pending == {}
    ensures AfterFailure(s, Run(s, steps).value)
    decreases |steps|
  {
    hide Next;
    if steps != [] {
      var m := Next(s, steps[0]).value;
      StepAfterFailure(s, steps[0]);
      FailureIsFinal(m, steps[1..]);
    }
  }

  lemma {:induction false} EveryPendingIsFailed(s: State, failure: Failure, steps: seq<Step>, t: State)
    requires Inv(s) && s.table.failure.None?
    requires Run(s, [Fail(failure)] + steps) == Some(t) && t.taken == {}
    ensures t.table == Table({}, Some(failure))
    ensures forall id :: id in s.table.pending ==> Resolved(id, Broken(failure)) in t.log
  {
    hide Inv;
    var m := Next(s, Fail(failure)).value;
    assert ([Fail(failure)] + steps)[1..] == steps;
    FailureIsFinal(m, steps);
  }

  /**
    No call waits in vain: its request is pending, or the failed reader is about to resolve
    it, or its outcome is there to be received.
   */
  lemma {:induction false} NoCallIsLost(capacity: nat, steps: seq<Step>, s: State, task: nat)
    requires Reached(capacity, steps, s) && task in s.tasks && s.tasks[task].Waiting?
    ensures var id := s.tasks[task].id;
            id in s.table.pending || id in s.taken || id in s.inbox
    ensures s.table.failure.Some? && s.taken == {} ==> Next(s, Receive(task)).Some?
  {
    hide Judge, Reached;
    ReachedFits(capacity, steps, s);
    assert TaskFits(s, task) && IdFits(s, s.tasks[task].id);
  }

  // ----- what a call can always do -----

  lemma {:induction false} RunTwo(s: State, a: Step, b: Step)
    requires Next(s, a).Some? && Next(Next(s, a).value, b).Some?
    ensures Run(s, [a, b]) == Next(Next(s, a).value, b)
  {
    hide Next;
    assert [a, b][1..] == [b] && [b][1..] == [];
    var m := Next(s, a).value;
    assert Run(Next(m, b).value, []) == Some(Next(m, b).value);
    assert Run(m, [b]) == Next(m, b);
  }

  lemma {:induction false} RunFirst(s: State, a: Step, steps: seq<Step>)
    requires Next(s, a).Some?
    ensures Run(s, [a] + steps) == Run(Next(s, a).value, steps)
  {
    hide Next;
    assert ([a] + steps)[1..] == steps;
  }

  /** The response to a pending request reaches the call that waits for it, which then releases its permit. */
  lemma {:induction false} ResponseIsReturned(s: State, task: nat, id: nat, response: nat)
    requires s.table.failure.None? && task in s.tasks && s.tasks[task] == Waiting(id) && id in s.table.pending
    ensures var t := Run(s, [Response(id, response), Receive(task)]);
            && t.Some? && t.value.tasks == s.tasks - {task} && t.value.next == s.next && id !in t.value.table.pending
            && t.value.log == s.log + [Resolved(id, Reply(response)), Returned(id, Reply(response))]
  {
    var m := Next(s, Response(id, response)).value;
    RunTwo(s, Response(id, response), Receive(task));
    assert (s.log + [Resolved(id, Reply(response))]) + [Returned(id, Reply(response))] ==
           s.log + [Resolved(id, Reply(response)), Returned(id, Reply(response))];
  }

  /** A call that stops waiting while its request is pending takes it back and can tell the server. */
  lemma {:induction false} CancellationIsSent(s: State, task: nat, id: nat)
    requires task in s.tasks && s.tasks[task] == Waiting(id) && id in s.table.pending
    ensures var t := Run(s, [StopWaiting(task), Notify(task, true)]);
            && t.Some? && task !in t.value.tasks && id !in t.value.table.pending
            && t.value.log == s.log + [Cancelled(id), Notice(id)]
  {
    var m := Next(s, StopWaiting(task)).value;
    RunTwo(s, StopWaiting(task), Notify(task, true));
    assert (s.log + [Cancelled(id)]) + [Notice(id)] == s.log + [Cancelled(id), Notice(id)];
  }

  lemma {:induction false} CallIsEntered(s: State, task: nat)
    requires s.table.failure.None? && task !in s.tasks && |s.tasks| < s.capacity
    ensures var id := s.next;
            Run(s, [Acquire(task)] + ([Number(task), Enter(task)])) ==
            Some(s.(next := id + 1, table := s.table.Register(id), tasks := s.tasks[task := Registered(id)],
                    log := s.log + [Entered(id)]))
  {
    var s1 := Next(s, Acquire(task)).value;
    RunFirst(s, Acquire(task), [Number(task), Enter(task)]);
    RunTwo(s1, Number(task), Enter(task));
    assert s.tasks[task := Admitted][task := Numbered(s.next)][task := Registered(s.next)] ==
           s.tasks[task := Registered(s.next)];
  }

  lemma {:induction false} RunConcat(s: State, a: seq<Step>, b: seq<Step>)
    requires Run(s, a).Some?
    ensures Run(s, a + b) == Run(Run(s, a).value, b)
    decreases |a|
  {
    hide Next;
    if a == [] {
      assert a + b == b;
    } else {
      assert (a + b)[1..] == a[1..] + b;
      RunConcat(Next(s, a[0]).value, a[1..], b);
    }
  }

  /** While the reader works and a permit is free, a new call can go through to its end, under an id of its own. */
  lemma {:induction false} CallCompletes(s: State, task: nat, response: nat)
    requires s.table.failure.None? && task !in s.tasks && |s.tasks| < s.capacity
    ensures var id := s.next;
            var t := Run(s, ([Acquire(task)] + [Number(task), Enter(task)]) +
                            ([TrySend(task, true)] + [Response(id, response), Receive(task)]));
            && t.Some? && t.value.tasks == s.tasks && t.value.next == id + 1
            && t.value.log == s.log + [Entered(id), Sent(id), Resolved(id, Reply(response)), Returned(id, Reply(response))]
  {
    hide Next;
    var id := s.next;
    var last := [Response(id, response), Receive(task)];
    CallIsEntered(s, task);
    var entered := Run(s, [Acquire(task)] + [Number(task), Enter(task)]).value;
    RunConcat(s, [Acquire(task)] + [Number(task), Enter(task)], [TrySend(task, true)] + last);
    RequestIsSent(entered, task, id);
    var sent := Next(entered, TrySend(task, true)).value;
    RunFirst(entered, TrySend(task, true), last);
    ResponseIsReturned(sent, task, id, response);
    assert sent.tasks - {task} == s.tasks;
  }

  lemma {:induction false} RequestIsSent(s: State, task: nat, id: nat)
    requires task in s.tasks && s.tasks[task] == Registered(id)
    ensures Next(s, TrySend(task, true)) == Some(Log(Move(s, task, Waiting(id)), Sent(id)))
  {
  }

  /** The stopped reader can use all the senders it took, and then every one of their ids has the failure. */
  lemma {:induction false} ReaderFinishes(s: State) returns (steps: seq<Step>, t: State)
    requires s.table.failure.Some?
    ensures Run(s, steps) == Some(t)
    ensures t.taken == {} && t.table == s.table && t.tasks == s.tasks && s.log <= t.log
    ensures forall id :: id in s.taken ==> id in t.inbox && t.inbox[id] == Broken(s.table.failure.value)
    ensures forall id :: id in s.inbox && id !in s.taken ==> id in t.inbox && t.inbox[id] == s.inbox[id]
    decreases |s.taken|
  {
    if s.taken == {} {
      steps, t := [], s;
    } else {
      var id :| id in s.taken;
      var m := Next(s, FailOne(id)).value;
      var rest: seq<Step>;
      rest, t := ReaderFinishes(m);
      hide Next;
      steps := [FailOne(id)] + rest;
      RunFirst(s, FailOne(id), rest);
    }
  }

  /** When the reader fails, every call that waits for a pending request can return that failure. */
  lemma {:induction false} FailureReachesEveryCall(s: State, failure: Failure) returns (steps: seq<Step>, t: State)
    requires s.table.failure.None?
    ensures Run(s, [Fail(failure)] + steps) == Some(t) && t.taken == {} && t.table == Table({}, Some(failure))
    ensures forall task, id :: task in s.tasks && s.tasks[task] == Waiting(id) && id in s.table.pending ==>
              Next(t, Receive(task)) == Some(Log(Finish(t, task).(inbox := t.inbox - {id}), Returned(id, Broken(failure))))
  {
    var m := Next(s, Fail(failure)).value;
    steps, t := ReaderFinishes(m);
    RunFirst(s, Fail(failure), steps);
  }

  /** How many more steps a call takes at most to end by itself. */
  function Left(p: Phase): nat {
    match p
    case Numbered(_) => 3
    case Registered(_) => 2
    case Waiting(_) => 2
    case _ => 1
  }

  /** The next step of a call that is to end by itself: it gives up, withdraws its request or cancels it. */
  function Ending(p: Phase, task: nat): Step {
    match p
    case Admitted => GiveUp(task)
    case Numbered(_) => Enter(task)
    case Registered(_) => TrySend(task, false)
    case Rejected(_) => Withdraw(task)
    case Waiting(_) => StopWaiting(task)
    case Notifying(_) => Notify(task, false)
  }

  lemma {:induction false} EndsOrComesNearer(s: State, task: nat)
    requires Inv(s) && task in s.tasks
    ensures Next(s, Ending(s.tasks[task], task)).Some?
    ensures var p, t := s.tasks[task], Next(s, Ending(s.tasks[task], task)).value;
            if task in t.tasks then
              && t.tasks == s.tasks[task := t.tasks[task]] && Left(t.tasks[task]) < Left(p)
              && HasId(p) && HasId(t.tasks[task]) && t.tasks[task].id == p.id
            else
              t.tasks == s.tasks - {task} && (HasId(p) ==> p.id !in t.table.pending)
  {
    if s.tasks[task].Notifying? {
      NotPending(s, task, s.tasks[task].id);
    }
    hide IdFits, TaskFits, Judge, Owned;
  }

  /** However far a call has come, it can end by itself, and then its request is no longer pending. */
  lemma {:induction false} EveryCallCanEnd(s: State, task: nat) returns (steps: seq<Step>, t: State)
    requires Inv(s) && task in s.tasks
    ensures Run(s, steps) == Some(t) && t.tasks == s.tasks - {task}
    ensures HasId(s.tasks[task]) ==> s.tasks[task].id !in t.table.pending
    ensures forall step :: step in steps ==> exists p :: step == Ending(p, task)
    decreases if task in s.tasks then Left(s.tasks[task]) else 0
  {
    hide Next, Inv, Left, Ending;
    EndsOrComesNearer(s, task);
    var step := Ending(s.tasks[task], task);
    StepKeeps(s, step);
    var m := Next(s, step).value;
    var rest: seq<Step>;
    if task in m.tasks {
      rest, t := EveryCallCanEnd(m, task);
      assert m.tasks - {task} == s.tasks - {task};
    } else {
      rest, t := [], m;
    }
    RunFirst(s, step, rest);
    steps := [step] + rest;
  }
}
