/**
  src/lsp.rs: one request to a language server with its retries.  The clock, cancellation,
  readiness, the request queue and the server are the environment of the call; what the call
  sees and does is kept in its trace, over which its rules are stated.  Times are milliseconds.
 */
module RetryLoop {
  import opened Wrappers

  const MAX_REQUEST_RETRIES := 3
  const RETRY_MIN_DELAY := 50
  const RETRY_READINESS_WAIT := 1000
  const SEMANTIC_READINESS_WAIT := 5000

  const REQUEST_CANCELLED := -32800
  const CONTENT_MODIFIED := -32801
  const SERVER_CANCELLED := -32802

  datatype Json =
    | Null
    | Bool(value: bool)
    | Number(number: int)
    | String(text: string)
    | Array(elements: seq<Json>)
    | Object(members: map<string, Json>)
  {
    /** `serde_json::Value::get` with a string */
    function Get(key: string): Option<Json> {
      if Object? && key in members then Some(members[key]) else None
    }
  }

  datatype LspError =
    | Canceled
    | TimedOut
    | TransportClosed
    | QueueFull
    | ServerFailed
    | ResponseError(code: int, data: Option<Json>)
    | RetryExhausted(attempts: nat, source: LspError)

  datatype Readiness = NotStarted | Starting | Busy | Ready | Degraded | Unknown

  type Answer = Result<Json, LspError>

  // ----- which answers are retried -----

  predicate PermitsRetrigger(data: Option<Json>) {
    var directive := if data.None? then None else data.value.Get("retriggerRequest");
    directive.None? || directive.value == Bool(true)
  }

  predicate IsRetriggerableCancellation(name: string, error: LspError) {
    && name != "initialize" && name != "shutdown"
    && error.ResponseError? && (error.code == SERVER_CANCELLED || error.code == REQUEST_CANCELLED)
    && PermitsRetrigger(error.data)
  }

  predicate IsEmptySemanticResult(name: string, value: Json) {
    || value.Null?
    || value == Array([])
    || (name == "textDocument/signatureHelp" && value.Get("signatures") == Some(Array([])))
  }

  /** An answer of the server, as opposed to an error on this side. */
  predicate Responded(answer: Answer) {
    answer.Ok? || answer.error.ResponseError?
  }

  /** An error of this side, as it is before the retry loop makes anything of it. */
  predicate OnThisSide(answer: Answer) {
    answer.Err? && !answer.error.ResponseError? && !answer.error.RetryExhausted?
  }

  /** `timeout` is `request_timeout`, and `deadline` a time. */
  datatype Request = Request(name: string, document: bool, timeout: nat, deadline: nat) {
    /** `recover_semantics` */
    predicate Recovers() {
      document || name == "workspace/symbol"
    }

    /** An answer after which the request may be sent again; for an empty one the server must also be busy. */
    predicate Retryable(answer: Answer) {
      if answer.Ok? then Recovers() && IsEmptySemanticResult(name, answer.value)
      else
        || IsRetriggerableCancellation(name, answer.error)
        || (&& answer.error.ResponseError? && answer.error.code == CONTENT_MODIFIED
            && Recovers() && PermitsRetrigger(answer.error.data))
    }
  }

  /** How long the server may stay busy after an answer before the request is sent again anyway. */
  function Patience(request: Request, answer: Answer): nat {
    if answer.Ok? then request.timeout else if answer.error.ResponseError? && answer.error.code == -32801 then 5000 else 1000
  }

  // The same in LSP's own terms: error codes -32802 (server cancelled), -32800 (request cancelled) and -32801
  // (content modified), and the `retriggerRequest` of their data.

  /** Nothing in the data of an error forbids another attempt. */
  ghost predicate AllowsAnother(data: Option<Json>) {
    match data
    case Some(Object(members)) => "retriggerRequest" in members ==> members["retriggerRequest"] == Bool(true)
    case _ => true
  }

  /** Requests whose answers depend on what the server has indexed. */
  ghost predicate IsSemantic(request: Request) {
    request.document || request.name == "workspace/symbol"
  }

  /** No result, no elements, or a signature help without signatures. */
  ghost predicate SaysNothing(request: Request, value: Json) {
    match value
    case Null => true
    case Array(elements) => |elements| == 0
    case Object(members) =>
      request.name == "textDocument/signatureHelp" && "signatures" in members && members["signatures"] == Array([])
    case _ => false
  }

  ghost predicate MayRepeat(request: Request, answer: Answer) {
    match answer
    case Ok(value) => IsSemantic(request) && SaysNothing(request, value)
    case Err(ResponseError(code, data)) =>
      && AllowsAnother(data)
      && if code == -32801 then IsSemantic(request) else
           (code == -32802 || code == -32800) && request.name != "initialize" && request.name != "shutdown"
    case Err(_) => false
  }

  /** The answers that are retried, in LSP's own terms. */
  lemma {:induction false} RetryableInProtocolTerms(request: Request, answer: Answer)
    ensures request.Retryable(answer) <==> MayRepeat(request, answer)
  {
    if answer.Ok? && answer.value.Object? && "signatures" in answer.value.members {
      assert answer.value.Get("signatures") == Some(answer.value.members["signatures"]);
    }
  }

  // ----- traces -----

  datatype Event =
    | Checked(passed: bool)
    | Observed(state: Readiness)
    | Compared(current: bool)
    | Sent(at: nat)
    | Answered(answer: Answer, at: nat)
    | WaitBegun(at: nat)
    | Slept(until: nat)

  function SendCount(trace: seq<Event>): nat {
    if trace == [] then 0
    else SendCount(trace[..|trace| - 1]) + if trace[|trace| - 1].Sent? then 1 else 0
  }

  function LastAnswer(trace: seq<Event>): Option<Answer> {
    if trace == [] then None
    else if trace[|trace| - 1].Answered? then Some(trace[|trace| - 1].answer)
    else LastAnswer(trace[..|trace| - 1])
  }

  /** The server says it is done, or says nothing about its state. */
  predicate Opens(e: Event) {
    e.Observed? && (e.state.Ready? || e.state.Unknown?)
  }

  predicate NotBusy(e: Event) {
    e.Observed? && !e.state.Busy?
  }

  /** Between the events `i` and `j` the server was seen ready, or in no known state. */
  ghost predicate Released(trace: seq<Event>, i: int, j: int) {
    && 0 <= i < j <= |trace|
    && exists k :: i < k < j && Opens(trace[k])
  }

  /** The pause after an error is over; an empty result is never sent again for that reason. */
  predicate Due(request: Request, e: Event, now: nat) {
    && e.Answered?
    && e.answer.Err? && now >= e.at + Patience(request, e.answer)
  }

  /** Any two sends are at least the minimal delay apart. */
  ghost predicate Spaced(trace: seq<Event>) {
    forall i, j :: 0 <= i < j < |trace| && trace[i].Sent? && trace[j].Sent? ==>
      trace[i].at + RETRY_MIN_DELAY <= trace[j].at
  }

  /** Nothing is sent after a deadline or cancellation check has failed. */
  ghost predicate Obedient(trace: seq<Event>) {
    forall i, j :: 0 <= i < j < |trace| && trace[i] == Checked(false) ==> !trace[j].Sent?
  }

  /**
    After an answer the request is sent again only when the answer allows it, and the server
    was seen ready or in no known state in between, or the pause after the error is over.
   */
  ghost predicate Gated(request: Request, trace: seq<Event>) {
    forall i, j :: 0 <= i < j < |trace| && trace[i].Answered? && trace[j].Sent? ==>
      && request.Retryable(trace[i].answer)
      && (Released(trace, i, j) || Due(request, trace[i], trace[j].at))
  }

  /** A request about a document is sent again only right after the document was found unchanged. */
  ghost predicate Revalidated(trace: seq<Event>) {
    forall i, j :: 0 <= i < j < |trace| && trace[i].Sent? && trace[j].Sent? ==> j >= 2 && trace[j - 2] == Compared(true)
  }

  /** Nothing is sent but right after a check that has passed. */
  ghost predicate Vetted(trace: seq<Event>) {
    forall j :: 0 <= j < |trace| && trace[j].Sent? ==> j >= 1 && trace[j - 1] == Checked(true)
  }

  /**
    A wait that began at `b` sleeps no longer than the minimal delay with the server seen ready, than
    its patience otherwise, and than the deadline in any case.
   */
  ghost predicate InTime(request: Request, trace: seq<Event>, b: int, m: int) {
    && 0 <= b < m < |trace| && trace[m].Slept?
    && trace[b].WaitBegun? && (forall x :: b < x < m ==> !trace[x].WaitBegun? && !trace[x].Answered?)
    && LastAnswer(trace[..b]).Some? && trace[m].until <= request.deadline
    && var patience := Patience(request, LastAnswer(trace[..b]).value);
       trace[m].until <= trace[b].at + if Opens(trace[m - 1]) || patience <= 50 then 50 else patience
  }

  ghost predicate Prompt(request: Request, trace: seq<Event>) {
    forall m :: 0 <= m < |trace| && trace[m].Slept? ==> exists b :: 0 <= b < m && InTime(request, trace, b, m)
  }

  ghost predicate Lawful(request: Request, trace: seq<Event>) {
    && Spaced(trace) && Obedient(trace) && Gated(request, trace) && (request.document ==> Revalidated(trace))
    && Vetted(trace) && Prompt(request, trace)
  }

  /** Why the send at `j` may follow the answer at `i`. */
  ghost predicate MayFollow(request: Request, trace: seq<Event>, i: int, j: int) {
    && 0 <= i < j < |trace| && trace[i].Answered? && trace[j].Sent?
    && MayRepeat(request, trace[i].answer)
    && match trace[i].answer
       case Ok(_) => Released(trace, i, j)
       case Err(error) =>
         Released(trace, i, j) || trace[j].at >= trace[i].at + if error.ResponseError? && error.code == -32801 then 5000 else 1000
  }

  /**
    Why nothing follows any more: an error that may be repeated ends a call only when the document has
    changed, an empty result only after four sends or when the server was busy neither before nor after.
   */
  ghost predicate MayBeFinal(request: Request, trace: seq<Event>, result: Answer) {
    match result
    case Ok(_) => MayRepeat(request, result) ==> SendCount(trace) == 4 || CalmAround(trace)
    case Err(RetryExhausted(_, source)) => MayRepeat(request, Err(source))
    case Err(_) => MayRepeat(request, result) ==> Compared(false) in trace
  }

  /** The last two observations of readiness, with a send between them, found the server not busy. */
  ghost predicate CalmAround(trace: seq<Event>) {
    exists b, s :: CalmBetween(trace, b, s)
  }

  ghost predicate CalmBetween(trace: seq<Event>, b: int, s: int) {
    && 0 <= b < s < |trace| - 1 && NotBusy(trace[b]) && trace[s].Sent? && NotBusy(trace[|trace| - 1])
    && forall m :: b < m < |trace| - 1 ==> !trace[m].Observed?
  }

  // What allows the next send.

  ghost predicate NoFailedCheck(trace: seq<Event>) {
    forall i :: 0 <= i < |trace| ==> trace[i] != Checked(false)
  }

  ghost predicate SentBefore(trace: seq<Event>, now: nat) {
    forall i :: 0 <= i < |trace| && trace[i].Sent? ==> trace[i].at + RETRY_MIN_DELAY <= now
  }

  /** At time `now` no answer but the one at `k` stands in the way. */
  ghost predicate SettledBut(request: Request, trace: seq<Event>, k: int, now: nat) {
    forall i :: 0 <= i < |trace| && trace[i].Answered? && i != k ==>
      && request.Retryable(trace[i].answer)
      && (Released(trace, i, |trace|) || Due(request, trace[i], now))
  }

  ghost predicate Settled(request: Request, trace: seq<Event>, now: nat) {
    SettledBut(request, trace, -1, now)
  }

  lemma {:induction false} ReleasedStays(trace: seq<Event>, e: Event, i: int, j: int)
    requires 0 <= i < j <= |trace| && Released(trace, i, j)
    ensures Released(trace + [e], i, j) && Released(trace + [e], i, |trace| + 1)
  {
    var k :| i < k < j && Opens(trace[k]);
    assert Opens((trace + [e])[k]);
  }

  lemma {:induction false} InTimeStays(request: Request, trace: seq<Event>, e: Event, b: int, m: int)
    requires 0 <= b < m < |trace| && trace[m].Slept? && InTime(request, trace, b, m)
    ensures InTime(request, trace + [e], b, m)
  {
    hide Patience, Opens;
    assert (trace + [e])[..b] == trace[..b];
  }

  lemma {:induction false} PromptStays(request: Request, trace: seq<Event>, e: Event)
    requires Prompt(request, trace)
    requires e.Slept? ==> exists b :: 0 <= b < |trace| && InTime(request, trace + [e], b, |trace|)
    ensures Prompt(request, trace + [e])
  {
    hide InTime;
    forall m | 0 <= m < |trace| && trace[m].Slept?
      ensures exists b :: 0 <= b < m && InTime(request, trace + [e], b, m)
    {
      var b :| 0 <= b < m && InTime(request, trace, b, m);
      InTimeStays(request, trace, e, b, m);
    }
  }

  /** An event that is no send leaves the gates of all sends as they are; a send has to pass them all. */
  lemma {:induction false} GatedStays(request: Request, trace: seq<Event>, e: Event)
    requires Gated(request, trace) && (e.Sent? ==> Settled(request, trace, e.at))
    ensures Gated(request, trace + [e])
  {
    hide Released, Due, Request.Retryable;
    var t := trace + [e];
    forall i, j | 0 <= i < j < |t| && t[i].Answered? && t[j].Sent?
      ensures request.Retryable(t[i].answer) && (Released(t, i, j) || Due(request, t[i], t[j].at))
    {
      var until := if j < |trace| then j else |trace|;
      assert request.Retryable(trace[i].answer) && (Released(trace, i, until) || Due(request, trace[i], t[j].at));
      if Released(trace, i, until) {
        ReleasedStays(trace, e, i, until);
      }
    }
  }

  lemma {:induction false} AppendQuiet(request: Request, trace: seq<Event>, e: Event)
    requires Lawful(request, trace) && !e.Sent?
    requires e.Slept? ==> exists b :: 0 <= b < |trace| && InTime(request, trace + [e], b, |trace|)
    ensures Lawful(request, trace + [e])
    ensures SendCount(trace + [e]) == SendCount(trace)
    ensures LastAnswer(trace + [e]) == if e.Answered? then Some(e.answer) else LastAnswer(trace)
    ensures NoFailedCheck(trace) && e != Checked(false) ==> NoFailedCheck(trace + [e])
    ensures forall now: nat :: SentBefore(trace, now) ==> SentBefore(trace + [e], now)
  {
    PromptStays(request, trace, e);
    GatedStays(request, trace, e);
    hide Gated, Prompt, InTime;
    assert (trace + [e])[..|trace|] == trace;
  }

  /** An event settles nothing away; a new answer is the one that then stands in the way. */
  lemma {:induction false} AppendSettled(request: Request, trace: seq<Event>, e: Event, k: int, now: nat)
    requires SettledBut(request, trace, k, now) && (e.Answered? ==> k == |trace|)
    ensures SettledBut(request, trace + [e], k, now)
  {
    hide Due, Request.Retryable;
    forall i | 0 <= i < |trace| && trace[i].Answered? && i != k
      ensures Released(trace + [e], i, |trace| + 1) || Due(request, trace[i], now)
    {
      if Released(trace, i, |trace|) {
        ReleasedStays(trace, e, i, |trace|);
      }
    }
  }

  lemma {:induction false} AnswerPending(request: Request, trace: seq<Event>, e: Event, earlier: nat, now: nat)
    requires Settled(request, trace, earlier) && earlier <= now && e.Answered?
    ensures SettledBut(request, trace + [e], |trace|, now)
  {
    hide Released, Due, Request.Retryable;
    StillSettled(request, trace, -1, earlier);
    assert SettledBut(request, trace, -1, now);
    AppendSettled(request, trace, e, |trace|, now);
  }

  lemma {:induction false} OpeningSettles(request: Request, trace: seq<Event>, e: Event, k: int, now: nat)
    requires SettledBut(request, trace, k, now) && Opens(e)
    requires 0 <= k < |trace| && trace[k].Answered? ==> request.Retryable(trace[k].answer)
    ensures Settled(request, trace + [e], now)
  {
    assert Opens((trace + [e])[|trace|]);
  }

  lemma {:induction false} DueSettles(request: Request, trace: seq<Event>, k: int, now: nat)
    requires SettledBut(request, trace, k, now) && 0 <= k < |trace| && trace[k].Answered?
    requires request.Retryable(trace[k].answer) && Due(request, trace[k], now)
    ensures Settled(request, trace, now)
  {
  }

  lemma {:induction false} AppendSent(request: Request, trace: seq<Event>, at: nat)
    requires Lawful(request, trace) && NoFailedCheck(trace) && SentBefore(trace, at) && Settled(request, trace, at)
    requires trace != [] && trace[|trace| - 1] == Checked(true)
    requires request.document && SendCount(trace) > 0 ==> |trace| >= 2 && trace[|trace| - 2] == Compared(true)
    ensures Lawful(request, trace + [Sent(at)])
    ensures SendCount(trace + [Sent(at)]) == SendCount(trace) + 1
    ensures LastAnswer(trace + [Sent(at)]) == LastAnswer(trace)
    ensures NoFailedCheck(trace + [Sent(at)]) && Settled(request, trace + [Sent(at)], at)
    ensures SentBefore(trace + [Sent(at)], at + RETRY_MIN_DELAY)
  {
    PromptStays(request, trace, Sent(at));
    GatedStays(request, trace, Sent(at));
    AppendSettled(request, trace, Sent(at), -1, at);
    hide Gated, Prompt, InTime, SettledBut;
    assert (trace + [Sent(at)])[..|trace|] == trace;
    forall i | 0 <= i < |trace| && trace[i].Sent?
      ensures SendCount(trace) > 0
    {
      SentCounts(trace, i);
    }
  }

  /** Time only helps. */
  lemma {:induction false} StillBefore(trace: seq<Event>, now: nat)
    requires SentBefore(trace, now)
    ensures forall later: nat :: now <= later ==> SentBefore(trace, later)
  {
  }

  lemma {:induction false} StillSettled(request: Request, trace: seq<Event>, k: int, now: nat)
    requires SettledBut(request, trace, k, now)
    ensures forall later: nat :: now <= later ==> SettledBut(request, trace, k, later)
  {
    hide Released, Request.Retryable, Patience;
  }

  lemma {:induction false} SentCounts(trace: seq<Event>, i: int)
    requires 0 <= i < |trace| && trace[i].Sent?
    ensures SendCount(trace) > 0
  {
    if i < |trace| - 1 {
      SentCounts(trace[..|trace| - 1], i);
    }
  }

  lemma {:induction false} NothingYet(request: Request)
    ensures Lawful(request, []) && NoFailedCheck([])
    ensures SendCount([]) == 0 && LastAnswer([]) == None
    ensures forall now: nat :: SentBefore([], now) && Settled(request, [], now)
  {
  }

  // ----- the environment of one call -----

  datatype Permit = Granted | Closed | CallCanceled | DeadlinePassed

  datatype Verdict = Current | Changed | Interrupted

  datatype Attempt = Finished(answer: Answer) | Stale

  /** One call of `request_value_until`. */
  class Call {
    const request: Request
    var now: nat
    var cancelled: bool
    /** The transport is closed or has failed, or the outbound queue was found full. */
    var broken: bool
    /** How many more signals of changed readiness the call will see. */
    var signals: nat
    ghost var trace: seq<Event>

    constructor (request: Request, now: nat, cancelled: bool, broken: bool, signals: nat)
      ensures this.request == request && this.now == now && this.cancelled == cancelled && this.broken == broken
      ensures this.signals == signals && trace == []
    {
      this.request := request;
      this.now, this.cancelled, this.broken, this.signals, trace := now, cancelled, broken, signals, [];
    }

    ghost predicate RulesKept()
      reads this
    {
      Lawful(request, trace)
    }

    /** Time passes, and cancellation is final. */
    twostate predicate Later()
      reads this
    {
      old(now) <= now && (old(cancelled) ==> cancelled) && (old(broken) ==> broken) && signals <= old(signals)
    }

    /** Why the call fails with an error of this side. */
    predicate HasReason(error: LspError)
      reads this
    {
      && (error.Canceled? ==> cancelled)
      && (error.TimedOut? ==> now >= request.deadline)
      && (error.TransportClosed? || error.QueueFull? || error.ServerFailed? ==> broken)
    }

    /** Everything else goes on. */
    method Elapse()
      modifies this
      ensures Later() && trace == old(trace)
    {
      var duration: nat, cancel: bool, break': bool, left: nat := *, *, *, *;
      now := now + duration;
      cancelled, broken := cancelled || cancel, broken || break';
      if left < signals {
        signals := left;
      }
    }

    method IsCancelled() returns (yes: bool)
      modifies this
      ensures Later() && (if yes then cancelled else !old(cancelled))
      ensures trace == if yes then old(trace) + [Checked(false)] else old(trace)
    {
      Elapse();
      yes := cancelled;
      if yes {
        trace := trace + [Checked(false)];
      }
    }

    /** `check_request_deadline` */
    method CheckDeadline() returns (failure: Option<LspError>)
      modifies this
      ensures Later() && trace == old(trace) + [Checked(failure.None?)]
      ensures failure.None? ==> !old(cancelled) && now < request.deadline
      ensures old(cancelled) ==> failure == Some(Canceled)
      ensures failure.None? || ((failure.value.Canceled? || failure.value.TimedOut?) && HasReason(failure.value))
    {
      Elapse();
      var canceled := cancelled;
      Elapse();
      failure := if canceled then Some(Canceled) else if now >= request.deadline then Some(TimedOut) else None;
      trace := trace + [Checked(failure.None?)];
    }

    method ObserveReadiness() returns (state: Readiness)
      modifies this
      ensures Later() && trace == old(trace) + [Observed(state)]
    {
      Elapse();
      state := *;
      trace := trace + [Observed(state)];
    }

    method TransportFailed() returns (failed: bool)
      modifies this
      ensures Later() && trace == old(trace) && (failed ==> broken)
    {
      Elapse();
      failed := *;
      failed := failed && broken;
    }

    method AcquirePermit() returns (permit: Permit)
      modifies this
      ensures Later() && trace == old(trace)
      ensures (permit.Closed? ==> broken) && (permit.CallCanceled? ==> cancelled)
      ensures permit.DeadlinePassed? ==> now >= request.deadline
    {
      Elapse();
      var free: bool := *;
      permit := if free then Granted else if broken then Closed else if cancelled then CallCanceled
                else if now >= request.deadline then DeadlinePassed else Granted;
    }

    /** Whether the document is still what the request was computed from; gives up when the call has to end. */
    method CompareDocument() returns (verdict: Verdict)
      modifies this
      ensures Later()
      ensures verdict.Interrupted? ==> cancelled || now >= request.deadline
      ensures trace == if verdict.Interrupted? then old(trace) else old(trace) + [Compared(verdict.Current?)]
    {
      Elapse();
      var same: bool := *;
      verdict := if cancelled || now >= request.deadline then Interrupted else if same then Current else Changed;
      if !verdict.Interrupted? {
        trace := trace + [Compared(verdict.Current?)];
      }
    }

    /** Registration of the request and `try_send`. */
    method Enqueue() returns (refusal: Option<LspError>)
      modifies this
      ensures Later() && trace == if refusal.None? then old(trace) + [Sent(now)] else old(trace)
      ensures refusal.None? || (OnThisSide(Err(refusal.value)) && HasReason(refusal.value))
    {
      Elapse();
      var works: bool, failed: bool, full: bool := *, *, *;
      refusal := if works || !broken then None else if failed then Some(ServerFailed) else if full then Some(QueueFull)
                 else Some(TransportClosed);
      if refusal.None? {
        trace := trace + [Sent(now)];
      }
    }

    /** The final `select!` of `request_attempt`. */
    method AwaitResponse() returns (answer: Answer)
      modifies this
      ensures Later()
      ensures Responded(answer) ==> trace == old(trace) + [Answered(answer, now)]
      ensures !Responded(answer) ==> trace == old(trace) || trace == old(trace) + [Checked(false)]
      ensures Responded(answer) || (OnThisSide(answer) && HasReason(answer.error))
    {
      Elapse();
      var value: Json, code: int, data: Option<Json>, answered: bool, ok: bool := *, *, *, *, *;
      if cancelled || now >= request.deadline {
        trace := trace + [Checked(false)];
        return Err(if cancelled then Canceled else TimedOut);
      }
      if broken && !answered {
        return Err(ServerFailed);
      }
      answer := if ok then Ok(value) else Err(ResponseError(code, data));
      trace := trace + [Answered(answer, now)];
    }

    /** The clock at the beginning of `wait_to_retry` */
    method BeginWait() returns (started: nat)
      modifies this
      ensures Later() && started == now && trace == old(trace) + [WaitBegun(started)]
    {
      Elapse();
      started := now;
      trace := trace + [WaitBegun(started)];
    }

    /** The `select!` of `wait_to_retry`. */
    method Sleep(until: nat)
      modifies this
      ensures Later() && trace == old(trace) + [Slept(until)]
      ensures cancelled || now >= until || signals < old(signals)
    {
      var before := signals;
      Elapse();
      trace := trace + [Slept(until)];
      if !cancelled && now < until && signals >= before {
        if signals > 0 {
          signals := signals - 1;
        } else {
          now := until;
        }
      }
    }

    // ----- one attempt -----

    /** The part of `request_attempt` that comes before the request gets its id. */
    method PassChecks(validate: bool) returns (stop: Option<Attempt>)
      requires RulesKept() && NoFailedCheck(trace) && SentBefore(trace, now)
      requires Settled(request, trace, now) || now >= request.deadline
      modifies this
      ensures Later() && RulesKept() && SentBefore(trace, now)
      ensures old(trace) <= trace && forall m :: old(|trace|) <= m < |trace| ==> !trace[m].Observed?
      ensures SendCount(trace) == old(SendCount(trace)) && LastAnswer(trace) == old(LastAnswer(trace))
      ensures stop.None? ==> NoFailedCheck(trace) && Settled(request, trace, now)
      ensures old(cancelled) ==> stop == Some(Finished(Err(Canceled)))
      ensures stop.None? ==> old(now) < request.deadline
      ensures stop.None? ==> trace != [] && trace[|trace| - 1] == Checked(true)
      ensures stop.None? && validate ==> |trace| >= 2 && trace[|trace| - 2] == Compared(true)
      ensures stop.Some? ==> if stop.value.Stale? then validate && Compared(false) in trace else
                OnThisSide(stop.value.answer) && HasReason(stop.value.answer.error)
    {
      hide Lawful, NoFailedCheck, SentBefore, SettledBut, SendCount, LastAnswer, Request.Retryable, Patience;
      ghost var before, start := trace, now;
      AppendQuiet(request, before, Checked(true));
      AppendQuiet(request, before, Checked(false));
      StillBefore(before, start);
      var canceled := IsCancelled();
      if canceled {
        return Some(Finished(Err(Canceled)));
      }
      var permit := AcquirePermit();
      match permit {
        case Closed => return Some(Finished(Err(TransportClosed)));
        case CallCanceled => return Some(Finished(Err(Canceled)));
        case DeadlinePassed => return Some(Finished(Err(TimedOut)));
        case Granted =>
      }
      var failure := CheckDeadline();
      if failure.Some? {
        return Some(Finished(Err(failure.value)));
      }
      AppendSettled(request, before, Checked(true), -1, start);
      StillSettled(request, trace, -1, start);
      stop := None;
      if validate {
        stop := PassComparison();
      }
    }

    /** The comparison of the document, and the check that follows it. */
    method PassComparison() returns (stop: Option<Attempt>)
      requires RulesKept() && NoFailedCheck(trace) && SentBefore(trace, now) && Settled(request, trace, now)
      modifies this
      ensures Later() && RulesKept() && SentBefore(trace, now)
      ensures old(trace) <= trace && forall m :: old(|trace|) <= m < |trace| ==> !trace[m].Observed?
      ensures SendCount(trace) == old(SendCount(trace)) && LastAnswer(trace) == old(LastAnswer(trace))
      ensures stop.None? ==>
                && NoFailedCheck(trace) && Settled(request, trace, now)
                && |trace| >= 2 && trace[|trace| - 1] == Checked(true) && trace[|trace| - 2] == Compared(true)
      ensures stop.Some? ==> if stop.value.Stale? then Compared(false) in trace else
                OnThisSide(stop.value.answer) && HasReason(stop.value.answer.error)
    {
      hide Lawful, NoFailedCheck, SentBefore, SettledBut, SendCount, LastAnswer, Request.Retryable, Patience;
      ghost var before, start := trace, now;
      StillBefore(before, start);
      var verdict := CompareDocument();
      ghost var compared := trace;
      if !verdict.Interrupted? {
        AppendQuiet(request, before, Compared(verdict.Current?));
        AppendSettled(request, before, Compared(verdict.Current?), -1, start);
      }
      AppendQuiet(request, compared, Checked(true));
      AppendQuiet(request, compared, Checked(false));
      AppendSettled(request, compared, Checked(true), -1, start);
      var failure := CheckDeadline();
      if failure.Some? {
        return Some(Finished(Err(failure.value)));
      }
      StillSettled(request, trace, -1, start);
      return if verdict.Current? then None else Some(Stale);
    }

    /** `request_attempt` */
    method RequestAttempt(validate: bool) returns (attempt: Attempt)
      requires RulesKept() && NoFailedCheck(trace) && SentBefore(trace, now)
      requires Settled(request, trace, now) || now >= request.deadline
      requires validate == (request.document && SendCount(trace) > 0)
      modifies this
      ensures Later() && RulesKept() && SentBefore(trace, now + RETRY_MIN_DELAY)
      ensures old(trace) <= trace && forall m :: old(|trace|) <= m < |trace| ==> !trace[m].Observed?
      ensures old(SendCount(trace)) <= SendCount(trace) <= old(SendCount(trace)) + 1
      ensures old(cancelled) ==> attempt == Finished(Err(Canceled))
      ensures old(cancelled) || old(now) >= request.deadline ==> SendCount(trace) == old(SendCount(trace))
      ensures attempt.Finished? && Responded(attempt.answer) ==>
                && NoFailedCheck(trace) && SendCount(trace) == old(SendCount(trace)) + 1
                && LastAnswer(trace) == Some(attempt.answer)
                && JustAnswered(attempt.answer) && SettledBut(request, trace, |trace| - 1, now)
                && exists s :: old(|trace|) <= s < |trace| && trace[s].Sent?
      ensures attempt.Stale? ==> validate && Compared(false) in trace && LastAnswer(trace) == old(LastAnswer(trace))
      ensures attempt.Finished? ==> Responded(attempt.answer) || (OnThisSide(attempt.answer) && HasReason(attempt.answer.error))
    {
      hide Lawful, NoFailedCheck, SentBefore, SettledBut, SendCount, LastAnswer, Request.Retryable, Patience;
      var stop := PassChecks(validate);
      ghost var ready, start := trace, now;
      StillBefore(ready, start);
      if stop.Some? {
        return stop.value;
      }
      StillSettled(request, ready, -1, start);
      var refusal := Enqueue();
      if refusal.Some? {
        return Finished(Err(refusal.value));
      }
      AppendSent(request, ready, now);
      ghost var sent, sentAt := trace, now;
      StillBefore(sent, sentAt + RETRY_MIN_DELAY);
      var answer := AwaitResponse();
      AppendQuiet(request, sent, Checked(false));
      AppendQuiet(request, sent, Answered(answer, now));
      AnswerPending(request, sent, Answered(answer, now), sentAt, now);
      assert trace[|ready|] == sent[|ready|] == Sent(sentAt);
      attempt := Finished(answer);
    }

    ghost predicate JustAnswered(answer: Answer)
      reads this
    {
      trace != [] && trace[|trace| - 1].Answered? && trace[|trace| - 1].answer == answer && trace[|trace| - 1].at <= now
    }

    // ----- waiting for the next attempt -----

    /** `wait_to_retry`, after the answer at position `k` of the trace */
    method WaitToRetry(readinessWait: nat, ghost k: nat) returns (failure: Option<LspError>)
      requires RulesKept() && NoFailedCheck(trace) && SentBefore(trace, now + RETRY_MIN_DELAY)
      requires k < |trace| && trace[k].Answered? && trace[k].at <= now && request.Retryable(trace[k].answer)
      requires SettledBut(request, trace, k, now)
      requires LastAnswer(trace) == Some(trace[k].answer) && readinessWait == Patience(request, trace[k].answer)
      modifies this
      ensures Later() && RulesKept()
      ensures SendCount(trace) == old(SendCount(trace)) && LastAnswer(trace) == old(LastAnswer(trace))
      ensures failure.None? ==>
                && NoFailedCheck(trace) && SentBefore(trace, now)
                && (Settled(request, trace, now) || (old(trace[k].answer.Ok?) && now >= old(now) + readinessWait))
      ensures failure.None? || (OnThisSide(Err(failure.value)) && HasReason(failure.value))
    {
      hide Lawful, NoFailedCheck, SentBefore, SettledBut, SendCount, LastAnswer, Request.Retryable, Patience, WaitKept;
      ghost var before, entered := trace, now;
      var started := BeginWait();
      BeginWaiting(request, before, started, k, entered);
      var earliest, latest := started + RETRY_MIN_DELAY, started + readinessWait;
      while true
        invariant entered <= started && Later() && started <= now
        invariant before <= trace && WaitKept(request, before, trace, k, entered, started)
        decreases signals, !cancelled, now < request.deadline, now < earliest, now < latest
      {
        ghost var head := trace;
        WaitGoesOn(request, before, head, Checked(true), k, entered, started);
        WaitFails(request, before, head, k, entered, started);
        failure := CheckDeadline();
        if failure.Some? {
          return;
        }
        var failed := TransportFailed();
        if failed {
          WaitFails(request, before, trace, k, entered, started);
          return Some(ServerFailed);
        }
        ghost var checked := trace;
        var state := ObserveReadiness();
        WaitGoesOn(request, before, checked, Observed(state), k, entered, started);
        ghost var seen := trace;
        Elapse();
        var t := now;
        if t >= earliest && (state.Ready? || state.Unknown? || t >= latest) {
          WaitOver(request, before, checked, Observed(state), k, entered, started, t);
          return None;
        }
        var wake := if t < earliest then earliest else latest;
        var until := if request.deadline <= wake then request.deadline else wake;
        SleepInTime(request, before, seen, k, entered, started, until);
        WaitGoesOn(request, before, seen, Slept(until), k, entered, started);
        Sleep(until);
      }
    }

    // ----- the call -----

    /** How long to wait for readiness before the next attempt, or `None` when the answer stands. */
    method ReadinessWait(answer: Answer, wasBusy: bool) returns (wait: Option<nat>)
      requires Responded(answer)
      modifies this
      ensures Later()
      ensures wait.Some? ==> request.Retryable(answer) && wait.value == Patience(request, answer)
      ensures wait.None? && request.Retryable(answer) ==> answer.Ok?
      ensures trace == old(trace) || (exists state :: trace == old(trace) + [Observed(state)])
      ensures wait.None? && request.Retryable(answer) ==>
                !wasBusy && |trace| == |old(trace)| + 1 && NotBusy(trace[|trace| - 1])
    {
      if answer.Err? && IsRetriggerableCancellation(request.name, answer.error) {
        return Some(RETRY_READINESS_WAIT);
      }
      if answer.Err? && answer.error.code == CONTENT_MODIFIED && request.Recovers() && PermitsRetrigger(answer.error.data) {
        return Some(SEMANTIC_READINESS_WAIT);
      }
      if answer.Ok? && request.Recovers() && IsEmptySemanticResult(request.name, answer.value) {
        if wasBusy {
          return Some(request.timeout);
        }
        var state := ObserveReadiness();
        return if state.Busy? then Some(request.timeout) else None;
      }
      return None;
    }

    /** Before attempt number `retries`: the last answer asks for it, and nothing stands in its way but the deadline. */
    ghost predicate Retrying(retries: nat, previous: Option<Answer>)
      reads this
    {
      && retries <= MAX_REQUEST_RETRIES && SendCount(trace) == retries && LastAnswer(trace) == previous
      && RulesKept() && NoFailedCheck(trace) && SentBefore(trace, now)
      && (Settled(request, trace, now) || now >= request.deadline) && request.deadline <= now + request.timeout
      && if retries == 0 then previous.None? else
           previous.Some? && Responded(previous.value) && request.Retryable(previous.value)
    }

    /** What holds when the call ends with `result`. */
    ghost predicate Ended(result: Answer)
      reads this
    {
      && RulesKept() && SendCount(trace) <= MAX_REQUEST_RETRIES + 1
      && (!request.document && Lifecycle() ==> SendCount(trace) <= 1)
      && (result.Err? ==> HasReason(result.error))
      && (result.Err? && result.error.ResponseError? ==> LastAnswer(trace) == Some(result) || AnsweredStale(result))
      && (result.Ok? ==> LastAnswer(trace) == Some(result))
      && (result.Err? && result.error.RetryExhausted? ==>
            && result.error.attempts == SendCount(trace) == MAX_REQUEST_RETRIES + 1
            && LastAnswer(trace) == Some(Err(result.error.source)) && request.Retryable(Err(result.error.source))
            && trace[|trace| - 1] == Checked(true))
      && (result.Err? && request.Retryable(result) ==> Compared(false) in trace)
      && (result.Ok? && request.Retryable(result) ==> SendCount(trace) == MAX_REQUEST_RETRIES + 1 || CalmAround(trace))
    }

    /** An empty result was the last answer, and then the document was found changed. */
    ghost predicate AnsweredStale(result: Answer)
      reads this
    {
      && Compared(false) in trace && result == Err(ResponseError(-32801, None))
      && LastAnswer(trace).Some? && LastAnswer(trace).value.Ok?
    }

    predicate Lifecycle() {
      request.name == "initialize" || request.name == "shutdown"
    }

    /** An attempt has been answered: the answer is the last event but for a look at the server's state. */
    ghost predicate Attempted(retries: nat, answer: Answer, k: nat)
      reads this
    {
      && retries <= MAX_REQUEST_RETRIES && SendCount(trace) == retries + 1 && LastAnswer(trace) == Some(answer)
      && RulesKept() && NoFailedCheck(trace) && SentBefore(trace, now + RETRY_MIN_DELAY)
      && request.deadline <= now + request.timeout
      && k < |trace| && trace[k].Answered? && trace[k].answer == answer && trace[k].at <= now
      && SettledBut(request, trace, k, now) && Responded(answer) && request.Retryable(answer)
    }

    /** One attempt, up to the decision to try again: then `wait` is how long the server may stay busy. */
    method RequestOnce(retries: nat, previous: Option<Answer>) returns (result: Answer, wait: Option<nat>, ghost k: nat)
      requires Retrying(retries, previous)
      modifies this
      ensures Later()
      ensures wait.None? ==> Ended(result)
      ensures old(cancelled) ==> wait.None? && result == Err(Canceled)
      ensures wait.Some? ==> old(now) < request.deadline
      ensures old(cancelled) || old(now) >= request.deadline ==> SendCount(trace) == old(SendCount(trace))
      ensures wait.Some? ==> Attempted(retries, result, k)
      ensures wait.Some? ==> wait.value == Patience(request, result)
    {
      hide Lawful, NoFailedCheck, SentBefore, SettledBut, SendCount, LastAnswer, Request.Retryable, Patience,
           CalmAround;
      LifecycleNotRetried(request);
      OnlyAnswersRetried(request);
      k := 0;
      ghost var head, clock := trace, now;
      var state := ObserveReadiness();
      Undisturbed(request, head, Observed(state), clock);
      var attempt := RequestAttempt(request.document && retries > 0);
      if attempt.Stale? {
        result := if previous.Some? && previous.value.Err? then previous.value else Err(ResponseError(CONTENT_MODIFIED, None));
        return result, None, 0;
      }
      if !Responded(attempt.answer) {
        return attempt.answer, None, 0;
      }
      ghost var answered, answeredAt := trace, now;
      wait := ReadinessWait(attempt.answer, state.Busy?);
      k := |answered| - 1;
      QuietOnly(request, answered, trace, k, answeredAt);
      StillBefore(trace, answeredAt + RETRY_MIN_DELAY);
      StillSettled(request, trace, k, answeredAt);
      result := attempt.answer;
      if wait.None? && request.Retryable(result) {
        ghost var s :| |head| + 1 <= s < |answered| && answered[s].Sent?;
        Calm(head, Observed(state), answered, trace, s);
      }
    }

    /** The check after an answer that asks for a retry, and the wait for the next attempt when there is one. */
    method RetryOrStop(retries: nat, answer: Answer, wait: nat, ghost k: nat) returns (result: Option<Answer>)
      requires Attempted(retries, answer, k)
      requires wait == Patience(request, answer)
      modifies this
      ensures Later()
      ensures result.Some? ==> Ended(result.value)
      ensures result.None? ==> Retrying(retries + 1, Some(answer))
    {
      hide Lawful, NoFailedCheck, SentBefore, SettledBut, SendCount, LastAnswer, Request.Retryable, CalmAround;
      LifecycleNotRetried(request);
      OnlyAnswersRetried(request);
      ghost var before, at := trace, now;
      AppendQuiet(request, before, Checked(true));
      AppendQuiet(request, before, Checked(false));
      AppendSettled(request, before, Checked(true), k, at);
      var failure := CheckDeadline();
      if failure.Some? {
        return Some(Err(failure.value));
      }
      if retries == MAX_REQUEST_RETRIES {
        return Some(if answer.Ok? then answer else Err(RetryExhausted(retries + 1, answer.error)));
      }
      StillBefore(trace, at + RETRY_MIN_DELAY);
      StillSettled(request, trace, k, at);
      failure := WaitToRetry(wait, k);
      result := if failure.Some? then Some(Err(failure.value)) else None;
    }

    /** `request_value_until` */
    method RequestValueUntil() returns (result: Answer)
      requires trace == [] && request.deadline <= now + request.timeout
      modifies this
      // The rules hold for everything the call did, however it ended: also in the protocol's own terms.
      ensures RulesKept() && SendCount(trace) <= 4
      ensures !request.document && (request.name == "initialize" || request.name == "shutdown") ==> SendCount(trace) <= 1
      ensures forall i, j :: 0 <= i < j < |trace| && trace[i].Answered? && trace[j].Sent? ==> MayFollow(request, trace, i, j)
      ensures forall i, j :: 0 <= i < j < |trace| && trace[i].Sent? && trace[j].Sent? ==> trace[i].at + 50 <= trace[j].at
      ensures MayBeFinal(request, trace, result)
      // A call that is cancelled, or whose deadline has passed, before it begins sends nothing.
      ensures old(cancelled) ==> result == Err(Canceled)
      ensures old(cancelled) || old(now) >= request.deadline ==> SendCount(trace) == 0
      // Without cancellation, a deadline or a broken transport, the result is what the server makes of the request.
      ensures result.Err? ==> HasReason(result.error)
      ensures result.Err? && result.error.ResponseError? ==> LastAnswer(trace) == Some(result) || AnsweredStale(result)
      // A value is the last answer of the server, and so is the error of exhausted retries.
      ensures result.Ok? ==> LastAnswer(trace) == Some(result)
      ensures result.Err? && result.error.RetryExhausted? ==>
                && result.error.attempts == SendCount(trace) == 4
                && LastAnswer(trace) == Some(Err(result.error.source)) && trace[|trace| - 1] == Checked(true)
    {
      hide Lawful, NoFailedCheck, SentBefore, SettledBut, SendCount, LastAnswer, Request.Retryable, Patience,
           CalmAround,
           HasReason, Attempted;
      var previous: Option<Answer> := None;
      NothingYet(request);
      var retries: nat := 0;
      while retries <= MAX_REQUEST_RETRIES
        invariant Retrying(retries, previous) && Later()
        invariant old(cancelled) || old(now) >= request.deadline ==> retries == 0
        decreases MAX_REQUEST_RETRIES - retries
      {
        var answer, wait, k := RequestOnce(retries, previous);
        if wait.None? {
          EndsInProtocolTerms(answer);
          return answer;
        }
        var stop := RetryOrStop(retries, answer, wait.value, k);
        if stop.Some? {
          EndsInProtocolTerms(stop.value);
          return stop.value;
        }
        previous := Some(answer);
        retries := retries + 1;
      }
      // The final attempt has returned its result or the error of exhausted retries.
      assert false;
    }

    lemma {:induction false} EndsInProtocolTerms(result: Answer)
      requires Ended(result)
      ensures forall i, j :: 0 <= i < j < |trace| && trace[i].Answered? && trace[j].Sent? ==> MayFollow(request, trace, i, j)
      ensures forall i, j :: 0 <= i < j < |trace| && trace[i].Sent? && trace[j].Sent? ==> trace[i].at + 50 <= trace[j].at
      ensures MayBeFinal(request, trace, result)
    {
      hide Prompt, Released, SendCount, LastAnswer, CalmAround, Obedient, Vetted;
      forall i, j | 0 <= i < j < |trace| && trace[i].Answered? && trace[j].Sent?
        ensures MayFollow(request, trace, i, j)
      {
        assert Gated(request, trace);
        RetryableInProtocolTerms(request, trace[i].answer);
      }
      RetryableInProtocolTerms(request, result);
    }
  }

  /** Errors of this side, and those that only the retry loop makes, are never retried. */
  lemma {:induction false} OnlyAnswersRetried(request: Request)
    ensures forall answer: Answer :: request.Retryable(answer) ==> Responded(answer)
  {
  }

  lemma {:induction false} LifecycleNotRetried(request: Request)
    ensures !request.document && (request.name == "initialize" || request.name == "shutdown") ==>
              forall answer: Answer :: !request.Retryable(answer)
  {
  }

  /** Looking at the state of the server disturbs nothing. */
  lemma {:induction false} Undisturbed(request: Request, trace: seq<Event>, e: Event, now: nat)
    requires Lawful(request, trace) && NoFailedCheck(trace) && SentBefore(trace, now) && e.Observed?
    ensures Lawful(request, trace + [e]) && NoFailedCheck(trace + [e])
    ensures SendCount(trace + [e]) == SendCount(trace) && LastAnswer(trace + [e]) == LastAnswer(trace)
    ensures forall later: nat :: now <= later ==>
              SentBefore(trace + [e], later) && (Settled(request, trace, now) ==> Settled(request, trace + [e], later))
  {
    hide Lawful, NoFailedCheck, SentBefore, SettledBut, SendCount, LastAnswer;
    AppendQuiet(request, trace, e);
    StillBefore(trace, now);
    if Settled(request, trace, now) {
      AppendSettled(request, trace, e, -1, now);
      StillSettled(request, trace + [e], -1, now);
    }
  }

  lemma {:induction false} QuietOnly(request: Request, answered: seq<Event>, trace: seq<Event>, k: int, at: nat)
    requires trace == answered || exists state :: trace == answered + [Observed(state)]
    requires Lawful(request, answered) && NoFailedCheck(answered) && SentBefore(answered, at + RETRY_MIN_DELAY)
    requires SettledBut(request, answered, k, at)
    ensures Lawful(request, trace) && NoFailedCheck(trace) && SentBefore(trace, at + RETRY_MIN_DELAY)
    ensures SettledBut(request, trace, k, at)
    ensures SendCount(trace) == SendCount(answered) && LastAnswer(trace) == LastAnswer(answered)
  {
    hide Lawful, NoFailedCheck, SentBefore, SettledBut, SendCount, LastAnswer;
    if trace != answered {
      var state :| trace == answered + [Observed(state)];
      AppendQuiet(request, answered, Observed(state));
      AppendSettled(request, answered, Observed(state), k, at);
    }
  }

  /** A wait under way: it began at `b`, behind the answer that `before` ends with, and no other has begun since. */
  ghost predicate Waiting(before: seq<Event>, trace: seq<Event>, started: nat) {
    && |before| < |trace| && before <= trace && trace[|before|] == WaitBegun(started)
    && forall x :: |before| < x < |trace| ==> !trace[x].WaitBegun? && !trace[x].Answered?
  }

  /** All that a wait keeps from one look at the server to the next. */
  ghost predicate WaitKept(request: Request, before: seq<Event>, trace: seq<Event>, k: int, entered: nat, started: nat) {
    && Lawful(request, trace) && NoFailedCheck(trace) && SentBefore(trace, started + RETRY_MIN_DELAY)
    && SendCount(trace) == SendCount(before) && LastAnswer(trace) == LastAnswer(before)
    && SettledBut(request, trace, k, entered) && Waiting(before, trace, started)
  }

  lemma {:induction false} BeginWaiting(request: Request, before: seq<Event>, started: nat, k: nat, entered: nat)
    requires Lawful(request, before) && NoFailedCheck(before) && SentBefore(before, entered + RETRY_MIN_DELAY)
    requires SettledBut(request, before, k, entered) && entered <= started
    ensures WaitKept(request, before, before + [WaitBegun(started)], k, entered, started)
  {
    hide Lawful, NoFailedCheck, SentBefore, SettledBut, SendCount, LastAnswer;
    AppendQuiet(request, before, WaitBegun(started));
    AppendSettled(request, before, WaitBegun(started), k, entered);
    StillBefore(before, entered + RETRY_MIN_DELAY);
  }

  lemma {:induction false} StillWaiting(before: seq<Event>, trace: seq<Event>, e: Event, started: nat)
    requires Waiting(before, trace, started) && !e.WaitBegun? && !e.Answered?
    ensures Waiting(before, trace + [e], started)
  {
  }

  lemma {:induction false} WaitGoesOn(request: Request, before: seq<Event>, trace: seq<Event>, e: Event, k: int,
                                      entered: nat, started: nat)
    requires WaitKept(request, before, trace, k, entered, started)
    requires e == Checked(true) || e.Observed? || e.Slept?
    requires e.Slept? ==> exists b :: 0 <= b < |trace| && InTime(request, trace + [e], b, |trace|)
    ensures WaitKept(request, before, trace + [e], k, entered, started)
  {
    hide Lawful, NoFailedCheck, SentBefore, SettledBut, SendCount, LastAnswer, Waiting, InTime;
    AppendQuiet(request, trace, e);
    AppendSettled(request, trace, e, k, entered);
    StillWaiting(before, trace, e, started);
  }

  lemma {:induction false} WaitFails(request: Request, before: seq<Event>, trace: seq<Event>, k: int, entered: nat,
                                     started: nat)
    requires WaitKept(request, before, trace, k, entered, started)
    ensures var t := trace + [Checked(false)];
            Lawful(request, t) && SendCount(t) == SendCount(before) && LastAnswer(t) == LastAnswer(before)
    ensures Lawful(request, trace) && SendCount(trace) == SendCount(before) && LastAnswer(trace) == LastAnswer(before)
  {
    hide Lawful, NoFailedCheck, SentBefore, SettledBut, SendCount, LastAnswer, Waiting;
    AppendQuiet(request, trace, Checked(false));
  }

  lemma {:induction false} SleepInTime(request: Request, before: seq<Event>, trace: seq<Event>, k: int, entered: nat,
                                       started: nat, until: nat)
    requires WaitKept(request, before, trace, k, entered, started)
    requires LastAnswer(before).Some? && trace != [] && trace[|trace| - 1].Observed? && until <= request.deadline
    requires var patience := Patience(request, LastAnswer(before).value);
             until <= started + if Opens(trace[|trace| - 1]) || patience <= 50 then 50 else patience
    ensures exists b :: 0 <= b < |trace| && InTime(request, trace + [Slept(until)], b, |trace|)
  {
    hide LastAnswer, Opens, Patience, Lawful, SettledBut, SentBefore, SendCount, NoFailedCheck;
    assert (trace + [Slept(until)])[..|before|] == before;
    assert InTime(request, trace + [Slept(until)], |before|, |trace|);
  }

  /** When the wait ends, the answer at `k` is settled, unless it was empty and the server never ready. */
  lemma {:induction false} WaitOver(request: Request, before: seq<Event>, trace: seq<Event>, e: Event, k: nat,
                                    entered: nat, started: nat, now: nat)
    requires WaitKept(request, before, trace + [e], k, entered, started) && entered <= started
    requires WaitKept(request, before, trace, k, entered, started) && started + RETRY_MIN_DELAY <= now
    requires k < |trace| && trace[k].Answered? && trace[k].at <= entered && request.Retryable(trace[k].answer)
    requires Opens(e) || trace[k].answer.Ok? || now >= entered + Patience(request, trace[k].answer)
    ensures Settled(request, trace + [e], now) || (trace[k].answer.Ok? && !Opens(e))
    ensures var t := trace + [e];
            && Lawful(request, t) && NoFailedCheck(t) && SentBefore(t, now)
            && SendCount(t) == SendCount(before) && LastAnswer(t) == LastAnswer(before)
  {
    hide SettledBut, Opens, Request.Retryable, Patience, Lawful, NoFailedCheck, SentBefore, SendCount, LastAnswer, Waiting;
    StillBefore(trace + [e], started + RETRY_MIN_DELAY);
    if Opens(e) {
      OpeningSettles(request, trace, e, k, entered);
      StillSettled(request, trace + [e], -1, entered);
    } else if trace[k].answer.Err? {
      StillSettled(request, trace + [e], k, entered);
      assert (trace + [e])[k] == trace[k];
      DueSettles(request, trace + [e], k, now);
    }
  }

  lemma {:induction false} Calm(head: seq<Event>, e: Event, answered: seq<Event>, trace: seq<Event>, s: int)
    requires head + [e] <= answered <= trace && |trace| == |answered| + 1
    requires NotBusy(e) && NotBusy(trace[|answered|])
    requires forall m :: |head| < m < |answered| ==> !answered[m].Observed?
    requires |head| < s < |answered| && answered[s].Sent?
    ensures CalmAround(trace)
  {
    assert CalmBetween(trace, |head|, s);
  }
}
