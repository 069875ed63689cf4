/** One case against the target API: phases, retries, and the checks before every request. Everything
    outside the program is a world of readings, one per observation. */
module Executor {
  import opened Redis
  import opened Models

  /** Rendering, revalidation and contract.request together. */
  datatype Prepared = Misconfigured | Violations | Request(verb: string)

  /** contract.response_errors on the received response. */
  datatype Verdict = Raises | Failures | Clean

  datatype Sent =
    | Unreachable                                                   // connection refused or connect timeout
    | Broken                                                        // any other exception before a response
    | Response(status: int, chunks: seq<nat>, cut: bool, verdict: Verdict)  // cut: reading the body raises

  /** Readings by the number of the observation. */
  datatype World = World(
    lost: nat -> bool, clock: nat -> real, prepare: nat -> Prepared, send: nat -> Sent)

  /** The lost flag of a job is never cleared. */
  ghost predicate Steady(w: World) {
    forall i, j :: 0 <= i <= j && w.lost(i) ==> w.lost(j)
  }

  datatype Options = Options(caseTimeout: real, maxBytes: int, retries: int)

  /** What the executor does, in order. Keep carries the number of body bytes retained so far. */
  datatype Act = Lease(ok: bool) | Deadline(now: real, until: real) | Send(verb: string) | Keep(total: nat)

  predicate InTime(a: Act) { a.Deadline? && a.now < a.until }

  /** Every request follows a passed lease check and a passed deadline check, with nothing in between. */
  ghost predicate Checked(log: seq<Act>) {
    forall i :: 0 <= i < |log| && log[i].Send? ==> i >= 2 && log[i - 2] == Lease(true) && InTime(log[i - 1])
  }

  /** No request starts after the lease was seen lost. */
  ghost predicate Silent(log: seq<Act>) {
    forall i, j :: 0 <= i < j < |log| && log[i] == Lease(false) ==> !log[j].Send?
  }

  ghost predicate Capped(log: seq<Act>, maxBytes: int) {
    forall i :: 0 <= i < |log| && log[i].Keep? ==> log[i].total <= maxBytes
  }

  ghost predicate NoLoss(log: seq<Act>) { Lease(false) !in log }

  /** A loss once seen is still there at the next observation. */
  ghost predicate Remembers(log: seq<Act>, w: World, tick: nat) {
    Lease(false) in log ==> w.lost(tick)
  }

  ghost predicate LogOk(log: seq<Act>, w: World, tick: nat, maxBytes: int) {
    Checked(log) && Silent(log) && Capped(log, maxBytes) && Remembers(log, w, tick)
  }

  function Sends(log: seq<Act>): nat {
    if log == [] then 0 else Sends(log[..|log| - 1]) + if log[|log| - 1].Send? then 1 else 0
  }

  predicate Repeatable(verb: string) { verb in ["GET", "HEAD", "OPTIONS"] }

  /** How often a step may send: once, and once more per connection retry for repeatable methods. */
  function SendLimit(verb: string, retries: int): nat {
    if Repeatable(verb) && retries > 0 then retries + 1 else 1
  }

  lemma CheckedGrows(log: seq<Act>, a: Act)
    requires Checked(log)
    requires a.Send? ==> |log| >= 2 && log[|log| - 2] == Lease(true) && InTime(log[|log| - 1])
    ensures Checked(log + [a])
  {
  }

  lemma SilentGrows(log: seq<Act>, a: Act)
    requires Silent(log) && (a.Send? ==> NoLoss(log))
    ensures Silent(log + [a])
  {
  }

  lemma LogGrows(log: seq<Act>, a: Act, w: World, tick: nat, maxBytes: int)
    requires LogOk(log, w, tick, maxBytes) && Steady(w)
    requires a.Send? ==> |log| >= 2 && log[|log| - 2] == Lease(true) && InTime(log[|log| - 1]) && NoLoss(log)
    requires a.Keep? ==> a.total <= maxBytes
    requires a.Lease? ==> a.ok == !w.lost(tick)
    ensures LogOk(log + [a], w, tick + 1, maxBytes)
    ensures Sends(log + [a]) == Sends(log) + if a.Send? then 1 else 0
  {
    hide Checked, Silent;
    CheckedGrows(log, a);
    SilentGrows(log, a);
    assert (log + [a])[..|log|] == log;
  }

  lemma TimePasses(log: seq<Act>, w: World, tick: nat, maxBytes: int)
    requires LogOk(log, w, tick, maxBytes) && Steady(w)
    ensures LogOk(log, w, tick + 1, maxBytes)
  {
  }

  lemma EmptyLog(w: World, tick: nat, maxBytes: int)
    ensures LogOk([], w, tick, maxBytes)
  {
  }

  /** The lease check. */
  method CheckLease(w: World, tick: nat, log: seq<Act>, ghost maxBytes: int)
    returns (ok: bool, tick': nat, log': seq<Act>)
    requires Steady(w) && LogOk(log, w, tick, maxBytes)
    ensures LogOk(log', w, tick', maxBytes) && Sends(log') == Sends(log)
    ensures ok == !w.lost(tick) && log' == log + [Lease(ok)] && (ok ==> NoLoss(log')) && tick' == tick + 1
  {
    ok := !w.lost(tick);
    LogGrows(log, Lease(ok), w, tick, maxBytes);
    log', tick' := log + [Lease(ok)], tick + 1;
  }

  datatype Body = Whole | Aborted

  function Sum(xs: seq<nat>): nat {
    if xs == [] then 0 else Sum(xs[..|xs| - 1]) + xs[|xs| - 1]
  }

  predicate ChunkOk(chunks: seq<nat>, i: nat, deadline: real, maxBytes: int, w: World, tick: nat)
    requires i < |chunks|
  {
    Sum(chunks[..i + 1]) <= maxBytes && w.clock(tick + 2 * i) < deadline && !w.lost(tick + 2 * i)
  }

  ghost predicate ReadableUpTo(chunks: seq<nat>, n: nat, deadline: real, maxBytes: int, w: World, tick: nat)
    requires n <= |chunks|
  {
    forall i: nat :: i < n ==> ChunkOk(chunks, i, deadline, maxBytes, w, tick)
  }

  /** The body is read to its end, and at every chunk the size is within the cap, the deadline has not come
      and the lease is not lost. */
  ghost predicate Readable(chunks: seq<nat>, cut: bool, deadline: real, maxBytes: int, w: World, tick: nat) {
    !cut && ReadableUpTo(chunks, |chunks|, deadline, maxBytes, w, tick)
  }

  /** The tick at which reading the body ends, when chunk i comes next. */
  function BodyEnd(chunks: seq<nat>, i: nat, deadline: real, maxBytes: int, w: World, tick: nat): nat
    requires i <= |chunks|
    decreases |chunks| - i
  {
    if i == |chunks| || Sum(chunks[..i + 1]) > maxBytes || w.clock(tick + 2 * i) >= deadline then tick + 2 * i
    else if w.lost(tick + 2 * i) then tick + 2 * i + 1
    else BodyEnd(chunks, i + 1, deadline, maxBytes, w, tick)
  }

  lemma ReadableNext(chunks: seq<nat>, i: nat, cut: bool, deadline: real, maxBytes: int, w: World, tick: nat)
    requires i < |chunks| && ReadableUpTo(chunks, i, deadline, maxBytes, w, tick)
    ensures ReadableUpTo(chunks, i + 1, deadline, maxBytes, w, tick) == ChunkOk(chunks, i, deadline, maxBytes, w, tick)
    ensures !ChunkOk(chunks, i, deadline, maxBytes, w, tick) ==> !Readable(chunks, cut, deadline, maxBytes, w, tick)
    ensures Sum(chunks[..i + 1]) == Sum(chunks[..i]) + chunks[i]
  {
    hide ChunkOk;
    assert chunks[..i + 1][..i] == chunks[..i];
  }

  lemma ReadableEnds(chunks: seq<nat>, cut: bool, deadline: real, maxBytes: int, w: World, tick: nat)
    ensures ReadableUpTo(chunks, 0, deadline, maxBytes, w, tick)
    ensures Readable(chunks, cut, deadline, maxBytes, w, tick) <==>
              !cut && ReadableUpTo(chunks, |chunks|, deadline, maxBytes, w, tick)
  {
  }

  lemma SumNothing()
    ensures Sum([]) == 0
  {
  }

  /** No request and no deadline check is recorded after position from. */
  ghost predicate NoSends(log: seq<Act>, from: nat) {
    forall i :: from <= i < |log| ==> !log[i].Send? && !log[i].Deadline?
  }

  /** Reading the body chunk by chunk under the size cap, the deadline and the lease. */
  method ReadBody(chunks: seq<nat>, cut: bool, deadline: real, maxBytes: int, w: World, tick: nat, log: seq<Act>)
      returns (body: Body, tick': nat, log': seq<Act>)
    requires Steady(w) && LogOk(log, w, tick, maxBytes)
    ensures log <= log' && LogOk(log', w, tick', maxBytes) && NoSends(log', |log|)
    ensures tick' == BodyEnd(chunks, 0, deadline, maxBytes, w, tick)
    ensures body == Whole <==> Readable(chunks, cut, deadline, maxBytes, w, tick)
    ensures body == Whole && chunks != [] ==> |log'| > 0 && log'[|log'| - 1] == Keep(Sum(chunks))
  {
    hide LogOk, Steady, Readable, ReadableUpTo, Sum, NoLoss, Sends;
    var size := 0;
    tick', log' := tick, log;
    ReadableEnds(chunks, cut, deadline, maxBytes, w, tick);
    assert chunks[..0] == [] && Sum([]) == 0 by { SumNothing(); }
    for i := 0 to |chunks|
      invariant log <= log' && LogOk(log', w, tick', maxBytes) && NoSends(log', |log|)
      invariant tick' == tick + 2 * i
      invariant BodyEnd(chunks, i, deadline, maxBytes, w, tick) == BodyEnd(chunks, 0, deadline, maxBytes, w, tick)
      invariant ReadableUpTo(chunks, i, deadline, maxBytes, w, tick)
      invariant size == Sum(chunks[..i]) && (i > 0 ==> |log'| > 0 && log'[|log'| - 1] == Keep(size))
    {
      ReadableNext(chunks, i, cut, deadline, maxBytes, w, tick);
      size := size + chunks[i];
      if size > maxBytes { return Aborted, tick', log'; }
      var now := w.clock(tick');
      if now >= deadline { return Aborted, tick', log'; }
      var ok;
      ok, tick', log' := CheckLease(w, tick', log', maxBytes);
      if !ok { return Aborted, tick', log'; }
      LogGrows(log', Keep(size), w, tick', maxBytes);
      log', tick' := log' + [Keep(size)], tick' + 1;
    }
    assert chunks[..|chunks|] == chunks;
    body := if cut then Aborted else Whole;
  }

  datatype Tried =
    | Stopped                                   // lease lost or deadline passed before the request
    | NotReached                                // connection error
    | Crashed(seen: Option<int>)                // any other exception
    | Answered(status: int, verdict: Verdict)

  /** What a turn of the retry loop comes to. */
  ghost function TriedAt(w: World, deadline: real, maxBytes: int, tick: nat): Tried {
    if w.lost(tick) || w.clock(tick + 1) >= deadline then Stopped
    else
      match w.send(tick + 2)
      case Broken => Crashed(None)
      case Unreachable => NotReached
      case Response(status, chunks, cut, verdict) =>
        if Readable(chunks, cut, deadline, maxBytes, w, tick + 3) then Answered(status, verdict)
        else Crashed(Some(status))
  }

  /** The tick after that turn. */
  ghost function TryEnd(w: World, deadline: real, maxBytes: int, tick: nat): nat {
    if w.lost(tick) then tick + 1
    else if w.clock(tick + 1) >= deadline then tick + 2
    else
      match w.send(tick + 2)
      case Response(_, chunks, _, _) => BodyEnd(chunks, 0, deadline, maxBytes, w, tick + 3)
      case _ => tick + 3
  }

  lemma {:induction false} BodyEndsLater(chunks: seq<nat>, i: nat, deadline: real, maxBytes: int, w: World, tick: nat)
    requires i <= |chunks|
    ensures BodyEnd(chunks, i, deadline, maxBytes, w, tick) >= tick + 2 * i
    decreases |chunks| - i
  {
    if i < |chunks| { BodyEndsLater(chunks, i + 1, deadline, maxBytes, w, tick); }
  }

  lemma TryEndsLater(w: World, deadline: real, maxBytes: int, tick: nat)
    ensures TryEnd(w, deadline, maxBytes, tick) > tick
    ensures !TriedAt(w, deadline, maxBytes, tick).Stopped? ==> TryEnd(w, deadline, maxBytes, tick) >= tick + 3
    ensures TriedAt(w, deadline, maxBytes, tick).NotReached? ==> TryEnd(w, deadline, maxBytes, tick) == tick + 3
  {
    hide Readable;
    match w.send(tick + 2)
    case Response(_, chunks, _, _) => BodyEndsLater(chunks, 0, deadline, maxBytes, w, tick + 3);
    case _ =>
  }

  /** Requests recorded after position from all use one method, and deadline checks one deadline. */
  ghost predicate SendsOnly(log: seq<Act>, from: nat, verb: string, until: real) {
    forall i :: from <= i < |log| ==>
      (log[i].Send? ==> log[i].verb == verb) && (log[i].Deadline? ==> log[i].until == until)
  }

  lemma {:induction false} SendsCount(log: seq<Act>, more: seq<Act>)
    requires forall i :: 0 <= i < |more| ==> !more[i].Send?
    ensures Sends(log + more) == Sends(log)
  {
    if more == [] {
      assert log + more == log;
    } else {
      var init := more[..|more| - 1];
      assert (log + more)[..|log + more| - 1] == log + init;
      SendsCount(log, init);
    }
  }

  /** One turn of the retry loop: the two checks, then at most one request. */
  method TrySend(verb: string, deadline: real, o: Options, w: World, tick: nat, log: seq<Act>)
      returns (tried: Tried, tick': nat, log': seq<Act>)
    requires Steady(w) && LogOk(log, w, tick, o.maxBytes)
    ensures log <= log' && LogOk(log', w, tick', o.maxBytes)
    ensures tried == TriedAt(w, deadline, o.maxBytes, tick) && tick' == TryEnd(w, deadline, o.maxBytes, tick)
    ensures Sends(log') == Sends(log) + if tried.Stopped? then 0 else 1
    ensures SendsOnly(log', |log|, verb, deadline)
  {
    hide LogOk, Sends, Readable, BodyEnd;
    var ok;
    ok, tick', log' := CheckLease(w, tick, log, o.maxBytes);
    if !ok { return Stopped, tick', log'; }
    var check := Deadline(w.clock(tick'), deadline);
    LogGrows(log', check, w, tick', o.maxBytes);
    log', tick' := log' + [check], tick' + 1;
    if deadline - check.now <= 0.0 { return Stopped, tick', log'; }
    LogGrows(log', Send(verb), w, tick', o.maxBytes);
    log' := log' + [Send(verb)];
    var sent := w.send(tick');
    tick' := tick' + 1;
    match sent {
      case Broken => tried := Crashed(None);
      case Unreachable => tried := NotReached;
      case Response(status, chunks, cut, verdict) =>
        ghost var before := log';
        var body;
        body, tick', log' := ReadBody(chunks, cut, deadline, o.maxBytes, w, tick', log');
        assert log' == before + log'[|before|..];
        SendsCount(before, log'[|before|..]);
        tried := if body == Aborted then Crashed(Some(status)) else Answered(status, verdict);
    }
  }

  /** The latency budget of the step is exceeded. */
  predicate Late(step: Step, started: real, ended: real) {
    step.maxLatencyMs.Some? && step.maxLatencyMs.value != 0.0 && (ended - started) * 1000.0 > step.maxLatencyMs.value
  }

  /** The status of a step by the outcome of its last try. */
  function Judge(step: Step, end: Tried, started: real, ended: real): Status {
    if !end.Answered? || end.verdict == Raises then Error
    else if end.verdict == Failures || Late(step, started, ended) then Status.Failed
    else Passed
  }

  /** The HTTP status a step reports. */
  function StatusOf(end: Tried): Option<int> {
    match end case Answered(status, _) => Some(status) case Crashed(seen) => seen case _ => None
  }

  /** The first n tries did not reach the server; try n was the last, because it ended otherwise or because
      the retries were used up. */
  ghost predicate Tries(w: World, deadline: real, o: Options, verb: string, tick: nat, n: nat) {
    && (forall i: nat :: i < n ==> TriedAt(w, deadline, o.maxBytes, tick + 3 * i) == NotReached)
    && n < SendLimit(verb, o.retries)
    && (TriedAt(w, deadline, o.maxBytes, tick + 3 * n) == NotReached ==> n + 1 == SendLimit(verb, o.retries))
  }

  /** What the world makes of a step that begins at tick, with n tries before the last, and ends at tick last. */
  ghost predicate Outcome(step: Step, deadline: real, o: Options, w: World, tick: nat, last: nat, n: nat,
                          result: StepResult) {
    match w.prepare(tick)
    case Violations => result.status == Status.Failed && result.attempts == 1 && result.httpStatus == None
      && last == tick
    case Misconfigured => result.status == Error && result.attempts == 0 && result.httpStatus == None && last == tick
    case Request(verb) =>
      var end := TriedAt(w, deadline, o.maxBytes, tick + 1 + 3 * n);
      && Tries(w, deadline, o, verb, tick + 1, n)
      && result.attempts == n + (if end.Stopped? then 0 else 1)
      && result.status == Judge(step, end, w.clock(tick), w.clock(last))
      && result.httpStatus == StatusOf(end)
      && last + 1 == TryEnd(w, deadline, o.maxBytes, tick + 1 + 3 * n) + (if end.Answered? then 1 else 0)
  }

  /** The log of one step: the requests it reports, all with the prepared method and within its limit, every
      one checked against the deadline; nothing at all when there is no request to send. */
  ghost predicate LogOf(part: seq<Act>, deadline: real, o: Options, prepared: Prepared, attempts: int) {
    match prepared
    case Request(verb) => SendsOnly(part, 0, verb, deadline) && Sends(part) == attempts <= SendLimit(verb, o.retries)
    case _ => part == []
  }

  /** When a step ran, with how many tries before the last, and which part of the log is its own. */
  datatype Span = Span(tick: nat, last: nat, tries: nat, from: nat, to: nat)

  datatype Planned = Planned(step: Step, phase: Phase)

  /** The result is what the world made of the planned step in this span, and the log shows it. */
  ghost predicate Carried(planned: Planned, deadline: real, o: Options, w: World, log: seq<Act>, span: Span,
                          result: StepResult) {
    && result.name == planned.step.name && result.phase == planned.phase
    && span.tick <= span.last && span.from <= span.to <= |log|
    && Outcome(planned.step, deadline, o, w, span.tick, span.last, span.tries, result)
    && LogOf(log[span.from..span.to], deadline, o, w.prepare(span.tick), result.attempts)
  }

  lemma {:induction false} SendsPlus(log: seq<Act>, more: seq<Act>)
    ensures Sends(log + more) == Sends(log) + Sends(more)
  {
    if more == [] {
      assert log + more == log;
    } else {
      var init := more[..|more| - 1];
      assert (log + more)[..|log + more| - 1] == log + init;
      SendsPlus(log, init);
    }
  }

  /** The part of the log that a step added. */
  lemma PartOf(log: seq<Act>, log': seq<Act>, verb: string, deadline: real)
    requires log <= log' && SendsOnly(log', |log|, verb, deadline)
    ensures SendsOnly(log'[|log|..], 0, verb, deadline) && Sends(log'[|log|..]) == Sends(log') - Sends(log)
  {
    var part := log'[|log|..];
    assert log' == log + part;
    SendsPlus(log, part);
    assert forall i :: 0 <= i < |part| ==> part[i] == log'[|log| + i];
  }

  lemma NoRequest(planned: Planned, deadline: real, o: Options, w: World, log: seq<Act>, span: Span, result: StepResult)
    requires !w.prepare(span.tick).Request? && span.tick == span.last && span.from == span.to <= |log|
    requires result == StepResult(planned.step.name, planned.phase, result.status, None, result.attempts)
    requires if w.prepare(span.tick).Violations? then result.status == Status.Failed && result.attempts == 1
             else result.status == Error && result.attempts == 0
    ensures Carried(planned, deadline, o, w, log, span, result)
  {
  }

  /** What the last try makes of a step. */
  lemma StepEnds(planned: Planned, deadline: real, o: Options, w: World, log: seq<Act>, log': seq<Act>, span: Span,
                 verb: string, end: Tried, result: StepResult)
    requires w.prepare(span.tick) == Request(verb) && Tries(w, deadline, o, verb, span.tick + 1, span.tries)
    requires end == TriedAt(w, deadline, o.maxBytes, span.tick + 1 + 3 * span.tries)
    requires log <= log' && span.from == |log| && span.to == |log'| && SendsOnly(log', |log|, verb, deadline)
    requires span.last + 1 ==
      TryEnd(w, deadline, o.maxBytes, span.tick + 1 + 3 * span.tries) + (if end.Answered? then 1 else 0)
    requires result.name == planned.step.name && result.phase == planned.phase
    requires result.attempts == span.tries + (if end.Stopped? then 0 else 1) == Sends(log') - Sends(log)
    requires result.status == Judge(planned.step, end, w.clock(span.tick), w.clock(span.last))
    requires result.httpStatus == StatusOf(end)
    ensures Carried(planned, deadline, o, w, log', span, result)
  {
    hide TriedAt, TryEnd, Sends, SendsOnly, Late, Judge;
    TryEndsLater(w, deadline, o.maxBytes, span.tick + 1 + 3 * span.tries);
    PartOf(log, log', verb, deadline);
    assert log'[span.from..span.to] == log'[|log|..];
  }

  lemma NothingSent(log: seq<Act>, verb: string, deadline: real)
    ensures SendsOnly(log, |log|, verb, deadline)
  {
  }

  lemma SendsJoin(log: seq<Act>, mid: seq<Act>, after: seq<Act>, verb: string, deadline: real)
    requires log <= mid <= after && SendsOnly(mid, |log|, verb, deadline) && SendsOnly(after, |mid|, verb, deadline)
    ensures SendsOnly(after, |log|, verb, deadline)
  {
    assert forall i :: 0 <= i < |mid| ==> after[i] == mid[i];
  }

  /** One step. Its log is the part added; the number of tries before the last is ghost. */
  method RunStep(step: Step, phase: Phase, deadline: real, o: Options, w: World, tick: nat, log: seq<Act>)
      returns (result: StepResult, tick': nat, log': seq<Act>, ghost n: nat)
    requires Steady(w) && LogOk(log, w, tick, o.maxBytes)
    ensures log <= log' && LogOk(log', w, tick', o.maxBytes) && tick' > tick
    ensures Carried(Planned(step, phase), deadline, o, w, log', Span(tick, tick' - 1, n, |log|, |log'|), result)
  {
    hide TriedAt, TryEnd, LogOk, Steady, Sends, SendsOnly, Late, Carried;
    tick', log', n := tick, log, 0;
    var attempts := 0;
    var prepared := w.prepare(tick');
    var started := w.clock(tick');
    tick' := tick' + 1;
    TimePasses(log, w, tick, o.maxBytes);
    result := StepResult(step.name, phase, if prepared.Violations? then Failed else Error, None,
                         if prepared.Violations? then 1 else 0);
    if !prepared.Request? {
      NoRequest(Planned(step, phase), deadline, o, w, log, Span(tick, tick, 0, |log|, |log|), result);
      return;
    }
    var verb := prepared.verb;
    var tried;
    NothingSent(log, verb, deadline);
    while true
      invariant log <= log' && LogOk(log', w, tick', o.maxBytes)
      invariant n == attempts == Sends(log') - Sends(log) && 0 <= attempts < SendLimit(verb, o.retries)
      invariant tick' == tick + 1 + 3 * n
      invariant forall i: nat :: i < n ==> TriedAt(w, deadline, o.maxBytes, tick + 1 + 3 * i) == NotReached
      invariant SendsOnly(log', |log|, verb, deadline)
      decreases SendLimit(verb, o.retries) - attempts
    {
      ghost var before := log';
      TryEndsLater(w, deadline, o.maxBytes, tick');
      tried, tick', log' := TrySend(verb, deadline, o, w, tick', log');
      SendsJoin(log, before, log', verb, deadline);
      attempts := attempts + if tried.Stopped? then 0 else 1;
      if !tried.NotReached? || !Repeatable(verb) || attempts > o.retries { break; }
      n := n + 1;
    }
    assert Tries(w, deadline, o, verb, tick + 1, n);
    if !tried.Answered? {
      result := StepResult(step.name, phase, Error, if tried.Crashed? then tried.seen else None, attempts);
    } else {
      var ended := w.clock(tick');
      TimePasses(log', w, tick', o.maxBytes);
      tick' := tick' + 1;
      var status := if tried.verdict == Raises then Error
                    else if tried.verdict == Failures || Late(step, started, ended) then Status.Failed
                    else Passed;
      result := StepResult(step.name, phase, status, Some(tried.status), attempts);
    }
    StepEnds(Planned(step, phase), deadline, o, w, log, log', Span(tick, tick' - 1, n, |log|, |log'|), verb, tried,
             result);
  }

  /** A step that begins after the lease was lost sends nothing, and does not pass. */
  lemma LossStopsSteps(planned: Planned, deadline: real, o: Options, w: World, log: seq<Act>, span: Span,
                       result: StepResult)
    requires Carried(planned, deadline, o, w, log, span, result) && Steady(w) && w.lost(span.tick)
    ensures Sends(log[span.from..span.to]) == 0 && result.status != Passed
  {
    hide Readable, SendsOnly;
    assert w.lost(span.tick + 1);
    assert TriedAt(w, deadline, o.maxBytes, span.tick + 1).Stopped?;
    if span.tries > 0 { assert TriedAt(w, deadline, o.maxBytes, span.tick + 1 + 3 * 0).Stopped?; }
  }

  /** A passed step got an answer while it ran: after a request of its own, sent before its deadline and
      under the lease, the response was read whole within the cap, met the contract and the latency budget,
      and its status is the one reported. */
  lemma PassedMeansAnswered(planned: Planned, deadline: real, o: Options, w: World, log: seq<Act>, span: Span,
                            result: StepResult)
      returns (tick: nat)
    requires Carried(planned, deadline, o, w, log, span, result) && result.status == Passed
    ensures span.tick + 2 < tick < span.last && w.prepare(span.tick).Request?
              && Sends(log[span.from..span.to]) == result.attempts > 0
    ensures !w.lost(tick - 2) && w.clock(tick - 1) < deadline
    ensures w.send(tick).Response? && !w.send(tick).cut && w.send(tick).verdict == Clean
    ensures result.httpStatus == Some(w.send(tick).status)
              && !Late(planned.step, w.clock(span.tick), w.clock(span.last))
    ensures w.send(tick).chunks == [] || Sum(w.send(tick).chunks) <= o.maxBytes
  {
    hide Tries, Late, SendsOnly, Sends, TryEnd;
    TryEndsLater(w, deadline, o.maxBytes, span.tick + 1 + 3 * span.tries);
    tick := span.tick + 1 + 3 * span.tries + 2;
    var chunks := w.send(tick).chunks;
    assert Readable(chunks, false, deadline, o.maxBytes, w, tick + 1);
    if chunks != [] {
      var i: nat := |chunks| - 1;
      assert ChunkOk(chunks, i, deadline, o.maxBytes, w, tick + 1);
      assert chunks[..i + 1] == chunks;
    }
  }

  // Retries and verdicts, spelled out

  /** A turn of the retry loop that begins at tick sends a request and is refused the connection. */
  predicate Refused(w: World, deadline: real, tick: nat) {
    !w.lost(tick) && w.clock(tick + 1) < deadline && w.send(tick + 2) == Unreachable
  }

  /** At most one request is recorded. */
  ghost predicate AtMostOneSend(part: seq<Act>) {
    forall i, j :: 0 <= i < j < |part| ==> !(part[i].Send? && part[j].Send?)
  }

  lemma {:induction false} SendPositions(part: seq<Act>, i: nat)
    requires i < |part| && part[i].Send?
    ensures Sends(part) >= 1 && (Sends(part) == 1 ==> forall j :: 0 <= j < |part| && part[j].Send? ==> j == i)
  {
    var init := part[..|part| - 1];
    if i < |init| {
      SendPositions(init, i);
      assert forall j :: 0 <= j < |init| ==> part[j] == init[j];
    } else if j :| 0 <= j < |init| && part[j].Send? {
      assert init[j].Send?;
      SendPositions(init, j);
    }
  }

  lemma FewSends(part: seq<Act>)
    requires Sends(part) <= 1
    ensures AtMostOneSend(part)
  {
    hide Sends;
    forall i, j | 0 <= i < j < |part| ensures !(part[i].Send? && part[j].Send?) {
      if part[i].Send? { SendPositions(part, i); }
    }
  }

  /** A method other than GET, HEAD and OPTIONS is never sent again. */
  lemma WritesAreSentOnce(planned: Planned, deadline: real, o: Options, w: World, log: seq<Act>, span: Span,
                          result: StepResult)
    requires Carried(planned, deadline, o, w, log, span, result) && w.prepare(span.tick).Request?
    requires var verb := w.prepare(span.tick).verb; verb != "GET" && verb != "HEAD" && verb != "OPTIONS"
    ensures result.attempts <= 1 && AtMostOneSend(log[span.from..span.to])
    ensures Refused(w, deadline, span.tick + 1) ==> result.status == Error && result.attempts == 1
  {
    hide Sends, SendsOnly, Readable, TryEnd;
    FewSends(log[span.from..span.to]);
  }

  /** GET, HEAD and OPTIONS are sent again exactly after a refused connection and while fewer requests than one
      more than the configured retries were sent. */
  lemma ReadsAreSentAgain(planned: Planned, deadline: real, o: Options, w: World, log: seq<Act>, span: Span,
                          result: StepResult)
    requires Carried(planned, deadline, o, w, log, span, result) && w.prepare(span.tick).Request?
    requires var verb := w.prepare(span.tick).verb; verb == "GET" || verb == "HEAD" || verb == "OPTIONS"
    ensures forall i: nat :: i <= span.tries ==>
      (i < span.tries <==> Refused(w, deadline, span.tick + 1 + 3 * i) && i + 1 < o.retries + 1)
    ensures result.attempts <= 1 || result.attempts <= o.retries + 1
    ensures span.tries <= result.attempts <= span.tries + 1
  {
    hide Sends, SendsOnly, Readable, TryEnd;
    var n := span.tries;
    assert Tries(w, deadline, o, w.prepare(span.tick).verb, span.tick + 1, n);
    forall i: nat | i <= n
      ensures i < n <==> Refused(w, deadline, span.tick + 1 + 3 * i) && i + 1 < o.retries + 1
    {
      assert TriedAt(w, deadline, o.maxBytes, span.tick + 1 + 3 * i) == NotReached
        <==> Refused(w, deadline, span.tick + 1 + 3 * i);
    }
  }

  /** A whole response came to the request of the turn that begins at tick: it was not cut off, and at every
      chunk the size was within the cap, the deadline ahead and the lease held. */
  ghost predicate WholeAnswer(w: World, deadline: real, maxBytes: int, tick: nat) {
    && !w.lost(tick) && w.clock(tick + 1) < deadline && w.send(tick + 2).Response? && !w.send(tick + 2).cut
    && ReadableUpTo(w.send(tick + 2).chunks, |w.send(tick + 2).chunks|, deadline, maxBytes, w, tick + 3)
  }

  lemma WholeIsAnswered(w: World, deadline: real, maxBytes: int, tick: nat)
    ensures WholeAnswer(w, deadline, maxBytes, tick) <==> TriedAt(w, deadline, maxBytes, tick).Answered?
    ensures WholeAnswer(w, deadline, maxBytes, tick) ==>
      TriedAt(w, deadline, maxBytes, tick) == Answered(w.send(tick + 2).status, w.send(tick + 2).verdict)
  {
    hide ReadableUpTo;
  }

  /** The status of a step that had a request to send, by its last turn: passed exactly when a whole response
      without contract failures came and no latency bound was exceeded, failed exactly when a whole response came
      and the contract or the latency bound was not met; an error otherwise. The HTTP status is that of the
      response received in the last turn, if any. */
  lemma StatusExactly(planned: Planned, deadline: real, o: Options, w: World, log: seq<Act>, span: Span,
                      result: StepResult) returns (tick: nat)
    requires Carried(planned, deadline, o, w, log, span, result) && w.prepare(span.tick).Request?
    ensures tick == span.tick + 1 + 3 * span.tries
    ensures var whole, sent := WholeAnswer(w, deadline, o.maxBytes, tick), w.send(tick + 2);
      var bound, spent := planned.step.maxLatencyMs, (w.clock(span.last) - w.clock(span.tick)) * 1000.0;
      var late := bound.Some? && bound.value != 0.0 && spent > bound.value;
      && (result.status == Passed <==> whole && sent.verdict == Clean && !late)
      && (result.status == Status.Failed <==>
            whole && (sent.verdict == Failures || (sent.verdict == Clean && late)))
    ensures result.httpStatus ==
      if !w.lost(tick) && w.clock(tick + 1) < deadline && w.send(tick + 2).Response?
      then Some(w.send(tick + 2).status) else None
  {
    hide Tries, SendsOnly, Sends, TryEnd, Readable, WholeAnswer;
    tick := span.tick + 1 + 3 * span.tries;
    WholeIsAnswered(w, deadline, o.maxBytes, tick);
  }

  /** A step without a request to send reports the violations as one failed attempt, and an error before that
      as none. */
  lemma NothingToSend(planned: Planned, deadline: real, o: Options, w: World, log: seq<Act>, span: Span,
                      result: StepResult)
    requires Carried(planned, deadline, o, w, log, span, result) && !w.prepare(span.tick).Request?
    ensures log[span.from..span.to] == [] && result.httpStatus == None
    ensures w.prepare(span.tick) == Violations ==> result.status == Status.Failed && result.attempts == 1
    ensures w.prepare(span.tick) == Misconfigured ==> result.status == Error && result.attempts == 0
  {
  }

  // A whole case

  function Phased(steps: seq<Step>, phase: Phase): seq<Planned> {
    seq(|steps|, i requires 0 <= i < |steps| => Planned(steps[i], phase))
  }

  /** setup ++ steps, with their phases. */
  function Plan(testCase: Case): seq<Planned> {
    Phased(testCase.setup, Setup) + Phased(testCase.steps, Test)
  }

  function NextTick(spans: seq<Span>, first: nat): nat { if spans == [] then first else spans[|spans| - 1].last + 1 }

  function NextPos(spans: seq<Span>, start: nat): nat { if spans == [] then start else spans[|spans| - 1].to }

  /** The spans follow one another without gap, in time and in the log. */
  ghost predicate InSequence(spans: seq<Span>, first: nat, start: nat) {
    forall i :: 0 <= i < |spans| ==>
      spans[i].tick == NextTick(spans[..i], first) && spans[i].from == NextPos(spans[..i], start)
  }

  ghost predicate AllCarried(deadline: real, o: Options, w: World, log: seq<Act>,
                             results: seq<StepResult>, spans: seq<Span>, plan: seq<Planned>) {
    && |results| == |spans| <= |plan|
    && forall i :: 0 <= i < |results| ==> Carried(plan[i], deadline, o, w, log, spans[i], results[i])
  }

  /** The first steps of a plan were carried out, one after the other, up to tick and to the end of the log. */
  ghost predicate Progressed(deadline: real, o: Options, w: World, first: nat, start: nat, tick: nat, log: seq<Act>,
                             results: seq<StepResult>, spans: seq<Span>, plan: seq<Planned>) {
    && AllCarried(deadline, o, w, log, results, spans, plan)
    && InSequence(spans, first, start) && NextTick(spans, first) == tick && NextPos(spans, start) == |log|
  }

  /** All but the last passed. */
  ghost predicate PassedBefore(results: seq<StepResult>) {
    forall i :: 0 <= i < |results| - 1 ==> results[i].status == Passed
  }

  /** Everything on record about one execution of a case: the readings, the log, the spans of its steps, the
      number of main steps, and when the cleanup began. */
  datatype Execution = Execution(o: Options, w: World, log: seq<Act>, spans: seq<Span>, main: nat, cleanup: nat)
  {
    /** The deadline of the main part, from the beginning of the case. */
    function CaseDeadline(): real { w.clock(0) + o.caseTimeout }

    /** The deadline of the cleanup, from its own beginning. */
    function CleanupDeadline(): real { w.clock(cleanup) + if o.caseTimeout < 15.0 then o.caseTimeout else 15.0 }

    /** Where the log of the main part ends. */
    function MainEnd(): nat { if main <= |spans| then NextPos(spans[..main], 0) else 0 }
  }

  /** The main part: the first planned steps in order, under the case deadline, all passed except perhaps the
      last, which stops it. */
  ghost predicate MainRan(testCase: Case, e: Execution, results: seq<StepResult>)
    requires e.main <= |results| == |e.spans|
  {
    var spans := e.spans[..e.main];
    && AllCarried(e.CaseDeadline(), e.o, e.w, e.log, results[..e.main], spans, Plan(testCase))
    && PassedBefore(results[..e.main])
    && (e.main < |Plan(testCase)| ==> e.main > 0 && results[e.main - 1].status != Passed)
    && InSequence(spans, 1, 0) && NextTick(spans, 1) == e.cleanup
  }

  /** The cleanup: every teardown step, under the deadline of the cleanup, to the end of the log. */
  ghost predicate CleanupRan(testCase: Case, e: Execution, results: seq<StepResult>)
    requires e.main <= |results| == |e.spans|
  {
    var spans := e.spans[e.main..];
    && |spans| == |testCase.teardown|
    && AllCarried(e.CleanupDeadline(), e.o, e.w, e.log, results[e.main..], spans, Phased(testCase.teardown, Teardown))
    && InSequence(spans, e.cleanup + 1, e.MainEnd()) && NextPos(spans, e.MainEnd()) == |e.log|
  }

  /** The main part, then the cleanup. */
  ghost predicate Ran(testCase: Case, e: Execution, results: seq<StepResult>) {
    e.main <= |results| == |e.spans| && MainRan(testCase, e, results) && CleanupRan(testCase, e, results)
  }

  function Severity(s: Status): nat {
    match s case Passed => 0 case Failed => 1 case Error => 2
  }

  /** The most severe status of all entries. */
  ghost predicate Worst(status: Status, results: seq<StepResult>) {
    && (forall i :: 0 <= i < |results| ==> Severity(results[i].status) <= Severity(status))
    && (status == Passed || exists i :: 0 <= i < |results| && results[i].status == status)
  }

  function Fold(results: seq<StepResult>): Status {
    if exists i :: 0 <= i < |results| && results[i].status == Error then Error
    else if exists i :: 0 <= i < |results| && results[i].status == Failed then Failed
    else Passed
  }

  lemma FoldIsWorst(results: seq<StepResult>)
    ensures Worst(Fold(results), results)
  {
    forall i | 0 <= i < |results| ensures Severity(results[i].status) <= Severity(Fold(results)) {
      assert results[i].status != Passed ==> results[i].status == Error || results[i].status == Failed;
    }
  }

  lemma CarriedLater(planned: Planned, deadline: real, o: Options, w: World, log: seq<Act>, after: seq<Act>,
                     span: Span, result: StepResult)
    requires Carried(planned, deadline, o, w, log, span, result) && log <= after
    ensures Carried(planned, deadline, o, w, after, span, result)
  {
    hide Outcome, LogOf;
    assert after[span.from..span.to] == log[span.from..span.to];
  }

  lemma AllCarriedLater(deadline: real, o: Options, w: World, log: seq<Act>, after: seq<Act>,
                        results: seq<StepResult>, spans: seq<Span>, plan: seq<Planned>)
    requires AllCarried(deadline, o, w, log, results, spans, plan) && log <= after
    ensures AllCarried(deadline, o, w, after, results, spans, plan)
  {
    hide Carried;
    forall i | 0 <= i < |results| ensures Carried(plan[i], deadline, o, w, after, spans[i], results[i]) {
      CarriedLater(plan[i], deadline, o, w, log, after, spans[i], results[i]);
    }
  }

  lemma Begin(deadline: real, o: Options, w: World, tick: nat, log: seq<Act>, plan: seq<Planned>)
    ensures Progressed(deadline, o, w, tick, |log|, tick, log, [], [], plan)
  {
  }

  lemma EndsWith(spans: seq<Span>, span: Span, first: nat, start: nat)
    ensures NextTick(spans + [span], first) == span.last + 1 && NextPos(spans + [span], start) == span.to
  {
  }

  lemma SequenceOne(spans: seq<Span>, span: Span, first: nat, start: nat)
    requires InSequence(spans, first, start)
    requires span.tick == NextTick(spans, first) && span.from == NextPos(spans, start)
    ensures InSequence(spans + [span], first, start)
    ensures NextTick(spans + [span], first) == span.last + 1 && NextPos(spans + [span], start) == span.to
  {
    hide NextTick, NextPos;
    forall i | 0 <= i < |spans + [span]|
      ensures (spans + [span])[i].tick == NextTick((spans + [span])[..i], first)
      ensures (spans + [span])[i].from == NextPos((spans + [span])[..i], start)
    {
      assert (spans + [span])[..i] == spans[..i];
      if i == |spans| { assert spans[..i] == spans; }
    }
    assert (spans + [span])[|spans|] == span;
    EndsWith(spans, span, first, start);
  }

  lemma ProgressOne(deadline: real, o: Options, w: World, first: nat, start: nat, tick: nat, log: seq<Act>,
                    results: seq<StepResult>, spans: seq<Span>, plan: seq<Planned>,
                    tick': nat, log': seq<Act>, n: nat, result: StepResult)
    requires Progressed(deadline, o, w, first, start, tick, log, results, spans, plan)
    requires log <= log' && tick < tick' && |results| < |plan|
    requires Carried(plan[|results|], deadline, o, w, log', Span(tick, tick' - 1, n, |log|, |log'|), result)
    ensures Progressed(deadline, o, w, first, start, tick', log',
                       results + [result], spans + [Span(tick, tick' - 1, n, |log|, |log'|)], plan)
  {
    hide Carried, InSequence, NextTick, NextPos;
    AllCarriedLater(deadline, o, w, log, log', results, spans, plan);
    SequenceOne(spans, Span(tick, tick' - 1, n, |log|, |log'|), first, start);
  }

  lemma CountsAgree(deadline: real, o: Options, w: World, first: nat, start: nat, tick: nat, log: seq<Act>,
                    results: seq<StepResult>, spans: seq<Span>, plan: seq<Planned>)
    requires Progressed(deadline, o, w, first, start, tick, log, results, spans, plan)
    ensures |results| == |spans| <= |plan|
  {
  }

  /** One phase of the main part: it stops after the first step that does not pass. */
  method RunPhase(steps: seq<Step>, phase: Phase, deadline: real, o: Options, w: World, tick: nat, log: seq<Act>,
                  before: seq<StepResult>, ghost spans: seq<Span>, ghost plan: seq<Planned>)
      returns (results: seq<StepResult>, tick': nat, log': seq<Act>, ghost spans': seq<Span>)
    requires Steady(w) && LogOk(log, w, tick, o.maxBytes)
    requires Progressed(deadline, o, w, 1, 0, tick, log, before, spans, plan)
    requires forall r :: r in before ==> r.status == Passed
    requires |before| + |steps| <= |plan| && plan[|before|..|before| + |steps|] == Phased(steps, phase)
    ensures log <= log' && LogOk(log', w, tick', o.maxBytes)
    ensures Progressed(deadline, o, w, 1, 0, tick', log', results, spans', plan)
    ensures before <= results && PassedBefore(results)
    ensures if forall r :: r in results ==> r.status == Passed then |results| == |before| + |steps|
            else |results| > |before| && results[|results| - 1].status != Passed
  {
    hide LogOk, Steady, Carried, Sends, Progressed;
    results, tick', log', spans' := before, tick, log, spans;
    CountsAgree(deadline, o, w, 1, 0, tick, log, before, spans, plan);
    for i := 0 to |steps|
      invariant log <= log' && LogOk(log', w, tick', o.maxBytes)
      invariant Progressed(deadline, o, w, 1, 0, tick', log', results, spans', plan)
      invariant before <= results && |results| == |before| + i
      invariant forall r :: r in results ==> r.status == Passed
    {
      var result;
      ghost var n, began, was := 0, tick', log';
      result, tick', log', n := RunStep(steps[i], phase, deadline, o, w, tick', log');
      assert plan[|before| + i] == plan[|before|..|before| + |steps|][i] == Planned(steps[i], phase);
      ProgressOne(deadline, o, w, 1, 0, began, was, results, spans', plan, tick', log', n, result);
      results, spans' := results + [result], spans' + [Span(began, tick' - 1, n, |was|, |log'|)];
      if result.status != Passed {
        assert results[|results| - 1] in results;
        return;
      }
    }
  }

  lemma PlanParts(testCase: Case)
    ensures |Plan(testCase)| == |testCase.setup| + |testCase.steps|
    ensures Plan(testCase)[0..|testCase.setup|] == Phased(testCase.setup, Setup)
    ensures Plan(testCase)[|testCase.setup|..|testCase.setup| + |testCase.steps|] == Phased(testCase.steps, Test)
  {
  }

  /** Setup, then test steps unless a setup step did not pass. */
  method RunMain(testCase: Case, deadline: real, o: Options, w: World)
      returns (results: seq<StepResult>, tick: nat, log: seq<Act>, ghost spans: seq<Span>)
    requires Steady(w)
    ensures LogOk(log, w, tick, o.maxBytes)
    ensures Progressed(deadline, o, w, 1, 0, tick, log, results, spans, Plan(testCase))
    ensures PassedBefore(results)
    ensures |results| < |Plan(testCase)| ==> |results| > 0 && results[|results| - 1].status != Passed
  {
    hide LogOk, Steady, Progressed, Plan, Phased, PassedBefore;
    ghost var plan := Plan(testCase);
    PlanParts(testCase);
    EmptyLog(w, 1, o.maxBytes);
    Begin(deadline, o, w, 1, [], plan);
    results, tick, log, spans := RunPhase(testCase.setup, Setup, deadline, o, w, 1, [], [], [], plan);
    if forall r :: r in results ==> r.status == Passed {
      results, tick, log, spans := RunPhase(testCase.steps, Test, deadline, o, w, tick, log, results, spans, plan);
    }
  }

  /** Every teardown step, whatever became of the main part and of the steps before. */
  method RunTeardown(steps: seq<Step>, deadline: real, o: Options, w: World, tick: nat, log: seq<Act>)
      returns (results: seq<StepResult>, tick': nat, log': seq<Act>, ghost spans: seq<Span>)
    requires Steady(w) && LogOk(log, w, tick, o.maxBytes)
    ensures log <= log' && LogOk(log', w, tick', o.maxBytes)
    ensures Progressed(deadline, o, w, tick, |log|, tick', log', results, spans, Phased(steps, Teardown))
    ensures |results| == |steps|
  {
    hide LogOk, Steady, Carried, Sends, Progressed;
    ghost var plan := Phased(steps, Teardown);
    results, tick', log', spans := [], tick, log, [];
    Begin(deadline, o, w, tick, log, plan);
    for i := 0 to |steps|
      invariant log <= log' && LogOk(log', w, tick', o.maxBytes) && |results| == i
      invariant Progressed(deadline, o, w, tick, |log|, tick', log', results, spans, plan)
    {
      var result;
      ghost var n, began, was := 0, tick', log';
      result, tick', log', n := RunStep(steps[i], Teardown, deadline, o, w, tick', log');
      ProgressOne(deadline, o, w, tick, |log|, began, was, results, spans, plan, tick', log', n, result);
      results, spans := results + [result], spans + [Span(began, tick' - 1, n, |was|, |log'|)];
    }
  }

  /** The rules every request of a case obeys, teardown included. */
  ghost predicate Obeys(log: seq<Act>, maxBytes: int) { Checked(log) && Silent(log) && Capped(log, maxBytes) }

  /** The execution on record is one of this case and gave this result. */
  ghost predicate Executes(testCase: Case, e: Execution, result: CaseResult) {
    && Steady(e.w) && result.caseId == testCase.id
    && Ran(testCase, e, result.steps) && Worst(result.status, result.steps) && Obeys(e.log, e.o.maxBytes)
  }

  /** The parts of an execution make up the whole. */
  lemma Assemble(testCase: Case, e: Execution, main: seq<StepResult>, spans: seq<Span>, mainLog: seq<Act>,
                 cleanup: seq<StepResult>, more: seq<Span>, tick: nat)
    requires Progressed(e.CaseDeadline(), e.o, e.w, 1, 0, e.cleanup, mainLog, main, spans, Plan(testCase))
    requires PassedBefore(main) && (|main| < |Plan(testCase)| ==> |main| > 0 && main[|main| - 1].status != Passed)
    requires mainLog <= e.log && e.spans == spans + more && e.main == |main| && |cleanup| == |testCase.teardown|
    requires Progressed(e.CleanupDeadline(), e.o, e.w, e.cleanup + 1, |mainLog|, tick, e.log,
                        cleanup, more, Phased(testCase.teardown, Teardown))
    ensures Ran(testCase, e, main + cleanup)
  {
    hide Carried, InSequence;
    var results := main + cleanup;
    assert results[..e.main] == main && results[e.main..] == cleanup;
    assert e.spans[..e.main] == spans && e.spans[e.main..] == more;
    AllCarriedLater(e.CaseDeadline(), e.o, e.w, mainLog, e.log, main, spans, Plan(testCase));
  }

  /** A whole case: setup and test steps up to the first that does not pass, every teardown step, and the
      most severe status, with the execution on record. */
  method RunCase(testCase: Case, workerId: string, delivery: int, o: Options, w: World)
      returns (result: CaseResult, log: seq<Act>, ghost e: Execution)
    requires Steady(w)
    ensures result.caseId == testCase.id && result.workerId == workerId && result.delivery == delivery
    ensures e.o == o && e.w == w && e.log == log && Executes(testCase, e, result)
  {
    hide Ran, Worst, Fold, Progressed, Steady, PassedBefore, Checked, Silent, Capped;
    var deadline := w.clock(0) + o.caseTimeout;
    var main, tick, cleanup;
    ghost var spans, more;
    main, tick, log, spans := RunMain(testCase, deadline, o, w);
    ghost var mainLog, began := log, tick;
    var until := w.clock(tick) + if o.caseTimeout < 15.0 then o.caseTimeout else 15.0;
    TimePasses(log, w, tick, o.maxBytes);
    tick := tick + 1;
    cleanup, tick, log, more := RunTeardown(testCase.teardown, until, o, w, tick, log);
    e := Execution(o, w, log, spans + more, |main|, began);
    Assemble(testCase, e, main, spans, mainLog, cleanup, more, tick);
    FoldIsWorst(main + cleanup);
    result := CaseResult(testCase.id, Fold(main + cleanup), workerId, delivery, main + cleanup, None);
  }

  /** Steps run one after the other: a later one starts after an earlier one has ended, and its requests
      come later in the log. */
  lemma {:induction false} SpansIncrease(spans: seq<Span>, first: nat, start: nat, i: nat, j: nat)
    requires InSequence(spans, first, start) && i < j < |spans|
    requires forall k :: 0 <= k < |spans| ==> spans[k].tick <= spans[k].last && spans[k].from <= spans[k].to
    ensures spans[i].last < spans[j].tick && spans[i].to <= spans[j].from
    decreases j
  {
    assert spans[..j][|spans[..j]| - 1] == spans[j - 1];
    if i < j - 1 { SpansIncrease(spans, first, start, i, j - 1); }
  }

  lemma MainCounts(testCase: Case, e: Execution, results: seq<StepResult>)
    requires Ran(testCase, e, results)
    ensures e.main <= |Plan(testCase)| && |results| == e.main + |testCase.teardown|
  {
    hide Carried, InSequence;
  }

  lemma NotTheLast(testCase: Case, e: Execution, results: seq<StepResult>, n: nat)
    requires Ran(testCase, e, results) && 0 < n < e.main
    ensures results[n - 1].status == Passed
  {
    hide Carried, InSequence;
    assert results[..e.main][n - 1] == results[n - 1];
  }

  lemma EntryPhase(testCase: Case, e: Execution, results: seq<StepResult>, i: nat)
    requires Ran(testCase, e, results) && i < e.main <= |Plan(testCase)|
    ensures results[i].phase == Plan(testCase)[i].phase
  {
    hide Outcome, LogOf, InSequence;
    assert results[..e.main][i] == results[i];
  }

  /** A case passes exactly when every setup, test and teardown step ran, in order, and passed; and no
      test step ran unless every setup step passed. */
  lemma PassedMeansAllRan(testCase: Case, e: Execution, status: Status, results: seq<StepResult>)
    requires Ran(testCase, e, results) && Worst(status, results)
    ensures status == Passed <==>
      && |results| == |testCase.setup| + |testCase.steps| + |testCase.teardown|
      && (forall i :: 0 <= i < |results| ==> results[i].status == Passed)
    ensures forall i :: 0 <= i < e.main && results[i].phase == Test ==>
      |testCase.setup| <= i && forall j :: 0 <= j < |testCase.setup| ==> results[j].status == Passed
  {
    hide Carried, InSequence, AllCarried;
    MainCounts(testCase, e, results);
    assert e.main < |Plan(testCase)| ==> Severity(results[e.main - 1].status) > 0;
    forall i | 0 <= i < e.main
      ensures results[i].phase == Plan(testCase)[i].phase && (i < e.main - 1 ==> results[i].status == Passed)
    {
      EntryPhase(testCase, e, results, i);
      if i < e.main - 1 { NotTheLast(testCase, e, results, i + 1); }
    }
  }

  /** The step an entry of a result stands for, and the deadline it ran under. */
  function StepAt(testCase: Case, e: Execution, i: nat): Planned
    requires e.main <= |Plan(testCase)| && i < e.main + |testCase.teardown|
  {
    if i < e.main then Plan(testCase)[i] else Planned(testCase.teardown[i - e.main], Teardown)
  }

  function DeadlineAt(e: Execution, i: nat): real {
    if i < e.main then e.CaseDeadline() else e.CleanupDeadline()
  }

  /** Every entry of a result is what the world made of its step. */
  lemma EntryCarried(testCase: Case, e: Execution, results: seq<StepResult>, i: nat)
    requires Ran(testCase, e, results) && i < |results|
    ensures e.main <= |Plan(testCase)| && i < e.main + |testCase.teardown| && i < |e.spans|
    ensures Carried(StepAt(testCase, e, i), DeadlineAt(e, i), e.o, e.w, e.log, e.spans[i], results[i])
  {
    hide Carried, InSequence;
    if i < e.main {
      assert results[..e.main][i] == results[i] && e.spans[..e.main][i] == e.spans[i];
    } else {
      assert results[e.main..][i - e.main] == results[i] && e.spans[e.main..][i - e.main] == e.spans[i];
    }
  }

  lemma RanCounts(testCase: Case, e: Execution, results: seq<StepResult>)
    requires Ran(testCase, e, results)
    ensures e.main <= |results| == |e.spans|
  {
  }

  lemma CarriedSpan(planned: Planned, deadline: real, o: Options, w: World, log: seq<Act>, span: Span,
                    result: StepResult)
    requires Carried(planned, deadline, o, w, log, span, result)
    ensures span.tick <= span.last && span.from <= span.to <= |log|
  {
  }

  lemma SpansOk(testCase: Case, e: Execution, results: seq<StepResult>)
    requires Ran(testCase, e, results)
    ensures forall i :: 0 <= i < |e.spans|
              ==> e.spans[i].tick <= e.spans[i].last && e.spans[i].from <= e.spans[i].to <= |e.log|
  {
    hide Carried, Ran;
    RanCounts(testCase, e, results);
    forall i | 0 <= i < |e.spans|
      ensures e.spans[i].tick <= e.spans[i].last && e.spans[i].from <= e.spans[i].to <= |e.log|
    {
      EntryCarried(testCase, e, results, i);
      CarriedSpan(StepAt(testCase, e, i), DeadlineAt(e, i), e.o, e.w, e.log, e.spans[i], results[i]);
    }
  }

  /** The spans of a sequence lie after its beginning, and the last one ends it. */
  lemma {:induction false} SpansWithin(spans: seq<Span>, first: nat, start: nat, i: nat)
    requires InSequence(spans, first, start) && i < |spans|
    requires forall k :: 0 <= k < |spans| ==> spans[k].tick <= spans[k].last && spans[k].from <= spans[k].to
    ensures first <= spans[i].tick && spans[i].last < NextTick(spans, first)
    ensures start <= spans[i].from && spans[i].to <= NextPos(spans, start)
  {
    if i > 0 {
      SpansWithin(spans, first, start, i - 1);
      assert spans[..i][i - 1] == spans[i - 1];
    }
    if i < |spans| - 1 { SpansIncrease(spans, first, start, i, |spans| - 1); }
  }

  /** The steps of a case run strictly one after the other, and so do their requests. */
  lemma StepsInOrder(testCase: Case, e: Execution, results: seq<StepResult>, i: nat, j: nat)
    requires Ran(testCase, e, results) && i < j < |e.spans|
    ensures e.spans[i].last < e.spans[j].tick && e.spans[i].to <= e.spans[j].from
  {
    hide AllCarried, InSequence;
    SpansOk(testCase, e, results);
    var main, cleanup := e.spans[..e.main], e.spans[e.main..];
    if j < e.main {
      SpansIncrease(main, 1, 0, i, j);
    } else if e.main <= i {
      SpansIncrease(cleanup, e.cleanup + 1, e.MainEnd(), i - e.main, j - e.main);
    } else {
      SpansWithin(main, 1, 0, i);
      SpansWithin(cleanup, e.cleanup + 1, e.MainEnd(), j - e.main);
    }
  }

  ghost predicate AnsweredAt(w: World, tick: nat, result: StepResult) {
    var sent := w.send(tick);
    sent.Response? && !sent.cut && sent.verdict == Clean && result.httpStatus == Some(sent.status)
  }

  /** The i-th step sent requests and got, while it ran, a whole response without contract failures, whose
      status is the one reported. */
  ghost predicate GotAnswer(e: Execution, i: nat, result: StepResult) {
    && i < |e.spans| && e.spans[i].from <= e.spans[i].to <= |e.log|
    && Sends(e.log[e.spans[i].from..e.spans[i].to]) == result.attempts > 0
    && exists tick :: e.spans[i].tick < tick < e.spans[i].last && AnsweredAt(e.w, tick, result)
  }

  lemma PassedStepAnswered(testCase: Case, e: Execution, results: seq<StepResult>, i: nat)
    requires Ran(testCase, e, results) && i < |results| && results[i].status == Passed
    ensures GotAnswer(e, i, results[i])
  {
    hide Ran, Carried, Sends;
    EntryCarried(testCase, e, results, i);
    CarriedSpan(StepAt(testCase, e, i), DeadlineAt(e, i), e.o, e.w, e.log, e.spans[i], results[i]);
    var tick := PassedMeansAnswered(StepAt(testCase, e, i), DeadlineAt(e, i), e.o, e.w, e.log, e.spans[i], results[i]);
    assert AnsweredAt(e.w, tick, results[i]);
  }

  /** In every step of an executed case, a method other than GET, HEAD and OPTIONS is sent at most once, and a
      refused connection to one of these is followed by another try exactly while retries are left. */
  lemma RetriesOfCase(testCase: Case, e: Execution, result: CaseResult, k: nat)
    requires Executes(testCase, e, result) && k < |result.steps|
    ensures k < |e.spans| && e.spans[k].from <= e.spans[k].to <= |e.log|
    ensures e.w.prepare(e.spans[k].tick).Request? ==>
      var verb, span, deadline := e.w.prepare(e.spans[k].tick).verb, e.spans[k], DeadlineAt(e, k);
      if verb == "GET" || verb == "HEAD" || verb == "OPTIONS" then
        forall i: nat :: i <= span.tries ==>
          (i < span.tries <==> Refused(e.w, deadline, span.tick + 1 + 3 * i) && i + 1 < e.o.retries + 1)
      else
        result.steps[k].attempts <= 1 && AtMostOneSend(e.log[span.from..span.to])
  {
    hide Ran, Worst, Steady, Obeys, Carried, Refused, AtMostOneSend;
    EntryCarried(testCase, e, result.steps, k);
    var planned, deadline, span := StepAt(testCase, e, k), DeadlineAt(e, k), e.spans[k];
    CarriedSpan(planned, deadline, e.o, e.w, e.log, span, result.steps[k]);
    if e.w.prepare(span.tick).Request? {
      var verb := e.w.prepare(span.tick).verb;
      if verb == "GET" || verb == "HEAD" || verb == "OPTIONS" {
        ReadsAreSentAgain(planned, deadline, e.o, e.w, e.log, span, result.steps[k]);
      } else {
        WritesAreSentOnce(planned, deadline, e.o, e.w, e.log, span, result.steps[k]);
      }
    }
  }

  /** The status of a case: an error when some step has one, failed when some step failed and none has an
      error, passed otherwise. */
  lemma CaseStatus(testCase: Case, e: Execution, result: CaseResult)
    requires Executes(testCase, e, result)
    ensures result.status == Error <==> exists i :: 0 <= i < |result.steps| && result.steps[i].status == Error
    ensures result.status == Status.Failed <==>
      && (exists i :: 0 <= i < |result.steps| && result.steps[i].status == Status.Failed)
      && forall i :: 0 <= i < |result.steps| ==> result.steps[i].status != Error
  {
    hide Ran, Steady, Obeys;
    if i :| 0 <= i < |result.steps| && result.steps[i].status == Error { assert Severity(result.steps[i].status) == 2; }
    if i :| 0 <= i < |result.steps| && result.steps[i].status == Status.Failed {
      assert Severity(result.steps[i].status) == 1;
    }
  }

  lemma PartDeadlines(planned: Planned, deadline: real, o: Options, w: World, log: seq<Act>, span: Span,
                      result: StepResult, i: nat)
    requires Carried(planned, deadline, o, w, log, span, result) && span.from <= i < span.to && log[i].Deadline?
    ensures log[i].until == deadline
  {
    hide Outcome, Sends;
    assert log[span.from..span.to][i - span.from] == log[i];
  }

  /** Every deadline check of a step: of a main step against the case timeout counted from the beginning of the
      case; of a teardown step against the case timeout or 15 seconds, whichever is shorter, counted from the
      beginning of the cleanup. */
  lemma DeadlinesOfCase(testCase: Case, e: Execution, result: CaseResult, k: nat, i: nat)
    requires Executes(testCase, e, result) && k < |result.steps| && k < |e.spans|
    requires e.spans[k].from <= i < e.spans[k].to && i < |e.log| && e.log[i].Deadline?
    ensures k < e.main ==> e.log[i].until == e.w.clock(0) + e.o.caseTimeout
    ensures k >= e.main ==>
      var budget := e.log[i].until - e.w.clock(e.cleanup);
      budget <= 15.0 && budget <= e.o.caseTimeout && (budget == 15.0 || budget == e.o.caseTimeout)
  {
    hide Ran, Worst, Steady, Obeys, Carried;
    EntryCarried(testCase, e, result.steps, k);
    CarriedSpan(StepAt(testCase, e, k), DeadlineAt(e, k), e.o, e.w, e.log, e.spans[k], result.steps[k]);
    PartDeadlines(StepAt(testCase, e, k), DeadlineAt(e, k), e.o, e.w, e.log, e.spans[k], result.steps[k], i);
  }

  // The readings decide the report

  /** The most severe status is unique. */
  lemma WorstUnique(a: Status, b: Status, results: seq<StepResult>)
    requires Worst(a, results) && Worst(b, results)
    ensures a == b
  {
  }

  lemma TryFailed(w: World, deadline: real, o: Options, verb: string, tick: nat, n: nat, i: nat)
    requires Tries(w, deadline, o, verb, tick, n) && i < n
    ensures TriedAt(w, deadline, o.maxBytes, tick + 3 * i) == NotReached
  {
  }

  lemma TriesUnique(w: World, deadline: real, o: Options, verb: string, tick: nat, n: nat, m: nat)
    requires Tries(w, deadline, o, verb, tick, n) && Tries(w, deadline, o, verb, tick, m)
    ensures n == m
  {
    hide TriedAt;
    if n < m { TryFailed(w, deadline, o, verb, tick, m, n); }
    if m < n { TryFailed(w, deadline, o, verb, tick, n, m); }
  }

  lemma CarriedUnique(planned: Planned, deadline: real, o: Options, w: World,
                      log1: seq<Act>, span1: Span, result1: StepResult, log2: seq<Act>, span2: Span,
                      result2: StepResult)
    requires Carried(planned, deadline, o, w, log1, span1, result1)
    requires Carried(planned, deadline, o, w, log2, span2, result2) && span1.tick == span2.tick
    ensures result1 == result2 && span1.last == span2.last
  {
    hide Tries, TriedAt, TryEnd, LogOf;
    if w.prepare(span1.tick).Request? {
      TriesUnique(w, deadline, o, w.prepare(span1.tick).verb, span1.tick + 1, span1.tries, span2.tries);
    }
  }

  /** The i-th step of a part was carried out, from the tick after the one before it. */
  lemma CarriedNth(deadline: real, o: Options, w: World, first: nat, start: nat, log: seq<Act>,
                   results: seq<StepResult>, spans: seq<Span>, plan: seq<Planned>, i: nat)
    requires AllCarried(deadline, o, w, log, results, spans, plan) && InSequence(spans, first, start)
    requires i < |results|
    ensures |results| == |spans| <= |plan| && Carried(plan[i], deadline, o, w, log, spans[i], results[i])
    ensures spans[i].tick == NextTick(spans[..i], first) && NextTick(spans[..i + 1], first) == spans[i].last + 1
  {
    hide Carried;
  }

  lemma {:induction false} SameUpTo(deadline: real, o: Options, w: World, first: nat, plan: seq<Planned>,
                                    log1: seq<Act>, start1: nat, results1: seq<StepResult>, spans1: seq<Span>,
                                    log2: seq<Act>, start2: nat, results2: seq<StepResult>, spans2: seq<Span>, i: nat)
    requires AllCarried(deadline, o, w, log1, results1, spans1, plan) && InSequence(spans1, first, start1)
    requires AllCarried(deadline, o, w, log2, results2, spans2, plan) && InSequence(spans2, first, start2)
    requires i <= |results1| == |spans1| && i <= |results2| == |spans2|
    ensures results1[..i] == results2[..i] && NextTick(spans1[..i], first) == NextTick(spans2[..i], first)
  {
    hide Carried, AllCarried, InSequence, NextTick;
    if i == 0 {
      assert spans1[..0] == spans2[..0];
    } else {
      SameUpTo(deadline, o, w, first, plan, log1, start1, results1, spans1, log2, start2, results2, spans2, i - 1);
      CarriedNth(deadline, o, w, first, start1, log1, results1, spans1, plan, i - 1);
      CarriedNth(deadline, o, w, first, start2, log2, results2, spans2, plan, i - 1);
      CarriedUnique(plan[i - 1], deadline, o, w, log1, spans1[i - 1], results1[i - 1],
                    log2, spans2[i - 1], results2[i - 1]);
      assert results1[..i] == results1[..i - 1] + [results1[i - 1]];
      assert results2[..i] == results2[..i - 1] + [results2[i - 1]];
    }
  }

  lemma AllButTheLast(testCase: Case, e: Execution, results: seq<StepResult>)
    requires Ran(testCase, e, results)
    ensures forall k :: 0 <= k < |results| && k < e.main - 1 ==> results[k].status == Passed
  {
    hide Ran;
    forall k | 0 <= k < |results| && k < e.main - 1 ensures results[k].status == Passed {
      NotTheLast(testCase, e, results, k + 1);
    }
  }

  /** Two executions of a case with the same readings stop their main parts at the same step. */
  lemma SameMain(testCase: Case, e1: Execution, e2: Execution, results1: seq<StepResult>, results2: seq<StepResult>)
    requires Ran(testCase, e1, results1) && Ran(testCase, e2, results2) && e1.o == e2.o && e1.w == e2.w
    ensures e1.main == e2.main && e1.cleanup == e2.cleanup && results1[..e1.main] == results2[..e2.main]
  {
    hide AllCarried, InSequence, NextTick, CleanupRan;
    var n := if e1.main <= e2.main then e1.main else e2.main;
    MainCounts(testCase, e1, results1);
    MainCounts(testCase, e2, results2);
    SameUpTo(e1.CaseDeadline(), e1.o, e1.w, 1, Plan(testCase), e1.log, 0, results1[..e1.main], e1.spans[..e1.main],
             e2.log, 0, results2[..e2.main], e2.spans[..e2.main], n);
    assert results1[..e1.main][..n] == results1[..n] && results2[..e2.main][..n] == results2[..n];
    if n > 0 { assert results1[..n][n - 1] == results1[n - 1] && results2[..n][n - 1] == results2[n - 1]; }
    AllButTheLast(testCase, e1, results1);
    AllButTheLast(testCase, e2, results2);
    assert e1.spans[..e1.main][..n] == e1.spans[..n] && e2.spans[..e2.main][..n] == e2.spans[..n];
  }

  /** The report of a case is decided by the options and the readings alone: whatever is on record besides,
      two executions under the same readings report the same steps and the same status. */
  lemma ReportIsDecided(testCase: Case, e1: Execution, e2: Execution, result1: CaseResult, result2: CaseResult)
    requires Executes(testCase, e1, result1) && Executes(testCase, e2, result2) && e1.o == e2.o && e1.w == e2.w
    ensures result1.steps == result2.steps && result1.status == result2.status
  {
    hide AllCarried, InSequence, Worst, Steady, Obeys, MainRan, NextTick, NextPos;
    var r1, r2 := result1.steps, result2.steps;
    SameMain(testCase, e1, e2, r1, r2);
    MainCounts(testCase, e1, r1);
    MainCounts(testCase, e2, r2);
    var n, m := |testCase.teardown|, e1.main;
    SameUpTo(e1.CleanupDeadline(), e1.o, e1.w, e1.cleanup + 1, Phased(testCase.teardown, Teardown),
             e1.log, e1.MainEnd(), r1[m..], e1.spans[m..], e2.log, e2.MainEnd(), r2[m..], e2.spans[m..], n);
    assert r1[m..][..n] == r1[m..] && r2[m..][..n] == r2[m..];
    assert r1 == r1[..m] + r1[m..] && r2 == r2[..m] + r2[m..];
    WorstUnique(result1.status, result2.status, r1);
  }
}
