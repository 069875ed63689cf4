/** The coordinator: create, poll, close, and one report entry for every case. */
module Coordinator {
  import opened Redis
  import opened Models
  import opened Queue
  import opened Refinement
  import opened Steps
  import opened Runs
  import opened RunQueues
  import opened Deliveries
  import opened Workers
  import opened Progress
  import opened Idle

  /** The readings of one turn of the collection loop. */
  datatype Poll = Poll(
    before: Trace, at: int, resultsFail: bool, overdue: bool,
    beforeState: Trace, stateAt: int, stateFails: bool,
    beforeTime: Trace, micros: int, timeFails: bool)

  function IdsOf(results: seq<CaseResult>): seq<string> {
    seq(|results|, i requires 0 <= i < |results| => results[i].caseId)
  }

  /** results lists the values of the hash m, each once, in any order. */
  ghost predicate ListsValues(m: map<string, CaseResult>, results: seq<CaseResult>) {
    && Distinct(IdsOf(results))
    && (forall i :: 0 <= i < |results| ==> results[i].caseId in m && m[results[i].caseId] == results[i])
    && (forall k :: k in m ==> k in IdsOf(results))
  }

  /** HVALS. */
  method HVals(m: map<string, CaseResult>) returns (results: seq<CaseResult>)
    requires forall k :: k in m ==> m[k].caseId == k
    ensures ListsValues(m, results)
  {
    results := [];
    var left := m.Keys;
    while left != {}
      invariant left <= m.Keys && Distinct(IdsOf(results))
      invariant forall i :: 0 <= i < |results| ==>
        results[i].caseId in m && results[i].caseId !in left && m[results[i].caseId] == results[i]
      invariant forall k :: k in m && k !in left ==> k in IdsOf(results)
      decreases left
    {
      var k :| k in left;
      ghost var was := IdsOf(results);
      results := results + [m[k]];
      assert IdsOf(results) == was + [k];
      left := left - {k};
    }
  }

  /** An entry the queue recorded: it was a result of the run after n calls. */
  ghost predicate Recorded(log: Trace, n: nat, entry: CaseResult) {
    n <= |log| && entry.caseId in Exec(log[..n]).results.m && Exec(log[..n]).results.m[entry.caseId] == entry
  }

  function ErrorEntry(id: string, message: string): CaseResult {
    CaseResult(id, Error, "coordinator", 1, [], Some(message))
  }

  /** The entry that stands for a missing result of a case of the suite. */
  ghost predicate Missing(suite: Suite, message: string, entry: CaseResult) {
    entry == CaseResult(entry.caseId, Error, "coordinator", 1, [], Some(message)) && Rank(suite, entry.caseId) > 0
  }

  function MessageOf(error: Option<string>): string { if error.Some? then error.value else "missing result" }

  /** What one read of the results gives when it comes after n calls, at server time at. */
  ghost predicate ReadBack(log: Trace, n: nat, at: int, results: seq<CaseResult>) {
    n <= |log| && ListsValues(Seen(Exec(log[..n]), at).results.m, results)
  }

  /** The results of the last successful read, which came after n calls; none if there was none. */
  ghost predicate Collected(log: Trace, n: nat, read: Option<int>, results: seq<CaseResult>) {
    n <= |log| && if read.Some? then ReadBack(log, n, read.value, results) else results == []
  }

  /** What was read is recorded in the queue, each result once. */
  lemma ReadIsRecorded(log: Trace, n: nat, read: Option<int>, results: seq<CaseResult>)
    requires Collected(log, n, read, results)
    ensures n <= |log| && Distinct(IdsOf(results)) && forall i :: 0 <= i < |results| ==> Recorded(log, n, results[i])
  {
    hide Exec, Perform;
    InvAlways(log[..n]);
    if read.Some? { SeenAllOrNothing(Exec(log[..n]), read.value); }
  }

  lemma ReadableResults(log: Trace, at: int)
    ensures forall k :: k in Seen(Exec(log), at).results.m ==> Seen(Exec(log), at).results.m[k].caseId == k
  {
    InvAlways(log);
    SeenAllOrNothing(Exec(log), at);
    forall k | k in Seen(Exec(log), at).results.m ensures Seen(Exec(log), at).results.m[k].caseId == k {
      assert CaseOk(Exec(log), k);
    }
  }

  const UNAVAILABLE := "Redis unavailable while collecting results"
  const TIME_IS_UP := "run deadline exceeded; expected results are missing"

  datatype Collection = Pending | Over(results: seq<CaseResult>, error: Option<string>)

  /** Redis answers and time is not up. */
  predicate Quiet(poll: Poll) { !poll.resultsFail && !poll.overdue && !poll.stateFails && !poll.timeFails }

  /** The results read after r calls were not complete, and the run was open when its state was read after n. */
  ghost predicate SawShort(log: Trace, r: nat, n: nat, poll: Poll, suite: Suite) {
    && r <= |log| && |Seen(Exec(log[..r]), poll.at).results.m| != |suite|
    && n <= |log| && !NotOpen(log, n, Closed(poll.stateAt, poll.micros))
  }

  /** A turn of the collection, between two lengths of the log, that gave no reason to end it. */
  ghost predicate Continued(log: Trace, from: nat, to: nat, poll: Poll, suite: Suite) {
    to <= |log| && Quiet(poll) && exists r, n :: from <= r <= n <= to && SawShort(log, r, n, poll, suite)
  }

  /** marks are the lengths of the log at the beginning of the turns. */
  ghost predicate AllContinued(log: Trace, marks: seq<nat>, polls: seq<Poll>, suite: Suite) {
    && 0 < |marks| <= |polls| + 1
    && forall k :: 0 <= k < |marks| - 1 ==> Continued(log, marks[k], marks[k + 1], polls[k], suite)
  }

  /** A turn that ends the collection without all results: Redis failed, time is up, or the run was seen
      not open when its state was read, after the results, which were read after from calls, and before the
      collection ended after to calls. */
  ghost predicate Ends(log: Trace, from: nat, to: nat, poll: Poll) {
    !Quiet(poll) || exists n :: from <= n <= to && NotOpen(log, n, Closed(poll.stateAt, poll.micros))
  }

  /** The read that is kept when a turn begins: the one of the turn before. */
  ghost predicate KeptRead(marks: seq<nat>, polls: seq<Poll>, n: nat, read: Option<int>)
    requires 0 < |marks| <= |polls| + 1
  {
    var k := |marks| - 1;
    if k == 0 then read == None else (read == Some(polls[k - 1].at) && marks[k - 1] <= n <= marks[k])
  }

  /** The read that is kept at the end: the one of the last turn, or of the turn before when that read failed. */
  ghost predicate LastRead(marks: seq<nat>, polls: seq<Poll>, n: nat, read: Option<int>)
    requires 0 < |marks| <= |polls|
  {
    var k := |marks| - 1;
    if polls[k].resultsFail then KeptRead(marks, polls, n, read) else (marks[k] <= n && read == Some(polls[k].at))
  }

  /** The error of a last turn after which results are missing. */
  function Reason(poll: Poll): string {
    if poll.resultsFail || (!poll.overdue && (poll.stateFails || poll.timeFails)) then UNAVAILABLE else TIME_IS_UP
  }

  lemma ContinuedLater(log: Trace, after: Trace, from: nat, to: nat, poll: Poll, suite: Suite)
    requires log <= after && Continued(log, from, to, poll, suite)
    ensures Continued(after, from, to, poll, suite)
  {
    hide Exec, Seen;
    var r, n :| from <= r <= n <= to && SawShort(log, r, n, poll, suite);
    assert after[..r] == log[..r] && after[..n] == log[..n];
    assert SawShort(after, r, n, poll, suite);
  }

  lemma AllContinuedLater(log: Trace, after: Trace, marks: seq<nat>, polls: seq<Poll>, suite: Suite)
    requires log <= after && AllContinued(log, marks, polls, suite)
    ensures AllContinued(after, marks, polls, suite)
  {
    hide Continued;
    forall k | 0 <= k < |marks| - 1 ensures Continued(after, marks[k], marks[k + 1], polls[k], suite) {
      ContinuedLater(log, after, marks[k], marks[k + 1], polls[k], suite);
    }
  }

  lemma OneMoreContinued(log: Trace, marks: seq<nat>, polls: seq<Poll>, suite: Suite)
    requires AllContinued(log, marks, polls, suite) && |marks| <= |polls|
    requires Continued(log, marks[|marks| - 1], |log|, polls[|marks| - 1], suite)
    ensures AllContinued(log, marks + [|log|], polls, suite)
  {
    hide Continued;
  }

  lemma NothingContinued(log: Trace, polls: seq<Poll>, suite: Suite)
    ensures AllContinued(log, [|log|], polls, suite)
  {
  }

  lemma EndsFrom(log: Trace, from: nat, n: nat, to: nat, poll: Poll)
    requires from <= n <= to && NotOpen(log, n, Closed(poll.stateAt, poll.micros))
    ensures Ends(log, from, to, poll)
  {
    hide NotOpen;
  }

  lemma Failed(log: Trace, from: nat, to: nat, poll: Poll)
    requires !Quiet(poll)
    ensures Ends(log, from, to, poll)
  {
  }

  lemma EndsLater(log: Trace, after: Trace, from: nat, to: nat, poll: Poll)
    requires log <= after && to <= |log| && Ends(log, from, to, poll)
    ensures Ends(after, from, to, poll)
  {
    hide Exec, Seen;
    if Quiet(poll) {
      var n :| from <= n <= to && NotOpen(log, n, Closed(poll.stateAt, poll.micros));
      assert after[..n] == log[..n];
      assert NotOpen(after, n, Closed(poll.stateAt, poll.micros));
    }
  }

  /** Reading the state and then the clock. */
  method SeesOpen(queue: RunQueue, poll: Poll) returns (open: bool, ghost n: nat)
    requires queue.Valid() && !poll.stateFails && !poll.timeFails
    modifies queue
    ensures queue.Valid() && queue.log == old(queue.log) + poll.beforeState + poll.beforeTime
    ensures |old(queue.log)| <= n <= |queue.log|
    ensures open <==> !NotOpen(queue.log, n, Closed(poll.stateAt, poll.micros))
  {
    hide Exec, Perform, Seen;
    queue.Others(poll.beforeState);
    var seen := Seen(queue.State(), poll.stateAt);
    ghost var log := queue.log;
    n := |log|;
    queue.Others(poll.beforeTime);
    assert queue.log[..n] == log;
    open := OpenAt(seen.meta, poll.micros);
  }

  /** The check after a short read: the deadline, then is_open. */
  method TimeLeft(queue: RunQueue, poll: Poll) returns (error: Option<string>, ghost n: nat)
    requires queue.Valid() && !poll.resultsFail
    modifies queue
    ensures queue.Valid() && old(queue.log) <= queue.log
    ensures error == None ==>
      && Quiet(poll) && |old(queue.log)| <= n <= |queue.log|
      && !NotOpen(queue.log, n, Closed(poll.stateAt, poll.micros))
    ensures error.Some? ==> error.value == Reason(poll) && Ends(queue.log, |old(queue.log)|, |queue.log|, poll)
  {
    hide RunQueue.Valid, NotOpen, Ends;
    n := |queue.log|;
    if poll.overdue || poll.stateFails || poll.timeFails {
      if !poll.overdue && !poll.stateFails { queue.Others(poll.beforeState); }
      Failed(queue.log, |old(queue.log)|, |queue.log|, poll);
      return Some(if poll.overdue then TIME_IS_UP else UNAVAILABLE), n;
    }
    var open;
    open, n := SeesOpen(queue, poll);
    error := None;
    if !open {
      EndsFrom(queue.log, |old(queue.log)|, n, |queue.log|, poll);
      error := Some(TIME_IS_UP);
    }
  }

  lemma ListCount(m: map<string, CaseResult>, results: seq<CaseResult>)
    requires ListsValues(m, results)
    ensures |results| == |m|
  {
    var ids := IdsOf(results);
    IdsCount(ids);
    assert (set x | x in ids) == m.Keys by {
      forall x | x in ids ensures x in m { var i :| 0 <= i < |ids| && ids[i] == x; assert results[i].caseId == x; }
    }
    assert |m| == |m.Keys|;
  }

  lemma ShortNow(counted: Trace, log: Trace, n: nat, poll: Poll, suite: Suite)
    requires counted <= log && |Seen(Exec(counted), poll.at).results.m| != |suite|
    requires n <= |log| && !NotOpen(log, n, Closed(poll.stateAt, poll.micros))
    ensures SawShort(log, |counted|, n, poll, suite)
  {
    hide Exec, Seen, NotOpen;
    assert log[..|counted|] == counted;
  }

  lemma SuiteNotEmpty(suite: Suite)
    ensures |suite| >= 1
  {
  }

  lemma NothingRead(log: Trace, n: nat)
    requires n <= |log|
    ensures Collected(log, n, None, [])
  {
  }

  lemma ReadNow(log: Trace, at: int, results: seq<CaseResult>)
    requires ListsValues(Seen(Exec(log), at).results.m, results)
    ensures Collected(log, |log|, Some(at), results)
  {
    hide Exec, Seen, ListsValues;
    assert log[..|log|] == log;
  }

  lemma CollectedLater(log: Trace, after: Trace, n: nat, read: Option<int>, results: seq<CaseResult>)
    requires Collected(log, n, read, results) && log <= after
    ensures Collected(after, n, read, results)
  {
    hide Exec, Seen, ListsValues;
    assert after[..n] == log[..n];
  }

  /** One read of the results. */
  method ReadResults(queue: RunQueue, at: int) returns (results: seq<CaseResult>)
    requires queue.Valid()
    ensures Collected(queue.log, |queue.log|, Some(at), results)
    ensures |results| == |Seen(Exec(queue.log), at).results.m|
  {
    hide Exec, Perform, ReplyOf, Seen, Collected, ListsValues;
    ReadableResults(queue.log, at);
    results := HVals(Seen(queue.State(), at).results.m);
    ReadNow(queue.log, at, results);
    ListCount(Seen(queue.State(), at).results.m, results);
  }

  /** One turn of the collection: the results are kept from before only when the read fails; then come the
      deadline and is_open, unless all results are there. */
  method OneTurn(queue: RunQueue, suite: Suite, poll: Poll, kept: seq<CaseResult>, ghost before: nat,
                 ghost was: Option<int>)
      returns (over: bool, results: seq<CaseResult>, error: Option<string>, ghost n: nat, ghost read: Option<int>)
    requires queue.Valid() && Collected(queue.log, before, was, kept) && |kept| != |suite|
    modifies queue
    ensures queue.Valid() && old(queue.log) <= queue.log && Collected(queue.log, n, read, results)
    ensures if poll.resultsFail then n == before && read == was
            else |old(queue.log)| <= n <= |queue.log| && read == Some(poll.at)
    ensures !over ==>
      && !poll.resultsFail && |results| != |suite|
      && Continued(queue.log, |old(queue.log)|, |queue.log|, poll, suite)
    ensures over ==> (error == None <==> |results| == |suite|) && (error == None ==> !poll.resultsFail)
    ensures over && error.Some? ==> error.value == Reason(poll) && Ends(queue.log, n, |queue.log|, poll)
  {
    hide Exec, Perform, Seen, Collected, Ends, IsSuite, SawShort, NotOpen, RunQueue.Valid;
    queue.Others(poll.before);
    CollectedLater(old(queue.log), queue.log, before, was, kept);
    n, read, error := before, was, None;
    if poll.resultsFail {
      Failed(queue.log, n, |queue.log|, poll);
      return true, kept, Some(UNAVAILABLE), n, read;
    }
    results := ReadResults(queue, poll.at);
    n, read := |queue.log|, Some(poll.at);
    if |results| == |suite| { return true, results, None, n, read; }
    ghost var counted := queue.log;
    ghost var seen;
    error, seen := TimeLeft(queue, poll);
    CollectedLater(counted, queue.log, n, read, results);
    over := error.Some?;
    if !over { ShortNow(counted, queue.log, seen, poll, suite); }
  }

  /** The collection loop. It is over when as many results as cases are there, when the deadline is
      reached or the run is not open, or when Redis fails; the results read last are kept. */
  method Collect(queue: RunQueue, suite: Suite, polls: seq<Poll>)
      returns (c: Collection, ghost n: nat, ghost read: Option<int>, ghost marks: seq<nat>)
    requires queue.Valid()
    modifies queue
    ensures queue.Valid() && old(queue.log) <= queue.log
    // at every turn but the last the results were short and the run was open
    ensures AllContinued(queue.log, marks, polls, suite) && marks[0] == |old(queue.log)|
    ensures c.Pending? <==> |marks| == |polls| + 1
    ensures c.Over? ==> |old(queue.log)| <= n && Collected(queue.log, n, read, c.results)
    ensures c.Over? ==> LastRead(marks, polls, n, read)
    // the last turn ended the collection with all results, or for a reason seen after the read
    ensures c.Over? ==> (c.error == None <==> |c.results| == |suite|) && (c.error == None ==> read.Some?)
    ensures c.Over? && c.error.Some? ==>
      c.error.value == Reason(polls[|marks| - 1]) && Ends(queue.log, n, |queue.log|, polls[|marks| - 1])
  {
    hide Exec, Collected, Ends, IsSuite, Continued, AllContinued, RunQueue.Valid, Reason;
    var results: seq<CaseResult> := [];
    n, read, marks := |queue.log|, None, [|queue.log|];
    NothingRead(queue.log, n);
    SuiteNotEmpty(suite);
    NothingContinued(queue.log, polls, suite);
    for i := 0 to |polls|
      invariant queue.Valid() && old(queue.log) <= queue.log
      invariant |marks| == i + 1 && marks[0] == |old(queue.log)| && marks[i] == |queue.log|
      invariant AllContinued(queue.log, marks, polls, suite)
      invariant |old(queue.log)| <= n && Collected(queue.log, n, read, results) && KeptRead(marks, polls, n, read)
      invariant |results| != |suite|
    {
      ghost var begun := queue.log;
      var over, error;
      over, results, error, n, read := OneTurn(queue, suite, polls[i], results, n, read);
      AllContinuedLater(begun, queue.log, marks, polls, suite);
      if over { return Over(results, error), n, read, marks; }
      OneMoreContinued(queue.log, marks, polls, suite);
      marks := marks + [|queue.log|];
    }
    c := Pending;
  }

  lemma IdsPlus(results: seq<CaseResult>, entry: CaseResult)
    ensures IdsOf(results + [entry]) == IdsOf(results) + [entry.caseId]
    ensures Distinct(IdsOf(results)) && entry.caseId !in IdsOf(results) ==> Distinct(IdsOf(results + [entry]))
    ensures forall id :: id in IdsOf(results + [entry]) <==> id in IdsOf(results) || id == entry.caseId
  {
  }

  lemma IdsPrefix(a: seq<CaseResult>, b: seq<CaseResult>)
    requires a <= b
    ensures IdsOf(a) <= IdsOf(b) && forall id :: id in IdsOf(a) ==> id in IdsOf(b)
  {
    assert IdsOf(a) <= IdsOf(b);
  }

  /** The entries so far: what was collected, then errors for cases without one; the first i cases have theirs. */
  ghost predicate FilledUpTo(suite: Suite, message: string, collected: seq<CaseResult>, i: nat,
                             results: seq<CaseResult>)
    requires i <= |suite|
  {
    && collected <= results && Distinct(IdsOf(results))
    && (forall k :: |collected| <= k < |results| ==>
          && Missing(suite, message, results[k])
          && results[k].caseId !in IdsOf(collected) && Rank(suite, results[k].caseId) <= i)
    && (forall k :: 0 <= k < i ==> suite[k].id in IdsOf(results))
  }

  lemma FillNone(suite: Suite, message: string, collected: seq<CaseResult>, i: nat, results: seq<CaseResult>)
    requires i < |suite| && FilledUpTo(suite, message, collected, i, results) && suite[i].id in IdsOf(collected)
    ensures FilledUpTo(suite, message, collected, i + 1, results)
  {
    hide Rank, Missing, Distinct;
    IdsPrefix(collected, results);
  }

  lemma NotYet(suite: Suite, message: string, collected: seq<CaseResult>, i: nat, results: seq<CaseResult>)
    requires i < |suite| && FilledUpTo(suite, message, collected, i, results) && suite[i].id !in IdsOf(collected)
    ensures suite[i].id !in IdsOf(results)
  {
    hide Distinct, Missing, Rank, IsSuite;
    RankAt(suite, i);
    forall k | 0 <= k < |results| ensures IdsOf(results)[k] != suite[i].id {
      if k < |collected| { assert IdsOf(collected)[k] == results[k].caseId; }
    }
  }

  lemma FillOne(suite: Suite, message: string, collected: seq<CaseResult>, i: nat, results: seq<CaseResult>)
    requires i < |suite| && FilledUpTo(suite, message, collected, i, results) && suite[i].id !in IdsOf(collected)
    ensures FilledUpTo(suite, message, collected, i + 1, results + [ErrorEntry(suite[i].id, message)])
  {
    hide Rank, Distinct, IsSuite;
    var entry := ErrorEntry(suite[i].id, message);
    RankAt(suite, i);
    NotYet(suite, message, collected, i, results);
    IdsPlus(results, entry);
    forall k | 0 <= k < i + 1 ensures suite[k].id in IdsOf(results + [entry]) {
      assert k < i ==> suite[k].id in IdsOf(results);
    }
  }

  lemma FilledMeans(suite: Suite, message: string, collected: seq<CaseResult>, results: seq<CaseResult>)
    requires FilledUpTo(suite, message, collected, |suite|, results)
    ensures collected <= results && Distinct(IdsOf(results))
    ensures forall i :: |collected| <= i < |results| ==>
      Missing(suite, message, results[i]) && results[i].caseId !in IdsOf(collected)
    ensures forall i :: 0 <= i < |suite| ==> suite[i].id in IdsOf(results)
  {
    hide Missing, Distinct;
  }

  /** Appending one error entry for every case without a result. */
  method FillIn(suite: Suite, collected: seq<CaseResult>, message: string) returns (results: seq<CaseResult>)
    requires Distinct(IdsOf(collected))
    ensures collected <= results && Distinct(IdsOf(results))
    ensures forall i :: |collected| <= i < |results| ==>
      Missing(suite, message, results[i]) && results[i].caseId !in IdsOf(collected)
    ensures forall i :: 0 <= i < |suite| ==> suite[i].id in IdsOf(results)
  {
    hide Missing, Distinct, Rank, IsSuite;
    var complete := set id | id in IdsOf(collected);
    results := collected;
    for i := 0 to |suite|
      invariant FilledUpTo(suite, message, collected, i, results)
    {
      if suite[i].id !in complete {
        FillOne(suite, message, collected, i, results);
        results := results + [ErrorEntry(suite[i].id, message)];
      } else {
        FillNone(suite, message, collected, i, results);
      }
    }
    FilledMeans(suite, message, collected, results);
  }

  /** Everything the report of a finished run promises, whatever other clients did meanwhile: it begins
      with the results of the last read, then comes an error for every case of the suite without one. */
  ghost predicate Faithful(log: Trace, n: nat, read: Option<int>, collected: seq<CaseResult>, suite: Suite,
                           report: RunReport) {
    && report.expected == |suite|
    && Collected(log, n, read, collected) && collected <= report.results
    && Distinct(IdsOf(report.results))
    && (forall i :: |collected| <= i < |report.results| ==>
          && Missing(suite, MessageOf(report.infrastructureError), report.results[i])
          && report.results[i].caseId !in IdsOf(collected))
    && (forall i :: 0 <= i < |suite| ==> suite[i].id in IdsOf(report.results))
    && (report.infrastructureError == None ==> read.Some? && |collected| == |suite|)
  }

  lemma ContinuedCount(log: Trace, marks: seq<nat>, polls: seq<Poll>, suite: Suite)
    requires AllContinued(log, marks, polls, suite)
    ensures 0 < |marks| <= |polls| + 1
  {
  }

  lemma CollectedInside(log: Trace, n: nat, read: Option<int>, results: seq<CaseResult>)
    requires Collected(log, n, read, results)
    ensures n <= |log|
  {
  }

  lemma CreatedStays(created: Trace, log: Trace, c: nat)
    requires created <= log && |created| == c + 1
    ensures log[c] == created[c] && ReplyOf(log, c) == ReplyOf(created, c)
  {
    hide ReplyOf;
    assert log[..c + 1] == created;
    ReplyPrefix(log, c + 1, c);
  }

  lemma ReportIsFaithful(log: Trace, n: nat, read: Option<int>, collected: seq<CaseResult>, suite: Suite,
                         report: RunReport)
    requires Collected(log, n, read, collected) && collected <= report.results && Distinct(IdsOf(report.results))
    requires forall i :: |collected| <= i < |report.results| ==>
      && Missing(suite, MessageOf(report.infrastructureError), report.results[i])
      && report.results[i].caseId !in IdsOf(collected)
    requires forall i :: 0 <= i < |suite| ==> suite[i].id in IdsOf(report.results)
    requires report.infrastructureError == None ==> read.Some? && |collected| == |suite|
    requires report.expected == |suite|
    ensures Faithful(log, n, read, collected, suite, report)
  {
    hide Collected, Missing, Distinct, IsSuite;
  }

  /** The calls after the collection: those of others, then the close if it was executed. */
  function Closing(before: Trace, closeAt: int, closeFault: Fault): Trace {
    before + if closeFault.Works? || closeFault.executed then [At(closeAt, Close)] else []
  }

  const NOT_CLOSED := "Redis unavailable while closing the run"

  /** Closing the run and writing the report of what was collected. */
  method CloseAndReport(queue: RunQueue, runId: string, suite: Suite, collected: seq<CaseResult>, error: Option<string>,
                        before: Trace, closeAt: int, closeFault: Fault, ghost n: nat, ghost read: Option<int>)
      returns (report: RunReport)
    requires queue.Valid() && Collected(queue.log, n, read, collected)
    requires error == None ==> read.Some? && |collected| == |suite|
    modifies queue
    ensures queue.Valid() && queue.log == old(queue.log) + Closing(before, closeAt, closeFault)
    ensures Faithful(queue.log, n, read, collected, suite, report)
    ensures report.runId == runId
    ensures report.infrastructureError == if closeFault.Fails? then Some(NOT_CLOSED) else error
  {
    hide Exec, Perform, ReplyOf, Collected, Recorded, Missing, RunQueue.Valid, RunQueue.State, Distinct, Faithful,
         IsSuite;
    queue.Others(before);
    if closeFault.Works? || closeFault.executed { var _ := queue.Do(closeAt, Close); }
    assert queue.log == old(queue.log) + Closing(before, closeAt, closeFault);
    CollectedLater(old(queue.log), queue.log, n, read, collected);
    var failure := if closeFault.Fails? then Some(NOT_CLOSED) else error;
    ReadIsRecorded(queue.log, n, read, collected);
    var results := FillIn(suite, collected, MessageOf(failure));
    report := RunReport(runId, |suite|, results, failure);
    ReportIsFaithful(queue.log, n, read, collected, suite, report);
  }

  /** What was there to read at the last read, if there was one, belongs to cases of the suite. */
  ghost predicate ReadsSuite(log: Trace, n: nat, read: Option<int>, suite: Suite)
    requires n <= |log|
  {
    read.Some? ==> forall id :: id in Seen(Exec(log[..n]), read.value).results.m ==> Rank(suite, id) > 0
  }

  /** The report has exactly one entry for every case of the suite, and no other. */
  ghost predicate OneEach(suite: Suite, report: RunReport) {
    |report.results| == |suite| && multiset(IdsOf(report.results)) == multiset(Ids(suite))
  }

  lemma {:induction false} DistinctCount(s: seq<string>, x: string)
    requires Distinct(s)
    ensures multiset(s)[x] == if x in s then 1 else 0
  {
    if s != [] {
      var init := s[..|s| - 1];
      assert s == init + [s[|s| - 1]];
      DistinctCount(init, x);
    }
  }

  lemma SameElements(a: seq<string>, b: seq<string>)
    requires Distinct(a) && Distinct(b) && forall x :: x in a <==> x in b
    ensures multiset(a) == multiset(b) && |a| == |b|
  {
    forall x: string ensures multiset(a)[x] == multiset(b)[x] {
      DistinctCount(a, x);
      DistinctCount(b, x);
    }
    assert |multiset(a)| == |a| && |multiset(b)| == |b|;
  }

  lemma SuiteIdsDistinct(suite: Suite)
    ensures Distinct(Ids(suite))
  {
  }

  lemma CollectedIds(log: Trace, n: nat, read: Option<int>, results: seq<CaseResult>, id: string)
    requires Collected(log, n, read, results)
    ensures id in IdsOf(results) <==> read.Some? && id in Seen(Exec(log[..n]), read.value).results.m
  {
    hide Exec, Seen;
    if id in IdsOf(results) {
      var i :| 0 <= i < |results| && IdsOf(results)[i] == id;
      assert results[i].caseId == id;
    }
  }

  lemma RankInIds(suite: Suite, id: string)
    ensures id in Ids(suite) <==> Rank(suite, id) > 0
  {
    if Rank(suite, id) > 0 { assert Ids(suite)[Rank(suite, id) - 1] == id; }
  }

  /** Which ids a report lists: those collected and those of the suite. */
  lemma ReportedIds(log: Trace, n: nat, read: Option<int>, collected: seq<CaseResult>, suite: Suite, report: RunReport,
                    id: string)
    requires Faithful(log, n, read, collected, suite, report)
    ensures id in IdsOf(report.results) <==> id in IdsOf(collected) || id in Ids(suite)
  {
    hide Collected, Distinct, IsSuite;
    IdsPrefix(collected, report.results);
    RankInIds(suite, id);
    if id in IdsOf(report.results) {
      var i :| 0 <= i < |report.results| && IdsOf(report.results)[i] == id;
      assert report.results[i].caseId == id;
      if i < |collected| { assert IdsOf(collected)[i] == id; }
    }
    if id in Ids(suite) {
      var i :| 0 <= i < |suite| && Ids(suite)[i] == id;
      assert suite[i].id == id;
    }
  }

  /** The exact condition, whatever fails during collection or close: the report has exactly one entry for every
      case of the suite and no other if and only if the last read found results of the suite's cases only. */
  lemma OneEachExactly(log: Trace, n: nat, read: Option<int>, collected: seq<CaseResult>, suite: Suite,
                       report: RunReport)
    requires Faithful(log, n, read, collected, suite, report)
    ensures n <= |log| && (OneEach(suite, report) <==> ReadsSuite(log, n, read, suite))
  {
    hide Exec, Seen, Distinct, IsSuite, Rank;
    CollectedInside(log, n, read, collected);
    SuiteIdsDistinct(suite);
    var got, all := IdsOf(report.results), Ids(suite);
    forall id
      ensures id in got <==> id in IdsOf(collected) || id in all
      ensures id in all <==> Rank(suite, id) > 0
      ensures id in IdsOf(collected) <==> read.Some? && id in Seen(Exec(log[..n]), read.value).results.m
    {
      ReportedIds(log, n, read, collected, suite, report, id);
      RankInIds(suite, id);
      CollectedIds(log, n, read, collected, id);
    }
    if ReadsSuite(log, n, read, suite) { SameElements(got, all); }
    if OneEach(suite, report) {
      forall id | id in got ensures id in all { assert id in multiset(got) && id in multiset(all); }
    }
  }

  lemma SameSize(a: seq<string>, b: seq<string>)
    requires Distinct(a) && Distinct(b) && |a| == |b| && forall x :: x in a ==> x in b
    ensures multiset(a) == multiset(b)
  {
    hide Distinct;
    forall x: string ensures multiset(a)[x] <= multiset(b)[x] {
      DistinctCount(a, x);
      DistinctCount(b, x);
    }
    assert multiset(a) <= multiset(b);
    assert |multiset(b) - multiset(a)| == 0;
  }

  /** The report has as many entries as cases exactly when it has one for each. */
  lemma SizeDecides(log: Trace, n: nat, read: Option<int>, collected: seq<CaseResult>, suite: Suite, report: RunReport)
    requires Faithful(log, n, read, collected, suite, report)
    ensures |report.results| == |suite| <==> OneEach(suite, report)
  {
    hide Exec, Seen, Collected, Missing, IsSuite;
    var got, all := IdsOf(report.results), Ids(suite);
    SuiteIdsDistinct(suite);
    forall id | id in all ensures id in got { ReportedIds(log, n, read, collected, suite, report, id); }
    if |report.results| == |suite| { SameSize(all, got); }
  }

  /** The exit code of a report by what was read: 2 when collection or close failed, when a result of a foreign case
      was read, or when some result is an error; otherwise 1 when some result is failed, and 0 when all are passed. */
  lemma ExitCodeExactly(log: Trace, n: nat, read: Option<int>, collected: seq<CaseResult>, suite: Suite,
                        report: RunReport)
    requires Faithful(log, n, read, collected, suite, report) && report.infrastructureError != Some("")
    ensures n <= |log|
    ensures var sound := report.infrastructureError == None && ReadsSuite(log, n, read, suite);
      var errors := exists i :: 0 <= i < |collected| && collected[i].status == Error;
      var failures := exists i :: 0 <= i < |collected| && collected[i].status == Status.Failed;
      && (report.ExitCode() == 2 <==> !sound || errors)
      && (report.ExitCode() == 1 <==> sound && !errors && failures)
      && (report.ExitCode() == 0 <==> sound && !errors && !failures)
  {
    hide Exec, Seen, Collected, Missing, IsSuite, OneEach;
    OneEachExactly(log, n, read, collected, suite, report);
    SizeDecides(log, n, read, collected, suite, report);
    if report.infrastructureError == None && |report.results| == |suite| { assert report.results == collected; }
  }

  /** distributed_run. No report means that the run could not be created or is still being collected. The
      collection ended when the log had length ended. */
  method DistributedRun(queue: RunQueue, runId: string, suite: Suite, timeout: real, retention: int, deliveries: int,
                        payloadBytes: nat, createAt: int, polls: seq<Poll>,
                        beforeClose: Trace, closeAt: int, closeFault: Fault)
      returns (report: Option<RunReport>, ghost c: nat, ghost n: nat, ghost read: Option<int>,
               ghost collected: seq<CaseResult>, ghost marks: seq<nat>, ghost ended: nat)
    requires queue.Valid()
    modifies queue
    ensures queue.Valid() && old(queue.log) <= queue.log
    ensures report.Some? ==> c < n <= ended && Faithful(queue.log, n, read, collected, suite, report.value)
    // this run was created by the logged call c, the first after those before
    ensures c == |old(queue.log)| < ended <= |queue.log|
    ensures queue.log[c] == At(createAt, Create(suite, timeout, retention, deliveries, payloadBytes))
    ensures report.Some? ==> ReplyOf(queue.log, c) == Created
    // at every turn but the last the results were short and the run open; without a report the run was
    // refused or that holds of all turns; with one, the results are all there or the last turn ended it
    ensures ReplyOf(queue.log, c) == Created ==> AllContinued(queue.log, marks, polls, suite)
    ensures report.None? <==> ReplyOf(queue.log, c) != Created || |marks| == |polls| + 1
    ensures report.Some? ==> LastRead(marks, polls, n, read)
    ensures report.Some? ==> |collected| == |suite| || Ends(queue.log, n, ended, polls[|marks| - 1])
    // after the collection the run was closed; the report has an error exactly when the close failed or
    // results are missing
    ensures queue.log[ended..] == if report.Some? then Closing(beforeClose, closeAt, closeFault) else []
    ensures report.Some? ==> report.value.runId == runId
    ensures report.Some? ==>
      var poll := polls[|marks| - 1];
      report.value.infrastructureError ==
        if closeFault.Fails? then Some("Redis unavailable while closing the run")
        else if |collected| == |suite| then None
        else if poll.resultsFail || (!poll.overdue && (poll.stateFails || poll.timeFails))
        then Some("Redis unavailable while collecting results")
        else Some("run deadline exceeded; expected results are missing")
    // the exit code is 2 then, and otherwise decided by the results read, unless they are of another run
    ensures report.Some? && (closeFault.Fails? || |collected| != |suite|) ==> report.value.ExitCode() == 2
    ensures report.Some? && closeFault.Works? && |collected| == |suite| ==>
      var errors := exists i :: 0 <= i < |collected| && collected[i].status == Error;
      var failures := exists i :: 0 <= i < |collected| && collected[i].status == Status.Failed;
      report.value.ExitCode() ==
        if !ReadsSuite(queue.log, n, read, suite) || errors then 2 else if failures then 1 else 0
  {
    hide Exec, Perform, ReplyOf, Seen, Collected, RunQueue.Valid, RunQueue.State, Faithful, IsSuite, Ends, AllContinued;
    report, n, read, collected, marks := None, 0, None, [], [];
    c := |queue.log|;
    var reply := queue.Do(createAt, Create(suite, timeout, retention, deliveries, payloadBytes));
    ghost var created := queue.log;
    ended := |created|;
    if reply != Created { return; }
    var collection;
    collection, n, read, marks := Collect(queue, suite, polls);
    ContinuedCount(queue.log, marks, polls, suite);
    ghost var collecting := queue.log;
    ended := |collecting|;
    CreatedStays(created, queue.log, c);
    if collection.Pending? { return; }
    collected := collection.results;
    CollectedInside(queue.log, n, read, collected);
    var written := CloseAndReport(queue, runId, suite, collection.results, collection.error,
                                  beforeClose, closeAt, closeFault, n, read);
    report := Some(written);
    ExitCodeExactly(queue.log, n, read, collected, suite, written);
    AllContinuedLater(collecting, queue.log, marks, polls, suite);
    if |collected| != |suite| { EndsLater(collecting, queue.log, n, ended, polls[|marks| - 1]); }
    CreatedStays(created, queue.log, c);
  }

  /** Each entry was recorded by the queue or stands for a missing result. */
  lemma EntriesRecorded(log: Trace, n: nat, read: Option<int>, collected: seq<CaseResult>, suite: Suite,
                        report: RunReport)
    requires Faithful(log, n, read, collected, suite, report)
    ensures forall i :: 0 <= i < |report.results| ==>
      || Recorded(log, n, report.results[i])
      || Missing(suite, MessageOf(report.infrastructureError), report.results[i])
  {
    hide Recorded, Missing, Distinct, IsSuite, Collected;
    ReadIsRecorded(log, n, read, collected);
    forall i | 0 <= i < |report.results|
      ensures Recorded(log, n, report.results[i])
              || Missing(suite, MessageOf(report.infrastructureError), report.results[i])
    {
      if i < |collected| { assert report.results[i] == collected[i]; }
    }
  }

  /** A missing entry is only reported for a case whose result was not there to read. */
  lemma MissingMeansUnread(log: Trace, n: nat, read: int, collected: seq<CaseResult>, suite: Suite,
                           report: RunReport, i: nat)
    requires Faithful(log, n, Some(read), collected, suite, report)
    requires |collected| <= i < |report.results|
    ensures report.results[i].caseId !in Seen(Exec(log[..n]), read).results.m
  {
    hide Exec, Seen, Missing, Distinct, IsSuite;
  }

  /** Fail closed: exit code 0 means that for every case of the suite some completion was accepted with a
      passed result, and that this result is the entry of the case. */
  lemma ExitZeroMeansAllAccepted(log: Trace, n: nat, read: Option<int>, collected: seq<CaseResult>, suite: Suite,
                                 report: RunReport, from: nat, k: nat) returns (i: nat, j: nat)
    requires Faithful(log, n, read, collected, suite, report) && report.ExitCode() == 0 && k < |suite|
    requires from <= n && suite[k].id !in Exec(log[..from]).results.m
    ensures report.infrastructureError == None || report.infrastructureError == Some("")
    ensures i < |report.results| && report.results[i].caseId == suite[k].id && report.results[i].status == Passed
    ensures from <= j < n <= |log| && log[j].call.Complete? && log[j].call.id == suite[k].id
    ensures ReplyOf(log, j) == Accepted && log[j].call.result == report.results[i]
  {
    hide Exec, Perform, ReplyOf, Distinct, IsSuite, Seen, ReadBack;
    assert suite[k].id in IdsOf(report.results);
    i :| 0 <= i < |report.results| && report.results[i].caseId == suite[k].id;
    EntriesRecorded(log, n, read, collected, suite, report);
    assert report.results[i].status == Passed;
    assert log[..n][..from] == log[..from];
    j := ResultSource(log[..n], from, suite[k].id);
    ReplyPrefix(log, n, j);
  }

  /** The c-th call created a run of the suite, and up to n calls no other creation succeeded. */
  ghost predicate OneRun(log: Trace, c: nat, n: nat, suite: Suite) {
    && c < n <= |log| && log[c].call.Create? && log[c].call.suite == suite && ReplyOf(log, c) == Created
    && forall k :: c < k < n ==> ReplyOf(log, k) != Created
  }

  /** What the keys hold in the meantime is this run, or nothing. */
  lemma OneRunAt(log: Trace, c: nat, n: nat, suite: Suite, g: nat)
    requires OneRun(log, c, n, suite) && c < g <= n
    ensures Inv(Exec(log[..g])) && (Exec(log[..g]).meta.Meta? ==> Exec(log[..g]).meta.suite == suite)
  {
    hide Exec, Perform, ReplyOf;
    CreatedPlan(log, c);
    PlanOrGone(log, c + 1, g);
    InvAlways(log[..g]);
  }

  lemma OwnResults(db: Db, suite: Suite, read: Option<int>)
    requires Inv(db) && (db.meta.Meta? ==> db.meta.suite == suite)
    ensures read.Some? ==> forall id :: id in Seen(db, read.value).results.m ==> Rank(suite, id) > 0
  {
    if read.Some? {
      SeenAllOrNothing(db, read.value);
      forall id | id in Seen(db, read.value).results.m ensures Rank(suite, id) > 0 { assert CaseOk(db, id); }
    }
  }

  /** Even when the run is deleted or expires meanwhile: as long as its id is not used for another run before
      the last read, the report has exactly one entry for every case of the suite and no other. */
  lemma ExactlyOneEach(log: Trace, c: nat, n: nat, read: Option<int>, collected: seq<CaseResult>, suite: Suite,
                       report: RunReport)
    requires Faithful(log, n, read, collected, suite, report) && OneRun(log, c, n, suite)
    ensures OneEach(suite, report)
  {
    hide Exec, Perform, ReplyOf, Faithful, OneEach;
    OneRunAt(log, c, n, suite, n);
    OwnResults(Exec(log[..n]), suite, read);
    OneEachExactly(log, n, read, collected, suite, report);
  }

  lemma AcceptedKeepsPlan(log: Trace, j: nat)
    requires j < |log| && log[j].call.Complete? && ReplyOf(log, j) == Accepted
    ensures Found(log, j).meta.Meta?
    ensures SamePlan(Found(log, j).meta, Exec(log[..j + 1]).meta)
  {
    hide Exec, Perform, Seen;
    AcceptedWrites(log, j);
    InvAlways(log[..j]);
    var _, _, _ := CallAdvances(Exec(log[..j]), log[j].now, log[j].call);
    ExecNext(log, j);
  }

  function ExpiryOf(db: Db): int { if db.meta.Meta? then db.meta.expires else 0 }

  /** A result accepted before the last read is the one reported, as long as the run is neither deleted nor
      expired by then. */
  lemma AcceptedIsReported(log: Trace, n: nat, at: int, collected: seq<CaseResult>, suite: Suite, report: RunReport,
                           j: nat)
      returns (i: nat)
    requires Faithful(log, n, Some(at), collected, suite, report)
    requires j < n <= |log| && log[j].call.Complete? && ReplyOf(log, j) == Accepted
    requires Lasts(log, j + 1, n, ExpiryOf(Found(log, j))) && at <= ExpiryOf(Found(log, j))
    ensures i < |collected| <= |report.results| && report.results[i] == collected[i] == log[j].call.result
  {
    hide Exec, Perform, Missing, Distinct, IsSuite, ReplyOf, Seen;
    var id := log[j].call.id;
    AcceptedWrites(log, j);
    AcceptedKeepsPlan(log, j);
    ResultsArePermanent(log, j + 1, n, id);
    InvAlways(log[..n]);
    SeenAllOrNothing(Exec(log[..n]), at);
    assert id in IdsOf(collected);
    i :| 0 <= i < |collected| && IdsOf(collected)[i] == id;
  }
}
