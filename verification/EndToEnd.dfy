/** From the report back to the requests: what exit code 0 of a distributed run says about the target API. */
module EndToEnd {
  import opened Redis
  import opened Models
  import opened Queue
  import opened Refinement
  import opened Steps
  import opened Runs
  import opened Refusal
  import opened Workers
  import opened Coordinator
  import X = Executor

  /** A case leased now and not leased after the first from calls was handed out since. */
  lemma {:induction false} LeaseSince(t: Trace, from: nat, id: string)
    requires from <= |t| && id in Exec(t).leases.m && id !in Exec(t[..from]).leases.m
    ensures from <= LastGrant(t, id)
    decreases |t|
  {
    hide Perform;
    assert t[..|t|] == t;
    var n := |t| - 1;
    InvAlways(t[..n]);
    LeaseOriginOnce(Exec(t[..n]), t[n].now, t[n].call, id);
    if !Hands(t, n, id) {
      assert t[..n][..from] == t[..from];
      LeaseSince(t[..n], from, id);
    }
  }

  /** Right after its creation a run has neither leases nor results. */
  lemma CreatedEmpty(log: Trace, c: nat)
    requires c < |log| && log[c].call.Create? && ReplyOf(log, c) == Created
    ensures Exec(log[..c + 1]).leases.m == map[] && Exec(log[..c + 1]).results.m == map[]
  {
    InvAlways(log[..c]);
    ExecNext(log, c);
    if Seen(Exec(log[..c]), log[c].now).meta.Meta? {
      var _, _, _ := CallAdvances(Exec(log[..c]), log[c].now, log[c].call);
    } else {
      var _, _ := CallOnNothing(Exec(log[..c]), log[c].now, log[c].call);
    }
  }

  lemma GrantNeedsRun(log: Trace, g: nat)
    requires g < |log| && ReplyOf(log, g).Granted?
    ensures Seen(Exec(log[..g]), log[g].now) == Exec(log[..g]) && Exec(log[..g]).meta.Meta? && !log[g].call.Delete?
  {
    hide Exec, Perform;
    InvAlways(log[..g]);
    SeenAllOrNothing(Exec(log[..g]), log[g].now);
    if Seen(Exec(log[..g]), log[g].now).meta.NoMeta? || log[g].call.Delete? {
      var _, _ := CallOnNothing(Exec(log[..g]), log[g].now, log[g].call);
    }
  }

  lemma HandedIsOfSuite(suite: Suite, token: string, until: int, after: Db, testCase: Case, delivery: int, k: nat)
    requires Handed(suite, token, until, after, testCase, delivery) && k < |suite| && testCase.id == suite[k].id
    ensures testCase == suite[k]
  {
  }

  /** A hand-out of a run hands out the case of its suite. */
  lemma HandsOutSuiteCase(log: Trace, c: nat, n: nat, suite: Suite, g: nat, k: nat)
    requires OneRun(log, c, n, suite) && c < g < n && k < |suite| && Hands(log, g, suite[k].id)
    ensures ReplyOf(log, g).testCase == suite[k]
  {
    hide Exec, Perform, Good, Expiry, IsSuite, Seen;
    OneRunAt(log, c, n, suite, g);
    GrantNeedsRun(log, g);
    var _, after, reply := CallAdvances(Exec(log[..g]), log[g].now, log[g].call);
    HandedIsOfSuite(suite, log[g].call.token, log[g].now + log[g].call.leaseMs, after,
                    reply.testCase, reply.delivery, k);
  }

  lemma HandsPrefix(log: Trace, n: nat, g: nat, id: string)
    requires g < n <= |log|
    ensures Hands(log[..n], g, id) == Hands(log, g, id)
  {
    hide ReplyOf;
    ReplyPrefix(log, n, g);
  }

  lemma GrantedInRun(log: Trace, c: nat, n: nat, suite: Suite, j: nat, id: string, last: nat)
    requires OneRun(log, c, n, suite) && c < j < n <= |log| && last < j
    requires log[j].call.Complete? && log[j].call.id == id && ReplyOf(log, j) == Accepted
    requires forall k :: last < k < j ==> !Hands(log, k, id)
    ensures c < last
  {
    hide Exec, Perform, ReplyOf, Seen, Hands;
    CreatedEmpty(log, c);
    AcceptedWrites(log, j);
    assert log[..j][..c + 1] == log[..c + 1];
    LeaseSince(log[..j], c + 1, id);
    LastGrantIsLast(log[..j], id);
    HandsPrefix(log, j, LastGrant(log[..j], id), id);
  }

  /** An accepted genuine completion of a run offers what executing the case of its suite gave. */
  lemma AcceptedWasExecuted(log: Trace, c: nat, n: nat, suite: Suite, j: nat, k: nat, e: X.Execution)
    requires OneRun(log, c, n, suite) && FreshTokens(log) && c < j < n <= |log| && k < |suite|
    requires Genuine(log, j, e) && log[j].call.id == suite[k].id && ReplyOf(log, j) == Accepted
    ensures X.Executes(suite[k], e, log[j].call.result)
  {
    hide Exec, Perform, X.Executes, IsSuite, OneRun, ReplyOf, Seen;
    var id := suite[k].id;
    var g :| ComesFrom(log, j, g, e);
    var last := AcceptedIsFenced(log, j);
    assert g == last;
    GrantedInRun(log, c, n, suite, j, id, last);
    HandsOutSuiteCase(log, c, n, suite, g, k);
  }

  /** The executions on record behind the completions of a log, as workers keep them. */
  ghost predicate OnRecord(log: Trace, from: nat, n: nat, executions: map<nat, X.Execution>) {
    forall j :: from <= j < n && j < |log| && log[j].call.Complete?
      ==> j in executions && Genuine(log, j, executions[j])
  }

  /** What a worker keeps: a genuine execution behind each of its completions. */
  ghost predicate Kept(log: Trace, executions: map<nat, X.Execution>) {
    forall i :: i in executions ==> Genuine(log, i, executions[i])
  }

  lemma WorkerKeeps(worker: Worker)
    requires worker.Valid()
    ensures Kept(worker.queue.log, worker.executions)
  {
    hide Genuine;
  }

  lemma KeptLater(log: Trace, after: Trace, executions: map<nat, X.Execution>)
    requires log <= after && Kept(log, executions)
    ensures Kept(after, executions)
  {
    hide Genuine;
    assert after == log + after[|log|..];
    forall i | i in executions ensures Genuine(after, i, executions[i]) {
      GenuineLater(log, after[|log|..], i, executions[i]);
    }
  }

  /** The records of several workers together. */
  function Together(records: seq<map<nat, X.Execution>>): map<nat, X.Execution> {
    if records == [] then map[] else records[0] + Together(records[1..])
  }

  lemma {:induction false} TogetherKept(log: Trace, records: seq<map<nat, X.Execution>>)
    requires forall k :: 0 <= k < |records| ==> Kept(log, records[k])
    ensures Kept(log, Together(records))
    ensures forall k, i :: 0 <= k < |records| && i in records[k] ==> i in Together(records)
  {
    hide Genuine;
    if records != [] {
      var rest := records[1..];
      assert forall k :: 0 <= k < |rest| ==> rest[k] == records[k + 1];
      TogetherKept(log, rest);
      forall k, i | 0 <= k < |records| && i in records[k] ensures i in Together(records) {
        if k > 0 { assert rest[k - 1] == records[k]; }
      }
    }
  }

  /** When every completion of a run was sent by one of some workers, what these workers keep, each by the end of
      its own part of the log, together puts all completions on record. */
  lemma AllOnRecord(log: Trace, from: nat, n: nat, logs: seq<Trace>, records: seq<map<nat, X.Execution>>)
    requires |logs| == |records| && forall k :: 0 <= k < |logs| ==> logs[k] <= log && Kept(logs[k], records[k])
    requires forall j :: from <= j < n && j < |log| && log[j].call.Complete? ==>
      exists k :: 0 <= k < |records| && j in records[k]
    ensures OnRecord(log, from, n, Together(records))
  {
    hide Genuine;
    forall k | 0 <= k < |records| ensures Kept(log, records[k]) { KeptLater(logs[k], log, records[k]); }
    TogetherKept(log, records);
    forall j | from <= j < n && j < |log| && log[j].call.Complete?
      ensures j in Together(records) && Genuine(log, j, Together(records)[j])
    {
      var k :| 0 <= k < |records| && j in records[k];
    }
  }

  /** Every step of the case was carried out in this execution, in order, and passed on an answer of its own. */
  ghost predicate Complied(testCase: Case, e: X.Execution, steps: seq<StepResult>) {
    && |steps| == |testCase.setup| + |testCase.steps| + |testCase.teardown| == |e.spans|
    && (forall s :: 0 <= s < |steps| ==> steps[s].status == Passed && X.GotAnswer(e, s, steps[s]))
    && (forall s, t :: 0 <= s < t < |steps| ==> e.spans[s].last < e.spans[t].tick && e.spans[s].to <= e.spans[t].from)
  }

  lemma PassedComplied(testCase: Case, e: X.Execution, result: CaseResult)
    requires X.Executes(testCase, e, result) && result.status == Passed
    ensures Complied(testCase, e, result.steps)
  {
    hide X.Ran, X.Worst, X.Steady, X.Obeys, X.GotAnswer;
    X.PassedMeansAllRan(testCase, e, result.status, result.steps);
    X.RanCounts(testCase, e, result.steps);
    forall s | 0 <= s < |result.steps| ensures X.GotAnswer(e, s, result.steps[s]) {
      X.PassedStepAnswered(testCase, e, result.steps, s);
    }
    forall s, t | 0 <= s < t < |result.steps|
      ensures e.spans[s].last < e.spans[t].tick && e.spans[s].to <= e.spans[t].from
    {
      X.StepsInOrder(testCase, e, result.steps, s, t);
    }
  }

  /** Exit code 0 of a run whose completions all come from workers means: for every case of the suite the
      report holds the outcome of the recorded execution behind an accepted completion, an execution of exactly
      that case under the readings recorded with it, in which every setup, test and teardown step was carried
      out, in order, sent its requests under the lease, the deadline and the size cap, and got a whole
      response that met the contract. */
  lemma ExitZeroMeansEverythingPassed(log: Trace, executions: map<nat, X.Execution>, c: nat, n: nat, read: Option<int>,
                                      collected: seq<CaseResult>, suite: Suite, report: RunReport, k: nat)
      returns (i: nat, j: nat)
    requires Faithful(log, n, read, collected, suite, report) && report.ExitCode() == 0 && k < |suite|
    requires OneRun(log, c, n, suite) && FreshTokens(log) && OnRecord(log, c + 1, n, executions)
    ensures i < |report.results| && report.results[i].caseId == suite[k].id
    ensures c < j < n <= |log| && ReplyOf(log, j) == Accepted && j in executions
    ensures log[j].call.Complete? && log[j].call.result == report.results[i]
    ensures X.Executes(suite[k], executions[j], report.results[i])
    ensures Complied(suite[k], executions[j], report.results[i].steps)
  {
    hide Exec, Perform, ReplyOf, Faithful, IsSuite, Genuine, X.Executes, Complied;
    CreatedEmpty(log, c);
    i, j := ExitZeroMeansAllAccepted(log, n, read, collected, suite, report, c + 1, k);
    AcceptedWasExecuted(log, c, n, suite, j, k, executions[j]);
    PassedComplied(suite[k], executions[j], report.results[i]);
  }
}
