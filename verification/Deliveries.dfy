/** The identity of a delivery, from the claim that opens it to the result that ends it. */
module Deliveries {
  import opened Redis
  import opened Models
  import opened Queue
  import opened Refinement
  import opened Steps
  import opened Runs
  import opened Refusal
  import opened Text
  import L = Lifecycle

  // Delivery numbers

  lemma {:induction false} ReclaimKeepsAttempts(db: Db, ids: seq<string>)
    ensures Reclaim(db, ids).attempts == db.attempts
    decreases |ids|
  {
    if ids != [] { ReclaimKeepsAttempts(ReclaimOne(db, ids[0]), ids[1..]); }
  }

  lemma {:induction false} PopLoopCounts(db: Db, now: int, token: string, leaseMs: int, rounds: nat)
    requires db.meta.Meta? && (forall x :: x in db.tasks.m ==> db.tasks.m[x].id == x)
    requires db.meta.expires > now
    ensures var (after, reply) := PopLoop(db, now, token, leaseMs, rounds);
            && (forall x :: Attempts(after, x) >= Attempts(db, x))
            && (reply.Granted? ==> reply.delivery > Attempts(db, reply.testCase.id))
    decreases rounds
  {
    if rounds > 0 && db.ready.m != map[] {
      var id := First(db.ready.m);
      var next := ExhaustOne(db, id);
      if Attempts(db, id) + 1 > db.meta.deliveries {
        assert forall x :: Attempts(next, x) >= Attempts(db, x);
        PopLoopCounts(next, now, token, leaseMs, rounds - 1);
      }
    }
  }

  lemma {:induction false} ReclaimKeepsTasks(db: Db, ids: seq<string>)
    ensures Reclaim(db, ids).tasks == db.tasks
    decreases |ids|
  {
    if ids != [] { ReclaimKeepsTasks(ReclaimOne(db, ids[0]), ids[1..]); }
  }

  lemma ClaimCounts(db: Db, now: int, token: string, leaseMs: int)
    requires Good(db) && Active(db, now)
    ensures var (after, reply) := ClaimScript(db, now, token, leaseMs);
            && (forall x :: Attempts(after, x) >= Attempts(db, x))
            && (reply.Granted? ==> reply.delivery > Attempts(db, reply.testCase.id))
  {
    var due := Due(db.leases.m, now, BATCH);
    ReclaimKeepsAttempts(db, due);
    ReclaimKeepsMeta(db, due);
    ReclaimKeepsTasks(db, due);
    forall x | x in db.tasks.m ensures db.tasks.m[x].id == x { assert CaseOk(db, x); }
    PopLoopCounts(Reclaim(db, due), now, token, leaseMs, BATCH);
  }

  lemma IdleClaim(db: Db, now: int, token: string, leaseMs: int)
    requires !Active(db, now)
    ensures ClaimScript(db, now, token, leaseMs) == (db, NoJob)
  {
  }

  /** Attempt counters never go down during a run, and a hand-out carries a number above the counter. */
  lemma AttemptsGrow(db: Db, now: int, call: Call)
    requires Inv(db) && Perform(db, now, call).1 != Created
    ensures var (after, reply) := Perform(db, now, call);
            && (after.meta.NoMeta? || (db.meta.Meta? && forall x :: Attempts(after, x) >= Attempts(db, x)))
            && (reply.Granted? ==> db.meta.Meta? && reply.delivery > Attempts(db, reply.testCase.id))
  {
    SeenAllOrNothing(db, now);
    hide Good, Expiry, ClaimScript, Seen;
    if call.Claim? {
      if Active(Seen(db, now), now) {
        ClaimCounts(Seen(db, now), now, call.token, call.leaseMs);
      } else {
        IdleClaim(Seen(db, now), now, call.token, call.leaseMs);
      }
    }
  }

  lemma {:induction false} AttemptsAlong(t: Trace, i: nat, j: nat, id: string)
    requires i <= j <= |t| && forall k :: i <= k < j ==> ReplyOf(t, k) != Created
    ensures Exec(t[..j]).meta.NoMeta? || Attempts(Exec(t[..j]), id) >= Attempts(Exec(t[..i]), id)
    decreases j - i
  {
    hide Perform, Exec, Inv;
    if i < j {
      AttemptsAlong(t, i, j - 1, id);
      InvAlways(t[..j - 1]);
      ExecNext(t, j - 1);
      AttemptsGrow(Exec(t[..j - 1]), t[j - 1].now, t[j - 1].call);
    }
  }

  lemma GrantCounts(db: Db, now: int, call: Call)
    requires Inv(db) && Perform(db, now, call).1.Granted?
    ensures Attempts(Perform(db, now, call).0, Perform(db, now, call).1.testCase.id)
              == Perform(db, now, call).1.delivery
  {
    CallKeepsInv(db, now, call);
    LeaseAfterGrant(db, now, call);
    hide Perform;
    assert CaseOk(Perform(db, now, call).0, Perform(db, now, call).1.testCase.id);
  }

  /** No two hand-outs of one run share case and delivery: the later has the larger number. */
  lemma DeliveriesDiffer(t: Trace, i: nat, j: nat, id: string)
    requires i < j < |t| && Hands(t, i, id) && Hands(t, j, id)
    requires forall k :: i < k < j ==> ReplyOf(t, k) != Created
    ensures ReplyOf(t, i).delivery < ReplyOf(t, j).delivery
  {
    hide Perform, Exec, Inv;
    InvAlways(t[..i]);
    ExecNext(t, i);
    LeaseAfterGrant(Exec(t[..i]), t[i].now, t[i].call);
    GrantCounts(Exec(t[..i]), t[i].now, t[i].call);
    AttemptsAlong(t, i + 1, j, id);
    InvAlways(t[..j]);
    AttemptsGrow(Exec(t[..j]), t[j].now, t[j].call);
  }

  // Results

  /** The completion reports the delivery of an earlier hand-out of its case to its token. */
  ghost predicate Honest(t: Trace, i: nat)
    requires i < |t|
  {
    t[i].call.Complete? ==>
      exists j :: 0 <= j < i && Hands(t, j, t[i].call.id) && t[j].call.token == t[i].call.token
        && t[i].call.result.delivery == ReplyOf(t, j).delivery
  }

  /** An accepted result of an honest client carries the attempt counter of its case. */
  lemma AcceptedCarriesCounter(t: Trace, i: nat)
    requires i < |t| && FreshTokens(t) && Honest(t, i)
    requires t[i].call.Complete? && ReplyOf(t, i) == Accepted
    ensures t[i].call.result.delivery == Attempts(Found(t, i), t[i].call.id)
    ensures 1 <= t[i].call.result.delivery
  {
    hide Perform, Exec, Seen;
    var j := AcceptedIsFenced(t, i);
    var k :| 0 <= k < i && Hands(t, k, t[i].call.id) && t[k].call.token == t[i].call.token
        && t[i].call.result.delivery == ReplyOf(t, k).delivery;
    assert k == j;
    InvAlways(t[..j]);
    LeaseAfterGrant(Exec(t[..j]), t[j].now, t[j].call);
  }

  /** The result that the queue itself records for a case it gives up: an error that names all deliveries. */
  ghost predicate GaveUp(db: Db, id: string) {
    && db.meta.Meta? && id in db.results.m
    && db.results.m[id]
         == CaseResult(id, Error, "queue", db.meta.deliveries, [], Some("worker delivery limit exhausted"))
  }

  /** A result that one call adds is the queue's own or the one an accepted completion offered. */
  lemma NewResult(db: Db, now: int, call: Call, id: string)
    requires Inv(db) && Seen(db, now).meta.Meta? && !call.Delete? && id !in db.results.m
    requires id in Perform(db, now, call).0.results.m
    ensures var (after, reply) := Perform(db, now, call);
            || GaveUp(after, id)
            || (call.Complete? && call.id == id && call.result == after.results.m[id] && reply == Accepted)
  {
    hide Seen, Expiry, Handed, Perform;
    var arrows, after, reply := CallAdvances(db, now, call);
    assert CaseOk(after, id) && CaseOk(db, id);
    var i := L.FinishSource(Abs(db), db.meta.deliveries, now, arrows, Abs(after), id);
    assert Abs(after)[id].result == after.results.m[id] && after.meta.deliveries == db.meta.deliveries;
    if arrows[i].Exhaust? { assert GaveUp(after, id); }
  }

  lemma ResultSourceOnce(db: Db, now: int, call: Call, id: string)
    requires Inv(db)
    ensures var (after, reply) := Perform(db, now, call);
            id in after.results.m ==>
              || GaveUp(after, id)
              || (id in db.results.m && db.results.m[id] == after.results.m[id] && SamePlan(db.meta, after.meta))
              || (call.Complete? && call.id == id && call.result == after.results.m[id] && reply == Accepted)
  {
    SeenAllOrNothing(db, now);
    hide Perform, Good, Expiry;
    if Seen(db, now).meta.NoMeta? || call.Delete? {
      var _, _ := CallOnNothing(db, now, call);
    } else if id in db.results.m {
      ResultStaysOnce(db, now, call, id);
    } else if id in Perform(db, now, call).0.results.m {
      NewResult(db, now, call, id);
    }
  }

  /** Every result in the queue is the one some accepted completion offered, after the last moment from at
      which the case had no result, unless it is the error of a case given up. */
  lemma {:induction false} ResultSource(t: Trace, from: nat, id: string) returns (i: nat)
    requires from <= |t| && id !in Exec(t[..from]).results.m
    requires id in Exec(t).results.m && !GaveUp(Exec(t), id)
    ensures from <= i < |t| && t[i].call.Complete? && t[i].call.id == id && ReplyOf(t, i) == Accepted
    ensures t[i].call.result == Exec(t).results.m[id]
    decreases |t|
  {
    hide Perform, Inv;
    assert t[..|t|] == t;
    var n := |t| - 1;
    InvAlways(t[..n]);
    ResultSourceOnce(Exec(t[..n]), t[n].now, t[n].call, id);
    if t[n].call.Complete? && t[n].call.id == id && t[n].call.result == Exec(t).results.m[id]
      && ReplyOf(t, n) == Accepted {
      i := n;
    } else {
      assert t[..n][..from] == t[..from];
      i := ResultSource(t[..n], from, id);
      ReplyPrefix(t, n, i);
    }
  }

  // Namespaces

  /** The text whose digest names the fixtures of a delivery. */
  function Preimage(runId: string, caseId: string, delivery: nat): string {
    runId + ":" + caseId + ":" + Decimal(delivery)
  }

  lemma NoColon(s: string)
    requires IsId(s)
    ensures ':' !in s
  {
  }

  lemma DecimalNoColon(n: nat)
    ensures ':' !in Decimal(n)
  {
  }

  lemma PreimageParts(runId: string, caseId: string, delivery: nat)
    requires IsId(runId) && IsId(caseId)
    ensures Split(Preimage(runId, caseId, delivery), ':') == [runId, caseId, Decimal(delivery)]
  {
    NoColon(runId);
    NoColon(caseId);
    DecimalNoColon(delivery);
    SplitAfter(runId, ':', caseId + ":" + Decimal(delivery));
    SplitAfter(caseId, ':', Decimal(delivery));
    SplitPlain(Decimal(delivery), ':');
    assert Preimage(runId, caseId, delivery) == runId + ":" + (caseId + ":" + Decimal(delivery));
  }

  /** Different deliveries, cases or runs never share a namespace preimage. */
  lemma PreimageInjective(run1: string, case1: string, n1: nat, run2: string, case2: string, n2: nat)
    requires IsId(run1) && IsId(case1) && IsId(run2) && IsId(case2)
    requires Preimage(run1, case1, n1) == Preimage(run2, case2, n2)
    ensures run1 == run2 && case1 == case2 && n1 == n2
  {
    PreimageParts(run1, case1, n1);
    PreimageParts(run2, case2, n2);
    DecimalInjective(n1, n2);
  }
}
