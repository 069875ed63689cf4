/** Whole runs: any interleaving of client calls by any number of clients, with any clock readings. */
module Runs {
  import opened Redis
  import opened Models
  import opened Queue
  import opened Refinement
  import opened Steps
  import L = Lifecycle

  datatype Event = At(now: int, call: Call)

  type Trace = seq<Event>

  /** The keys after the calls of a trace, starting from none. */
  function Exec(t: Trace): Db {
    if t == [] then EMPTY
    else Perform(Exec(t[..|t| - 1]), t[|t| - 1].now, t[|t| - 1].call).0
  }

  /** The keys that the i-th call of a trace finds. */
  function Found(t: Trace, i: nat): Db
    requires i < |t|
  {
    Seen(Exec(t[..i]), t[i].now)
  }

  function ReplyOf(t: Trace, i: nat): Reply
    requires i < |t|
  {
    Perform(Exec(t[..i]), t[i].now, t[i].call).1
  }

  lemma {:induction false} InvAlways(t: Trace)
    ensures Inv(Exec(t))
  {
    if t != [] {
      InvAlways(t[..|t| - 1]);
      CallKeepsInv(Exec(t[..|t| - 1]), t[|t| - 1].now, t[|t| - 1].call);
    }
  }

  lemma ExecNext(t: Trace, i: nat)
    requires i < |t|
    ensures (Exec(t[..i + 1]), ReplyOf(t, i)) == Perform(Exec(t[..i]), t[i].now, t[i].call)
  {
    assert t[..i + 1][..i] == t[..i];
  }

  lemma ReplyPrefix(t: Trace, n: nat, i: nat)
    requires i < n <= |t|
    ensures ReplyOf(t[..n], i) == ReplyOf(t, i) && Found(t[..n], i) == Found(t, i)
  {
    assert t[..n][..i] == t[..i];
  }

  // Key lifetime

  /** After any calls: without meta no key exists; with it every existing key carries the one expiry. */
  lemma KeysExpireTogether(t: Trace)
    ensures Exec(t).meta.NoMeta? ==> Exec(t) == EMPTY
    ensures Exec(t).meta.Meta? ==> Expiry(Exec(t))
  {
    InvAlways(t);
  }

  /** A creation succeeds exactly when its settings are positive, every case may be replayed, the payload is at
      most 10 MB and no key of the run exists, although CREATE only looks at meta. Otherwise it changes nothing:
      it is invalid unless the settings are fine, and then the run exists. */
  lemma CreateStartsClean(t: Trace, i: nat)
    requires i < |t| && t[i].call.Create?
    ensures var c, reply, found := t[i].call, ReplyOf(t, i), Found(t, i);
      var fine := c.timeout > 0.0 && c.retention >= 1 && c.deliveries >= 1 && c.payloadBytes <= 10_000_000
                  && forall k :: 0 <= k < |c.suite| ==> c.suite[k].replaySafe;
      && (reply == Created <==> fine && found.meta.NoMeta?)
      && (reply == Created <==> fine && found == EMPTY)
      && (reply == Invalid <==> !fine) && (reply == RunExists <==> fine && found.meta.Meta?)
      && (reply != Created ==> Exec(t[..i + 1]) == found)
  {
    InvAlways(t[..i]);
    SeenAllOrNothing(Exec(t[..i]), t[i].now);
    ExecNext(t, i);
  }

  /** Whole milliseconds, rounded down. */
  lemma MillisecondsMean(seconds: real)
    requires seconds >= 0.0
    ensures Milliseconds(seconds) as real <= 1000.0 * seconds < Milliseconds(seconds) as real + 1.0
  {
  }

  /** What a successful creation fixes: the run is open until its timeout, in whole milliseconds rounded down,
      and stays until the retention is over, counted from there in seconds. */
  lemma CreatedPlan(t: Trace, i: nat)
    requires i < |t| && t[i].call.Create? && ReplyOf(t, i) == Created
    ensures var c, meta := t[i].call, Exec(t[..i + 1]).meta;
      && meta.Meta? && meta.suite == c.suite && meta.open && meta.deliveries == c.deliveries && meta.total == |c.suite|
      && (meta.deadline - t[i].now) as real <= 1000.0 * c.timeout < (meta.deadline - t[i].now) as real + 1.0
      && meta.expires == meta.deadline + 1000 * c.retention
  {
    hide Exec;
    CreateStartsClean(t, i);
    InvAlways(t[..i]);
    ExecNext(t, i);
    var _, _ := CallOnNothing(Exec(t[..i]), t[i].now, t[i].call);
    MillisecondsMean(t[i].call.timeout);
  }

  /** All cases of an existing run may be replayed. */
  ghost predicate ReplaySafe(db: Db) {
    db.meta.Meta? ==> forall k :: 0 <= k < |db.meta.suite| ==> db.meta.suite[k].replaySafe
  }

  lemma CreatedIsCreate(t: Trace, i: nat)
    requires i < |t| && ReplyOf(t, i) == Created
    ensures t[i].call.Create?
  {
    hide Exec;
    InvAlways(t[..i]);
    if Seen(Exec(t[..i]), t[i].now).meta.NoMeta? || t[i].call.Delete? {
      var _, _ := CallOnNothing(Exec(t[..i]), t[i].now, t[i].call);
    } else {
      var _, _, _ := CallAdvances(Exec(t[..i]), t[i].now, t[i].call);
    }
  }

  lemma PlanOrGoneOnce(db: Db, now: int, call: Call)
    requires Inv(db) && Perform(db, now, call).1 != Created
    ensures var after := Perform(db, now, call).0;
            after == EMPTY || (db.meta.Meta? && SamePlan(db.meta, after.meta))
  {
    hide Perform, Inv;
    if Seen(db, now).meta.NoMeta? || call.Delete? {
      var _, _ := CallOnNothing(db, now, call);
    } else {
      var _, _, _ := CallAdvances(db, now, call);
    }
  }

  lemma {:induction false} ReplaySafeAlways(t: Trace)
    ensures ReplaySafe(Exec(t))
  {
    hide Perform, Inv;
    if t != [] {
      var n := |t| - 1;
      ReplaySafeAlways(t[..n]);
      InvAlways(t[..n]);
      assert t[..n + 1] == t;
      ExecNext(t, n);
      if ReplyOf(t, n) == Created {
        CreatedIsCreate(t, n);
        CreateStartsClean(t, n);
        CreatedPlan(t, n);
      } else {
        PlanOrGoneOnce(Exec(t[..n]), t[n].now, t[n].call);
      }
    }
  }

  /** Over all runs: only cases that are marked as safe to replay are ever handed out. */
  lemma HandedOutIsReplaySafe(t: Trace, i: nat)
    requires i < |t| && ReplyOf(t, i).Granted?
    ensures ReplyOf(t, i).testCase.replaySafe
  {
    hide Exec, Perform, Seen;
    var db := Exec(t[..i]);
    InvAlways(t[..i]);
    ReplaySafeAlways(t[..i]);
    if Seen(db, t[i].now).meta.NoMeta? || t[i].call.Delete? {
      var _, _ := CallOnNothing(db, t[i].now, t[i].call);
    } else {
      var _, _, _ := CallAdvances(db, t[i].now, t[i].call);
    }
  }

  /** No call of this window deletes the run, and none comes after its expiry e. */
  ghost predicate Lasts(t: Trace, i: nat, j: nat, e: int)
    requires i <= j <= |t|
  {
    forall k :: i <= k < j ==> !t[k].call.Delete? && t[k].now <= e
  }

  lemma PlanIsFixedOnce(db: Db, now: int, call: Call)
    requires Inv(db) && db.meta.Meta? && !call.Delete? && now <= db.meta.expires
    ensures SamePlan(db.meta, Perform(db, now, call).0.meta)
  {
    SeenAllOrNothing(db, now);
    var _, _, _ := CallAdvances(db, now, call);
  }

  /** The plan, with the expiry among it, is never changed by the calls on a run. */
  lemma {:induction false} PlanIsFixed(t: Trace, i: nat, j: nat)
    requires i <= j <= |t| && Exec(t[..i]).meta.Meta? && Lasts(t, i, j, Exec(t[..i]).meta.expires)
    ensures SamePlan(Exec(t[..i]).meta, Exec(t[..j]).meta)
    decreases j - i
  {
    hide Perform, Exec, Inv;
    if i < j {
      PlanIsFixed(t, i, j - 1);
      InvAlways(t[..j - 1]);
      PlanIsFixedOnce(Exec(t[..j - 1]), t[j - 1].now, t[j - 1].call);
      ExecNext(t, j - 1);
    }
  }

  /** Until another creation succeeds, a run keeps its plan or is gone, deleted or expired. */
  lemma {:induction false} PlanOrGone(t: Trace, i: nat, j: nat)
    requires i <= j <= |t| && Exec(t[..i]).meta.Meta? && forall k :: i <= k < j ==> ReplyOf(t, k) != Created
    ensures Exec(t[..j]) == EMPTY || SamePlan(Exec(t[..i]).meta, Exec(t[..j]).meta)
    decreases j - i
  {
    hide Perform, Exec, Inv;
    if i < j {
      PlanOrGone(t, i, j - 1);
      InvAlways(t[..j - 1]);
      assert ReplyOf(t, j - 1) != Created;
      PlanOrGoneOnce(Exec(t[..j - 1]), t[j - 1].now, t[j - 1].call);
      ExecNext(t, j - 1);
    }
  }

  // Results

  /** One call neither removes nor changes a recorded result. */
  lemma ResultStaysOnce(db: Db, now: int, call: Call, id: string)
    requires Inv(db) && db.meta.Meta? && id in db.results.m && !call.Delete? && now <= db.meta.expires
    ensures var after := Perform(db, now, call).0;
            && SamePlan(db.meta, after.meta) && id in after.results.m && after.results.m[id] == db.results.m[id]
  {
    SeenAllOrNothing(db, now);
    var arrows, after, _ := CallAdvances(db, now, call);
    hide Advances;
    L.FinishedStays(Abs(db), db.meta.deliveries, now, arrows, Abs(after));
    assert CaseOk(db, id) && CaseOk(after, id);
    assert Abs(after)[id] == Abs(db)[id] == L.Finished(db.results.m[id]);
  }

  /** A recorded result is never overwritten or removed while the run lasts. */
  lemma {:induction false} ResultsArePermanent(t: Trace, i: nat, j: nat, id: string)
    requires i <= j <= |t| && Exec(t[..i]).meta.Meta? && id in Exec(t[..i]).results.m
    requires Lasts(t, i, j, Exec(t[..i]).meta.expires)
    ensures SamePlan(Exec(t[..i]).meta, Exec(t[..j]).meta)
    ensures id in Exec(t[..j]).results.m && Exec(t[..j]).results.m[id] == Exec(t[..i]).results.m[id]
    decreases j - i
  {
    hide Perform, Exec, Inv;
    if i < j {
      ResultsArePermanent(t, i, j - 1, id);
      InvAlways(t[..j - 1]);
      ResultStaysOnce(Exec(t[..j - 1]), t[j - 1].now, t[j - 1].call, id);
      ExecNext(t, j - 1);
    }
  }

  lemma OneOutcomeOnce(db: Db, now: int, call: Call, id: string)
    requires Inv(db) && db.meta.Meta? && id in db.results.m && !call.Delete? && now <= db.meta.expires
    ensures Perform(db, now, call).1.Granted? ==> Perform(db, now, call).1.testCase.id != id
    ensures call.Complete? && call.id == id ==> Perform(db, now, call).1 != Accepted
  {
    SeenAllOrNothing(db, now);
    ResultStaysOnce(db, now, call, id);
    var arrows, after, reply := CallAdvances(db, now, call);
    hide Perform;
    assert CaseOk(db, id);
    assert reply.Granted? ==> ViewOf(after, reply.testCase.id).result == None;
  }

  /** A case with a result is never handed out again and no completion of it is accepted again. */
  lemma OneOutcome(t: Trace, i: nat, j: nat, id: string)
    requires i <= j < |t| && Exec(t[..i]).meta.Meta? && id in Exec(t[..i]).results.m
    requires Lasts(t, i, j + 1, Exec(t[..i]).meta.expires)
    ensures ReplyOf(t, j).Granted? ==> ReplyOf(t, j).testCase.id != id
    ensures t[j].call.Complete? && t[j].call.id == id ==> ReplyOf(t, j) != Accepted
  {
    hide Perform, Exec, Inv;
    ResultsArePermanent(t, i, j, id);
    InvAlways(t[..j]);
    OneOutcomeOnce(Exec(t[..j]), t[j].now, t[j].call, id);
  }

  // Fencing

  /** The i-th call handed the case out. */
  predicate Hands(t: Trace, i: nat, id: string)
    requires i < |t|
  {
    t[i].call.Claim? && ReplyOf(t, i).Granted? && ReplyOf(t, i).testCase.id == id
  }

  /** The index of the last call that handed the case out, or -1. */
  function LastGrant(t: Trace, id: string): int {
    if t == [] then -1
    else if Hands(t, |t| - 1, id) then |t| - 1
    else LastGrant(t[..|t| - 1], id)
  }

  lemma {:induction false} LastGrantIsLast(t: Trace, id: string)
    ensures -1 <= LastGrant(t, id) < |t|
    ensures LastGrant(t, id) >= 0 ==> Hands(t, LastGrant(t, id), id)
    ensures forall k :: 0 <= k < |t| && k > LastGrant(t, id) ==> !Hands(t, k, id)
  {
    hide Perform, ReplyOf;
    if t != [] && !Hands(t, |t| - 1, id) {
      LastGrantIsLast(t[..|t| - 1], id);
      forall k | 0 <= k < |t| - 1 ensures Hands(t[..|t| - 1], k, id) == Hands(t, k, id) { ReplyPrefix(t, |t| - 1, k); }
    }
  }

  lemma SeenIsGood(db: Db, now: int)
    requires Inv(db) && Seen(db, now) == db && db.meta.Meta?
    ensures Good(db)
  {
  }

  lemma HandedOwner(suite: seq<Case>, token: string, until: int, after: Db, testCase: Case, delivery: int)
    requires Handed(suite, token, until, after, testCase, delivery)
    ensures HGet(after.owners, testCase.id) == Some(token) && Attempts(after, testCase.id) == delivery
  {
  }

  lemma LeaseKept(db: Db, now: int, call: Call, arrows: seq<L.Arrow>, after: Db, reply: Reply, id: string)
    requires Good(db) && Good(after) && id in after.leases.m
    requires Advances(db, now, call, arrows, after, reply) && !(reply.Granted? && reply.testCase.id == id)
    ensures id in db.leases.m && HGet(after.owners, id) == HGet(db.owners, id)
              && Attempts(after, id) == Attempts(db, id)
  {
    hide Handed, Active, Rank, L.Legal, L.Fire, L.Live;
    assert CaseOk(after, id) && CaseOk(db, id);
    L.LeaseOrigin(Abs(db), db.meta.deliveries, now, arrows, Abs(after), id);
  }

  /** One call: a lease it leaves behind is the one it grants, or was there with the same owner and count. */
  lemma LeaseOriginOnce(db: Db, now: int, call: Call, id: string)
    requires Inv(db) && id in Perform(db, now, call).0.leases.m
    ensures var (after, reply) := Perform(db, now, call);
            if reply.Granted? && reply.testCase.id == id
            then call.Claim? && HGet(after.owners, id) == Some(call.token) && Attempts(after, id) == reply.delivery
            else (id in db.leases.m && HGet(after.owners, id) == HGet(db.owners, id)
                  && Attempts(after, id) == Attempts(db, id))
  {
    hide Perform, Inv, Seen, Good, Handed, Abs, HGet, Attempts;
    if Seen(db, now).meta.NoMeta? || call.Delete? {
      var _, _ := CallOnNothing(db, now, call);
      assert false;
    } else {
      var arrows, after, reply := CallAdvances(db, now, call);
      SeenIsGood(db, now);
      if reply.Granted? && reply.testCase.id == id {
        HandedOwner(db.meta.suite, call.token, now + call.leaseMs, after, reply.testCase, reply.delivery);
      } else {
        LeaseKept(db, now, call, arrows, after, reply, id);
      }
    }
  }

  /** The owner of a lease is the token of the last call that handed the case out, and the attempt
      counter is the delivery that call returned. */
  lemma {:induction false} OwnerIsLastGrant(t: Trace, id: string)
    requires id in Exec(t).leases.m
    ensures 0 <= LastGrant(t, id) < |t| && Hands(t, LastGrant(t, id), id)
    ensures HGet(Exec(t).owners, id) == Some(t[LastGrant(t, id)].call.token)
    ensures Attempts(Exec(t), id) == ReplyOf(t, LastGrant(t, id)).delivery
  {
    hide Perform;
    LastGrantIsLast(t, id);
    if t != [] {
      var n := |t| - 1;
      InvAlways(t[..n]);
      LeaseOriginOnce(Exec(t[..n]), t[n].now, t[n].call, id);
      if LastGrant(t, id) != n {
        OwnerIsLastGrant(t[..n], id);
        ReplyPrefix(t, n, LastGrant(t[..n], id));
      }
    }
  }

  /** The single call behind an accepted completion. */
  lemma AcceptedWrites(t: Trace, i: nat)
    requires i < |t| && t[i].call.Complete? && ReplyOf(t, i) == Accepted
    ensures Found(t, i) == Exec(t[..i]) && Active(Found(t, i), t[i].now)
    ensures HGet(Found(t, i).owners, t[i].call.id) == Some(t[i].call.token)
    ensures t[i].call.id in Found(t, i).leases.m && Found(t, i).leases.m[t[i].call.id] > t[i].now
    ensures t[i].call.id !in Found(t, i).results.m && t[i].call.result.caseId == t[i].call.id
    ensures Exec(t[..i + 1]).results.m == Found(t, i).results.m[t[i].call.id := t[i].call.result]
  {
    var db := Exec(t[..i]);
    InvAlways(t[..i]);
    SeenAllOrNothing(db, t[i].now);
    HoldsIsLive(Found(t, i), t[i].now, t[i].call.id, t[i].call.token);
    ExecNext(t, i);
  }

  /** Fencing: an accepted completion carries the token of the most recent call that handed the case
      out; the run is open and before its deadline; the lease of that claim is still running; and the
      result recorded for the case is exactly the one offered, where there was none before. */
  lemma AcceptedIsFenced(t: Trace, i: nat) returns (j: nat)
    requires i < |t| && t[i].call.Complete? && ReplyOf(t, i) == Accepted
    ensures j < i && Hands(t, j, t[i].call.id) && t[j].call.token == t[i].call.token
    ensures forall k :: j < k < i ==> !Hands(t, k, t[i].call.id)
    ensures ReplyOf(t, j).delivery == Attempts(Found(t, i), t[i].call.id)
    ensures Active(Found(t, i), t[i].now)
    ensures t[i].call.id in Found(t, i).leases.m && Found(t, i).leases.m[t[i].call.id] > t[i].now
    ensures t[i].call.id !in Found(t, i).results.m
    ensures Exec(t[..i + 1]).results.m == Found(t, i).results.m[t[i].call.id := t[i].call.result]
  {
    hide Perform, Exec, Seen, Active;
    var id := t[i].call.id;
    AcceptedWrites(t, i);
    OwnerIsLastGrant(t[..i], id);
    LastGrantIsLast(t[..i], id);
    j := LastGrant(t[..i], id);
    forall k | 0 <= k < i ensures Hands(t[..i], k, id) == Hands(t, k, id) { ReplyPrefix(t, i, k); }
    ReplyPrefix(t, i, j);
  }
}
