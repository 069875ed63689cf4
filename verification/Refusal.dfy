/** Under a clock that does not go back and tokens that are never reused, a refusal is final. */
module Refusal {
  import opened Redis
  import opened Models
  import opened Queue
  import opened Refinement
  import opened Steps
  import opened Runs
  import L = Lifecycle

  /** A call with this case and token would be accepted at time now. */
  ghost predicate Usable(db: Db, now: int, id: string, token: string) {
    var seen := Seen(db, now);
    Active(seen, now) && L.Live(Abs(seen), id, token, now)
  }

  /** No call makes a lost token usable again, except a claim that is given that very token. */
  lemma LostStaysLost(db: Db, now: int, call: Call, later: int, id: string, token: string)
    requires Inv(db) && now <= later && !Usable(db, now, id, token)
    requires call.Claim? ==> call.token != token
    ensures !Usable(Perform(db, now, call).0, later, id, token)
  {
    SeenAllOrNothing(db, now);
    CallKeepsInv(db, now, call);
    var next := Perform(db, now, call).0;
    SeenAllOrNothing(next, later);
    if Seen(db, now).meta.NoMeta? || call.Delete? {
      var after, _ := CallOnNothing(db, now, call);
      assert next == after && Abs(EMPTY) == map[];
    } else {
      var arrows, after, _ := CallAdvances(db, now, call);
      if !L.Live(Abs(db), id, token, now) {
        L.LostStays(Abs(db), db.meta.deliveries, now, arrows, Abs(after), id, token, later);
      }
    }
  }

  /** Calls come with non-decreasing clock readings. */
  ghost predicate Clock(t: Trace) {
    forall i, j :: 0 <= i < j < |t| ==> t[i].now <= t[j].now
  }

  /** Every claim brings a token of its own. */
  ghost predicate FreshTokens(t: Trace) {
    forall i, j :: 0 <= i < j < |t| && t[i].call.Claim? && t[j].call.Claim? ==> t[i].call.token != t[j].call.token
  }

  predicate Uses(call: Call, id: string, token: string) {
    (call.Renew? || call.Complete?) && call.id == id && call.token == token
  }

  lemma {:induction false} LostAlong(t: Trace, i: nat, j: nat, id: string, token: string)
    requires i < j < |t| && Clock(t)
    requires !Usable(Exec(t[..i]), t[i].now, id, token)
    requires forall k :: i <= k < j && t[k].call.Claim? ==> t[k].call.token != token
    ensures !Usable(Exec(t[..j]), t[j].now, id, token)
    decreases j - i
  {
    hide Perform, Usable, Inv, Exec;
    if i + 1 < j { LostAlong(t, i, j - 1, id, token); }
    InvAlways(t[..j - 1]);
    LostStaysLost(Exec(t[..j - 1]), t[j - 1].now, t[j - 1].call, t[j].now, id, token);
    ExecNext(t, j - 1);
  }

  /** RENEW and COMPLETE accept exactly the usable tokens (and a result of the right case). */
  lemma AcceptsUsable(t: Trace, i: nat, id: string, token: string)
    requires i < |t| && Uses(t[i].call, id, token)
    ensures ReplyOf(t, i) == Accepted <==>
      Usable(Exec(t[..i]), t[i].now, id, token) && (t[i].call.Complete? ==> t[i].call.result.caseId == id)
    ensures ReplyOf(t, i) == Refused ==> !Usable(Exec(t[..i]), t[i].now, id, token)
  {
    InvAlways(t[..i]);
    if Found(t, i).meta.NoMeta? {
      var _, _ := CallOnNothing(Exec(t[..i]), t[i].now, t[i].call);
    } else {
      var _, _, _ := CallAdvances(Exec(t[..i]), t[i].now, t[i].call);
    }
  }

  /** Once a renewal or completion with an issued token is refused, every later renewal and completion
      with it is refused too: a heartbeat that gives a job up after a refused renewal never gives up a
      result that could still be accepted. This spans deletion, expiry and reuse of the run id. */
  lemma RefusalIsPermanent(t: Trace, k: nat, i: nat, j: nat, id: string, token: string)
    requires Clock(t) && FreshTokens(t)
    requires k < i < j < |t| && t[k].call.Claim? && t[k].call.token == token
    requires Uses(t[i].call, id, token) && Uses(t[j].call, id, token)
    requires ReplyOf(t, i) == Refused
    ensures ReplyOf(t, j) != Accepted
  {
    hide Perform, Usable, Exec;
    AcceptsUsable(t, i, id, token);
    LostAlong(t, i, j, id, token);
    AcceptsUsable(t, j, id, token);
  }

  lemma HandedLease(suite: seq<Case>, token: string, until: int, after: Db, testCase: Case, delivery: int)
    requires Good(after) && after.meta.suite == suite && Handed(suite, token, until, after, testCase, delivery)
    ensures testCase.id in after.tasks.m && after.tasks.m[testCase.id] == testCase
    ensures Abs(after)[testCase.id] == L.Leased(delivery, token, until) && 1 <= delivery <= after.meta.deliveries
  {
    assert CaseOk(after, testCase.id);
  }

  /** Right after a hand-out the case is leased to the caller, with the delivery it was told. */
  lemma LeaseAfterGrant(db: Db, now: int, call: Call)
    requires Inv(db) && Perform(db, now, call).1.Granted?
    ensures var (after, reply) := Perform(db, now, call);
            && call.Claim? && after.meta.Meta? && reply.testCase.id in after.tasks.m
            && Abs(after)[reply.testCase.id] == L.Leased(reply.delivery, call.token, now + call.leaseMs)
            && 1 <= reply.delivery <= after.meta.deliveries
            && after.tasks.m[reply.testCase.id] == reply.testCase
  {
    hide Perform, Inv, Seen, Good, Handed, Abs;
    if Seen(db, now).meta.NoMeta? || call.Delete? {
      var _, _ := CallOnNothing(db, now, call);
      assert false;
    } else {
      var _, after, reply := CallAdvances(db, now, call);
      HandedLease(db.meta.suite, call.token, now + call.leaseMs, after, reply.testCase, reply.delivery);
    }
  }

  /** A usable token is the owner of the case. */
  lemma UsableOwns(db: Db, now: int, id: string, token: string)
    requires Inv(db) && Usable(db, now, id, token)
    ensures id in db.leases.m && HGet(db.owners, id) == Some(token)
  {
    SeenAllOrNothing(db, now);
    assert CaseOk(db, id);
  }

  /** Whatever the clock does, a renewal or completion is accepted only from the last one the case was
      handed out to. */
  lemma AcceptedIsLastHolder(t: Trace, j: nat, id: string, token: string) returns (g: nat)
    requires j < |t| && Uses(t[j].call, id, token) && ReplyOf(t, j) == Accepted
    ensures g < j && Hands(t, g, id) && t[g].call.token == token
    ensures forall i :: g < i < j ==> !Hands(t, i, id)
  {
    hide Perform, Usable, Exec, Inv, ReplyOf;
    AcceptsUsable(t, j, id, token);
    InvAlways(t[..j]);
    UsableOwns(Exec(t[..j]), t[j].now, id, token);
    OwnerIsLastGrant(t[..j], id);
    LastGrantIsLast(t[..j], id);
    g := LastGrant(t[..j], id);
    forall i | 0 <= i < j ensures Hands(t[..j], i, id) == Hands(t, i, id) { ReplyPrefix(t, j, i); }
  }

  /** So a later hand-out of the same case fences its earlier holders off for good. */
  lemma OlderHolderIsFenced(t: Trace, k: nat, i: nat, j: nat, id: string)
    requires FreshTokens(t)
    requires k < i < j < |t| && Hands(t, k, id) && Hands(t, i, id)
    requires Uses(t[j].call, id, t[k].call.token)
    ensures ReplyOf(t, j) != Accepted
  {
    hide ReplyOf;
    if ReplyOf(t, j) == Accepted {
      var _ := AcceptedIsLastHolder(t, j, id, t[k].call.token);
    }
  }
}
