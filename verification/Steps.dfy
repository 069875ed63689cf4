/** One call of any client method, seen as lifecycle arrows. */
module Steps {
  import opened Redis
  import opened Models
  import opened Queue
  import opened Refinement
  import L = Lifecycle

  /** All keys expire at one instant: a call sees either everything or nothing. */
  lemma SeenAllOrNothing(db: Db, now: int)
    requires Inv(db)
    ensures Seen(db, now) == if db.meta.Meta? && db.meta.expires < now then EMPTY else db
    ensures Inv(Seen(db, now))
  {
  }

  /** The plan fixed at creation. */
  predicate SamePlan(a: MetaKey, b: MetaKey) {
    && a.Meta? && b.Meta? && a.suite == b.suite && a.deadline == b.deadline && a.expires == b.expires
    && a.deliveries == b.deliveries && a.total == b.total
  }

  /** Only the claim that hands a case out grants a lease, exactly one and with its own token; only a
      completion accepts, and its own result. */
  ghost predicate GrantsOf(arrows: seq<L.Arrow>, call: Call, reply: Reply) {
    && (forall i :: 0 <= i < |arrows| && arrows[i].Grant? ==>
          call.Claim? && arrows[i].token == call.token && reply.Granted? && arrows[i].id == reply.testCase.id)
    && (forall i :: 0 <= i < |arrows| && arrows[i].Accept? ==>
          call.Complete? && reply == Accepted && arrows[i] == L.Accept(call.id, call.token, call.result))
    && L.Grants(arrows) == if reply.Granted? then 1 else 0
  }

  /** What a call other than Delete does to an existing run. */
  ghost predicate Advances(db: Db, now: int, call: Call, arrows: seq<L.Arrow>, after: Db, reply: Reply)
    requires db.meta.Meta?
  {
    && SamePlan(db.meta, after.meta)
    && after.meta.open == (db.meta.open && !call.Close?)
    && L.Follows(Abs(db), db.meta.deliveries, now, arrows, Abs(after))
    && GrantsOf(arrows, call, reply)
    && match call
       case Create(_, _, _, _, _) => after == db && (reply == RunExists || reply == Invalid)
       case Claim(token, leaseMs) =>
         && (reply == NoJob || reply.Granted?)
         && (reply.Granted? ==>
               && Active(db, now)
               && Handed(db.meta.suite, token, now + leaseMs, after, reply.testCase, reply.delivery))
         && (!Active(db, now) ==> after == db)
       case Renew(id, token, leaseMs) =>
         && reply == (if Active(db, now) && L.Live(Abs(db), id, token, now) then Accepted else Refused)
         && arrows == (if reply == Accepted then [L.Extend(id, token, now + leaseMs)] else [])
         && (reply == Refused ==> after == db)
       case Complete(id, token, result) =>
         && reply == (if result.caseId != id then Invalid
                      else if Active(db, now) && L.Live(Abs(db), id, token, now) then Accepted else Refused)
         && arrows == (if reply == Accepted then [L.Accept(id, token, result)] else [])
         && (reply != Accepted ==> after == db)
       case Close => reply == Done
       case Delete => false
  }

  lemma {:induction false} GrantsPlus(xs: seq<L.Arrow>, ys: seq<L.Arrow>)
    ensures L.Grants(xs + ys) == L.Grants(xs) + L.Grants(ys)
    ensures L.Weights(xs + ys) == L.Weights(xs) + L.Weights(ys)
  {
    if xs == [] {
      assert xs + ys == ys;
    } else {
      assert (xs + ys)[1..] == xs[1..] + ys;
      GrantsPlus(xs[1..], ys);
    }
  }

  lemma {:induction false} NoGrants(xs: seq<L.Arrow>)
    requires forall i :: 0 <= i < |xs| ==> !xs[i].Grant?
    ensures L.Grants(xs) == 0
  {
    if xs != [] { NoGrants(xs[1..]); }
  }

  lemma ClaimGrants(lapsed: seq<string>, exhausted: seq<string>, limit: int, reply: Reply, call: Call, now: int)
    requires call.Claim?
    ensures GrantsOf(Lapses(lapsed) + PopArrows(exhausted, limit, reply, call.token, now + call.leaseMs), call, reply)
  {
    var last := if reply.Granted? then [L.Grant(reply.testCase.id, call.token, now + call.leaseMs)] else [];
    NoGrants(Lapses(lapsed));
    NoGrants(Exhausts(exhausted, limit));
    GrantsPlus(Exhausts(exhausted, limit), last);
    GrantsPlus(Lapses(lapsed), Exhausts(exhausted, limit) + last);
  }

  lemma ActiveClaim(db: Db, now: int, call: Call) returns (arrows: seq<L.Arrow>, after: Db, reply: Reply)
    requires Good(db) && call.Claim? && Active(db, now)
    ensures (after, reply) == ClaimScript(db, now, call.token, call.leaseMs)
    ensures Good(after) && Expiry(after) && after.meta == db.meta.(px := after.meta.px)
    ensures L.Follows(Abs(db), db.meta.deliveries, now, arrows, Abs(after))
    ensures GrantsOf(arrows, call, reply)
    ensures reply == NoJob || reply.Granted?
    ensures reply.Granted? ==>
              Handed(db.meta.suite, call.token, now + call.leaseMs, after, reply.testCase, reply.delivery)
  {
    hide Good, Expiry, Handed, GrantsOf, ClaimScript, L.Follows, Abs;
    var lapsed, exhausted;
    lapsed, exhausted, after, reply := ClaimRefines(db, now, call.token, call.leaseMs);
    arrows := Lapses(lapsed) + PopArrows(exhausted, db.meta.deliveries, reply, call.token, now + call.leaseMs);
    ClaimGrants(lapsed, exhausted, db.meta.deliveries, reply, call, now);
  }

  lemma ClaimAdvances(db: Db, now: int, call: Call) returns (arrows: seq<L.Arrow>, after: Db, reply: Reply)
    requires Good(db) && Expiry(db) && call.Claim?
    ensures (after, reply) == ClaimScript(db, now, call.token, call.leaseMs)
    ensures Good(after) && Expiry(after) && Advances(db, now, call, arrows, after, reply)
  {
    if Active(db, now) {
      arrows, after, reply := ActiveClaim(db, now, call);
    } else {
      arrows, after, reply := [], db, NoJob;
    }
  }

  /** A renewal grants nothing; a completion grants nothing and accepts what it carries. */
  lemma FewGrants(arrows: seq<L.Arrow>, call: Call, reply: Reply)
    requires reply == Accepted || reply == Refused || reply == Invalid
    requires reply != Accepted ==> arrows == []
    requires reply == Accepted ==>
      || (call.Renew? && |arrows| == 1 && arrows[0].Extend?)
      || (call.Complete? && arrows == [L.Accept(call.id, call.token, call.result)])
    ensures GrantsOf(arrows, call, reply)
  {
    NoGrants(arrows);
  }

  lemma RenewAdvances(db: Db, now: int, call: Call) returns (arrows: seq<L.Arrow>, after: Db, reply: Reply)
    requires Good(db) && Expiry(db) && call.Renew?
    ensures (after, reply) == RenewScript(db, now, call.id, call.token, call.leaseMs)
    ensures Good(after) && Expiry(after) && Advances(db, now, call, arrows, after, reply)
  {
    hide Good, Expiry, RenewScript, Abs, L.Live, Active, GrantsOf;
    GoodHasMeta(db);
    after, reply := RenewRefines(db, now, call.id, call.token, call.leaseMs);
    arrows := if reply == Accepted then [L.Extend(call.id, call.token, now + call.leaseMs)] else [];
    FewGrants(arrows, call, reply);
  }

  lemma CompleteAdvances(db: Db, now: int, call: Call) returns (arrows: seq<L.Arrow>, after: Db, reply: Reply)
    requires Good(db) && Expiry(db) && call.Complete?
    ensures (after, reply) == if call.result.caseId != call.id then (db, Invalid)
                              else CompleteScript(db, now, call.id, call.token, call.result)
    ensures Good(after) && Expiry(after) && Advances(db, now, call, arrows, after, reply)
  {
    hide Good, Expiry, CompleteScript, Abs, L.Live, Active, GrantsOf;
    GoodHasMeta(db);
    if call.result.caseId != call.id {
      arrows, after, reply := [], db, Invalid;
    } else {
      after, reply := CompleteRefines(db, now, call.id, call.token, call.result);
      arrows := if reply == Accepted then [L.Accept(call.id, call.token, call.result)] else [];
    }
    FewGrants(arrows, call, reply);
  }

  lemma OtherAdvances(db: Db, now: int, call: Call) returns (after: Db, reply: Reply)
    requires Good(db) && Expiry(db) && Seen(db, now) == db && (call.Create? || call.Close?)
    ensures (after, reply) == Perform(db, now, call)
    ensures Good(after) && Expiry(after) && Advances(db, now, call, [], after, reply)
  {
    hide Good, Expiry, Abs, Seen;
    CloseKeeps(db);
    var r := Perform(db, now, call);
    after, reply := r.0, r.1;
  }

  /** Every call other than Delete on an existing run keeps the invariant and follows legal arrows. */
  lemma CallAdvances(db: Db, now: int, call: Call) returns (arrows: seq<L.Arrow>, after: Db, reply: Reply)
    requires Inv(db) && Seen(db, now).meta.Meta? && !call.Delete?
    ensures Seen(db, now) == db
    ensures (after, reply) == Perform(db, now, call)
    ensures Good(after) && Expiry(after) && Advances(db, now, call, arrows, after, reply)
  {
    SeenAllOrNothing(db, now);
    hide Good, Expiry, Advances, Seen, RenewScript, ClaimScript, CompleteScript;
    match call
    case Claim(_, _) => arrows, after, reply := ClaimAdvances(db, now, call);
    case Renew(id, token, leaseMs) => arrows, after, reply := RenewAdvances(db, now, call);
    case Complete(id, token, result) => arrows, after, reply := CompleteAdvances(db, now, call);
    case _ =>
      arrows := [];
      after, reply := OtherAdvances(db, now, call);
  }

  lemma AllWaiting(db: Db)
    requires Good(db) && forall x :: x in Abs(db) ==> Abs(db)[x] == L.Waiting(0)
    ensures db.leases.m == map[] && db.results.m == map[]
  {
    forall x ensures x !in db.leases.m && x !in db.results.m {
      assert CaseOk(db, x) && (x in Abs(db) ==> Abs(db)[x] == L.Waiting(0));
    }
  }

  /** A call on a run that does not exist changes nothing, except a successful Create. */
  lemma CallOnNothing(db: Db, now: int, call: Call) returns (after: Db, reply: Reply)
    requires Inv(db) && (Seen(db, now).meta.NoMeta? || call.Delete?)
    ensures (after, reply) == Perform(db, now, call)
    ensures Inv(after) && !reply.Granted? && reply != Accepted
    ensures after.leases.m == map[] && after.results.m == map[]
    ensures reply != Created ==> after == EMPTY
    ensures reply == Created ==>
      && call.Create? && Seen(db, now) == EMPTY && call.timeout > 0.0
      && after.meta == Meta(call.suite, true, now + Milliseconds(call.timeout),
           now + Milliseconds(call.timeout) + call.retention * 1000, call.deliveries, |call.suite|,
           Some(now + Milliseconds(call.timeout) + call.retention * 1000))
      && (forall x :: x in Abs(after) <==> Rank(call.suite, x) > 0)
      && (forall x :: x in Abs(after) ==> Abs(after)[x] == L.Waiting(0))
  {
    hide Good, Expiry, CreateScript, Abs, Rank, IsSuite, Seen;
    SeenAllOrNothing(db, now);
    var r := Perform(db, now, call);
    after, reply := r.0, r.1;
    if call.Create? && CreateAllowed(call.suite, call.timeout, call.retention, call.deliveries, call.payloadBytes) {
      after, reply := CreateRefines(now, call.suite, Milliseconds(call.timeout), call.retention * 1000,
                                    call.deliveries);
      AllWaiting(after);
    }
  }

  /** Every call keeps the invariant. */
  lemma CallKeepsInv(db: Db, now: int, call: Call)
    requires Inv(db)
    ensures Inv(Perform(db, now, call).0)
  {
    if Seen(db, now).meta.Meta? && !call.Delete? {
      var _, _, _ := CallAdvances(db, now, call);
    } else {
      var _, _ := CallOnNothing(db, now, call);
    }
  }
}
