/** The run queue as the object the Python code works with: seven keys updated in place. Every method is
    proved equal to the functions of Queue, and the ghost log ties the object to the theorems on runs. */
module RunQueues {
  import opened Redis
  import opened Models
  import opened Queue
  import opened Runs

  /** The keys after more calls. */
  function After(db: Db, events: Trace): Db
    decreases |events|
  {
    if events == [] then db else After(Perform(db, events[0].now, events[0].call).0, events[1..])
  }

  lemma ExecSnoc(t: Trace, e: Event)
    ensures Exec(t + [e]) == Perform(Exec(t), e.now, e.call).0
    ensures ReplyOf(t + [e], |t|) == Perform(Exec(t), e.now, e.call).1
  {
    assert (t + [e])[..|t|] == t;
  }

  lemma PopEnds(db: Db, now: int, token: string, leaseMs: int, left: nat)
    requires db.meta.Meta? && (left == 0 || db.ready.m == map[])
    ensures PopLoop(db, now, token, leaseMs, left) == (Touch(db, now), NoJob)
  {
  }

  lemma PopStep(db: Db, now: int, token: string, leaseMs: int, left: nat)
    requires db.meta.Meta? && left > 0 && db.ready.m != map[]
    ensures var id := First(db.ready.m);
            var granted := GrantOne(db, id, token, now + leaseMs);
            && granted.tasks == db.tasks && Attempts(granted, id) == Attempts(db, id) + 1
            && ExhaustOne(db, id).meta == db.meta
            && PopLoop(db, now, token, leaseMs, left) ==
                 if Attempts(db, id) + 1 > db.meta.deliveries then
                   PopLoop(ExhaustOne(db, id), now, token, leaseMs, left - 1)
                 else
                   (Touch(granted, now),
                    if id in db.tasks.m then Granted(db.tasks.m[id], Attempts(db, id) + 1) else Invalid)
  {
    hide First, Touch;
  }

  lemma GrantParts(db: Db, after: Db, id: string, token: string, until: int)
    requires var popped := Pop(db, id);
             after == popped.(owners := HSet(popped.owners, id, token), leases := HSet(popped.leases, id, until))
    ensures after == GrantOne(db, id, token, until)
  {
  }

  lemma ExhaustParts(db: Db, after: Db, id: string)
    requires var popped := Pop(db, id);
             after == popped.(results := HSet(popped.results, id, Exhausted(id, Attempts(db, id))))
    ensures after == ExhaustOne(db, id)
  {
  }

  class RunQueue {
    var meta: MetaKey
    var tasks: Hash<Case>
    var ready: Hash<int>
    var leases: Hash<int>
    var owners: Hash<string>
    var attempts: Hash<int>
    var results: Hash<CaseResult>
    ghost var log: Trace

    function State(): Db
      reads this
    {
      Db(meta, tasks, ready, leases, owners, attempts, results)
    }

    /** The keys are what the logged calls left. */
    ghost predicate Valid()
      reads this
    {
      State() == Exec(log)
    }

    constructor ()
      ensures Valid() && log == [] && State() == EMPTY
    {
      meta := NoMeta;
      tasks, ready, leases, owners := Absent(), Absent(), Absent(), Absent();
      attempts, results := Absent(), Absent();
      log := [];
    }

    /** Expired keys vanish before a command runs. */
    method DropExpired(now: int)
      modifies this
      ensures State() == Seen(old(State()), now) && log == old(log)
    {
      if meta.Meta? && meta.px.Some? && meta.px.value < now { meta := NoMeta; }
      tasks, ready, leases := Visible(tasks, now), Visible(ready, now), Visible(leases, now);
      owners, attempts, results := Visible(owners, now), Visible(attempts, now), Visible(results, now);
    }

    method TouchKeys(now: int)
      modifies this
      ensures State() == Touch(old(State()), now) && log == old(log)
    {
      if meta.Meta? {
        var at := meta.expires;
        meta := if at <= now then NoMeta else meta.(px := Some(at));
        tasks, ready, leases := PExpireAt(tasks, at, now), PExpireAt(ready, at, now), PExpireAt(leases, at, now);
        owners, attempts := PExpireAt(owners, at, now), PExpireAt(attempts, at, now);
        results := PExpireAt(results, at, now);
      }
    }

    method RunCreate(now: int, suite: Suite, timeoutMs: int, retentionMs: int, deliveries: int) returns (reply: Reply)
      modifies this
      ensures (State(), reply) == CreateScript(old(State()), now, suite, timeoutMs, retentionMs, deliveries)
      ensures log == old(log)
    {
      if meta.Meta? { return RunExists; }
      meta := Meta(suite, true, now + timeoutMs, now + timeoutMs + retentionMs, deliveries, |suite|, None);
      ghost var start := State();
      for i := 0 to |suite|
        invariant AddCases(State(), suite, i) == AddCases(start, suite, 0)
        invariant log == old(log)
      {
        tasks := HSet(tasks, suite[i].id, suite[i]);
        ready := HSet(ready, suite[i].id, i + 1);
      }
      TouchKeys(now);
      reply := Created;
    }

    method ReclaimAll(ids: seq<string>)
      modifies this
      ensures State() == Reclaim(old(State()), ids) && log == old(log)
    {
      for i := 0 to |ids|
        invariant Reclaim(State(), ids[i..]) == Reclaim(old(State()), ids)
        invariant log == old(log)
      {
        assert ids[i..][0] == ids[i] && ids[i..][1..] == ids[i + 1..];
        leases := HDel(leases, ids[i]);
        owners := HDel(owners, ids[i]);
        if ids[i] !in results.m { ready := HSet(ready, ids[i], 0); }
      }
    }

    /** ZPOPMIN and HINCRBY. */
    method PopFirst() returns (id: string, attempt: int)
      requires ready.m != map[]
      modifies this
      ensures id == First(old(ready.m)) && State() == Pop(old(State()), id)
      ensures attempt == Attempts(State(), id) && log == old(log)
    {
      id := First(ready.m);
      ready := HDel(ready, id);
      attempt := (if id in attempts.m then attempts.m[id] else 0) + 1;
      attempts := HSet(attempts, id, attempt);
    }

    method PopUpTo(rounds: nat, now: int, token: string, leaseMs: int) returns (reply: Reply)
      requires meta.Meta?
      modifies this
      ensures (State(), reply) == PopLoop(old(State()), now, token, leaseMs, rounds)
      ensures log == old(log)
    {
      hide Touch, PopLoop, First, GrantOne, ExhaustOne;
      var left := rounds;
      while left > 0
        invariant meta.Meta? && left >= 0
        invariant PopLoop(State(), now, token, leaseMs, left) == PopLoop(old(State()), now, token, leaseMs, rounds)
        invariant log == old(log)
      {
        if ready.m == map[] {
          PopEnds(State(), now, token, leaseMs, left);
          TouchKeys(now);
          return NoJob;
        }
        ghost var top := State();
        PopStep(top, now, token, leaseMs, left);
        var id, attempt := PopFirst();
        assert attempt == Attempts(top, id) + 1;
        if attempt <= meta.deliveries {
          owners := HSet(owners, id, token);
          leases := HSet(leases, id, now + leaseMs);
          GrantParts(top, State(), id, token, now + leaseMs);
          reply := if id in tasks.m then Granted(tasks.m[id], attempt) else Invalid;
          TouchKeys(now);
          return;
        }
        results := HSet(results, id, Exhausted(id, attempt - 1));
        ExhaustParts(top, State(), id);
        left := left - 1;
      }
      PopEnds(State(), now, token, leaseMs, 0);
      TouchKeys(now);
      reply := NoJob;
    }

    method RunClaim(now: int, token: string, leaseMs: int) returns (reply: Reply)
      modifies this
      ensures (State(), reply) == ClaimScript(old(State()), now, token, leaseMs)
      ensures log == old(log)
    {
      if !Active(State(), now) { return NoJob; }
      var expired := Due(leases.m, now, BATCH);
      ReclaimAll(expired);
      ReclaimKeepsMeta(old(State()), expired);
      reply := PopUpTo(BATCH, now, token, leaseMs);
    }

    method RunRenew(now: int, id: string, token: string, leaseMs: int) returns (reply: Reply)
      modifies this
      ensures (State(), reply) == RenewScript(old(State()), now, id, token, leaseMs)
      ensures log == old(log)
    {
      if !Active(State(), now) { return Refused; }
      if HGet(owners, id) != Some(token) { return Refused; }
      if (if id in leases.m then leases.m[id] else 0) <= now { return Refused; }
      leases := HSet(leases, id, now + leaseMs);
      TouchKeys(now);
      reply := Accepted;
    }

    method RunComplete(now: int, id: string, token: string, result: CaseResult) returns (reply: Reply)
      modifies this
      ensures (State(), reply) == CompleteScript(old(State()), now, id, token, result)
      ensures log == old(log)
    {
      if !Active(State(), now) { return Refused; }
      if HGet(owners, id) != Some(token) { return Refused; }
      if (if id in leases.m then leases.m[id] else 0) <= now { return Refused; }
      if id in results.m { return Refused; }
      results := HSet(results, id, result);
      owners := HDel(owners, id);
      leases := HDel(leases, id);
      TouchKeys(now);
      reply := Accepted;
    }

    /** One call of a client method, logged. */
    method Do(now: int, call: Call) returns (reply: Reply)
      requires Valid()
      modifies this
      ensures Valid() && log == old(log) + [At(now, call)]
      ensures (State(), reply) == Perform(old(State()), now, call)
      ensures reply == ReplyOf(log, |old(log)|)
    {
      hide ClaimScript, RenewScript, CompleteScript, CreateScript, Seen, Exec;
      DropExpired(now);
      match call {
        case Create(suite, timeout, retention, deliveries, payloadBytes) =>
          if CreateAllowed(suite, timeout, retention, deliveries, payloadBytes) {
            reply := RunCreate(now, suite, Milliseconds(timeout), retention * 1000, deliveries);
          } else {
            reply := Invalid;
          }
        case Claim(token, leaseMs) => reply := RunClaim(now, token, leaseMs);
        case Renew(id, token, leaseMs) => reply := RunRenew(now, id, token, leaseMs);
        case Complete(id, token, result) =>
          if result.caseId != id {
            reply := Invalid;
          } else {
            reply := RunComplete(now, id, token, result);
          }
        case Close =>
          if meta.Meta? { meta := meta.(open := false); }
          reply := Done;
        case Delete =>
          meta := NoMeta;
          tasks, ready, leases, owners := Absent(), Absent(), Absent(), Absent();
          attempts, results := Absent(), Absent();
          reply := Done;
      }
      ExecSnoc(log, At(now, call));
      log := log + [At(now, call)];
    }

    /** Calls that other clients make in the meantime. */
    method Others(events: Trace)
      requires Valid()
      modifies this
      ensures Valid() && log == old(log) + events
      ensures State() == After(old(State()), events)
    {
      for i := 0 to |events|
        invariant Valid() && log == old(log) + events[..i]
        invariant After(State(), events[i..]) == After(old(State()), events)
      {
        assert events[i..][0] == events[i] && events[i..][1..] == events[i + 1..];
        assert old(log) + events[..i + 1] == old(log) + events[..i] + [events[i]];
        var _ := Do(events[i].now, events[i].call);
      }
      assert events[..|events|] == events;
    }
  }
}
