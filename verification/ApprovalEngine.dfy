/** The approval service as it is written: rows updated in place inside transactions that commit or roll back. */
module ApprovalEngine {
  import opened Common
  import opened Rows
  import opened Lifecycle
  import opened LifecycleTheorems

  datatype ResumeOutcome = DONE | DENIED_ARGUMENTS_CHANGED | DENIED_OUTPUT_GUARD | NOT_ELIGIBLE

  /** What the decision route answers with. */
  datatype Settled = Settled(outcome: Outcome, row: DecisionRow, approval: Approval)

  /** An accepted decision is about an existing row, and an applied one approves or denies it. */
  lemma DecidedRow(st: Store, req: DecideRequest, now: int)
    ensures var (st', r) := Decide(st, req, now);
            && (r.Ok? ==> req.id in st'.approvals && r.value.state == st'.approvals[req.id].state)
            && (r.Ok? && r.value.outcome == APPLIED ==> r.value.state == APPROVED || r.value.state == DENIED)
  {
    hide Blank, FindKey, SameBody;
  }

  class ApprovalEngine {
    var approvals: map<Id, Approval>
    var txns: map<Id, Txn>
    var decisions: seq<DecisionRow>
    var events: seq<Event>

    function Db(): Store
      reads this
    {
      Store(approvals, txns, decisions, events)
    }

    constructor ()
      ensures Db() == EMPTY_STORE
    {
      approvals, txns, decisions, events := map[], map[], [], [];
    }

    // ----- the helpers of every block -----

    /** What `immediate_transaction` does when its block raises. */
    method Rollback(saved: Store)
      modifies this
      ensures Db() == saved
    {
      approvals, txns, decisions, events := saved.approvals, saved.txns, saved.decisions, saved.events;
    }

    method Audit(id: Id, kind: EventKind, move: Option<Move>)
      modifies `events
      ensures events == old(events) + [Event(id, kind, move)]
    {
      events := events + [Event(id, kind, move)];
    }

    /** Raises, and changes nothing, unless the transition is permitted. */
    method Transition(id: Id, to: State) returns (permitted: bool)
      requires id in approvals
      modifies `approvals
      ensures permitted == Allowed(old(approvals)[id].state, to)
      ensures approvals == if permitted then old(approvals)[id := old(approvals)[id].(state := to)] else old(approvals)
    {
      permitted := Allowed(approvals[id].state, to);
      if permitted {
        approvals := approvals[id := approvals[id].(state := to)];
      }
    }

    method SetStatus(txnId: Id, to: State)
      modifies `txns
      ensures txns == Synced(old(txns), txnId, to)
    {
      if txnId in txns {
        txns := txns[txnId := txns[txnId].(status := to)];
      }
    }

    /** The five lines that every expiring or deciding block repeats. */
    method MoveRow(id: Id, to: State, kind: EventKind) returns (permitted: bool)
      requires id in approvals
      modifies this
      ensures permitted == Allowed(old(approvals)[id].state, to)
      ensures Db() == if permitted then MovedTo(old(Db()), id, to, kind) else old(Db())
    {
      var from := approvals[id].state;
      permitted := Transition(id, to);
      if permitted {
        SetStatus(approvals[id].txnId, to);
        Audit(id, kind, Some(Move(from, to)));
      }
    }

    // ----- the public operations -----

    method CreateApproval(req: CreateRequest, now: int) returns (r: Result<Id>)
      modifies this
      ensures (Db(), r) == Create(old(Db()), req, now)
    {
      var saved := Db();
      var clash := req.txnId in txns || req.id in approvals;
      txns := txns[req.txnId := Txn(req.creator, PENDING, req.materialHash, now, None)];
      approvals := approvals[req.id := Approval(req.txnId, PENDING, req.payload, req.materialHash, req.creator,
                                                0, None, now, now + req.ttl)];
      if clash {
        Rollback(saved);
        return Raised(INTEGRITY_ERROR);
      }
      Audit(req.id, APPROVAL_CREATED, None);
      r := Ok(req.id);
    }

    /** The expiry flip that precedes APPROVAL_EXPIRED is written and then rolled back by the raise. */
    method DecideApproval(req: DecideRequest, now: int) returns (r: Result<Decided>)
      modifies this
      ensures (Db(), r) == Decide(old(Db()), req, now)
    {
      var saved := Db();
      var existing := FindKey(decisions, req.key);
      if existing.Some? {
        if !SameBody(existing.value, req) {
          return Raised(IDEMPOTENCY_CONFLICT);
        }
        if req.id !in approvals {
          return Raised(ASSERTION_FAILED);
        }
        return Ok(Decided(REPLAYED, approvals[req.id].state, existing.value));
      }
      if req.id !in approvals {
        return Raised(APPROVAL_NOT_FOUND);
      }
      if approvals[req.id].state == PENDING && approvals[req.id].expiresAt <= now {
        var _ := MoveRow(req.id, EXPIRED, APPROVAL_EXPIRED_ON_DECISION);
        Rollback(saved);
        return Raised(APPROVAL_EXPIRED);
      }
      if approvals[req.id].state == EXPIRED {
        return Raised(APPROVAL_EXPIRED);
      }
      if approvals[req.id].state != PENDING {
        return Raised(INVALID_APPROVAL_STATE);
      }
      if req.reviewer == approvals[req.id].creator {
        return Raised(SELF_APPROVAL_FORBIDDEN);
      }
      if req.decision == Choice.DENY && Blank(req.note) {
        return Raised(INVALID_REQUEST);
      }
      if req.decision.OTHER? {
        return Raised(INVALID_REQUEST);
      }
      var to := if req.decision == APPROVE then APPROVED else DENIED;
      var _ := MoveRow(req.id, to, APPROVAL_DECIDED);
      var row := DecisionRow(req.id, req.decision, req.reviewer, req.note, req.key, PENDING, to, now);
      decisions := decisions + [row];
      r := Ok(Decided(APPLIED, to, row));
    }

    /** Expires every elapsed row once; `order` is the order in which the query listed them. */
    method SweepExpired(now: int) returns (count: nat, ghost order: seq<Id>)
      modifies this
      ensures approvals.Keys == old(approvals).Keys
      ensures forall id :: id in old(approvals) ==>
                var row := old(approvals)[id];
                approvals[id] == if (row.state == PENDING || row.state == APPROVED) && row.expiresAt <= now
                                 then row.(state := EXPIRED) else row
      ensures Db() == Sweep(old(Db()), order, now)
      ensures forall id :: id in order <==> id in old(approvals) && Elapsed(old(approvals)[id], now)
      ensures count == |order| == |set id | id in old(approvals) && Elapsed(old(approvals)[id], now)|
      ensures forall id :: id in approvals ==> !Elapsed(approvals[id], now)
    {
      hide MovedTo, Elapsed, Sweep;
      SweepNothing(Db(), now);
      var candidates := set id | id in approvals && Elapsed(approvals[id], now);
      var rest := candidates;
      count, order := 0, [];
      while rest != {}
        invariant rest <= candidates
        invariant Db() == Sweep(old(Db()), order, now)
        invariant forall id :: id in order <==> id in candidates - rest
        invariant approvals.Keys == old(approvals).Keys
        invariant forall id :: id in approvals && id !in order ==> approvals[id] == old(approvals)[id]
        invariant forall id :: id in order ==> !Elapsed(approvals[id], now)
        invariant count == |order| == |candidates| - |rest|
      {
        ghost var before := order;
        var id :| id in rest;
        ExpiredRow(Db(), id, now);
        SweepOneMore(old(Db()), before, id, now);
        var permitted := MoveRow(id, EXPIRED, APPROVAL_EXPIRED_SWEEP);
        order := order + [id];
        rest := rest - {id};
        count := count + 1;
      }
      forall id | id in old(approvals)
        ensures id in approvals
        ensures var row := old(approvals)[id];
                approvals[id] == if (row.state == PENDING || row.state == APPROVED) && row.expiresAt <= now
                                 then row.(state := EXPIRED) else row
      {
        SweptRow(old(Db()), order, now, id);
      }
    }

    /** The claiming block of `resume_approved`. */
    method ClaimResume(id: Id, now: int) returns (w: Option<Worker>)
      modifies this
      ensures (Db(), w) == Claim(old(Db()), id, now)
    {
      if id !in approvals || approvals[id].state != APPROVED {
        return None;
      }
      if approvals[id].expiresAt <= now {
        var _ := MoveRow(id, EXPIRED, APPROVAL_EXPIRED_BEFORE_RESUME);
        return None;
      }
      var _ := Transition(id, RESUMING);
      approvals := approvals[id := approvals[id].(resumeAttempts := approvals[id].resumeAttempts + 1)];
      Audit(id, RESUME_CLAIMED, Some(Move(APPROVED, RESUMING)));
      var row := approvals[id];
      assert approvals == old(approvals)[id := row];
      w := Some(Worker(id, row.txnId, row.payload, row.materialHash, row.resumeAttempts, now, CLAIMED));
    }

    /** The two denying blocks of `resume_approved`. */
    method DenyClaimed(w: Worker, note: string, kind: EventKind, key: string, at: int) returns (r: Result<()>)
      modifies this
      ensures var d := DenyResume(old(Db()), w, note, kind, key, at);
              if d.Ok? then r.Ok? && Db() == d.value else r == Raised(d.error) && Db() == old(Db())
    {
      var saved := Db();
      if w.id !in approvals {
        return Raised(ASSERTION_FAILED);
      }
      var from := approvals[w.id].state;
      var permitted := Transition(w.id, DENIED);
      if !permitted {
        return Raised(INVALID_APPROVAL_STATE);
      }
      var taken := FindKey(decisions, key).Some?;
      decisions := decisions + [DecisionRow(w.id, Choice.DENY, "system", Some(note), key, RESUMING, DENIED, at)];
      SetStatus(w.txnId, DENIED);
      Audit(w.id, kind, Some(Move(from, DENIED)));
      if taken {
        Rollback(saved);
        return Raised(INTEGRITY_ERROR);
      }
      r := Ok(());
    }

    /** The completing block of `resume_approved`. */
    method CompleteClaimed(w: Worker, sanitized: Response, at: int) returns (r: Result<()>)
      modifies this
      ensures var d := CompleteResume(old(Db()), w, sanitized, at);
              if d.Ok? then r.Ok? && Db() == d.value else r == Raised(d.error) && Db() == old(Db())
    {
      if w.id !in approvals {
        return Raised(ASSERTION_FAILED);
      }
      var from := approvals[w.id].state;
      var permitted := Transition(w.id, COMPLETED);
      if !permitted {
        return Raised(INVALID_APPROVAL_STATE);
      }
      approvals := approvals[w.id := approvals[w.id].(completion := Some(sanitized))];
      if w.txnId in txns {
        txns := txns[w.txnId := txns[w.txnId].(status := COMPLETED, completedAt := Some(at))];
      }
      Audit(w.id, RESUME_COMPLETED, Some(Move(from, COMPLETED)));
      r := Ok(());
    }

    /** One whole resume with nobody in between: four steps of the concurrent system. `answer` is what the
        provider returned, none when it or the output guard raised, and `guard` what the output guard decided. */
    method ResumeApproved(id: Id, answer: Option<Response>, guard: Guard, key: string, now: int, at: int, ghost maxAttempts: nat)
      returns (r: Result<ResumeOutcome>)
      modifies this
      ensures Db() == Resumed(old(Db()), id, answer, guard, key, now, at, maxAttempts).store
      ensures r == Ok(NOT_ELIGIBLE) <==> !(id in old(approvals) && old(approvals)[id].state == APPROVED
                                           && now < old(approvals)[id].expiresAt)
      ensures r == Ok(NOT_ELIGIBLE) && id in old(approvals) && old(approvals)[id].state == APPROVED ==>
                id in approvals && approvals[id].state == EXPIRED
      ensures r == Ok(DENIED_ARGUMENTS_CHANGED) ==>
                id in old(approvals) && MaterialHash(old(approvals)[id].payload) != old(approvals)[id].materialHash
      ensures r == Ok(DENIED_OUTPUT_GUARD) ==>
                && id in old(approvals) && MaterialHash(old(approvals)[id].payload) == old(approvals)[id].materialHash
                && answer.Some? && guard.GUARD_DENY?
      ensures r == Ok(DONE) ==>
                id in old(approvals) && MaterialHash(old(approvals)[id].payload) == old(approvals)[id].materialHash
      ensures r == Ok(DONE) ==> id in approvals && approvals[id].state == COMPLETED && guard.GUARD_ALLOW?
                                && approvals[id].completion == Some(guard.sanitized)
      ensures r.Ok? && r != Ok(NOT_ELIGIBLE) && r != Ok(DONE) ==> id in approvals && approvals[id].state == DENIED
      ensures r.Raised? ==> id in approvals && approvals[id].state == RESUMING
                            && (answer.None? || FindKey(decisions, key).Some?)
    {
      hide FindKey, MaterialHash, Resumed, Synced;
      ResumedBlocks(Db(), id, answer, guard, key, now, at, maxAttempts);
      var w := ClaimResume(id, now);
      if w.None? {
        return Ok(NOT_ELIGIBLE);
      }
      if MaterialHash(w.value.payload) != w.value.storedHash {
        var denied := DenyClaimed(w.value, "ARGUMENTS_CHANGED", RESUME_ARGUMENTS_CHANGED, key, at);
        return if denied.Ok? then Ok(DENIED_ARGUMENTS_CHANGED) else Raised(denied.error);
      }
      if answer.None? {
        return Raised(PROVIDER_FAILED);
      }
      if guard.GUARD_DENY? {
        var denied := DenyClaimed(w.value, "OUTPUT_GUARD_DENIED", RESUME_OUTPUT_GUARD_DENIED, key, at);
        return if denied.Ok? then Ok(DENIED_OUTPUT_GUARD) else Raised(denied.error);
      }
      var _ := CompleteClaimed(w.value, guard.sanitized, at);
      r := Ok(DONE);
    }

    /** Sweeps, decides, and resumes in the same request what was just approved. An applied decision that
        returns leaves the approval in a final state; one that raises after it was applied leaves it APPROVED,
        when no policy is loaded, or RESUMING, when the worker failed. */
    method DecideAndResume(req: DecideRequest, policyLoaded: bool, answer: Option<Response>, guard: Guard, key: string,
                           swept: int, decided: int, claimed: int, at: int, ghost maxAttempts: nat)
      returns (r: Result<Settled>, ghost order: seq<Id>, ghost decision: Result<Decided>)
      modifies this
      ensures var (st, d) := Decide(Sweep(old(Db()), order, swept), req, decided);
              && decision == d
              && Db() == if ResumesInline(d) && policyLoaded
                         then Resumed(st, req.id, answer, guard, key, claimed, at, maxAttempts).store else st
      ensures decision.Raised? ==> r == Raised(decision.error)
      ensures r.Ok? ==> decision.Ok? && req.id in approvals
                        && r.value == Settled(decision.value.outcome, decision.value.row, approvals[req.id])
      ensures r.Ok? && decision.value.outcome == APPLIED ==> Final(approvals[req.id].state)
      ensures r.Raised? && decision.Ok? ==>
                && decision.value.outcome == APPLIED && req.id in approvals
                && approvals[req.id].state == if policyLoaded then RESUMING else APPROVED
    {
      hide Blank, FindKey, SameBody, Resumed, Sweep, Elapsed;
      var count, listed := SweepExpired(swept);
      order := listed;
      ghost var before := Db();
      var result := DecideApproval(req, decided);
      decision := result;
      DecidedRow(before, req, decided);
      if result.Raised? {
        return Raised(result.error), order, decision;
      }
      if ResumesInline(result) {
        if !policyLoaded {
          return Raised(POLICY_UNAVAILABLE), order, decision;
        }
        var outcome := ResumeApproved(req.id, answer, guard, key, claimed, at, maxAttempts);
        if outcome.Raised? {
          return Raised(outcome.error), order, decision;
        }
      }
      r := Ok(Settled(result.value.outcome, result.value.row, approvals[req.id]));
    }

    /** One recovered row; FAILED is not a drawn transition, so the state is written directly. */
    method RecoverRow(id: Id, maxAttempts: nat)
      requires id in approvals && approvals[id].state == RESUMING
      modifies this
      ensures Db() == ReconcileRow(old(Db()), id, maxAttempts)
    {
      var to := if approvals[id].resumeAttempts < maxAttempts then APPROVED else FAILED;
      approvals := approvals[id := approvals[id].(state := to)];
      SetStatus(approvals[id].txnId, to);
      Audit(id, STARTUP_RECONCILE, Some(Move(RESUMING, to)));
    }

    /** Returns every RESUMING row to APPROVED, or to FAILED when its attempts are used up. */
    method ReconcileResumingOnStartup(maxAttempts: nat) returns (count: nat, ghost order: seq<Id>)
      modifies this
      ensures approvals.Keys == old(approvals).Keys
      ensures forall id :: id in old(approvals) ==>
                var row := old(approvals)[id];
                approvals[id] == if row.state != RESUMING then row
                                 else if row.resumeAttempts < maxAttempts then row.(state := APPROVED)
                                 else row.(state := FAILED)
      ensures Db() == Reconcile(old(Db()), order, maxAttempts)
      ensures forall id :: id in order <==> id in old(approvals) && old(approvals)[id].state == RESUMING
      ensures count == |order| == |set id | id in old(approvals) && old(approvals)[id].state == RESUMING|
      ensures forall id :: id in approvals ==> approvals[id].state != RESUMING
    {
      hide ReconcileRow, Reconcile;
      ReconcileNothing(Db(), maxAttempts);
      var stuck := set id | id in approvals && approvals[id].state == RESUMING;
      var rest := stuck;
      count, order := 0, [];
      while rest != {}
        invariant rest <= stuck
        invariant Db() == Reconcile(old(Db()), order, maxAttempts)
        invariant forall id :: id in order <==> id in stuck - rest
        invariant approvals.Keys == old(approvals).Keys
        invariant forall id :: id in approvals && id !in order ==> approvals[id] == old(approvals)[id]
        invariant forall id :: id in order ==> approvals[id].state != RESUMING
        invariant count == |order| == |stuck| - |rest|
      {
        ghost var before := order;
        var id :| id in rest;
        RecoveredRow(Db(), id, maxAttempts);
        ReconcileOneMore(old(Db()), before, id, maxAttempts);
        RecoverRow(id, maxAttempts);
        order := order + [id];
        rest := rest - {id};
        count := count + 1;
      }
      forall id | id in old(approvals)
        ensures id in approvals
        ensures var row := old(approvals)[id];
                approvals[id] == if row.state != RESUMING then row
                                 else if row.resumeAttempts < maxAttempts then row.(state := APPROVED)
                                 else row.(state := FAILED)
      {
        ReconcileMovesRow(old(Db()), order, maxAttempts, id);
      }
    }
  }

  /** A sweep over the elapsed rows, in any order, on the fields of each row. */
  lemma SweptRow(st: Store, order: seq<Id>, now: int, id: Id)
    requires id in st.approvals && (id in order <==> Elapsed(st.approvals[id], now))
    ensures var row, after := st.approvals[id], Sweep(st, order, now).approvals;
            id in after
            && after[id] == if (row.state == PENDING || row.state == APPROVED) && row.expiresAt <= now
                            then row.(state := EXPIRED) else row
  {
    SweepMovesRow(st, order, now, id);
    if id in order {
      ListedIsExpired(st, order, now, id);
    }
  }

  lemma {:induction false} ListedIsExpired(st: Store, order: seq<Id>, now: int, id: Id)
    requires id in st.approvals && id in order
    ensures id in Sweep(st, order, now).approvals && !Elapsed(Sweep(st, order, now).approvals[id], now)
  {
    var before, last := order[..|order| - 1], order[|order| - 1];
    SweepMovesRow(st, before, now, id);
    SweepMovesRow(st, order, now, id);
    if id != last {
      ListedIsExpired(st, before, now, id);
    }
  }

  lemma SweepNothing(st: Store, now: int)
    ensures Sweep(st, [], now) == st
  {
  }

  lemma SweepOneMore(st: Store, order: seq<Id>, id: Id, now: int)
    ensures var mid := Sweep(st, order, now);
            id in mid.approvals && Elapsed(mid.approvals[id], now) ==>
              Sweep(st, order + [id], now) == MovedTo(mid, id, EXPIRED, APPROVAL_EXPIRED_SWEEP)
  {
    hide MovedTo, Elapsed;
    assert (order + [id])[..|order|] == order;
  }

  lemma ExpiredRow(st: Store, id: Id, now: int)
    requires id in st.approvals && Elapsed(st.approvals[id], now)
    ensures Allowed(st.approvals[id].state, EXPIRED)
    ensures var st' := MovedTo(st, id, EXPIRED, APPROVAL_EXPIRED_SWEEP);
            && st'.approvals.Keys == st.approvals.Keys && !Elapsed(st'.approvals[id], now)
            && forall x :: x in st.approvals && x != id ==> st'.approvals[x] == st.approvals[x]
  {
  }

  lemma ReconcileNothing(st: Store, maxAttempts: nat)
    ensures Reconcile(st, [], maxAttempts) == st
  {
  }

  lemma ReconcileOneMore(st: Store, order: seq<Id>, id: Id, maxAttempts: nat)
    ensures Reconcile(st, order + [id], maxAttempts) == ReconcileRow(Reconcile(st, order, maxAttempts), id, maxAttempts)
  {
    hide ReconcileRow;
    assert (order + [id])[..|order|] == order;
  }

  lemma RecoveredRow(st: Store, id: Id, maxAttempts: nat)
    requires id in st.approvals && st.approvals[id].state == RESUMING
    ensures var st' := ReconcileRow(st, id, maxAttempts);
            && st'.approvals.Keys == st.approvals.Keys && st'.approvals[id].state != RESUMING
            && forall x :: x in st.approvals && x != id ==> st'.approvals[x] == st.approvals[x]
  {
  }

  function StoreOr(r: Result<Store>, st: Store): Store {
    if r.Ok? then r.value else st
  }

  /** The blocks that follow a claim which left the store as `st`. */
  function AfterClaim(st: Store, w: Worker, answer: Option<Response>, guard: Guard, key: string, at: int): Store {
    if MaterialHash(w.payload) != w.storedHash
    then StoreOr(DenyResume(st, w, "ARGUMENTS_CHANGED", RESUME_ARGUMENTS_CHANGED, key, at), st)
    else if answer.None? then st
    else if guard.GUARD_DENY?
    then StoreOr(DenyResume(st, w, "OUTPUT_GUARD_DENIED", RESUME_OUTPUT_GUARD_DENIED, key, at), st)
    else StoreOr(CompleteResume(st, w, guard.sanitized, at), st)
  }

  lemma ResumedBlocks(st: Store, id: Id, answer: Option<Response>, guard: Guard, key: string, now: int, at: int,
                      maxAttempts: nat)
    ensures var (claimed, w) := Claim(st, id, now);
            Resumed(st, id, answer, guard, key, now, at, maxAttempts).store
              == if w.None? then claimed else AfterClaim(claimed, w.value, answer, guard, key, at)
  {
    hide MaterialHash, DenyResume, CompleteResume, Claim;
    FreshWorker(st, id, now);
    var (claimed, w) := Claim(st, id, now);
    var s0 := System(st, map[], [], map[]);
    var s1 := Step(s0, DoClaim(0, id, now), maxAttempts);
    assert s1.store == claimed && s1.workers == if w.Some? then map[0 := w.value] else map[];
    var s2 := Step(s1, DoVerify(0, key, at), maxAttempts);
    if w.None? {
      assert s2 == s1;
    } else if MaterialHash(w.value.payload) != w.value.storedHash {
      assert 0 !in s2.workers;
    } else {
      assert s2.store == claimed && s2.workers == map[0 := w.value.(phase := CALLING)];
      if answer.Some? {
        var s3 := Step(s2, DoAnswer(0, answer.value), maxAttempts);
        assert s3.store == claimed && s3.workers == map[0 := w.value.(phase := ANSWERED(answer.value))];
        BlocksIgnorePhase(claimed, w.value, ANSWERED(answer.value), guard, key, at);
        assert Step(s3, DoClose(0, guard, key, at), maxAttempts) == Close(s3, 0, guard, key, at);
      }
    }
  }

  lemma BlocksIgnorePhase(st: Store, w: Worker, phase: Phase, guard: Guard, key: string, at: int)
    ensures DenyResume(st, w.(phase := phase), "OUTPUT_GUARD_DENIED", RESUME_OUTPUT_GUARD_DENIED, key, at)
         == DenyResume(st, w, "OUTPUT_GUARD_DENIED", RESUME_OUTPUT_GUARD_DENIED, key, at)
    ensures guard.GUARD_ALLOW? ==>
              CompleteResume(st, w.(phase := phase), guard.sanitized, at) == CompleteResume(st, w, guard.sanitized, at)
  {
    hide FindKey;
  }

  lemma FreshWorker(st: Store, id: Id, now: int)
    ensures Claim(st, id, now).1.Some? ==> Claim(st, id, now).1.value.phase == CLAIMED
  {
  }

  /** The concurrent system started on `st` with no worker, after one uninterrupted resume of `id`. */
  ghost function Resumed(st: Store, id: Id, answer: Option<Response>, guard: Guard, key: string, now: int, at: int,
                         maxAttempts: nat): System
  {
    var s0 := System(st, map[], [], map[]);
    var s1 := Step(s0, DoClaim(0, id, now), maxAttempts);
    var s2 := Step(s1, DoVerify(0, key, at), maxAttempts);
    if answer.None? then Step(s2, DoAbandon(0), maxAttempts)
    else Step(Step(s2, DoAnswer(0, answer.value), maxAttempts), DoClose(0, guard, key, at), maxAttempts)
  }
}
