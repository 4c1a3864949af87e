/** What holds of the approval service over every run, from the invariant. */
module LifecycleTheorems {
  import opened Common
  import opened Rows
  import opened Lifecycle
  import opened LifecycleInvariant

  // ----- which moves a step can make -----

  /** The same row, whatever has happened to the stored payload. */
  predicate SameRow(a: Approval, b: Approval) {
    a.(payload := b.payload) == b
  }

  /** A drawn transition, or the one recovery edge that the table does not draw. */
  predicate LegalMove(a: Approval, b: Approval, maxAttempts: nat) {
    && SameIdentity(a, b)
    && (Allowed(a.state, b.state) || (a.state == RESUMING && b.state == FAILED && maxAttempts <= a.resumeAttempts))
    && b.resumeAttempts == a.resumeAttempts + (if b.state == RESUMING then 1 else 0)
  }

  predicate Next(a: Approval, b: Approval, maxAttempts: nat) {
    SameRow(a, b) || LegalMove(a, b, maxAttempts)
  }

  /** The actions that may take approval `id` out of RESUMING while worker `w` holds it. */
  predicate Concerns(a: Action, w: nat) {
    match a
    case DoVerify(v, _, _) => v == w
    case DoAnswer(v, _) => v == w
    case DoAbandon(v) => v == w
    case DoClose(v, _, _, _) => v == w
    case DoRestart(_) => true
    case _ => false
  }

  lemma SweepMovesRow(st: Store, order: seq<Id>, now: int, id: Id)
    requires id in st.approvals
    ensures var st' := Sweep(st, order, now);
            id in st'.approvals
            && (st'.approvals[id] == st.approvals[id]
                || (Elapsed(st.approvals[id], now) && st'.approvals[id] == st.approvals[id].(state := EXPIRED)))
  {
    if order != [] {
      SweepMovesRow(st, order[..|order| - 1], now, id);
    }
  }

  lemma ReconcileMovesRow(st: Store, order: seq<Id>, maxAttempts: nat, id: Id)
    requires id in st.approvals
    ensures id in Reconcile(st, order, maxAttempts).approvals
    ensures var row, row' := st.approvals[id], Reconcile(st, order, maxAttempts).approvals[id];
            if row.state == RESUMING && id in order
            then row' == row.(state := if row.resumeAttempts < maxAttempts then APPROVED else FAILED)
            else row' == row
  {
    if order != [] {
      var before := order[..|order| - 1];
      ReconcileMovesRow(st, before, maxAttempts, id);
      assert order == before + [order[|order| - 1]];
    }
  }

  lemma DecideMovesRow(st: Store, req: DecideRequest, now: int, maxAttempts: nat, id: Id)
    requires id in st.approvals
    ensures var st' := Decide(st, req, now).0;
            id in st'.approvals && Next(st.approvals[id], st'.approvals[id], maxAttempts)
            && (st.approvals[id].state == RESUMING ==> st'.approvals[id] == st.approvals[id])
  {
    hide FindKey, SameBody, Blank;
  }

  lemma DenyMovesRow(st: Store, w: Worker, note: string, kind: EventKind, key: string, at: int, maxAttempts: nat, id: Id)
    requires id in st.approvals
    ensures var r := DenyResume(st, w, note, kind, key, at);
            r.Ok? ==> id in r.value.approvals && Next(st.approvals[id], r.value.approvals[id], maxAttempts)
                      && (id != w.id ==> r.value.approvals[id] == st.approvals[id])
  {
    hide FindKey;
  }

  lemma CompleteMovesRow(st: Store, w: Worker, sanitized: Response, at: int, maxAttempts: nat, id: Id)
    requires id in st.approvals
    ensures var r := CompleteResume(st, w, sanitized, at);
            r.Ok? ==> id in r.value.approvals && Next(st.approvals[id], r.value.approvals[id], maxAttempts)
                      && (id != w.id ==> r.value.approvals[id] == st.approvals[id])
  {
  }

  lemma ClaimMovesRow(st: Store, claimed: Id, now: int, maxAttempts: nat, id: Id)
    requires id in st.approvals
    ensures var st' := Claim(st, claimed, now).0;
            id in st'.approvals && Next(st.approvals[id], st'.approvals[id], maxAttempts)
            && (st.approvals[id].state == RESUMING ==> st'.approvals[id] == st.approvals[id])
  {
  }

  /** A worker's own step moves no row but the one it holds. */
  lemma WorkerMovesRow(s: System, a: Action, w: nat, maxAttempts: nat, id: Id)
    requires id in s.store.approvals && w in s.workers && (a.DoVerify? || a.DoClose?) && a.w == w
    ensures var st' := Step(s, a, maxAttempts).store;
            id in st'.approvals && Next(s.store.approvals[id], st'.approvals[id], maxAttempts)
            && (id != s.workers[w].id ==> st'.approvals[id] == s.store.approvals[id])
  {
    hide MaterialHash, DenyResume, CompleteResume, Next;
    assert Next(s.store.approvals[id], s.store.approvals[id], maxAttempts) by { RowStays(s.store.approvals[id], maxAttempts); }
    match a
    case DoVerify(_, key, at) =>
      DenyMovesRow(s.store, s.workers[w], "ARGUMENTS_CHANGED", RESUME_ARGUMENTS_CHANGED, key, at, maxAttempts, id);
    case DoClose(_, guard, key, at) =>
      DenyMovesRow(s.store, s.workers[w], "OUTPUT_GUARD_DENIED", RESUME_OUTPUT_GUARD_DENIED, key, at, maxAttempts, id);
      if guard.GUARD_ALLOW? { CompleteMovesRow(s.store, s.workers[w], guard.sanitized, at, maxAttempts, id); }
  }

  lemma RowStays(row: Approval, maxAttempts: nat)
    ensures Next(row, row, maxAttempts)
  {
  }

  /** Every step changes a row along a legal edge only. */
  lemma StepMovesRow(s: System, a: Action, maxAttempts: nat, id: Id)
    requires id in s.store.approvals
    ensures id in Step(s, a, maxAttempts).store.approvals
    ensures Next(s.store.approvals[id], Step(s, a, maxAttempts).store.approvals[id], maxAttempts)
  {
    hide MaterialHash, Decide, Sweep, Reconcile, Claim, Verify, Close;
    match a
    case DoDecide(request, now) => DecideMovesRow(s.store, request, now, maxAttempts, id);
    case DoSweep(order, now) => SweepMovesRow(s.store, order, now, id);
    case DoClaim(_, claimed, now) => ClaimMovesRow(s.store, claimed, now, maxAttempts, id);
    case DoVerify(w, _, _) => if w in s.workers { WorkerMovesRow(s, a, w, maxAttempts, id); }
    case DoClose(w, _, _, _) => if w in s.workers { WorkerMovesRow(s, a, w, maxAttempts, id); }
    case DoRestart(order) => ReconcileMovesRow(s.store, order, maxAttempts, id);
    case _ =>
  }

  /** A row that a worker holds is moved by that worker or by a restart, and by nothing else. */
  lemma StepSparesHeldRow(s: System, a: Action, maxAttempts: nat, w: nat)
    requires Inv(s, maxAttempts) && w in s.workers && !Concerns(a, w)
    ensures var id := s.workers[w].id;
            && id in s.store.approvals && id in Step(s, a, maxAttempts).store.approvals
            && SameRow(s.store.approvals[id], Step(s, a, maxAttempts).store.approvals[id])
  {
    hide Inv, MaterialHash, Decide, Sweep, Reconcile, Claim, Verify, Close, Next;
    HolderIsResuming(s, maxAttempts, w);
    var id := s.workers[w].id;
    match a
    case DoDecide(request, now) => DecideMovesRow(s.store, request, now, maxAttempts, id);
    case DoSweep(order, now) => SweepMovesRow(s.store, order, now, id);
    case DoClaim(_, claimed, now) => ClaimMovesRow(s.store, claimed, now, maxAttempts, id);
    case DoVerify(v, _, _) =>
      if v in s.workers { WorkersDiffer(s, maxAttempts, v, w); WorkerMovesRow(s, a, v, maxAttempts, id); }
    case DoClose(v, _, _, _) =>
      if v in s.workers { WorkersDiffer(s, maxAttempts, v, w); WorkerMovesRow(s, a, v, maxAttempts, id); }
    case _ =>
  }

  lemma HolderIsResuming(s: System, maxAttempts: nat, w: nat)
    requires Inv(s, maxAttempts) && w in s.workers
    ensures var id := s.workers[w].id; id in s.store.approvals && s.store.approvals[id].state == RESUMING
  {
    assert WorkerOk(s, s.workers[w]);
  }

  lemma WorkersDiffer(s: System, maxAttempts: nat, v: nat, w: nat)
    requires Inv(s, maxAttempts) && v in s.workers && w in s.workers && v != w
    ensures s.workers[v].id != s.workers[w].id
  {
  }

  /** DENIED, EXPIRED, CANCELLED, COMPLETED and FAILED are never left, whatever runs afterwards. */
  lemma {:induction false} FinalIsFinal(s: System, actions: seq<Action>, maxAttempts: nat, id: Id)
    requires Inv(s, maxAttempts) && 1 <= maxAttempts && id in s.store.approvals && Final(s.store.approvals[id].state)
    ensures Inv(Run(s, actions, maxAttempts), maxAttempts) && id in Run(s, actions, maxAttempts).store.approvals
    ensures SameRow(s.store.approvals[id], Run(s, actions, maxAttempts).store.approvals[id])
  {
    hide Inv, Step;
    if actions != [] {
      var before, a := actions[..|actions| - 1], actions[|actions| - 1];
      FinalIsFinal(s, before, maxAttempts, id);
      StepMovesRow(Run(s, before, maxAttempts), a, maxAttempts, id);
      StepKeeps(Run(s, before, maxAttempts), a, maxAttempts);
    }
  }

  // ----- exclusive ownership -----

  /** In every interleaving at most one worker holds an approval, and it holds it in RESUMING. */
  lemma ExclusiveOwnership(actions: seq<Action>, maxAttempts: nat, w: nat, v: nat)
    requires 1 <= maxAttempts
    requires var s := Run(INITIAL, actions, maxAttempts);
             w in s.workers && v in s.workers && s.workers[w].id == s.workers[v].id
    ensures w == v
    ensures var s := Run(INITIAL, actions, maxAttempts); var id := s.workers[w].id;
            id in s.store.approvals && s.store.approvals[id].state == RESUMING
            && s.store.approvals[id].resumeAttempts == s.workers[w].attempt
  {
    hide StoreOk, CallsOk, CountsOk, OriginOk, Step;
    RunKeeps(actions, maxAttempts);
    var s := Run(INITIAL, actions, maxAttempts);
    assert WorkerOk(s, s.workers[w]);
  }

  /** However many steps others take, a worker's claim and its row stay as they are until it acts. */
  lemma {:induction false} ClaimIsUndisturbed(s: System, actions: seq<Action>, maxAttempts: nat, w: nat)
    requires Inv(s, maxAttempts) && 1 <= maxAttempts && w in s.workers
    requires forall i :: 0 <= i < |actions| ==> !Concerns(actions[i], w)
    ensures var s' := Run(s, actions, maxAttempts);
            && Inv(s', maxAttempts) && w in s'.workers && s'.workers[w] == s.workers[w]
            && s.workers[w].id in s.store.approvals && s.workers[w].id in s'.store.approvals
            && SameRow(s.store.approvals[s.workers[w].id], s'.store.approvals[s.workers[w].id])
  {
    hide Inv, Step;
    if actions != [] {
      var before, a := actions[..|actions| - 1], actions[|actions| - 1];
      ClaimIsUndisturbed(s, before, maxAttempts, w);
      var mid := Run(s, before, maxAttempts);
      StepKeeps(mid, a, maxAttempts);
      StepSparesHeldRow(mid, a, maxAttempts, w);
      StepKeepsWorker(mid, a, maxAttempts, w);
    } else {
      HolderIsResuming(s, maxAttempts, w);
    }
  }

  lemma StepKeepsWorker(s: System, a: Action, maxAttempts: nat, w: nat)
    requires w in s.workers && !Concerns(a, w)
    ensures w in Step(s, a, maxAttempts).workers && Step(s, a, maxAttempts).workers[w] == s.workers[w]
  {
    hide Create, Decide, Sweep, Claim, Reconcile, MaterialHash, DenyResume, CompleteResume;
  }

  /** The closing write of a live worker is always a permitted transition: completing never raises,
      and a denial can fail only on an idempotency key that is already in the table. */
  lemma ClosingNeverRejected(actions: seq<Action>, maxAttempts: nat, w: nat, sanitized: Response,
                             note: string, kind: EventKind, key: string, at: int)
    requires 1 <= maxAttempts && kind != RESUME_CLAIMED
    requires w in Run(INITIAL, actions, maxAttempts).workers
    ensures var s := Run(INITIAL, actions, maxAttempts);
            && CompleteResume(s.store, s.workers[w], sanitized, at).Ok?
            && DenyResume(s.store, s.workers[w], note, kind, key, at)
                 == (if FindKey(s.store.decisions, key).Some? then Raised(INTEGRITY_ERROR)
                     else Ok(DenyResume(s.store, s.workers[w], note, kind, key, at).value))
  {
    hide StoreOk, CallsOk, CountsOk, OriginOk, Step, FindKey;
    RunKeeps(actions, maxAttempts);
    var s := Run(INITIAL, actions, maxAttempts);
    assert WorkerOk(s, s.workers[w]);
  }

  // ----- the audit trail -----

  /** The events alone reproduce the state, their number of claims is the attempt count, and the
      transaction's status is the state, read as APPROVED while a worker is busy. */
  lemma AuditReproducesState(actions: seq<Action>, maxAttempts: nat, id: Id)
    requires 1 <= maxAttempts
    ensures var st := Run(INITIAL, actions, maxAttempts).store;
            if id in st.approvals then
              var row := st.approvals[id];
              && Replay(st.events, id) == AT(row.state)
              && Claims(st.events, id) == row.resumeAttempts
              && row.txnId in st.txns && st.txns[row.txnId].status == StatusOf(row.state)
              && (row.completion.Some? <==> row.state == COMPLETED)
            else Replay(st.events, id) == ABSENT && Claims(st.events, id) == 0
  {
    hide Replay, Claims, Verdicts, Step, WorkersOk, CallsOk, CountsOk, OriginOk;
    RunKeeps(actions, maxAttempts);
    var st := Run(INITIAL, actions, maxAttempts).store;
    assert id in st.approvals ==> RowOk(st, id, maxAttempts);
    assert id !in st.approvals ==> Untouched(st, id);
  }

  /** A trail that is not broken names, in each move, the state the trail had reached before it. */
  lemma {:induction false} TrailIsLinked(events: seq<Event>, id: Id, k: nat)
    requires k < |events| && events[k].approvalId == id
    ensures Replay(events, id) != ABSENT
    ensures Replay(events, id) != BROKEN ==>
              Replay(events[..k], id) == match events[k].move case None => ABSENT case Some(m) => AT(m.from)
  {
    var before := events[..|events| - 1];
    if k < |events| - 1 {
      assert before[..k] == events[..k];
      TrailIsLinked(before, id, k);
    }
  }

  /** In every reachable store each event's `from` is the state its approval had then. */
  lemma AuditIsLinked(actions: seq<Action>, maxAttempts: nat, k: nat)
    requires 1 <= maxAttempts && k < |Run(INITIAL, actions, maxAttempts).store.events|
    ensures var events := Run(INITIAL, actions, maxAttempts).store.events;
            Replay(events[..k], events[k].approvalId)
              == match events[k].move case None => ABSENT case Some(m) => AT(m.from)
  {
    hide Replay, Run;
    var events := Run(INITIAL, actions, maxAttempts).store.events;
    AuditReproducesState(actions, maxAttempts, events[k].approvalId);
    TrailIsLinked(events, events[k].approvalId, k);
  }

  // ----- what was called -----

  lemma {:induction false} TheOneVerdict(rows: seq<DecisionRow>, id: Id) returns (d: nat)
    requires |Verdicts(rows, id)| == 1
    ensures d < |rows| && rows[d] == Verdicts(rows, id)[0] && ByReviewer(rows[d], id)
    ensures forall e :: 0 <= e < |rows| && ByReviewer(rows[e], id) ==> e == d
  {
    var before := rows[..|rows| - 1];
    if ByReviewer(rows[|rows| - 1], id) {
      d := |rows| - 1;
      NoVerdicts(before, id);
    } else {
      d := TheOneVerdict(before, id);
    }
    forall e | 0 <= e < |rows| && ByReviewer(rows[e], id) ensures e == d {
      assert e < |before| ==> before[e] == rows[e];
    }
  }

  lemma NoVerdicts(rows: seq<DecisionRow>, id: Id)
    requires Verdicts(rows, id) == []
    ensures forall e :: 0 <= e < |rows| ==> !ByReviewer(rows[e], id)
  {
    if rows != [] {
      NoVerdicts(rows[..|rows| - 1], id);
      forall e | 0 <= e < |rows| ensures !ByReviewer(rows[e], id) {
        assert e < |rows| - 1 ==> rows[..|rows| - 1][e] == rows[e];
      }
    }
  }

  /** `row` is the only reviewer decision on `id`: it approves, in time, and is not the creator's. */
  ghost predicate SoleApproval(st: Store, id: Id, d: nat)
    requires id in st.approvals
  {
    && d < |st.decisions|
    && st.decisions[d].approvalId == id
    && st.decisions[d].decision == APPROVE
    && st.decisions[d].reviewer != st.approvals[id].creator
    && st.decisions[d].createdAt < st.approvals[id].expiresAt
    && forall e :: 0 <= e < |st.decisions| && ByReviewer(st.decisions[e], id) ==> e == d
  }

  /** Whatever reached the provider had exactly one reviewer's approval, was decided and claimed before
      it expired, and asked what was asked at creation, even if stored payloads were altered meanwhile. */
  lemma CalledAsApproved(actions: seq<Action>, maxAttempts: nat, i: nat) returns (d: nat)
    requires 1 <= maxAttempts && i < |Run(INITIAL, actions, maxAttempts).calls|
    ensures var s := Run(INITIAL, actions, maxAttempts); var c := s.calls[i];
            && c.id in s.store.approvals && c.id in s.origin
            && SoleApproval(s.store, c.id, d)
            && c.claimedAt < s.store.approvals[c.id].expiresAt
            && SameRequest(c.payload, s.origin[c.id])
  {
    hide Replay, Claims, Verdicts, Step, WorkersOk, CountsOk, StoreOk, MaterialHash;
    RunKeeps(actions, maxAttempts);
    var s := Run(INITIAL, actions, maxAttempts);
    var c := s.calls[i];
    assert CallOk(s, c);
    HashDecidesRequest(c.payload, s.origin[c.id]);
    d := TheOneVerdict(s.store.decisions, c.id);
  }

  // ----- what COMPLETED means -----

  ghost predicate WasSent(s: System, id: Id, attempt: nat) {
    exists i :: 0 <= i < |s.calls| && s.calls[i].id == id && s.calls[i].attempt == attempt
  }

  /** Who waits for an answer, has one, or was completed with one, did call the provider under that very claim. */
  ghost predicate AnswersWereSent(s: System) {
    && (forall w :: w in s.workers && !s.workers[w].phase.CLAIMED? ==> WasSent(s, s.workers[w].id, s.workers[w].attempt))
    && (forall id :: id in s.store.approvals && s.store.approvals[id].state == COMPLETED ==>
          WasSent(s, id, s.store.approvals[id].resumeAttempts))
  }

  lemma DenyNeverCompletes(st: Store, w: Worker, note: string, kind: EventKind, key: string, at: int, id: Id)
    requires id in st.approvals
    ensures var r := DenyResume(st, w, note, kind, key, at);
            r.Ok? && id in r.value.approvals ==> r.value.approvals[id] == st.approvals[id] || r.value.approvals[id].state == DENIED
  {
    hide FindKey;
  }

  /** Nothing but the closing write of a worker with an answer brings a row to COMPLETED. */
  lemma OnlyClosingCompletes(s: System, a: Action, maxAttempts: nat, id: Id)
    requires id in s.store.approvals && s.store.approvals[id].state != COMPLETED
    requires id in Step(s, a, maxAttempts).store.approvals && Step(s, a, maxAttempts).store.approvals[id].state == COMPLETED
    ensures a.DoClose? && a.w in s.workers && s.workers[a.w].phase.ANSWERED? && s.workers[a.w].id == id
    ensures Step(s, a, maxAttempts).store.approvals[id].resumeAttempts == s.store.approvals[id].resumeAttempts
  {
    hide MaterialHash, Decide, Sweep, Reconcile, Claim, DenyResume, CompleteResume;
    StepMovesRow(s, a, maxAttempts, id);
    match a
    case DoDecide(request, now) => DecideMovesRow(s.store, request, now, maxAttempts, id);
    case DoSweep(order, now) => SweepMovesRow(s.store, order, now, id);
    case DoClaim(_, claimed, now) => ClaimMovesRow(s.store, claimed, now, maxAttempts, id);
    case DoVerify(w, key, at) =>
      if w in s.workers {
        DenyNeverCompletes(s.store, s.workers[w], "ARGUMENTS_CHANGED", RESUME_ARGUMENTS_CHANGED, key, at, id);
      }
    case DoClose(w, guard, key, at) =>
      if w in s.workers {
        DenyNeverCompletes(s.store, s.workers[w], "OUTPUT_GUARD_DENIED", RESUME_OUTPUT_GUARD_DENIED, key, at, id);
        if guard.GUARD_ALLOW? { CompleteMovesRow(s.store, s.workers[w], guard.sanitized, at, maxAttempts, id); }
      }
    case DoRestart(order) => ReconcileMovesRow(s.store, order, maxAttempts, id);
    case _ =>
  }

  lemma StepKeepsCalls(s: System, a: Action, maxAttempts: nat)
    ensures s.calls <= Step(s, a, maxAttempts).calls
    ensures forall id, attempt :: WasSent(s, id, attempt) ==> WasSent(Step(s, a, maxAttempts), id, attempt)
  {
    hide MaterialHash, Decide, Sweep, Reconcile, Claim, DenyResume, CompleteResume, Create;
  }

  /** A worker past its claim was past it before, or calls just now. */
  lemma StepKeepsSenders(s: System, a: Action, maxAttempts: nat, w: nat)
    requires AnswersWereSent(s) && w in Step(s, a, maxAttempts).workers
    requires !Step(s, a, maxAttempts).workers[w].phase.CLAIMED?
    ensures var s' := Step(s, a, maxAttempts); WasSent(s', s'.workers[w].id, s'.workers[w].attempt)
  {
    hide MaterialHash, Decide, Sweep, Reconcile, DenyResume, CompleteResume, Create, WasSent;
    StepKeepsCalls(s, a, maxAttempts);
    var s' := Step(s, a, maxAttempts);
    if a.DoVerify? && a.w == w && s.workers[w].phase.CLAIMED? {
      LastCall(s', s'.workers[w].id, s'.workers[w].attempt);
    }
  }

  lemma LastCall(s: System, id: Id, attempt: nat)
    requires s.calls != [] && s.calls[|s.calls| - 1].id == id && s.calls[|s.calls| - 1].attempt == attempt
    ensures WasSent(s, id, attempt)
  {
  }

  lemma StepKeepsCompleted(s: System, a: Action, maxAttempts: nat, id: Id)
    requires Inv(s, maxAttempts) && AnswersWereSent(s) && Inv(Step(s, a, maxAttempts), maxAttempts)
    requires id in Step(s, a, maxAttempts).store.approvals && Step(s, a, maxAttempts).store.approvals[id].state == COMPLETED
    ensures var s' := Step(s, a, maxAttempts); WasSent(s', id, s'.store.approvals[id].resumeAttempts)
  {
    hide Inv, Step, WasSent;
    StepKeepsCalls(s, a, maxAttempts);
    NewRowIsPending(s, a, maxAttempts, id);
    StepMovesRow(s, a, maxAttempts, id);
    if s.store.approvals[id].state != COMPLETED {
      OnlyClosingCompletes(s, a, maxAttempts, id);
      HolderAttempt(s, maxAttempts, a.w);
    }
  }

  lemma NewRowIsPending(s: System, a: Action, maxAttempts: nat, id: Id)
    requires Inv(s, maxAttempts) && Inv(Step(s, a, maxAttempts), maxAttempts)
    requires id in Step(s, a, maxAttempts).store.approvals
    ensures id in s.store.approvals || Step(s, a, maxAttempts).store.approvals[id].state == PENDING
  {
    hide MaterialHash, Decide, Sweep, Reconcile, Claim, DenyResume, CompleteResume, StoreOk, CountsOk, WorkersOk, CallsOk;
    assert id in Step(s, a, maxAttempts).origin;
  }

  lemma HolderAttempt(s: System, maxAttempts: nat, w: nat)
    requires Inv(s, maxAttempts) && w in s.workers
    ensures s.workers[w].id in s.store.approvals
    ensures s.workers[w].attempt == s.store.approvals[s.workers[w].id].resumeAttempts
  {
    assert WorkerOk(s, s.workers[w]);
  }

  lemma {:induction false} RunSends(actions: seq<Action>, maxAttempts: nat)
    requires 1 <= maxAttempts
    ensures AnswersWereSent(Run(INITIAL, actions, maxAttempts))
  {
    hide Inv, Step, WasSent;
    if actions != [] {
      var before, a := actions[..|actions| - 1], actions[|actions| - 1];
      RunSends(before, maxAttempts);
      RunKeeps(before, maxAttempts);
      var s := Run(INITIAL, before, maxAttempts);
      var s' := Step(s, a, maxAttempts);
      StepKeeps(s, a, maxAttempts);
      forall w | w in s'.workers && !s'.workers[w].phase.CLAIMED? ensures WasSent(s', s'.workers[w].id, s'.workers[w].attempt) {
        StepKeepsSenders(s, a, maxAttempts, w);
      }
      forall id | id in s'.store.approvals && s'.store.approvals[id].state == COMPLETED
        ensures WasSent(s', id, s'.store.approvals[id].resumeAttempts)
      {
        StepKeepsCompleted(s, a, maxAttempts, id);
      }
    }
  }

  /** COMPLETED is no empty word: under its last claim the request reached the provider, asking what was asked at its
      creation, after exactly one reviewer, not its creator, had approved it. */
  lemma CompletedWasSent(actions: seq<Action>, maxAttempts: nat, id: Id) returns (i: nat, d: nat)
    requires 1 <= maxAttempts
    requires var s := Run(INITIAL, actions, maxAttempts); id in s.store.approvals && s.store.approvals[id].state == COMPLETED
    ensures var s := Run(INITIAL, actions, maxAttempts);
            && i < |s.calls| && s.calls[i].id == id && s.calls[i].attempt == s.store.approvals[id].resumeAttempts
            && id in s.origin && SameRequest(s.calls[i].payload, s.origin[id]) && SoleApproval(s.store, id, d)
  {
    hide Run, SoleApproval, SameRequest;
    RunSends(actions, maxAttempts);
    var s := Run(INITIAL, actions, maxAttempts);
    assert WasSent(s, id, s.store.approvals[id].resumeAttempts);
    i :| 0 <= i < |s.calls| && s.calls[i].id == id && s.calls[i].attempt == s.store.approvals[id].resumeAttempts;
    d := CalledAsApproved(actions, maxAttempts, i);
  }

  /** The hash leaves out the rest of the body: a payload altered there is called as it stands. */
  lemma OtherFieldsAreNotCovered(p: Payload, fields: string)
    ensures SameRequest(p, p.(otherFields := fields))
    ensures MaterialHash(p) == MaterialHash(p.(otherFields := fields))
  {
    HashDecidesRequest(p, p.(otherFields := fields));
  }

  /** Across crashes and retries the provider is called at most once per claim, so at most `maxAttempts` times. */
  lemma CallsAreBounded(actions: seq<Action>, maxAttempts: nat, id: Id)
    requires 1 <= maxAttempts && id in Run(INITIAL, actions, maxAttempts).store.approvals
    ensures var s := Run(INITIAL, actions, maxAttempts);
            CallsFor(s.calls, id) <= s.store.approvals[id].resumeAttempts <= maxAttempts
    ensures var calls := Run(INITIAL, actions, maxAttempts).calls;
            forall i, j :: 0 <= i < j < |calls| && calls[i].id == calls[j].id == id ==> calls[i].attempt < calls[j].attempt
  {
    hide Replay, Claims, Verdicts, Step, WorkersOk, CallsFor, CallOk;
    RunKeeps(actions, maxAttempts);
    assert RowOk(Run(INITIAL, actions, maxAttempts).store, id, maxAttempts);
  }

  // ----- how often an approval can change state -----

  /** How many more state changes the row can make. */
  function Remaining(row: Approval, maxAttempts: nat): nat {
    var retries := if row.resumeAttempts <= maxAttempts then 2 * (maxAttempts - row.resumeAttempts) else 0;
    match row.state
    case PENDING => 2 * maxAttempts + 1
    case APPROVED => retries
    case RESUMING => retries + 1
    case _ => 0
  }

  /** Every change of state spends at least one of them. */
  lemma MoveSpends(a: Approval, b: Approval, maxAttempts: nat)
    requires AttemptsOk(a, maxAttempts) && AttemptsOk(b, maxAttempts) && Next(a, b, maxAttempts)
    ensures a.state == b.state ==> Remaining(b, maxAttempts) == Remaining(a, maxAttempts)
    ensures a.state != b.state ==> Remaining(b, maxAttempts) < Remaining(a, maxAttempts)
  {
  }

  function StateIn(s: System, id: Id): Option<State> {
    if id in s.store.approvals then Some(s.store.approvals[id].state) else None
  }

  /** The number of steps of the run that change the state of `id` after its creation. */
  ghost function Changes(actions: seq<Action>, maxAttempts: nat, id: Id): nat {
    if actions == [] then 0
    else
      var before := actions[..|actions| - 1];
      var was := StateIn(Run(INITIAL, before, maxAttempts), id);
      Changes(before, maxAttempts, id)
        + if was.Some? && was != StateIn(Run(INITIAL, actions, maxAttempts), id) then 1 else 0
  }

  /** No approval changes state more than `2 * maxAttempts + 1` times, however long the system runs. */
  lemma {:induction false} ChangesAreBounded(actions: seq<Action>, maxAttempts: nat, id: Id)
    requires 1 <= maxAttempts
    ensures var s := Run(INITIAL, actions, maxAttempts);
            if id in s.store.approvals
            then Changes(actions, maxAttempts, id) + Remaining(s.store.approvals[id], maxAttempts) <= 2 * maxAttempts + 1
            else Changes(actions, maxAttempts, id) == 0
  {
    hide Inv, Step, Next, Remaining;
    if actions != [] {
      var before, a := actions[..|actions| - 1], actions[|actions| - 1];
      ChangesAreBounded(before, maxAttempts, id);
      RunKeeps(before, maxAttempts);
      RunKeeps(actions, maxAttempts);
      var s, s' := Run(INITIAL, before, maxAttempts), Run(INITIAL, actions, maxAttempts);
      if id in s.store.approvals {
        StepMovesRow(s, a, maxAttempts, id);
        AttemptsHold(s, maxAttempts, id);
        AttemptsHold(s', maxAttempts, id);
        MoveSpends(s.store.approvals[id], s'.store.approvals[id], maxAttempts);
      } else if id in s'.store.approvals {
        RemainingAtMost(s'.store.approvals[id], maxAttempts);
      }
    }
  }

  lemma AttemptsHold(s: System, maxAttempts: nat, id: Id)
    requires Inv(s, maxAttempts) && id in s.store.approvals
    ensures AttemptsOk(s.store.approvals[id], maxAttempts)
  {
    assert RowOk(s.store, id, maxAttempts);
  }

  lemma RemainingAtMost(row: Approval, maxAttempts: nat)
    ensures Remaining(row, maxAttempts) <= 2 * maxAttempts + 1
  {
  }

  // ----- restart -----

  /** A restart that visits every RESUMING row leaves none, and retries exactly those with attempts left. */
  lemma RestartRecovers(s: System, order: seq<Id>, maxAttempts: nat, id: Id)
    requires id in s.store.approvals
    requires forall x :: x in s.store.approvals && s.store.approvals[x].state == RESUMING ==> x in order
    ensures var s', row := Step(s, DoRestart(order), maxAttempts), s.store.approvals[id];
            && s'.workers == map[] && id in s'.store.approvals
            && s'.store.approvals[id].state != RESUMING
            && (row.state == RESUMING ==>
                  (s'.store.approvals[id].state == APPROVED <==> row.resumeAttempts < maxAttempts)
                  && (s'.store.approvals[id].state == FAILED <==> maxAttempts <= row.resumeAttempts))
            && (row.state != RESUMING ==> s'.store.approvals[id] == row)
  {
    ReconcileMovesRow(s.store, order, maxAttempts, id);
  }

  // ----- idempotent decisions -----

  lemma DenyKeepsKeys(st: Store, w: Worker, note: string, kind: EventKind, key': string, at: int, key: string)
    ensures var r := DenyResume(st, w, note, kind, key', at);
            r.Ok? && FindKey(st.decisions, key).Some? ==> FindKey(r.value.decisions, key) == FindKey(st.decisions, key)
  {
    var r := DenyResume(st, w, note, kind, key', at);
    if r.Ok? {
      AppendRow(st.decisions, r.value.decisions[|st.decisions|], w.id, key);
    }
  }

  lemma DecideKeepsKeys(st: Store, req: DecideRequest, now: int, key: string)
    requires FindKey(st.decisions, key).Some?
    ensures FindKey(Decide(st, req, now).0.decisions, key) == FindKey(st.decisions, key)
  {
    hide SameBody, Blank;
    var (st', r) := Decide(st, req, now);
    if r.Ok? && r.value.outcome == APPLIED {
      AppendRow(st.decisions, r.value.row, req.id, key);
    }
  }

  lemma LoopsKeepDecisions(st: Store, order: seq<Id>, now: int, maxAttempts: nat)
    ensures Sweep(st, order, now).decisions == st.decisions && Sweep(st, order, now).approvals.Keys == st.approvals.Keys
    ensures Reconcile(st, order, maxAttempts).decisions == st.decisions
    ensures Reconcile(st, order, maxAttempts).approvals.Keys == st.approvals.Keys
  {
    if order != [] {
      LoopsKeepDecisions(st, order[..|order| - 1], now, maxAttempts);
    }
  }

  /** A decision row once written is found under its key for ever. */
  lemma StepKeepsKeys(s: System, a: Action, maxAttempts: nat, key: string)
    requires FindKey(s.store.decisions, key).Some?
    ensures FindKey(Step(s, a, maxAttempts).store.decisions, key) == FindKey(s.store.decisions, key)
    ensures s.store.approvals.Keys <= Step(s, a, maxAttempts).store.approvals.Keys
  {
    hide FindKey, Sweep, Reconcile, MaterialHash, SameBody, Blank;
    match a
    case DoDecide(request, now) => DecideKeepsKeys(s.store, request, now, key);
    case DoSweep(order, now) => LoopsKeepDecisions(s.store, order, now, maxAttempts);
    case DoRestart(order) => LoopsKeepDecisions(s.store, order, 0, maxAttempts);
    case DoVerify(w, key', at) =>
      if w in s.workers {
        DenyKeepsKeys(s.store, s.workers[w], "ARGUMENTS_CHANGED", RESUME_ARGUMENTS_CHANGED, key', at, key);
      }
    case DoClose(w, guard, key', at) =>
      if w in s.workers {
        DenyKeepsKeys(s.store, s.workers[w], "OUTPUT_GUARD_DENIED", RESUME_OUTPUT_GUARD_DENIED, key', at, key);
      }
    case _ =>
  }

  lemma {:induction false} RunKeepsKeys(s: System, actions: seq<Action>, maxAttempts: nat, key: string)
    requires FindKey(s.store.decisions, key).Some?
    ensures FindKey(Run(s, actions, maxAttempts).store.decisions, key) == FindKey(s.store.decisions, key)
    ensures s.store.approvals.Keys <= Run(s, actions, maxAttempts).store.approvals.Keys
  {
    hide Step, FindKey;
    if actions != [] {
      var before := actions[..|actions| - 1];
      RunKeepsKeys(s, before, maxAttempts, key);
      StepKeepsKeys(Run(s, before, maxAttempts), actions[|actions| - 1], maxAttempts, key);
    }
  }

  /** Only an applied APPROVE makes the caller resume the approval. */
  predicate ResumesInline(r: Result<Decided>) {
    r.Ok? && r.value.outcome == APPLIED && r.value.state == APPROVED
  }

  lemma DecidedIsStored(s: System, req: DecideRequest, now: int, maxAttempts: nat)
    requires Decide(s.store, req, now).1.Ok?
    ensures var row := Decide(s.store, req, now).1.value.row;
            var st := Step(s, DoDecide(req, now), maxAttempts).store;
            FindKey(st.decisions, req.key) == Some(row) && row.approvalId in st.approvals
  {
    hide Blank, FindKey;
    AppendRow(s.store.decisions, Decide(s.store, req, now).1.value.row, req.id, req.key);
  }

  lemma ReplayAnswers(st: Store, row: DecisionRow, again: DecideRequest, later: int)
    requires FindKey(st.decisions, again.key) == Some(row) && row.approvalId in st.approvals
    ensures var (st', r) := Decide(st, again, later);
            && st' == st && !ResumesInline(r)
            && (r.Ok? <==> SameBody(row, again))
            && (r.Ok? ==> r.value.outcome == REPLAYED && r.value.row == row)
            && (r.Raised? ==> r.error == IDEMPOTENCY_CONFLICT)
  {
    hide Blank, FindKey;
  }

  /** Two notes are the same to the service: equal, or each absent or empty. */
  predicate SameNote(a: Option<string>, b: Option<string>) {
    a == b || ((a.None? || a.value == "") && (b.None? || b.value == ""))
  }

  lemma SameBodyOnFields(row: DecisionRow, again: DecideRequest)
    ensures SameBody(row, again) <==>
              row.approvalId == again.id && row.decision == again.decision && SameNote(row.note, again.note)
  {
  }

  lemma DecidedAsAsked(st: Store, req: DecideRequest, now: int)
    requires Decide(st, req, now).1.Ok?
    ensures var row := Decide(st, req, now).1.value.row;
            row.approvalId == req.id && row.decision == req.decision && SameNote(row.note, req.note)
  {
    hide Blank, FindKey;
  }

  /** After a decision was accepted and any number of steps have run, its key answers with that row exactly when the
      approval, the decision and the note are the same again, and is a conflict otherwise; either way nothing
      changes and nothing is resumed. */
  lemma DecisionIsIdempotent(s: System, req: DecideRequest, now: int, actions: seq<Action>, maxAttempts: nat,
                             again: DecideRequest, later: int)
    requires Decide(s.store, req, now).1.Ok? && again.key == req.key
    ensures var row := Decide(s.store, req, now).1.value.row;
            var st := Run(Step(s, DoDecide(req, now), maxAttempts), actions, maxAttempts).store;
            var (st', r) := Decide(st, again, later);
            && st' == st && !ResumesInline(r)
            && (if again.id == req.id && again.decision == req.decision && SameNote(again.note, req.note)
                then r.Ok? && r.value.outcome == REPLAYED && r.value.row == row
                else r == Raised(IDEMPOTENCY_CONFLICT))
  {
    hide Run, Step, Decide, FindKey, SameBody, ResumesInline;
    DecidedAsAsked(s.store, req, now);
    SameBodyOnFields(Decide(s.store, req, now).1.value.row, again);
    var s' := Step(s, DoDecide(req, now), maxAttempts);
    var row := Decide(s.store, req, now).1.value.row;
    DecidedIsStored(s, req, now, maxAttempts);
    RunKeepsKeys(s', actions, maxAttempts, req.key);
    ReplayAnswers(Run(s', actions, maxAttempts).store, row, again, later);
  }

  /** The note has a character that is not white space. */
  ghost predicate HasText(note: Option<string>) {
    note.Some? && exists c :: c in note.value && !IsSpace(c)
  }

  lemma TextIsNotBlank(note: Option<string>)
    ensures HasText(note) <==> !Blank(note)
  {
    hide IsSpace;
  }

  /** Why a decision is refused: each error says what it found, and nothing is changed. */
  lemma RefusalIsExplained(st: Store, req: DecideRequest, now: int)
    requires Decide(st, req, now).1.Raised? && FindKey(st.decisions, req.key).None?
    ensures Decide(st, req, now).0 == st
    ensures var e := Decide(st, req, now).1.error;
            if req.id !in st.approvals then e == APPROVAL_NOT_FOUND
            else
              var row := st.approvals[req.id];
              if row.state == EXPIRED || (row.state == PENDING && row.expiresAt <= now) then e == APPROVAL_EXPIRED
              else if row.state != PENDING then e == INVALID_APPROVAL_STATE
              else if req.reviewer == row.creator then e == SELF_APPROVAL_FORBIDDEN
              else req.decision != APPROVE && e == INVALID_REQUEST && (req.decision == Choice.DENY ==> !HasText(req.note))
  {
    hide FindKey, IsSpace;
    TextIsNotBlank(req.note);
  }

  /** A decision is applied exactly to a PENDING approval in time, by someone else than its creator, with
      a fresh key and a well-formed body. */
  lemma DecisionAppliedExactlyWhen(st: Store, req: DecideRequest, now: int)
    ensures var (st', r) := Decide(st, req, now);
            (r.Ok? && r.value.outcome == APPLIED) <==>
              (&& FindKey(st.decisions, req.key).None?
               && req.id in st.approvals
               && st.approvals[req.id].state == PENDING
               && now < st.approvals[req.id].expiresAt
               && req.reviewer != st.approvals[req.id].creator
               && (req.decision == APPROVE || (req.decision == Choice.DENY && HasText(req.note))))
    ensures var (st', r) := Decide(st, req, now);
            !(r.Ok? && r.value.outcome == APPLIED) ==> st' == st
  {
    hide FindKey, Blank, HasText;
    TextIsNotBlank(req.note);
  }

  /** No approval is ever decided twice: at most one row was written from PENDING. */
  lemma AtMostOneVerdict(actions: seq<Action>, maxAttempts: nat, id: Id)
    requires 1 <= maxAttempts
    ensures |Verdicts(Run(INITIAL, actions, maxAttempts).store.decisions, id)| <= 1
  {
    hide Replay, Claims, Verdicts, Step, WorkersOk, CallsOk, CountsOk, OriginOk;
    RunKeeps(actions, maxAttempts);
    var st := Run(INITIAL, actions, maxAttempts).store;
    assert id in st.approvals ==> RowOk(st, id, maxAttempts);
    assert id !in st.approvals ==> Untouched(st, id);
  }

  // ----- what the blocks bring about -----

  /** Creation succeeds exactly with unused keys; it adds one PENDING approval of exactly the given request, with its
      hash, its creator and its time to live, and its transaction, and touches nothing else. */
  lemma CreationTakesEffect(st: Store, req: CreateRequest, now: int, maxAttempts: nat)
    requires StoreOk(st, maxAttempts)
    ensures var (st', r) := Create(st, req, now);
            && (r.Ok? <==> req.id !in st.approvals && req.txnId !in st.txns)
            && (r.Raised? ==> st' == st && r.error == INTEGRITY_ERROR)
            && (r.Ok? ==>
                  && req.id in st'.approvals && st'.approvals[req.id].creator == req.creator
                  && st'.approvals[req.id].expiresAt - req.ttl == now == st'.approvals[req.id].createdAt
                  && st'.approvals[req.id].payload == req.payload && st'.approvals[req.id].materialHash == req.materialHash
                  && st'.approvals[req.id].resumeAttempts == 0 && st'.approvals[req.id].completion == None
                  && st'.approvals[req.id].txnId == req.txnId && st'.txns.Keys == st.txns.Keys + {req.txnId}
                  && st'.txns[req.txnId].identity == req.creator && st'.txns[req.txnId].status == PENDING
                  && st'.txns[req.txnId].materialHash == req.materialHash && st'.txns[req.txnId].createdAt == now
                  && st'.txns[req.txnId].completedAt == None
                  && Replay(st'.events, req.id) == AT(st'.approvals[req.id].state) == AT(PENDING)
                  && st'.approvals - {req.id} == st.approvals && st'.decisions == st.decisions)
  {
    hide Replay, Claims, Verdicts, FindKey;
    if req.id !in st.approvals {
      assert Untouched(st, req.id);
      AppendEvent(st.events, Event(req.id, APPROVAL_CREATED, None), req.id);
    }
  }

  /** An applied decision means what it says: APPROVE approves, DENY denies, the transaction follows, the trail and
      the decision log record who decided and when, and no other approval or transaction changes. */
  lemma DecisionTakesEffect(st: Store, req: DecideRequest, now: int, maxAttempts: nat)
    requires StoreOk(st, maxAttempts)
    requires Decide(st, req, now).1.Ok? && Decide(st, req, now).1.value.outcome == APPLIED
    ensures var st' := Decide(st, req, now).0;
            && req.id in st.approvals && req.id in st'.approvals
            && (req.decision == APPROVE ==> st'.approvals[req.id].state == APPROVED)
            && (req.decision != APPROVE ==> req.decision == Choice.DENY && st'.approvals[req.id].state == DENIED)
            && Replay(st'.events, req.id) == AT(st'.approvals[req.id].state)
            && (forall t :: t in st'.txns ==>
                  t in st.txns && st'.txns[t].status == if t == st.approvals[req.id].txnId then st'.approvals[req.id].state
                                                        else st.txns[t].status)
            && (forall x :: x in st.approvals && x != req.id ==> x in st'.approvals && st'.approvals[x] == st.approvals[x])
            && FindKey(st'.decisions, req.key).Some?
            && var row := FindKey(st'.decisions, req.key).value;
               row.approvalId == req.id && row.decision == req.decision && row.reviewer == req.reviewer
               && row.note == req.note && row.createdAt == now
  {
    hide Blank, SameBody, Replay, FindKey, Claims, Verdicts;
    var r := Decide(st, req, now).1;
    assert RowOk(st, req.id, maxAttempts);
    var to := Decide(st, req, now).0.approvals[req.id].state;
    AppendEvent(st.events, Event(req.id, APPROVAL_DECIDED, Some(Move(PENDING, to))), req.id);
    AppendRow(st.decisions, r.value.row, req.id, req.key);
  }

  /** A fresh worker gets the approval exactly when it is APPROVED and in time; its row is then RESUMING. */
  lemma ClaimSucceedsExactlyWhen(s: System, w: nat, id: Id, now: int, maxAttempts: nat)
    requires w !in s.workers
    ensures var s' := Step(s, DoClaim(w, id, now), maxAttempts);
            && (w in s'.workers <==>
                  id in s.store.approvals && s.store.approvals[id].state == APPROVED && now < s.store.approvals[id].expiresAt)
            && (w in s'.workers ==>
                  && s'.workers[w].id == id && s'.workers[w].phase == CLAIMED
                  && s'.workers[w].payload == s.store.approvals[id].payload
                  && s'.workers[w].storedHash == s.store.approvals[id].materialHash
                  && id in s'.store.approvals && s'.store.approvals[id].state == RESUMING)
  {
  }

  /** Whatever others do meanwhile, short of a restart, a worker whose call has returned finishes as the guard says. */
  lemma FinishesAsGuarded(s: System, actions: seq<Action>, maxAttempts: nat, w: nat, guard: Guard, key: string, at: int)
    requires Inv(s, maxAttempts) && 1 <= maxAttempts && w in s.workers && s.workers[w].phase.ANSWERED?
    requires forall i :: 0 <= i < |actions| ==> !Concerns(actions[i], w)
    ensures var s1 := Run(s, actions, maxAttempts);
            var s2 := Step(s1, DoClose(w, guard, key, at), maxAttempts);
            var id := s.workers[w].id;
            && w !in s2.workers && id in s2.store.approvals
            && (guard.GUARD_ALLOW? ==>
                  s2.store.approvals[id].state == COMPLETED && s2.store.approvals[id].completion == Some(guard.sanitized)
                  && Ended(s2.store, id, COMPLETED, RESUME_COMPLETED)
                  && s2.store.txns[s2.store.approvals[id].txnId].completedAt == Some(at))
            && (guard.GUARD_DENY? && FindKey(s1.store.decisions, key).None? ==>
                  s2.store.approvals[id].state == DENIED && s2.store.approvals[id].completion == None
                  && Ended(s2.store, id, DENIED, RESUME_OUTPUT_GUARD_DENIED)
                  && SystemDenied(s2.store, id, "OUTPUT_GUARD_DENIED", key, at))
  {
    hide Step, Run, Inv, Concerns, FindKey, SystemDenied;
    var s1 := Run(s, actions, maxAttempts);
    ClaimIsUndisturbed(s, actions, maxAttempts, w);
    HolderIsResuming(s1, maxAttempts, w);
    HolderHasTransaction(s1, maxAttempts, w);
    NotYetCompleted(s1, maxAttempts, s.workers[w].id);
    ClosesAsGuarded(s1, maxAttempts, w, guard, key, at);
  }

  /** The last event of the log is the move of `id` from RESUMING, and its transaction has ended with it. */
  ghost predicate Ended(st: Store, id: Id, to: State, kind: EventKind) {
    && id in st.approvals && st.approvals[id].txnId in st.txns
    && st.txns[st.approvals[id].txnId].status == to
    && st.events != [] && st.events[|st.events| - 1] == Event(id, kind, Some(Move(RESUMING, to)))
  }

  /** The last decision row is the system's own denial of `id`. */
  ghost predicate SystemDenied(st: Store, id: Id, note: string, key: string, at: int) {
    && st.decisions != []
    && st.decisions[|st.decisions| - 1]
         == DecisionRow(id, Choice.DENY, "system", Some(note), key, RESUMING, DENIED, at)
  }

  lemma HolderHasTransaction(s: System, maxAttempts: nat, w: nat)
    requires Inv(s, maxAttempts) && w in s.workers
    ensures var worker := s.workers[w];
            && worker.id in s.store.approvals && worker.txnId == s.store.approvals[worker.id].txnId
            && worker.txnId in s.store.txns
  {
    hide Replay, Claims, Verdicts, CallsFor, MaterialHash;
    assert WorkerOk(s, s.workers[w]);
    assert RowOk(s.store, s.workers[w].id, maxAttempts);
  }

  lemma NotYetCompleted(s: System, maxAttempts: nat, id: Id)
    requires Inv(s, maxAttempts) && id in s.store.approvals && s.store.approvals[id].state != COMPLETED
    ensures s.store.approvals[id].completion == None
  {
    hide Replay, Claims, Verdicts, WorkersOk, CallsOk, CountsOk, OriginOk;
    assert RowOk(s.store, id, maxAttempts);
  }

  lemma ClosesAsGuarded(s: System, maxAttempts: nat, w: nat, guard: Guard, key: string, at: int)
    requires w in s.workers && s.workers[w].phase.ANSWERED? && s.workers[w].id in s.store.approvals
    requires s.store.approvals[s.workers[w].id].state == RESUMING && s.store.approvals[s.workers[w].id].completion == None
    requires s.workers[w].txnId == s.store.approvals[s.workers[w].id].txnId && s.workers[w].txnId in s.store.txns
    ensures var s2 := Step(s, DoClose(w, guard, key, at), maxAttempts);
            var id := s.workers[w].id;
            && w !in s2.workers && id in s2.store.approvals
            && (guard.GUARD_ALLOW? ==>
                  s2.store.approvals[id].state == COMPLETED && s2.store.approvals[id].completion == Some(guard.sanitized)
                  && Ended(s2.store, id, COMPLETED, RESUME_COMPLETED)
                  && s2.store.txns[s2.store.approvals[id].txnId].completedAt == Some(at))
            && (guard.GUARD_DENY? && FindKey(s.store.decisions, key).None? ==>
                  s2.store.approvals[id].state == DENIED && s2.store.approvals[id].completion == None
                  && Ended(s2.store, id, DENIED, RESUME_OUTPUT_GUARD_DENIED)
                  && SystemDenied(s2.store, id, "OUTPUT_GUARD_DENIED", key, at))
  {
    hide FindKey;
  }

  /** A claimed request whose payload still matches its hash is sent as it was claimed, whatever others do before. */
  lemma SentAsClaimed(s: System, actions: seq<Action>, maxAttempts: nat, w: nat, key: string, at: int)
    requires Inv(s, maxAttempts) && 1 <= maxAttempts && w in s.workers && s.workers[w].phase.CLAIMED?
    requires MaterialHash(s.workers[w].payload) == s.workers[w].storedHash
    requires forall i :: 0 <= i < |actions| ==> !Concerns(actions[i], w)
    ensures var s1 := Run(s, actions, maxAttempts);
            var s2 := Step(s1, DoVerify(w, key, at), maxAttempts);
            && Inv(s2, maxAttempts) && w in s2.workers && s2.workers[w] == s.workers[w].(phase := CALLING)
            && |s2.calls| == |s1.calls| + 1
            && s2.calls[|s1.calls|].id == s.workers[w].id && s2.calls[|s1.calls|].payload == s.workers[w].payload
  {
    hide Run, Inv, Concerns, MaterialHash, DenyResume;
    var s1 := Run(s, actions, maxAttempts);
    ClaimIsUndisturbed(s, actions, maxAttempts, w);
    StepKeeps(s1, DoVerify(w, key, at), maxAttempts);
  }

  /** An action that leaves an APPROVED request waiting: nobody claims it or alters its payload, no sweep is dated
      after its expiry, and `w` stays a fresh worker. */
  predicate Waits(a: Action, id: Id, w: nat, expiresAt: int) {
    match a
    case DoClaim(v, claimed, _) => v != w && claimed != id
    case DoTamper(x, _) => x != id
    case DoSweep(_, now) => now < expiresAt
    case _ => true
  }

  lemma WorkersHoldOthers(s: System, maxAttempts: nat, v: nat, id: Id)
    requires Inv(s, maxAttempts) && v in s.workers && id in s.store.approvals && s.store.approvals[id].state == APPROVED
    ensures s.workers[v].id != id
  {
    hide Inv;
    HolderIsResuming(s, maxAttempts, v);
  }

  lemma StepLeavesWaiting(s: System, a: Action, maxAttempts: nat, id: Id, w: nat)
    requires Inv(s, maxAttempts) && id in s.store.approvals && s.store.approvals[id].state == APPROVED && w !in s.workers
    requires Waits(a, id, w, s.store.approvals[id].expiresAt)
    ensures var s' := Step(s, a, maxAttempts);
            w !in s'.workers && id in s'.store.approvals && s'.store.approvals[id] == s.store.approvals[id]
  {
    hide Inv, MaterialHash, Decide, Sweep, Reconcile, DenyResume, CompleteResume, Next;
    match a
    case DoDecide(request, now) => DecideShape(s.store, request, now);
    case DoSweep(order, now) => SweepMovesRow(s.store, order, now, id);
    case DoVerify(v, _, _) =>
      if v in s.workers { WorkersHoldOthers(s, maxAttempts, v, id); WorkerMovesRow(s, a, v, maxAttempts, id); }
    case DoClose(v, _, _, _) =>
      if v in s.workers { WorkersHoldOthers(s, maxAttempts, v, id); WorkerMovesRow(s, a, v, maxAttempts, id); }
    case DoRestart(order) => ReconcileMovesRow(s.store, order, maxAttempts, id);
    case _ =>
  }

  /** However many such actions others take, restarts among them, the request waits as it was approved. */
  lemma {:induction false} ApprovedWaits(s: System, actions: seq<Action>, maxAttempts: nat, id: Id, w: nat)
    requires Inv(s, maxAttempts) && 1 <= maxAttempts && w !in s.workers
    requires id in s.store.approvals && s.store.approvals[id].state == APPROVED
    requires forall i :: 0 <= i < |actions| ==> Waits(actions[i], id, w, s.store.approvals[id].expiresAt)
    ensures var s' := Run(s, actions, maxAttempts);
            && Inv(s', maxAttempts) && w !in s'.workers
            && id in s'.store.approvals && s'.store.approvals[id] == s.store.approvals[id]
  {
    hide Inv, Step, Waits;
    if actions != [] {
      var before, a := actions[..|actions| - 1], actions[|actions| - 1];
      ApprovedWaits(s, before, maxAttempts, id, w);
      StepKeeps(Run(s, before, maxAttempts), a, maxAttempts);
      StepLeavesWaiting(Run(s, before, maxAttempts), a, maxAttempts, id, w);
    }
  }

  /** The promise of the service: an approval that is approved and claimed in time, and whose stored request still
      matches, is sent to the provider and completed with the guarded answer. Between the decision and the claim the
      others may do anything that leaves the request waiting; between the worker's own steps, anything but restart. */
  lemma ApprovedRequestCompletes(s: System, req: DecideRequest, now: int, w: nat, claimed: int, between: seq<Action>,
                                 before: seq<Action>, during: seq<Action>, after: seq<Action>,
                                 response: Response, sanitized: Response, key: string, at: int, maxAttempts: nat)
    requires Inv(s, maxAttempts) && 1 <= maxAttempts && w !in s.workers
    requires Decide(s.store, req, now).1.Ok? && Decide(s.store, req, now).1.value.outcome == APPLIED && req.decision == APPROVE
    requires req.id in s.store.approvals && claimed < s.store.approvals[req.id].expiresAt
    requires MaterialHash(s.store.approvals[req.id].payload) == s.store.approvals[req.id].materialHash
    requires forall i :: 0 <= i < |between| ==> Waits(between[i], req.id, w, s.store.approvals[req.id].expiresAt)
    requires forall a :: a in before + during + after ==> !Concerns(a, w)
    ensures var s1 := Run(Step(s, DoDecide(req, now), maxAttempts), between, maxAttempts);
            var s2 := Step(s1, DoClaim(w, req.id, claimed), maxAttempts);
            var s3 := Step(Run(s2, before, maxAttempts), DoVerify(w, key, at), maxAttempts);
            var s4 := Step(Run(s3, during, maxAttempts), DoAnswer(w, response), maxAttempts);
            var s5 := Step(Run(s4, after, maxAttempts), DoClose(w, GUARD_ALLOW(sanitized), key, at), maxAttempts);
            && (exists c :: c in s3.calls && c.id == req.id && c.payload == s.store.approvals[req.id].payload)
            && req.id in s5.store.approvals && s5.store.approvals[req.id].state == COMPLETED
            && s5.store.approvals[req.id].completion == Some(sanitized)
  {
    hide *;
    var s0 := Step(s, DoDecide(req, now), maxAttempts);
    var s1 := Run(s0, between, maxAttempts);
    var s2 := Step(s1, DoClaim(w, req.id, claimed), maxAttempts);
    DecidedForClaim(s, req, now, maxAttempts);
    StepKeeps(s, DoDecide(req, now), maxAttempts);
    ApprovedWaits(s0, between, maxAttempts, req.id, w);
    ClaimSucceedsExactlyWhen(s1, w, req.id, claimed, maxAttempts);
    StepKeeps(s1, DoClaim(w, req.id, claimed), maxAttempts);
    Undisturbing(before, during, after, w);
    SentAsClaimed(s2, before, maxAttempts, w, key, at);
    var s3 := Step(Run(s2, before, maxAttempts), DoVerify(w, key, at), maxAttempts);
    ClaimIsUndisturbed(s3, during, maxAttempts, w);
    var s3' := Run(s3, during, maxAttempts);
    StepKeeps(s3', DoAnswer(w, response), maxAttempts);
    AnswerRecorded(s3', w, response, maxAttempts);
    var s4 := Step(s3', DoAnswer(w, response), maxAttempts);
    FinishesAsGuarded(s4, after, maxAttempts, w, GUARD_ALLOW(sanitized), key, at);
  }

  // ----- a request from its creation on -----

  /** An action that leaves a PENDING request as it is: it applies no decision to it, alters no payload of it, and
      sweeps before its expiry. */
  predicate LeavesPending(s: System, a: Action, id: Id, expiresAt: int) {
    match a
    case DoDecide(req, now) =>
      var r := Decide(s.store, req, now).1; req.id == id ==> !(r.Ok? && r.value.outcome == APPLIED)
    case DoTamper(x, _) => x != id
    case DoSweep(_, now) => now < expiresAt
    case _ => true
  }

  /** Every action of the run is such an action when its turn comes. */
  predicate AllLeavePending(s: System, actions: seq<Action>, maxAttempts: nat, id: Id, expiresAt: int) {
    actions == [] || (
      var before := actions[..|actions| - 1];
      && AllLeavePending(s, before, maxAttempts, id, expiresAt)
      && LeavesPending(Run(s, before, maxAttempts), actions[|actions| - 1], id, expiresAt))
  }

  lemma StepLeavesPending(s: System, a: Action, maxAttempts: nat, id: Id)
    requires Inv(s, maxAttempts) && id in s.store.approvals && s.store.approvals[id].state == PENDING
    requires LeavesPending(s, a, id, s.store.approvals[id].expiresAt)
    ensures var s' := Step(s, a, maxAttempts);
            id in s'.store.approvals && s'.store.approvals[id] == s.store.approvals[id]
  {
    hide Inv, MaterialHash, Decide, Sweep, Reconcile, DenyResume, CompleteResume, Next, Claim;
    match a
    case DoDecide(request, now) => DecideShape(s.store, request, now);
    case DoSweep(order, now) => SweepMovesRow(s.store, order, now, id);
    case DoClaim(_, claimed, now) => ClaimShape(s.store, claimed, now);
    case DoVerify(v, _, _) =>
      if v in s.workers { HolderIsResuming(s, maxAttempts, v); WorkerMovesRow(s, a, v, maxAttempts, id); }
    case DoClose(v, _, _, _) =>
      if v in s.workers { HolderIsResuming(s, maxAttempts, v); WorkerMovesRow(s, a, v, maxAttempts, id); }
    case DoRestart(order) => ReconcileMovesRow(s.store, order, maxAttempts, id);
    case _ =>
  }

  /** Nobody but a reviewer takes a request out of PENDING before its expiry, restarts or not. */
  lemma {:induction false} PendingWaits(s: System, actions: seq<Action>, maxAttempts: nat, id: Id)
    requires Inv(s, maxAttempts) && 1 <= maxAttempts
    requires id in s.store.approvals && s.store.approvals[id].state == PENDING
    requires AllLeavePending(s, actions, maxAttempts, id, s.store.approvals[id].expiresAt)
    ensures var s' := Run(s, actions, maxAttempts);
            Inv(s', maxAttempts) && id in s'.store.approvals && s'.store.approvals[id] == s.store.approvals[id]
  {
    hide Inv, Step, LeavesPending;
    if actions != [] {
      var before, a := actions[..|actions| - 1], actions[|actions| - 1];
      PendingWaits(s, before, maxAttempts, id);
      StepKeeps(Run(s, before, maxAttempts), a, maxAttempts);
      StepLeavesPending(Run(s, before, maxAttempts), a, maxAttempts, id);
    }
  }

  lemma Created(s: System, id: Id, txnId: Id, creator: Id, payload: Payload, ttl: int, now: int, maxAttempts: nat)
    requires Inv(s, maxAttempts) && id !in s.store.approvals && txnId !in s.store.txns
    ensures var s' := Step(s, DoCreate(id, txnId, creator, payload, ttl, now), maxAttempts);
            && Inv(s', maxAttempts) && s'.workers == s.workers && id in s'.store.approvals
            && var row := s'.store.approvals[id];
            && row.state == PENDING && row.payload == payload && row.materialHash == MaterialHash(payload)
            && row.creator == creator && row.expiresAt - ttl == now
  {
    hide Inv, MaterialHash;
    StepCreates(s, id, txnId, creator, payload, ttl, now, maxAttempts);
    CreationOf(s, CreateRequest(id, txnId, creator, payload, MaterialHash(payload), ttl), now, maxAttempts);
  }

  lemma StepCreates(s: System, id: Id, txnId: Id, creator: Id, payload: Payload, ttl: int, now: int, maxAttempts: nat)
    requires Inv(s, maxAttempts)
    ensures var a := DoCreate(id, txnId, creator, payload, ttl, now);
            var req := CreateRequest(id, txnId, creator, payload, MaterialHash(payload), ttl);
            && Inv(Step(s, a, maxAttempts), maxAttempts)
            && Step(s, a, maxAttempts).store == Create(s.store, req, now).0 && Step(s, a, maxAttempts).workers == s.workers
  {
    hide Inv, MaterialHash, Create;
    CreateKeeps(s, CreateRequest(id, txnId, creator, payload, MaterialHash(payload), ttl), now, maxAttempts);
  }

  lemma CreationOf(s: System, req: CreateRequest, now: int, maxAttempts: nat)
    requires Inv(s, maxAttempts) && req.id !in s.store.approvals && req.txnId !in s.store.txns
    ensures var st := Create(s.store, req, now).0;
            && req.id in st.approvals
            && var row := st.approvals[req.id];
            && row.state == PENDING && row.payload == req.payload && row.materialHash == req.materialHash
            && row.creator == req.creator && row.expiresAt - req.ttl == now
  {
    InvStore(s, maxAttempts);
    hide Inv, Create, StoreOk, Replay;
    CreationTakesEffect(s.store, req, now, maxAttempts);
  }

  /** The whole promise, from creation on, with nothing assumed of what is stored: a request created with unused keys,
      approved in time by someone else under a fresh key, and claimed in time, is sent to the provider with exactly
      the payload it was created with, and completed with the guarded answer. Others may act in every gap. */
  lemma CreatedRequestIsSent(s: System, id: Id, txnId: Id, creator: Id, payload: Payload, ttl: int, created: int,
                             waiting: seq<Action>, req: DecideRequest, now: int, w: nat, claimed: int,
                             between: seq<Action>, before: seq<Action>, during: seq<Action>, after: seq<Action>,
                             response: Response, sanitized: Response, key: string, at: int, maxAttempts: nat)
    requires Inv(s, maxAttempts) && 1 <= maxAttempts && id !in s.store.approvals && txnId !in s.store.txns
    requires var s0 := Step(s, DoCreate(id, txnId, creator, payload, ttl, created), maxAttempts);
             AllLeavePending(s0, waiting, maxAttempts, id, created + ttl)
             && w !in Run(s0, waiting, maxAttempts).workers
             && FindKey(Run(s0, waiting, maxAttempts).store.decisions, req.key).None?
    requires req.id == id && req.decision == APPROVE && req.reviewer != creator
    requires now < created + ttl && claimed < created + ttl
    requires forall i :: 0 <= i < |between| ==> Waits(between[i], id, w, created + ttl)
    requires forall a :: a in before + during + after ==> !Concerns(a, w)
    ensures var p := Run(Step(s, DoCreate(id, txnId, creator, payload, ttl, created), maxAttempts), waiting, maxAttempts);
            var s1 := Run(Step(p, DoDecide(req, now), maxAttempts), between, maxAttempts);
            var s2 := Step(s1, DoClaim(w, id, claimed), maxAttempts);
            var s3 := Step(Run(s2, before, maxAttempts), DoVerify(w, key, at), maxAttempts);
            var s4 := Step(Run(s3, during, maxAttempts), DoAnswer(w, response), maxAttempts);
            var s5 := Step(Run(s4, after, maxAttempts), DoClose(w, GUARD_ALLOW(sanitized), key, at), maxAttempts);
            && (exists c :: c in s3.calls && c.id == id && c.payload == payload)
            && id in s5.store.approvals && s5.store.approvals[id].state == COMPLETED
            && s5.store.approvals[id].completion == Some(sanitized)
  {
    hide *;
    var s0 := Step(s, DoCreate(id, txnId, creator, payload, ttl, created), maxAttempts);
    Created(s, id, txnId, creator, payload, ttl, created, maxAttempts);
    PendingWaits(s0, waiting, maxAttempts, id);
    var p := Run(s0, waiting, maxAttempts);
    DecisionAppliedExactlyWhen(p.store, req, now);
    ApprovedRequestCompletes(p, req, now, w, claimed, between, before, during, after, response, sanitized, key, at, maxAttempts);
  }

  /** A claimed payload that no longer matches its hash is never sent: the request is denied for that reason. */
  lemma MismatchIsDenied(s: System, w: nat, key: string, at: int, maxAttempts: nat)
    requires Inv(s, maxAttempts) && w in s.workers && s.workers[w].phase.CLAIMED?
    requires MaterialHash(s.workers[w].payload) != s.workers[w].storedHash && FindKey(s.store.decisions, key).None?
    ensures var s', id := Step(s, DoVerify(w, key, at), maxAttempts), s.workers[w].id;
            && s'.calls == s.calls && w !in s'.workers
            && id in s'.store.approvals && s'.store.approvals[id].state == DENIED
            && Ended(s'.store, id, DENIED, RESUME_ARGUMENTS_CHANGED)
            && SystemDenied(s'.store, id, "ARGUMENTS_CHANGED", key, at)
  {
    hide Inv, FindKey, MaterialHash;
    HolderIsResuming(s, maxAttempts, w);
    HolderHasTransaction(s, maxAttempts, w);
  }

  /** Outside the reachable stores: a closing write on a final row is refused by the table, and a row that has
      disappeared fails an assertion, as it does for a replayed decision. */
  lemma BrokenStoresRaise(st: Store, w: Worker, note: string, kind: EventKind, key: string, at: int, sanitized: Response,
                          req: DecideRequest, now: int)
    ensures w.id !in st.approvals ==>
              DenyResume(st, w, note, kind, key, at) == CompleteResume(st, w, sanitized, at) == Raised(ASSERTION_FAILED)
    ensures w.id in st.approvals && Final(st.approvals[w.id].state) ==>
              DenyResume(st, w, note, kind, key, at) == CompleteResume(st, w, sanitized, at) == Raised(INVALID_APPROVAL_STATE)
    ensures var r := Decide(st, req, now).1;
            FindKey(st.decisions, req.key).Some? && req.id !in st.approvals ==>
              r == Raised(if SameBody(FindKey(st.decisions, req.key).value, req) then ASSERTION_FAILED else IDEMPOTENCY_CONFLICT)
  {
    hide FindKey, Blank;
  }

  lemma Undisturbing(before: seq<Action>, during: seq<Action>, after: seq<Action>, w: nat)
    requires forall a :: a in before + during + after ==> !Concerns(a, w)
    ensures forall i :: 0 <= i < |before| ==> !Concerns(before[i], w)
    ensures forall i :: 0 <= i < |during| ==> !Concerns(during[i], w)
    ensures forall i :: 0 <= i < |after| ==> !Concerns(after[i], w)
  {
    hide Concerns;
    assert forall a :: a in before || a in during || a in after ==> a in before + during + after;
  }

  lemma DecidedForClaim(s: System, req: DecideRequest, now: int, maxAttempts: nat)
    requires Decide(s.store, req, now).1.Ok? && Decide(s.store, req, now).1.value.outcome == APPLIED && req.decision == APPROVE
    ensures var s1 := Step(s, DoDecide(req, now), maxAttempts);
            && s1.workers == s.workers && req.id in s.store.approvals && req.id in s1.store.approvals
            && s1.store.approvals[req.id] == s.store.approvals[req.id].(state := APPROVED)
  {
    hide Blank, SameBody, FindKey;
  }

  lemma AnswerRecorded(s: System, w: nat, response: Response, maxAttempts: nat)
    requires w in s.workers && s.workers[w].phase.CALLING?
    ensures var s' := Step(s, DoAnswer(w, response), maxAttempts);
            w in s'.workers && s'.workers[w] == s.workers[w].(phase := ANSWERED(response))
  {
  }

  // ----- a worker that is gone -----

  /** A claim whose worker is gone: the row is RESUMING and nobody holds it. */
  ghost predicate Stuck(s: System, id: Id) {
    && id in s.store.approvals && s.store.approvals[id].state == RESUMING
    && forall w :: w in s.workers ==> s.workers[w].id != id
  }

  lemma StepLeavesStuck(s: System, a: Action, maxAttempts: nat, id: Id)
    requires Stuck(s, id) && !a.DoRestart?
    ensures Stuck(Step(s, a, maxAttempts), id)
    ensures SameRow(s.store.approvals[id], Step(s, a, maxAttempts).store.approvals[id])
  {
    hide MaterialHash, Decide, Sweep, Reconcile, DenyResume, CompleteResume, Next, Claim;
    match a
    case DoDecide(request, now) => DecideShape(s.store, request, now);
    case DoSweep(order, now) => SweepMovesRow(s.store, order, now, id);
    case DoClaim(_, claimed, now) => ClaimShape(s.store, claimed, now);
    case DoVerify(v, _, _) => if v in s.workers { WorkerMovesRow(s, a, v, maxAttempts, id); }
    case DoClose(v, _, _, _) => if v in s.workers { WorkerMovesRow(s, a, v, maxAttempts, id); }
    case _ =>
  }

  /** It stays as it is through any steps without a restart: no decision, sweep or claim can take it up. */
  lemma {:induction false} StuckUntilRestart(s: System, actions: seq<Action>, maxAttempts: nat, id: Id)
    requires Stuck(s, id) && forall i :: 0 <= i < |actions| ==> !actions[i].DoRestart?
    ensures Stuck(Run(s, actions, maxAttempts), id)
    ensures SameRow(s.store.approvals[id], Run(s, actions, maxAttempts).store.approvals[id])
  {
    hide Step, Stuck;
    if actions == [] {
      StuckIsThere(s, id);
    } else {
      var before, a := actions[..|actions| - 1], actions[|actions| - 1];
      StuckUntilRestart(s, before, maxAttempts, id);
      StepLeavesStuck(Run(s, before, maxAttempts), a, maxAttempts, id);
      StuckIsThere(s, id);
    }
  }

  lemma StuckIsThere(s: System, id: Id)
    requires Stuck(s, id)
    ensures id in s.store.approvals
  {
  }

  /** So an approval whose provider call raised stays RESUMING through any steps until the next restart, which
      retries it exactly while it has attempts left. */
  lemma RaisedWaitsForRestart(s: System, w: nat, actions: seq<Action>, order: seq<Id>, maxAttempts: nat)
    requires Inv(s, maxAttempts) && w in s.workers
    requires forall i :: 0 <= i < |actions| ==> !actions[i].DoRestart?
    requires s.workers[w].id in order
    ensures var id := s.workers[w].id;
            var waiting := Run(Step(s, DoAbandon(w), maxAttempts), actions, maxAttempts);
            var restarted := Step(waiting, DoRestart(order), maxAttempts);
            && id in s.store.approvals && id in waiting.store.approvals && id in restarted.store.approvals
            && waiting.store.approvals[id].state == RESUMING
            && restarted.store.approvals[id].state
                 == if s.store.approvals[id].resumeAttempts < maxAttempts then APPROVED else FAILED
  {
    hide Inv, Run, Reconcile;
    var id := s.workers[w].id;
    var gone := Step(s, DoAbandon(w), maxAttempts);
    HolderIsResuming(s, maxAttempts, w);
    forall v | v in gone.workers ensures gone.workers[v].id != id {
      WorkersDiffer(s, maxAttempts, v, w);
    }
    StuckUntilRestart(gone, actions, maxAttempts, id);
    ReconcileMovesRow(Run(gone, actions, maxAttempts).store, order, maxAttempts, id);
  }

  // ----- what the log never holds -----

  /** Each kind of event stands for its own moves. */
  predicate Truthful(e: Event) {
    match e.kind
    case APPROVAL_CREATED => e.move == None
    case APPROVAL_DECIDED => e.move == Some(Move(PENDING, APPROVED)) || e.move == Some(Move(PENDING, DENIED))
    case APPROVAL_EXPIRED_SWEEP => e.move == Some(Move(PENDING, EXPIRED)) || e.move == Some(Move(APPROVED, EXPIRED))
    case APPROVAL_EXPIRED_ON_DECISION => false
    case APPROVAL_EXPIRED_BEFORE_RESUME => e.move == Some(Move(APPROVED, EXPIRED))
    case RESUME_CLAIMED => e.move == Some(Move(APPROVED, RESUMING))
    case RESUME_ARGUMENTS_CHANGED => e.move == Some(Move(RESUMING, DENIED))
    case RESUME_OUTPUT_GUARD_DENIED => e.move == Some(Move(RESUMING, DENIED))
    case RESUME_COMPLETED => e.move == Some(Move(RESUMING, COMPLETED))
    case STARTUP_RECONCILE => e.move == Some(Move(RESUMING, APPROVED)) || e.move == Some(Move(RESUMING, FAILED))
  }

  ghost predicate AllTruthful(events: seq<Event>) {
    forall i :: 0 <= i < |events| ==> Truthful(events[i])
  }

  lemma {:induction false} SweepLogs(st: Store, order: seq<Id>, now: int)
    requires AllTruthful(st.events)
    ensures AllTruthful(Sweep(st, order, now).events)
  {
    if order != [] {
      SweepLogs(st, order[..|order| - 1], now);
    }
  }

  lemma {:induction false} ReconcileLogs(st: Store, order: seq<Id>, maxAttempts: nat)
    requires AllTruthful(st.events)
    ensures AllTruthful(Reconcile(st, order, maxAttempts).events)
  {
    if order != [] {
      ReconcileLogs(st, order[..|order| - 1], maxAttempts);
    }
  }

  lemma DenyLogs(st: Store, w: Worker, note: string, kind: EventKind, key: string, at: int)
    requires AllTruthful(st.events) && w.id in st.approvals && st.approvals[w.id].state == RESUMING
    requires kind == RESUME_ARGUMENTS_CHANGED || kind == RESUME_OUTPUT_GUARD_DENIED
    ensures var r := DenyResume(st, w, note, kind, key, at); r.Ok? ==> AllTruthful(r.value.events)
  {
    hide FindKey, Synced;
  }

  lemma CompleteLogs(st: Store, w: Worker, sanitized: Response, at: int)
    requires AllTruthful(st.events) && w.id in st.approvals && st.approvals[w.id].state == RESUMING
    ensures var r := CompleteResume(st, w, sanitized, at); r.Ok? ==> AllTruthful(r.value.events)
  {
  }

  lemma DecideLogs(st: Store, req: DecideRequest, now: int)
    requires AllTruthful(st.events)
    ensures AllTruthful(Decide(st, req, now).0.events)
  {
    hide FindKey, SameBody, Blank, Synced;
  }

  lemma StepLogs(s: System, a: Action, maxAttempts: nat)
    requires Inv(s, maxAttempts) && AllTruthful(s.store.events)
    ensures AllTruthful(Step(s, a, maxAttempts).store.events)
  {
    hide Inv, MaterialHash, Decide, Sweep, Reconcile, DenyResume, CompleteResume;
    match a
    case DoDecide(request, now) => DecideLogs(s.store, request, now);
    case DoSweep(order, now) => SweepLogs(s.store, order, now);
    case DoRestart(order) => ReconcileLogs(s.store, order, maxAttempts);
    case DoVerify(w, key, at) =>
      if w in s.workers {
        HolderIsResuming(s, maxAttempts, w);
        DenyLogs(s.store, s.workers[w], "ARGUMENTS_CHANGED", RESUME_ARGUMENTS_CHANGED, key, at);
      }
    case DoClose(w, guard, key, at) =>
      if w in s.workers {
        HolderIsResuming(s, maxAttempts, w);
        DenyLogs(s.store, s.workers[w], "OUTPUT_GUARD_DENIED", RESUME_OUTPUT_GUARD_DENIED, key, at);
        if guard.GUARD_ALLOW? { CompleteLogs(s.store, s.workers[w], guard.sanitized, at); }
      }
    case _ =>
  }

  /** In every reachable log each event is of the kind its move calls for; in particular the expiry that a decision
      writes before it raises is always rolled back. */
  lemma {:induction false} LogIsTruthful(actions: seq<Action>, maxAttempts: nat)
    requires 1 <= maxAttempts
    ensures AllTruthful(Run(INITIAL, actions, maxAttempts).store.events)
  {
    hide Step, Inv;
    if actions != [] {
      LogIsTruthful(actions[..|actions| - 1], maxAttempts);
      RunKeeps(actions[..|actions| - 1], maxAttempts);
      StepLogs(Run(INITIAL, actions[..|actions| - 1], maxAttempts), actions[|actions| - 1], maxAttempts);
    }
  }

  /** The log never holds the event of an expiry found by a decision. */
  lemma ExpiryOnDecisionNeverPersists(actions: seq<Action>, maxAttempts: nat, i: nat)
    requires 1 <= maxAttempts && i < |Run(INITIAL, actions, maxAttempts).store.events|
    ensures Run(INITIAL, actions, maxAttempts).store.events[i].kind != APPROVAL_EXPIRED_ON_DECISION
  {
    hide Run;
    LogIsTruthful(actions, maxAttempts);
    assert Truthful(Run(INITIAL, actions, maxAttempts).store.events[i]);
  }

  // ----- the table of transitions -----

  /** The moves that the service permits are these nine, and no others. */
  lemma TheTable(from: State, to: State)
    ensures Allowed(from, to) <==> (from, to) in {
              (PENDING, APPROVED), (PENDING, DENIED), (PENDING, EXPIRED), (PENDING, CANCELLED),
              (APPROVED, RESUMING), (APPROVED, EXPIRED),
              (RESUMING, COMPLETED), (RESUMING, DENIED), (RESUMING, APPROVED)}
    ensures Final(from) ==> !Allowed(from, to)
    ensures Final(from) <==> from == DENIED || from == EXPIRED || from == CANCELLED || from == COMPLETED || from == FAILED
  {
  }
}
