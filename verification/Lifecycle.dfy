/** The atomic blocks of the approval service (app/approvals.py), each as a function on the store. */
module Lifecycle {
  import opened Common
  import opened Rows

  /** The permitted transitions. */
  predicate Allowed(from: State, to: State) {
    match from
    case PENDING => to.APPROVED? || to.DENIED? || to.EXPIRED? || to.CANCELLED?
    case APPROVED => to.RESUMING? || to.EXPIRED?
    case RESUMING => to.COMPLETED? || to.DENIED? || to.APPROVED?
    case _ => false
  }

  const EMPTY_STORE := Store(map[], map[], [], [])

  function Synced(txns: map<Id, Txn>, txnId: Id, to: State): map<Id, Txn> {
    if txnId in txns then txns[txnId := txns[txnId].(status := to)] else txns
  }

  /** Row `id` becomes `row`, the transactions become `txns`, and the change of state is audited. */
  function Moved(st: Store, id: Id, row: Approval, txns: map<Id, Txn>, kind: EventKind): Store
    requires id in st.approvals
  {
    st.(approvals := st.approvals[id := row],
        txns := txns,
        events := st.events + [Event(id, kind, Some(Move(st.approvals[id].state, row.state)))])
  }

  /** The common block: one row and its transaction move to the same state. */
  function MovedTo(st: Store, id: Id, to: State, kind: EventKind): Store
    requires id in st.approvals
  {
    var row := st.approvals[id];
    Moved(st, id, row.(state := to), Synced(st.txns, row.txnId, to), kind)
  }

  /** The decision row that used `key`, if any. */
  function FindKey(rows: seq<DecisionRow>, key: string): Option<DecisionRow> {
    if rows == [] then None
    else if rows[|rows| - 1].key == key then Some(rows[|rows| - 1])
    else FindKey(rows[..|rows| - 1], key)
  }

  // ----- creation -----

  datatype CreateRequest = CreateRequest(
    id: Id, txnId: Id, creator: Id, payload: Payload, materialHash: Digest, ttl: int)

  /** A duplicate primary or unique key fails the flush, and the block rolls back. */
  function Create(st: Store, req: CreateRequest, now: int): (Store, Result<Id>) {
    if req.id in st.approvals || req.txnId in st.txns then (st, Raised(INTEGRITY_ERROR))
    else
      var txn := Txn(req.creator, PENDING, req.materialHash, now, None);
      var row := Approval(req.txnId, PENDING, req.payload, req.materialHash, req.creator, 0, None,
                          now, now + req.ttl);
      (Store(st.approvals[req.id := row], st.txns[req.txnId := txn], st.decisions,
             st.events + [Event(req.id, APPROVAL_CREATED, None)]),
       Ok(req.id))
  }

  // ----- decision -----

  datatype DecideRequest = DecideRequest(
    id: Id, decision: Choice, note: Option<string>, reviewer: Id, key: string)

  datatype Outcome = APPLIED | REPLAYED

  datatype Decided = Decided(outcome: Outcome, state: State, row: DecisionRow)

  /** `note or None`: an empty note is no note. */
  function Given(note: Option<string>): Option<string> {
    if note == Some("") then None else note
  }

  predicate SameBody(row: DecisionRow, req: DecideRequest) {
    row.approvalId == req.id && row.decision == req.decision && Given(row.note) == Given(req.note)
  }

  /** `not (note and note.strip())` */
  predicate Blank(note: Option<string>) {
    note.None? || forall i :: 0 <= i < |note.value| ==> IsSpace(note.value[i])
  }

  function Decide(st: Store, req: DecideRequest, now: int): (Store, Result<Decided>) {
    var existing := FindKey(st.decisions, req.key);
    if existing.Some? then
      if !SameBody(existing.value, req) then (st, Raised(IDEMPOTENCY_CONFLICT))
      else if req.id !in st.approvals then (st, Raised(ASSERTION_FAILED))
      else (st, Ok(Decided(REPLAYED, st.approvals[req.id].state, existing.value)))
    else if req.id !in st.approvals then (st, Raised(APPROVAL_NOT_FOUND))
    else
      var row := st.approvals[req.id];
      if row.state == PENDING && row.expiresAt <= now then (st, Raised(APPROVAL_EXPIRED))
      else if row.state == EXPIRED then (st, Raised(APPROVAL_EXPIRED))
      else if row.state != PENDING then (st, Raised(INVALID_APPROVAL_STATE))
      else if req.reviewer == row.creator then (st, Raised(SELF_APPROVAL_FORBIDDEN))
      else if req.decision == Choice.DENY && Blank(req.note) then (st, Raised(INVALID_REQUEST))
      else if req.decision.OTHER? then (st, Raised(INVALID_REQUEST))
      else
        var to := if req.decision == APPROVE then APPROVED else DENIED;
        var verdict := DecisionRow(req.id, req.decision, req.reviewer, req.note, req.key, PENDING, to, now);
        (MovedTo(st, req.id, to, APPROVAL_DECIDED).(decisions := st.decisions + [verdict]),
         Ok(Decided(APPLIED, to, verdict)))
  }

  // ----- expiry -----

  predicate Elapsed(row: Approval, now: int) {
    (row.state.PENDING? || row.state.APPROVED?) && row.expiresAt <= now
  }

  function ExpireRow(st: Store, id: Id, now: int): Store {
    if id in st.approvals && Elapsed(st.approvals[id], now)
    then MovedTo(st, id, EXPIRED, APPROVAL_EXPIRED_SWEEP) else st
  }

  /** Visits `order`, the rows as the query returned them. */
  function Sweep(st: Store, order: seq<Id>, now: int): Store {
    if order == [] then st
    else ExpireRow(Sweep(st, order[..|order| - 1], now), order[|order| - 1], now)
  }

  // ----- resume -----

  /** What a worker keeps in local variables between its blocks. */
  datatype Phase = CLAIMED | CALLING | ANSWERED(response: Response)

  datatype Worker = Worker(
    id: Id, txnId: Id, payload: Payload, storedHash: Digest, attempt: nat, claimedAt: int, phase: Phase)

  /** The claim: expires the row or takes it; `None` is the outcome NOT_ELIGIBLE. */
  function Claim(st: Store, id: Id, now: int): (Store, Option<Worker>) {
    if id !in st.approvals || st.approvals[id].state != APPROVED then (st, None)
    else
      var row := st.approvals[id];
      if row.expiresAt <= now then (MovedTo(st, id, EXPIRED, APPROVAL_EXPIRED_BEFORE_RESUME), None)
      else
        var row' := row.(state := RESUMING, resumeAttempts := row.resumeAttempts + 1);
        (Moved(st, id, row', st.txns, RESUME_CLAIMED),
         Some(Worker(id, row.txnId, row.payload, row.materialHash, row'.resumeAttempts, now, CLAIMED)))
  }

  /** The two denying blocks of the worker; `key` is the fresh idempotency key of the system's row. */
  function DenyResume(st: Store, w: Worker, note: string, kind: EventKind, key: string, at: int): (r: Result<Store>) {
    if w.id !in st.approvals then Raised(ASSERTION_FAILED)
    else if !Allowed(st.approvals[w.id].state, DENIED) then Raised(INVALID_APPROVAL_STATE)
    else if FindKey(st.decisions, key).Some? then Raised(INTEGRITY_ERROR)
    else
      var row := DecisionRow(w.id, Choice.DENY, "system", Some(note), key, RESUMING, DENIED, at);
      Ok(Moved(st, w.id, st.approvals[w.id].(state := DENIED), Synced(st.txns, w.txnId, DENIED), kind)
         .(decisions := st.decisions + [row]))
  }

  function CompleteResume(st: Store, w: Worker, sanitized: Response, at: int): (r: Result<Store>) {
    if w.id !in st.approvals then Raised(ASSERTION_FAILED)
    else if !Allowed(st.approvals[w.id].state, COMPLETED) then Raised(INVALID_APPROVAL_STATE)
    else
      var row := st.approvals[w.id].(state := COMPLETED, completion := Some(sanitized));
      var txns := if w.txnId in st.txns
                  then st.txns[w.txnId := st.txns[w.txnId].(status := COMPLETED, completedAt := Some(at))]
                  else st.txns;
      Ok(Moved(st, w.id, row, txns, RESUME_COMPLETED))
  }

  // ----- startup recovery -----

  /** FAILED is written directly, not through the transition table. */
  function ReconcileRow(st: Store, id: Id, maxAttempts: nat): Store {
    if id in st.approvals && st.approvals[id].state == RESUMING
    then MovedTo(st, id, if st.approvals[id].resumeAttempts < maxAttempts then APPROVED else FAILED, STARTUP_RECONCILE)
    else st
  }

  function Reconcile(st: Store, order: seq<Id>, maxAttempts: nat): Store {
    if order == [] then st
    else ReconcileRow(Reconcile(st, order[..|order| - 1], maxAttempts), order[|order| - 1], maxAttempts)
  }

  // ----- the concurrent system -----

  /** One call of the provider: for which approval, what was sent, and under which claim. */
  datatype Call = Call(id: Id, payload: Payload, claimedAt: int, attempt: nat)

  /** The store, the workers in flight, and two histories kept for the statements only:
      the calls made and the payload each approval was created with. */
  datatype System = System(store: Store, workers: map<nat, Worker>, calls: seq<Call>, origin: map<Id, Payload>)

  datatype Guard = GUARD_DENY | GUARD_ALLOW(sanitized: Response)

  /** Every step takes the time its caller sampled before the lock: any time at all. */
  datatype Action =
    | DoCreate(id: Id, txnId: Id, creator: Id, payload: Payload, ttl: int, now: int)
    | DoDecide(request: DecideRequest, now: int)
    | DoSweep(order: seq<Id>, now: int)
    | DoClaim(w: nat, id: Id, now: int)
    | DoVerify(w: nat, key: string, at: int)
    | DoAnswer(w: nat, response: Response)
    | DoAbandon(w: nat)
    | DoClose(w: nat, guard: Guard, key: string, at: int)
    | DoRestart(order: seq<Id>)
    | DoTamper(id: Id, payload: Payload)

  const INITIAL := System(EMPTY_STORE, map[], [], map[])

  /** A worker that returns or raises is gone; a block that raises leaves the store as it was. */
  function Left(s: System, w: nat, r: Result<Store>): System {
    s.(workers := s.workers - {w}, store := if r.Ok? then r.value else s.store)
  }

  /** After the claim: re-hash the payload; deny on a mismatch, else call the provider. */
  function Verify(s: System, w: nat, key: string, at: int): System
    requires w in s.workers
  {
    var worker := s.workers[w];
    if MaterialHash(worker.payload) != worker.storedHash
    then Left(s, w, DenyResume(s.store, worker, "ARGUMENTS_CHANGED", RESUME_ARGUMENTS_CHANGED, key, at))
    else s.(workers := s.workers[w := worker.(phase := CALLING)],
            calls := s.calls + [Call(worker.id, worker.payload, worker.claimedAt, worker.attempt)])
  }

  function Close(s: System, w: nat, guard: Guard, key: string, at: int): System
    requires w in s.workers
  {
    match guard
    case GUARD_DENY =>
      Left(s, w, DenyResume(s.store, s.workers[w], "OUTPUT_GUARD_DENIED", RESUME_OUTPUT_GUARD_DENIED, key, at))
    case GUARD_ALLOW(sanitized) =>
      Left(s, w, CompleteResume(s.store, s.workers[w], sanitized, at))
  }

  /** One atomic step of the system; an action that is not enabled changes nothing. */
  function Step(s: System, a: Action, maxAttempts: nat): System {
    match a
    case DoCreate(id, txnId, creator, payload, ttl, now) =>
      var (st, r) := Create(s.store, CreateRequest(id, txnId, creator, payload, MaterialHash(payload), ttl), now);
      s.(store := st, origin := if r.Ok? then s.origin[id := payload] else s.origin)
    case DoDecide(request, now) => s.(store := Decide(s.store, request, now).0)
    case DoSweep(order, now) => s.(store := Sweep(s.store, order, now))
    case DoClaim(w, id, now) =>
      if w in s.workers then s
      else
        var (st, claimed) := Claim(s.store, id, now);
        s.(store := st, workers := if claimed.Some? then s.workers[w := claimed.value] else s.workers)
    case DoVerify(w, key, at) =>
      if w in s.workers && s.workers[w].phase.CLAIMED? then Verify(s, w, key, at) else s
    case DoAnswer(w, response) =>
      if w in s.workers && s.workers[w].phase.CALLING?
      then s.(workers := s.workers[w := s.workers[w].(phase := ANSWERED(response))]) else s
    case DoAbandon(w) => s.(workers := s.workers - {w})
    case DoClose(w, guard, key, at) =>
      if w in s.workers && s.workers[w].phase.ANSWERED? then Close(s, w, guard, key, at) else s
    case DoRestart(order) => s.(workers := map[], store := Reconcile(s.store, order, maxAttempts))
    case DoTamper(id, payload) =>
      if id in s.store.approvals
      then s.(store := s.store.(approvals := s.store.approvals[id := s.store.approvals[id].(payload := payload)]))
      else s
  }

  /** Every interleaving is a sequence of atomic steps. */
  function Run(s: System, actions: seq<Action>, maxAttempts: nat): System {
    if actions == [] then s
    else Step(Run(s, actions[..|actions| - 1], maxAttempts), actions[|actions| - 1], maxAttempts)
  }
}
