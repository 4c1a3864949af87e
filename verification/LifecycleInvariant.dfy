/** What every step of the approval system keeps. */
module LifecycleInvariant {
  import opened Common
  import opened Rows
  import opened Lifecycle

  // ----- reading the logs -----

  /** Where an approval is according to its audit events alone. */
  datatype Replayed = ABSENT | AT(state: State) | BROKEN

  /** One event applied: a creation needs an absent approval, a move needs the state it names. */
  function ReplayStep(before: Replayed, e: Event): Replayed {
    match e.move
    case None => if before == ABSENT then AT(PENDING) else BROKEN
    case Some(m) => if before == AT(m.from) then AT(m.to) else BROKEN
  }

  function Replay(events: seq<Event>, id: Id): Replayed {
    if events == [] then ABSENT
    else
      var before := Replay(events[..|events| - 1], id);
      var e := events[|events| - 1];
      if e.approvalId == id then ReplayStep(before, e) else before
  }

  function Claims(events: seq<Event>, id: Id): nat {
    if events == [] then 0
    else
      var e := events[|events| - 1];
      Claims(events[..|events| - 1], id) + if e.approvalId == id && e.kind == RESUME_CLAIMED then 1 else 0
  }

  /** A row a reviewer wrote: it decided a PENDING approval, or it approves. */
  predicate ByReviewer(row: DecisionRow, id: Id) {
    row.approvalId == id && (row.fromState == PENDING || row.decision == APPROVE)
  }

  function Verdicts(rows: seq<DecisionRow>, id: Id): seq<DecisionRow> {
    if rows == [] then []
    else
      var row := rows[|rows| - 1];
      Verdicts(rows[..|rows| - 1], id) + if ByReviewer(row, id) then [row] else []
  }

  function CallsFor(calls: seq<Call>, id: Id): nat {
    if calls == [] then 0
    else CallsFor(calls[..|calls| - 1], id) + if calls[|calls| - 1].id == id then 1 else 0
  }

  lemma AppendEvent(events: seq<Event>, e: Event, id: Id)
    ensures Replay(events + [e], id)
         == if e.approvalId == id then ReplayStep(Replay(events, id), e) else Replay(events, id)
    ensures Claims(events + [e], id)
         == Claims(events, id) + if e.approvalId == id && e.kind == RESUME_CLAIMED then 1 else 0
  {
    assert (events + [e])[..|events|] == events;
  }

  lemma AppendRow(rows: seq<DecisionRow>, row: DecisionRow, id: Id, key: string)
    ensures Verdicts(rows + [row], id) == Verdicts(rows, id) + if ByReviewer(row, id) then [row] else []
    ensures FindKey(rows + [row], key) == if row.key == key then Some(row) else FindKey(rows, key)
  {
    assert (rows + [row])[..|rows|] == rows;
  }

  lemma AppendCall(calls: seq<Call>, c: Call, id: Id)
    ensures CallsFor(calls + [c], id) == CallsFor(calls, id) + if c.id == id then 1 else 0
  {
    assert (calls + [c])[..|calls|] == calls;
  }

  // ----- the invariant -----

  /** `transactions.status` mirrors the approval's state, except that a claim leaves it APPROVED. */
  function StatusOf(s: State): State {
    if s == RESUMING then APPROVED else s
  }

  /** Exactly one reviewer row, and it approves in time and was not written by the creator. */
  predicate Vetted(st: Store, id: Id)
    requires id in st.approvals
  {
    var rows := Verdicts(st.decisions, id);
    var row := st.approvals[id];
    && |rows| == 1
    && rows[0].decision == APPROVE
    && rows[0].reviewer != row.creator
    && rows[0].createdAt < row.expiresAt
  }

  /** The states only an approved request can be in. */
  predicate NeedsVetting(s: State) {
    s.APPROVED? || s.RESUMING? || s.COMPLETED? || s.FAILED?
  }

  predicate AttemptsOk(row: Approval, maxAttempts: nat) {
    && row.resumeAttempts <= maxAttempts
    && (row.state == PENDING ==> row.resumeAttempts == 0)
    && (row.state == APPROVED ==> row.resumeAttempts < maxAttempts)
    && (row.state == RESUMING ==> 1 <= row.resumeAttempts)
    && (row.state == COMPLETED <==> row.completion.Some?)
  }

  /** What the store alone says of approval `id`. */
  ghost predicate RowOk(st: Store, id: Id, maxAttempts: nat)
    requires id in st.approvals
  {
    var row := st.approvals[id];
    && row.txnId in st.txns
    && st.txns[row.txnId].status == StatusOf(row.state)
    && Replay(st.events, id) == AT(row.state)
    && Claims(st.events, id) == row.resumeAttempts
    && AttemptsOk(row, maxAttempts)
    && |Verdicts(st.decisions, id)| <= 1
    && (row.state == PENDING ==> Verdicts(st.decisions, id) == [])
    && (NeedsVetting(row.state) ==> Vetted(st, id))
  }

  /** No trace in the logs of an approval that does not exist. */
  predicate Untouched(st: Store, id: Id) {
    Replay(st.events, id) == ABSENT && Claims(st.events, id) == 0 && Verdicts(st.decisions, id) == []
  }

  ghost predicate RowsOk(st: Store, maxAttempts: nat) {
    forall id :: id in st.approvals ==> RowOk(st, id, maxAttempts)
  }

  ghost predicate CleanOk(st: Store) {
    forall id :: id !in st.approvals ==> Untouched(st, id)
  }

  /** `approvals.transaction_id` is unique. */
  ghost predicate TxnsDistinct(st: Store) {
    forall id, other :: id in st.approvals && other in st.approvals && id != other
      ==> st.approvals[id].txnId != st.approvals[other].txnId
  }

  ghost predicate KeysOk(st: Store) {
    forall key :: KeyOk(st, key)
  }

  predicate KeyOk(st: Store, key: string) {
    var found := FindKey(st.decisions, key);
    found.Some? ==> found.value.approvalId in st.approvals
  }

  ghost predicate StoreOk(st: Store, maxAttempts: nat) {
    RowsOk(st, maxAttempts) && CleanOk(st) && TxnsDistinct(st) && KeysOk(st)
  }

  /** A worker in flight owns its row: the row is RESUMING under this worker's attempt. */
  predicate WorkerOk(s: System, w: Worker) {
    && w.id in s.store.approvals
    && var row := s.store.approvals[w.id];
    && row.state == RESUMING
    && w.txnId == row.txnId
    && w.storedHash == row.materialHash
    && w.attempt == row.resumeAttempts
    && w.claimedAt < row.expiresAt
    && (w.phase.CLAIMED? ==> CallsFor(s.calls, w.id) < w.attempt)
    && (w.phase.CLAIMED? ==> forall i :: 0 <= i < |s.calls| && s.calls[i].id == w.id ==> s.calls[i].attempt < w.attempt)
  }

  /** Every call was of a vetted approval, in time, with the request it was created with. */
  predicate CallOk(s: System, c: Call) {
    && c.id in s.store.approvals
    && Vetted(s.store, c.id)
    && c.claimedAt < s.store.approvals[c.id].expiresAt
    && 1 <= c.attempt <= s.store.approvals[c.id].resumeAttempts
    && MaterialHash(c.payload) == s.store.approvals[c.id].materialHash
  }

  ghost predicate OriginOk(s: System) {
    && s.origin.Keys == s.store.approvals.Keys
    && forall id :: id in s.store.approvals ==> s.store.approvals[id].materialHash == MaterialHash(s.origin[id])
  }

  ghost predicate CountsOk(s: System) {
    forall id :: id in s.store.approvals ==> CallsFor(s.calls, id) <= s.store.approvals[id].resumeAttempts
  }

  ghost predicate WorkersOk(s: System) {
    && (forall w :: w in s.workers ==> WorkerOk(s, s.workers[w]))
    && (forall w, v :: w in s.workers && v in s.workers && w != v ==> s.workers[w].id != s.workers[v].id)
  }

  /** No claim calls the provider twice. */
  ghost predicate CallsOk(s: System) {
    && (forall i :: 0 <= i < |s.calls| ==> CallOk(s, s.calls[i]))
    && (forall i, j :: 0 <= i < j < |s.calls| && s.calls[i].id == s.calls[j].id
          ==> s.calls[i].attempt < s.calls[j].attempt)
  }

  ghost predicate Inv(s: System, maxAttempts: nat) {
    StoreOk(s.store, maxAttempts) && OriginOk(s) && CountsOk(s) && WorkersOk(s) && CallsOk(s)
  }

  // ----- one row moves -----

  /** Every field that no move may change. */
  predicate SameIdentity(a: Approval, b: Approval) {
    a.txnId == b.txnId && a.creator == b.creator && a.materialHash == b.materialHash && a.expiresAt == b.expiresAt
  }

  /** What every block keeps of the rows that exist: who they are, how far they got, who vetted them. */
  ghost predicate Grown(st: Store, st': Store) {
    && st'.approvals.Keys == st.approvals.Keys
    && (forall id :: id in st.approvals ==>
      && SameIdentity(st.approvals[id], st'.approvals[id])
      && st.approvals[id].resumeAttempts <= st'.approvals[id].resumeAttempts
      && (Vetted(st, id) ==> Vetted(st', id)))
  }

  /** `st'` differs from `st` by one audited move of `id`, and by no reviewer's row. */
  ghost predicate OneMove(st: Store, st': Store, id: Id, kind: EventKind) {
    && id in st.approvals && id in st'.approvals
    && st'.approvals == st.approvals[id := st'.approvals[id]]
    && SameIdentity(st.approvals[id], st'.approvals[id])
    && st'.events == st.events + [Event(id, kind, Some(Move(st.approvals[id].state, st'.approvals[id].state)))]
    && st'.txns.Keys == st.txns.Keys
    && (forall t :: t in st.txns && t != st.approvals[id].txnId ==> st'.txns[t] == st.txns[t])
    && st'.approvals[id].resumeAttempts == st.approvals[id].resumeAttempts + (if kind == RESUME_CLAIMED then 1 else 0)
  }

  /** The decision log is unchanged, or grew by a denial the system wrote for `id`. */
  predicate SystemRowsOnly(st: Store, st': Store, id: Id) {
    || st'.decisions == st.decisions
    || (&& |st'.decisions| == |st.decisions| + 1
        && var row := st'.decisions[|st.decisions|];
        && st'.decisions == st.decisions + [row]
        && row.approvalId == id && row.fromState == RESUMING && row.decision == Choice.DENY)
  }

  /** `key` finds the row it found before, or a row of `id`. */
  predicate KeyKept(st: Store, st': Store, key: string, id: Id) {
    var found := FindKey(st'.decisions, key);
    found == FindKey(st.decisions, key) || (found.Some? && found.value.approvalId == id)
  }

  lemma SystemRowsKeepVerdicts(st: Store, st': Store, id: Id)
    requires SystemRowsOnly(st, st', id)
    ensures forall x :: Verdicts(st'.decisions, x) == Verdicts(st.decisions, x)
    ensures forall key :: KeyKept(st, st', key, id)
  {
    if st'.decisions != st.decisions {
      var row := st'.decisions[|st.decisions|];
      forall x ensures Verdicts(st'.decisions, x) == Verdicts(st.decisions, x) {
        AppendRow(st.decisions, row, x, "");
      }
      forall key ensures KeyKept(st, st', key, id) {
        AppendRow(st.decisions, row, id, key);
      }
    }
  }

  /** The moves the blocks make: they keep what the row already says of itself. */
  ghost predicate FairMove(st: Store, st': Store, id: Id, kind: EventKind, maxAttempts: nat) {
    && OneMove(st, st', id, kind) && SystemRowsOnly(st, st', id)
    && AttemptsOk(st'.approvals[id], maxAttempts)
    && st.approvals[id].txnId in st.txns
    && st'.txns[st.approvals[id].txnId].status == StatusOf(st'.approvals[id].state)
    && st'.approvals[id].state != PENDING
    && (NeedsVetting(st'.approvals[id].state) ==> NeedsVetting(st.approvals[id].state))
  }

  lemma MoveReadsLogs(st: Store, st': Store, id: Id, kind: EventKind, x: Id)
    requires OneMove(st, st', id, kind) && SystemRowsOnly(st, st', id)
    ensures Replay(st'.events, x) == if x == id then ReplayStep(Replay(st.events, x), st'.events[|st.events|])
                                     else Replay(st.events, x)
    ensures Claims(st'.events, x) == Claims(st.events, x) + if x == id && kind == RESUME_CLAIMED then 1 else 0
    ensures Verdicts(st'.decisions, x) == Verdicts(st.decisions, x)
  {
    SystemRowsKeepVerdicts(st, st', id);
    AppendEvent(st.events, st'.events[|st.events|], x);
  }

  lemma MoveKeepsRow(st: Store, st': Store, id: Id, kind: EventKind, x: Id, maxAttempts: nat)
    requires FairMove(st, st', id, kind, maxAttempts)
    requires x in st.approvals && RowOk(st, x, maxAttempts) && RowOk(st, id, maxAttempts)
    requires x != id ==> st.approvals[x].txnId != st.approvals[id].txnId
    ensures RowOk(st', x, maxAttempts)
    ensures Vetted(st, x) ==> Vetted(st', x)
  {
    hide Replay, Claims, Verdicts, FindKey;
    MoveReadsLogs(st, st', id, kind, x);
    assert x != id ==> st'.approvals[x] == st.approvals[x];
  }

  lemma MoveKeepsStore(st: Store, st': Store, id: Id, kind: EventKind, maxAttempts: nat)
    requires id in st.approvals && StoreOk(st, maxAttempts) && FairMove(st, st', id, kind, maxAttempts)
    ensures StoreOk(st', maxAttempts) && Grown(st, st')
  {
    hide RowOk, Vetted, Untouched, SystemRowsOnly, FindKey, AttemptsOk, Replay, Claims, Verdicts;
    forall x | x in st'.approvals
      ensures RowOk(st', x, maxAttempts) && (Vetted(st, x) ==> Vetted(st', x))
    {
      MoveKeepsRow(st, st', id, kind, x, maxAttempts);
    }
    forall x | x !in st'.approvals ensures Untouched(st', x) {
      assert Untouched(st, x);
      MoveKeepsClean(st, st', id, kind, x);
    }
    forall key ensures KeyOk(st', key) {
      assert KeyOk(st, key);
      SystemRowsKeepVerdicts(st, st', id);
      assert KeyKept(st, st', key, id);
    }
  }

  lemma MoveKeepsClean(st: Store, st': Store, id: Id, kind: EventKind, x: Id)
    requires OneMove(st, st', id, kind) && SystemRowsOnly(st, st', id) && x != id && Untouched(st, x)
    ensures Untouched(st', x)
  {
    MoveReadsLogs(st, st', id, kind, x);
  }

  // ----- each block keeps the store -----

  lemma CreateKeepsStore(st: Store, req: CreateRequest, now: int, maxAttempts: nat)
    requires StoreOk(st, maxAttempts)
    ensures StoreOk(Create(st, req, now).0, maxAttempts)
    ensures forall x :: x in st.approvals && Vetted(st, x) ==> Vetted(Create(st, req, now).0, x)
  {
    hide Replay, Claims, Verdicts, FindKey;
    var (st', r) := Create(st, req, now);
    if r.Ok? {
      var e := Event(req.id, APPROVAL_CREATED, None);
      forall x
        ensures Replay(st'.events, x) == if x == req.id then ReplayStep(Replay(st.events, x), e) else Replay(st.events, x)
        ensures Claims(st'.events, x) == Claims(st.events, x)
      {
        AppendEvent(st.events, e, x);
      }
      assert Untouched(st, req.id);
      forall x | x in st'.approvals ensures RowOk(st', x, maxAttempts) {
        assert x != req.id ==> RowOk(st, x, maxAttempts) && st'.approvals[x] == st.approvals[x];
      }
      forall key ensures KeyOk(st', key) {
        assert KeyOk(st, key);
      }
      forall x, y | x in st'.approvals && y in st'.approvals && x != y
        ensures st'.approvals[x].txnId != st'.approvals[y].txnId
      {
        assert x != req.id ==> RowOk(st, x, maxAttempts);
        assert y != req.id ==> RowOk(st, y, maxAttempts);
      }
      forall x | x !in st'.approvals ensures Untouched(st', x) {
        assert Untouched(st, x);
      }
    }
  }

  lemma DecideReadsLogs(st: Store, req: DecideRequest, now: int, x: Id, key: string)
    requires var r := Decide(st, req, now).1; r.Ok? && r.value.outcome == APPLIED
    ensures var (st', r) := Decide(st, req, now);
            && Replay(st'.events, x) == (if x == req.id then ReplayStep(Replay(st.events, x), st'.events[|st.events|])
                                         else Replay(st.events, x))
            && Claims(st'.events, x) == Claims(st.events, x)
            && Verdicts(st'.decisions, x) == Verdicts(st.decisions, x) + (if x == req.id then [r.value.row] else [])
            && FindKey(st'.decisions, key) == (if key == req.key then Some(r.value.row) else FindKey(st.decisions, key))
  {
    hide Replay, Claims, Verdicts, FindKey, SameBody, Blank, Synced;
    var (st', r) := Decide(st, req, now);
    AppendEvent(st.events, st'.events[|st.events|], x);
    AppendRow(st.decisions, r.value.row, x, key);
  }

  /** A decision applied writes the one reviewer row that a PENDING approval lacks. */
  lemma DecideKeepsRow(st: Store, req: DecideRequest, now: int, x: Id, maxAttempts: nat)
    requires var r := Decide(st, req, now).1; r.Ok? && r.value.outcome == APPLIED
    requires 1 <= maxAttempts && req.id in st.approvals && RowOk(st, req.id, maxAttempts)
    requires x in st.approvals && RowOk(st, x, maxAttempts)
    requires x != req.id ==> st.approvals[x].txnId != st.approvals[req.id].txnId
    ensures RowOk(Decide(st, req, now).0, x, maxAttempts)
    ensures Vetted(st, x) ==> Vetted(Decide(st, req, now).0, x)
  {
    hide Replay, Claims, Verdicts, FindKey, SameBody, Blank;
    DecideReadsLogs(st, req, now, x, "");
  }

  /** All that an applied decision does to the keyed tables. */
  lemma DecideShape(st: Store, req: DecideRequest, now: int)
    ensures var (st', r) := Decide(st, req, now);
            if r.Ok? && r.value.outcome == APPLIED
            then req.id in st.approvals && st.approvals[req.id].state == PENDING && r.value.row.approvalId == req.id
              && st'.approvals == st.approvals[req.id := st.approvals[req.id].(state := r.value.state)]
            else st' == st
  {
  }

  lemma DecideKeepsStore(st: Store, req: DecideRequest, now: int, maxAttempts: nat)
    requires StoreOk(st, maxAttempts) && 1 <= maxAttempts
    ensures StoreOk(Decide(st, req, now).0, maxAttempts)
    ensures Grown(st, Decide(st, req, now).0)
  {
    hide Replay, Claims, Verdicts, FindKey, RowOk, Vetted, Decide;
    DecideShape(st, req, now);
    var (st', r) := Decide(st, req, now);
    if r.Ok? && r.value.outcome == APPLIED {
      forall x | x in st'.approvals
        ensures RowOk(st', x, maxAttempts) && (Vetted(st, x) ==> Vetted(st', x))
      {
        DecideKeepsRow(st, req, now, x, maxAttempts);
      }
      forall x | x !in st'.approvals ensures Untouched(st', x) {
        assert Untouched(st, x);
        DecideReadsLogs(st, req, now, x, "");
      }
      forall key ensures KeyOk(st', key) {
        assert KeyOk(st, key);
        DecideReadsLogs(st, req, now, req.id, key);
      }
    }
  }

  /** What a move relies on of the row it moves. */
  lemma MovableRow(st: Store, id: Id, maxAttempts: nat)
    requires StoreOk(st, maxAttempts) && id in st.approvals
    ensures st.approvals[id].txnId in st.txns && AttemptsOk(st.approvals[id], maxAttempts)
    ensures st.txns[st.approvals[id].txnId].status == StatusOf(st.approvals[id].state)
  {
    hide Replay, Claims, Verdicts, FindKey, Vetted;
    assert RowOk(st, id, maxAttempts);
  }

  lemma ExpireKeepsStore(st: Store, id: Id, kind: EventKind, maxAttempts: nat)
    requires StoreOk(st, maxAttempts) && kind != RESUME_CLAIMED
    requires id in st.approvals && (st.approvals[id].state.PENDING? || st.approvals[id].state.APPROVED?)
    ensures StoreOk(MovedTo(st, id, EXPIRED, kind), maxAttempts)
    ensures Grown(st, MovedTo(st, id, EXPIRED, kind))
  {
    hide StoreOk, Grown, FindKey;
    MovableRow(st, id, maxAttempts);
    MoveKeepsStore(st, MovedTo(st, id, EXPIRED, kind), id, kind, maxAttempts);
  }

  lemma ClaimKeepsStore(st: Store, id: Id, now: int, maxAttempts: nat)
    requires StoreOk(st, maxAttempts)
    ensures StoreOk(Claim(st, id, now).0, maxAttempts)
    ensures Grown(st, Claim(st, id, now).0)
  {
    hide StoreOk, Grown, FindKey;
    GrownItself(st);
    var (st', claimed) := Claim(st, id, now);
    if id in st.approvals && st.approvals[id].state == APPROVED {
      MovableRow(st, id, maxAttempts);
      if claimed.Some? {
        MoveKeepsStore(st, st', id, RESUME_CLAIMED, maxAttempts);
      } else {
        ExpireKeepsStore(st, id, APPROVAL_EXPIRED_BEFORE_RESUME, maxAttempts);
      }
    }
  }

  lemma DenyKeepsStore(st: Store, w: Worker, note: string, kind: EventKind, key: string, at: int, maxAttempts: nat)
    requires StoreOk(st, maxAttempts) && kind != RESUME_CLAIMED
    requires w.id in st.approvals && w.txnId == st.approvals[w.id].txnId && st.approvals[w.id].state == RESUMING
    ensures DenyResume(st, w, note, kind, key, at).Ok? <==> FindKey(st.decisions, key).None?
    ensures var r := DenyResume(st, w, note, kind, key, at);
            r.Ok? ==> StoreOk(r.value, maxAttempts) && Grown(st, r.value)
  {
    hide StoreOk, Grown, FindKey;
    MovableRow(st, w.id, maxAttempts);
    var r := DenyResume(st, w, note, kind, key, at);
    if r.Ok? {
      MoveKeepsStore(st, r.value, w.id, kind, maxAttempts);
    }
  }

  lemma CompleteKeepsStore(st: Store, w: Worker, sanitized: Response, at: int, maxAttempts: nat)
    requires StoreOk(st, maxAttempts)
    requires w.id in st.approvals && w.txnId == st.approvals[w.id].txnId && st.approvals[w.id].state == RESUMING
    ensures var r := CompleteResume(st, w, sanitized, at);
            r.Ok? && StoreOk(r.value, maxAttempts) && Grown(st, r.value)
  {
    hide StoreOk, Grown, FindKey;
    MovableRow(st, w.id, maxAttempts);
    MoveKeepsStore(st, CompleteResume(st, w, sanitized, at).value, w.id, RESUME_COMPLETED, maxAttempts);
  }

  lemma ReconcileRowKeepsStore(st: Store, id: Id, maxAttempts: nat)
    requires StoreOk(st, maxAttempts)
    ensures StoreOk(ReconcileRow(st, id, maxAttempts), maxAttempts)
    ensures Grown(st, ReconcileRow(st, id, maxAttempts))
  {
    hide StoreOk, Grown, FindKey;
    GrownItself(st);
    if id in st.approvals && st.approvals[id].state == RESUMING {
      MovableRow(st, id, maxAttempts);
      MoveKeepsStore(st, ReconcileRow(st, id, maxAttempts), id, STARTUP_RECONCILE, maxAttempts);
    }
  }

  // ----- the loops -----

  lemma SweepKeepsStore(st: Store, order: seq<Id>, now: int, maxAttempts: nat)
    requires StoreOk(st, maxAttempts)
    ensures StoreOk(Sweep(st, order, now), maxAttempts) && Grown(st, Sweep(st, order, now))
    ensures forall id :: id in st.approvals && !Elapsed(st.approvals[id], now)
              ==> Sweep(st, order, now).approvals[id] == st.approvals[id]
  {
    hide StoreOk, Grown;
    if order == [] {
      GrownItself(st);
    } else {
      SweepKeepsStore(st, order[..|order| - 1], now, maxAttempts);
      var mid, id := Sweep(st, order[..|order| - 1], now), order[|order| - 1];
      GrownKeepsRows(st, mid);
      if id in mid.approvals && Elapsed(mid.approvals[id], now) {
        ExpireKeepsStore(mid, id, APPROVAL_EXPIRED_SWEEP, maxAttempts);
        GrownTwice(st, mid, MovedTo(mid, id, EXPIRED, APPROVAL_EXPIRED_SWEEP));
      }
    }
  }

  lemma GrownItself(st: Store)
    ensures Grown(st, st)
  {
    hide Vetted;
  }

  lemma GrownKeepsRows(st: Store, st': Store)
    requires Grown(st, st')
    ensures st'.approvals.Keys == st.approvals.Keys
  {
    hide Vetted;
  }

  lemma GrownTwice(a: Store, b: Store, c: Store)
    requires Grown(a, b) && Grown(b, c)
    ensures Grown(a, c)
  {
    hide Vetted;
  }

  lemma ReconcileKeepsStore(st: Store, order: seq<Id>, maxAttempts: nat)
    requires StoreOk(st, maxAttempts)
    ensures StoreOk(Reconcile(st, order, maxAttempts), maxAttempts) && Grown(st, Reconcile(st, order, maxAttempts))
  {
    hide Replay, Claims, Verdicts, FindKey;
    if order != [] {
      ReconcileKeepsStore(st, order[..|order| - 1], maxAttempts);
      ReconcileRowKeepsStore(Reconcile(st, order[..|order| - 1], maxAttempts), order[|order| - 1], maxAttempts);
    }
  }

  // ----- each step keeps the system -----

  /** A store may be replaced by one it has grown into, as long as no worker's row moved. */
  lemma GrownKeepsSystem(s: System, st': Store, maxAttempts: nat)
    requires Inv(s, maxAttempts) && StoreOk(st', maxAttempts) && Grown(s.store, st')
    requires forall w :: w in s.workers ==>
      var id := s.workers[w].id;
      st'.approvals[id].state == RESUMING && st'.approvals[id].resumeAttempts == s.store.approvals[id].resumeAttempts
    ensures Inv(s.(store := st'), maxAttempts)
  {
    hide Replay, Claims, Verdicts, FindKey, CallsFor, MaterialHash, StoreOk, RowOk, Vetted;
    var s' := s.(store := st');
    forall w | w in s'.workers ensures WorkerOk(s', s'.workers[w]) {
      assert WorkerOk(s, s.workers[w]);
    }
    forall i | 0 <= i < |s'.calls| ensures CallOk(s', s'.calls[i]) {
      assert CallOk(s, s.calls[i]);
    }
  }

  lemma DroppingWorkersKeeps(s: System, gone: set<nat>, maxAttempts: nat)
    requires Inv(s, maxAttempts)
    ensures Inv(s.(workers := s.workers - gone), maxAttempts)
  {
    hide Replay, Claims, Verdicts, FindKey, CallsFor, MaterialHash, StoreOk, RowOk, Vetted;
    var s' := s.(workers := s.workers - gone);
    forall w | w in s'.workers ensures WorkerOk(s', s'.workers[w]) {
      assert WorkerOk(s, s.workers[w]);
    }
    forall i | 0 <= i < |s'.calls| ensures CallOk(s', s'.calls[i]) {
      assert CallOk(s, s.calls[i]);
    }
  }

  lemma CreateKeeps(s: System, req: CreateRequest, now: int, maxAttempts: nat)
    requires Inv(s, maxAttempts) && req.materialHash == MaterialHash(req.payload)
    ensures var (st, r) := Create(s.store, req, now);
            Inv(s.(store := st, origin := if r.Ok? then s.origin[req.id := req.payload] else s.origin), maxAttempts)
  {
    hide Replay, Claims, Verdicts, FindKey, CallsFor, MaterialHash, StoreOk, RowOk, Vetted;
    var (st, r) := Create(s.store, req, now);
    CreateKeepsStore(s.store, req, now, maxAttempts);
    if r.Ok? {
      var s' := s.(store := st, origin := s.origin[req.id := req.payload]);
      NoCalls(s, req.id, s.calls, maxAttempts);
      forall w | w in s'.workers ensures WorkerOk(s', s'.workers[w]) {
        assert WorkerOk(s, s.workers[w]);
      }
      forall i | 0 <= i < |s'.calls| ensures CallOk(s', s'.calls[i]) {
        assert CallOk(s, s.calls[i]);
      }
    }
  }

  /** Nothing was called for an approval that does not exist. */
  lemma NoCalls(s: System, id: Id, calls: seq<Call>, maxAttempts: nat)
    requires Inv(s, maxAttempts) && id !in s.store.approvals
    requires calls <= s.calls
    ensures CallsFor(calls, id) == 0
  {
    if calls != [] {
      NoCalls(s, id, calls[..|calls| - 1], maxAttempts);
      assert CallOk(s, s.calls[|calls| - 1]);
    }
  }

  /** A claim takes an APPROVED row and leaves every other row alone. */
  lemma ClaimShape(st: Store, id: Id, now: int)
    ensures var (st', claimed) := Claim(st, id, now);
            && st'.approvals.Keys == st.approvals.Keys
            && (forall x :: x in st.approvals && (x != id || st.approvals[x].state != APPROVED)
                  ==> st'.approvals[x] == st.approvals[x])
            && (claimed.Some? ==>
                  && id in st.approvals && st.approvals[id].state == APPROVED
                  && now < st.approvals[id].expiresAt
                  && st'.approvals[id] == st.approvals[id].(state := RESUMING,
                                                            resumeAttempts := st.approvals[id].resumeAttempts + 1)
                  && claimed.value == Worker(id, st.approvals[id].txnId, st.approvals[id].payload,
                                             st.approvals[id].materialHash, st.approvals[id].resumeAttempts + 1, now, CLAIMED))
  {
  }

  /** A fresh worker that owns its row may join when nobody else holds it. */
  lemma JoiningKeeps(s: System, w: nat, worker: Worker, maxAttempts: nat)
    requires Inv(s, maxAttempts) && w !in s.workers && WorkerOk(s, worker)
    requires forall v :: v in s.workers ==> s.workers[v].id != worker.id
    ensures Inv(s.(workers := s.workers[w := worker]), maxAttempts)
  {
    hide CallsFor, MaterialHash, StoreOk, Vetted;
    var s' := s.(workers := s.workers[w := worker]);
    forall v | v in s'.workers ensures WorkerOk(s', s'.workers[v]) {
      assert v != w ==> WorkerOk(s, s.workers[v]);
    }
    forall i | 0 <= i < |s'.calls| ensures CallOk(s', s'.calls[i]) {
      assert CallOk(s, s.calls[i]);
    }
  }

  /** No call for the approval was made under an attempt beyond the row's. */
  lemma CallsBefore(s: System, id: Id, maxAttempts: nat)
    requires Inv(s, maxAttempts) && id in s.store.approvals
    ensures CallsFor(s.calls, id) <= s.store.approvals[id].resumeAttempts
    ensures forall i :: 0 <= i < |s.calls| && s.calls[i].id == id ==> s.calls[i].attempt <= s.store.approvals[id].resumeAttempts
  {
    hide CallsFor, MaterialHash, StoreOk, Vetted, WorkersOk;
    forall i | 0 <= i < |s.calls| && s.calls[i].id == id ensures s.calls[i].attempt <= s.store.approvals[id].resumeAttempts {
      assert CallOk(s, s.calls[i]);
    }
  }

  /** The workers hold RESUMING rows, which a claim leaves alone. */
  lemma ClaimSparesWorkers(s: System, id: Id, now: int, maxAttempts: nat)
    requires Inv(s, maxAttempts)
    ensures var (st, claimed) := Claim(s.store, id, now);
            forall v :: v in s.workers ==>
              && s.workers[v].id in s.store.approvals && s.workers[v].id in st.approvals
              && s.store.approvals[s.workers[v].id].state == RESUMING
              && st.approvals[s.workers[v].id] == s.store.approvals[s.workers[v].id]
  {
    hide CallsFor, StoreOk, CallsOk, CountsOk, OriginOk, Claim;
    ClaimShape(s.store, id, now);
    forall v | v in s.workers ensures s.workers[v].id in s.store.approvals
      && s.store.approvals[s.workers[v].id].state == RESUMING
    {
      assert WorkerOk(s, s.workers[v]);
    }
  }

  lemma ClaimKeeps(s: System, w: nat, id: Id, now: int, maxAttempts: nat)
    requires Inv(s, maxAttempts) && w !in s.workers
    ensures Inv(Step(s, DoClaim(w, id, now), maxAttempts), maxAttempts)
  {
    hide CallsFor, MaterialHash, Claim, Inv, StoreOk, Grown;
    var (st, claimed) := Claim(s.store, id, now);
    ClaimShape(s.store, id, now);
    InvStore(s, maxAttempts);
    ClaimKeepsStore(s.store, id, now, maxAttempts);
    ClaimSparesWorkers(s, id, now, maxAttempts);
    GrownKeepsSystem(s, st, maxAttempts);
    if claimed.Some? {
      CallsBefore(s, id, maxAttempts);
      JoiningKeeps(s.(store := st), w, claimed.value, maxAttempts);
    }
  }

  lemma InvStore(s: System, maxAttempts: nat)
    requires Inv(s, maxAttempts)
    ensures StoreOk(s.store, maxAttempts)
  {
  }

  /** A worker whose closing block committed leaves; its row was its own. */
  lemma ClosedKeeps(s: System, w: nat, st': Store, maxAttempts: nat)
    requires Inv(s, maxAttempts) && w in s.workers
    requires StoreOk(st', maxAttempts) && Grown(s.store, st')
    requires forall id :: id in s.store.approvals && id != s.workers[w].id ==> st'.approvals[id] == s.store.approvals[id]
    ensures Inv(s.(workers := s.workers - {w}, store := st'), maxAttempts)
  {
    hide Replay, Claims, Verdicts, FindKey, CallsFor, MaterialHash, StoreOk, RowOk, Vetted;
    DroppingWorkersKeeps(s, {w}, maxAttempts);
    var mid := s.(workers := s.workers - {w});
    forall v | v in mid.workers
      ensures mid.workers[v].id in s.store.approvals
           && st'.approvals[mid.workers[v].id] == s.store.approvals[mid.workers[v].id]
           && st'.approvals[mid.workers[v].id].state == RESUMING
    {
      assert WorkerOk(mid, mid.workers[v]);
    }
    GrownKeepsSystem(mid, st', maxAttempts);
  }

  lemma DenyStepKeeps(s: System, w: nat, note: string, kind: EventKind, key: string, at: int, maxAttempts: nat)
    requires Inv(s, maxAttempts) && w in s.workers && kind != RESUME_CLAIMED
    ensures Inv(Left(s, w, DenyResume(s.store, s.workers[w], note, kind, key, at)), maxAttempts)
  {
    hide Replay, Claims, Verdicts, FindKey, CallsFor, MaterialHash, StoreOk, RowOk, Vetted;
    var r := DenyResume(s.store, s.workers[w], note, kind, key, at);
    assert WorkerOk(s, s.workers[w]);
    DenyKeepsStore(s.store, s.workers[w], note, kind, key, at, maxAttempts);
    if r.Ok? {
      ClosedKeeps(s, w, r.value, maxAttempts);
    } else {
      DroppingWorkersKeeps(s, {w}, maxAttempts);
    }
  }

  lemma CloseKeeps(s: System, w: nat, guard: Guard, key: string, at: int, maxAttempts: nat)
    requires Inv(s, maxAttempts) && w in s.workers
    ensures Inv(Close(s, w, guard, key, at), maxAttempts)
  {
    hide Replay, Claims, Verdicts, FindKey, CallsFor, MaterialHash, StoreOk, RowOk, Vetted;
    match guard
    case GUARD_DENY => DenyStepKeeps(s, w, "OUTPUT_GUARD_DENIED", RESUME_OUTPUT_GUARD_DENIED, key, at, maxAttempts);
    case GUARD_ALLOW(sanitized) =>
      assert WorkerOk(s, s.workers[w]);
      CompleteKeepsStore(s.store, s.workers[w], sanitized, at, maxAttempts);
      ClosedKeeps(s, w, CompleteResume(s.store, s.workers[w], sanitized, at).value, maxAttempts);
  }

  lemma ResumingIsVetted(st: Store, id: Id, maxAttempts: nat)
    requires StoreOk(st, maxAttempts) && id in st.approvals && st.approvals[id].state == RESUMING
    ensures Vetted(st, id) && 1 <= st.approvals[id].resumeAttempts
  {
    assert RowOk(st, id, maxAttempts);
  }

  lemma VerifyKeeps(s: System, w: nat, key: string, at: int, maxAttempts: nat)
    requires Inv(s, maxAttempts) && w in s.workers && s.workers[w].phase.CLAIMED?
    ensures Inv(Verify(s, w, key, at), maxAttempts)
  {
    hide Replay, Claims, Verdicts, FindKey, CallsFor, MaterialHash, StoreOk, RowOk, Vetted;
    var worker := s.workers[w];
    assert WorkerOk(s, worker);
    ResumingIsVetted(s.store, worker.id, maxAttempts);
    if MaterialHash(worker.payload) != worker.storedHash {
      DenyStepKeeps(s, w, "ARGUMENTS_CHANGED", RESUME_ARGUMENTS_CHANGED, key, at, maxAttempts);
    } else {
      var s' := Verify(s, w, key, at);
      var call := s'.calls[|s.calls|];
      forall id ensures CallsFor(s'.calls, id) == CallsFor(s.calls, id) + if id == worker.id then 1 else 0 {
        AppendCall(s.calls, call, id);
      }
      forall v | v in s'.workers ensures WorkerOk(s', s'.workers[v]) {
        assert WorkerOk(s, s.workers[v]);
      }
      forall i | 0 <= i < |s'.calls| ensures CallOk(s', s'.calls[i]) {
        assert i < |s.calls| ==> CallOk(s, s.calls[i]);
      }
      forall i, j | 0 <= i < j < |s'.calls| && s'.calls[i].id == s'.calls[j].id
        ensures s'.calls[i].attempt < s'.calls[j].attempt
      {
        assert s'.calls[i] == s.calls[i];
      }
    }
  }

  lemma AnswerKeeps(s: System, w: nat, response: Response, maxAttempts: nat)
    requires Inv(s, maxAttempts)
    ensures Inv(Step(s, DoAnswer(w, response), maxAttempts), maxAttempts)
  {
    hide Replay, Claims, Verdicts, FindKey, CallsFor, MaterialHash, StoreOk, RowOk, Vetted;
    var s' := Step(s, DoAnswer(w, response), maxAttempts);
    forall v | v in s'.workers ensures WorkerOk(s', s'.workers[v]) {
      assert WorkerOk(s, s.workers[v]);
    }
    forall i | 0 <= i < |s'.calls| ensures CallOk(s', s'.calls[i]) {
      assert CallOk(s, s.calls[i]);
    }
  }

  lemma TamperKeepsRow(st: Store, id: Id, payload: Payload, x: Id, maxAttempts: nat)
    requires id in st.approvals && x in st.approvals && RowOk(st, x, maxAttempts)
    ensures var st' := st.(approvals := st.approvals[id := st.approvals[id].(payload := payload)]);
            RowOk(st', x, maxAttempts) && (Vetted(st, x) ==> Vetted(st', x))
  {
    hide Replay, Claims, Verdicts, FindKey;
  }

  lemma TamperKeepsLogs(st: Store, id: Id, payload: Payload)
    requires id in st.approvals
    ensures var st' := st.(approvals := st.approvals[id := st.approvals[id].(payload := payload)]);
            && (forall x :: Untouched(st', x) <==> Untouched(st, x))
            && (forall key :: KeyOk(st, key) ==> KeyOk(st', key))
  {
    hide Replay, Claims, Verdicts, FindKey;
  }

  lemma TamperKeepsStore(st: Store, id: Id, payload: Payload, maxAttempts: nat)
    requires StoreOk(st, maxAttempts) && id in st.approvals
    ensures var st' := st.(approvals := st.approvals[id := st.approvals[id].(payload := payload)]);
            StoreOk(st', maxAttempts) && Grown(st, st')
  {
    hide RowOk, Untouched, KeyOk, Vetted;
    var st' := st.(approvals := st.approvals[id := st.approvals[id].(payload := payload)]);
    forall x | x in st'.approvals ensures RowOk(st', x, maxAttempts) && (Vetted(st, x) ==> Vetted(st', x)) {
      assert RowOk(st, x, maxAttempts);
      TamperKeepsRow(st, id, payload, x, maxAttempts);
    }
    TamperKeepsLogs(st, id, payload);
    forall x | x !in st'.approvals ensures Untouched(st', x) {
      assert Untouched(st, x);
    }
    forall key ensures KeyOk(st', key) {
      assert KeyOk(st, key);
    }
  }

  lemma TamperKeeps(s: System, id: Id, payload: Payload, maxAttempts: nat)
    requires Inv(s, maxAttempts)
    ensures Inv(Step(s, DoTamper(id, payload), maxAttempts), maxAttempts)
  {
    hide Replay, Claims, Verdicts, FindKey, CallsFor, MaterialHash, StoreOk, RowOk, Vetted;
    if id in s.store.approvals {
      var st' := s.store.(approvals := s.store.approvals[id := s.store.approvals[id].(payload := payload)]);
      TamperKeepsStore(s.store, id, payload, maxAttempts);
      WorkersHold(s);
      GrownKeepsSystem(s, st', maxAttempts);
    }
  }

  lemma WorkersHold(s: System)
    requires WorkersOk(s)
    ensures forall w :: w in s.workers ==>
              var id := s.workers[w].id; id in s.store.approvals && s.store.approvals[id].state == RESUMING
  {
    forall w | w in s.workers ensures WorkerOk(s, s.workers[w]) {}
  }

  lemma DecideKeeps(s: System, request: DecideRequest, now: int, maxAttempts: nat)
    requires Inv(s, maxAttempts) && 1 <= maxAttempts
    ensures Inv(Step(s, DoDecide(request, now), maxAttempts), maxAttempts)
  {
    hide FindKey, SameBody, Blank, StoreOk, RowOk, Vetted, CallsFor;
    DecideKeepsStore(s.store, request, now, maxAttempts);
    WorkersHold(s);
    GrownKeepsSystem(s, Decide(s.store, request, now).0, maxAttempts);
  }

  lemma SweepKeeps(s: System, order: seq<Id>, now: int, maxAttempts: nat)
    requires Inv(s, maxAttempts)
    ensures Inv(Step(s, DoSweep(order, now), maxAttempts), maxAttempts)
  {
    hide Sweep, StoreOk, RowOk, Vetted, CallsFor;
    SweepKeepsStore(s.store, order, now, maxAttempts);
    WorkersHold(s);
    GrownKeepsSystem(s, Sweep(s.store, order, now), maxAttempts);
  }

  lemma RestartKeeps(s: System, order: seq<Id>, maxAttempts: nat)
    requires Inv(s, maxAttempts)
    ensures Inv(Step(s, DoRestart(order), maxAttempts), maxAttempts)
  {
    hide Reconcile, StoreOk, RowOk, Vetted, CallsFor;
    DroppingWorkersKeeps(s, s.workers.Keys, maxAttempts);
    assert s.workers - s.workers.Keys == map[];
    ReconcileKeepsStore(s.store, order, maxAttempts);
    GrownKeepsSystem(s.(workers := map[]), Reconcile(s.store, order, maxAttempts), maxAttempts);
  }

  /** Every step of the system keeps the invariant. */
  lemma StepKeeps(s: System, a: Action, maxAttempts: nat)
    requires Inv(s, maxAttempts) && 1 <= maxAttempts
    ensures Inv(Step(s, a, maxAttempts), maxAttempts)
  {
    hide Inv, Create, Decide, Sweep, Claim, Verify, Close, Reconcile, MaterialHash;
    match a
    case DoCreate(id, txnId, creator, payload, ttl, now) =>
      CreateKeeps(s, CreateRequest(id, txnId, creator, payload, MaterialHash(payload), ttl), now, maxAttempts);
    case DoDecide(request, now) => DecideKeeps(s, request, now, maxAttempts);
    case DoSweep(order, now) => SweepKeeps(s, order, now, maxAttempts);
    case DoClaim(w, id, now) =>
      if w !in s.workers { ClaimKeeps(s, w, id, now, maxAttempts); }
    case DoVerify(w, key, at) =>
      if w in s.workers && s.workers[w].phase.CLAIMED? { VerifyKeeps(s, w, key, at, maxAttempts); }
    case DoAnswer(w, response) => AnswerKeeps(s, w, response, maxAttempts);
    case DoAbandon(w) => DroppingWorkersKeeps(s, {w}, maxAttempts);
    case DoClose(w, guard, key, at) =>
      if w in s.workers && s.workers[w].phase.ANSWERED? { CloseKeeps(s, w, guard, key, at, maxAttempts); }
    case DoRestart(order) => RestartKeeps(s, order, maxAttempts);
    case DoTamper(id, payload) => TamperKeeps(s, id, payload, maxAttempts);
  }

  /** The invariant holds after any interleaving of any number of steps. */
  lemma {:induction false} RunKeeps(actions: seq<Action>, maxAttempts: nat)
    requires 1 <= maxAttempts
    ensures Inv(Run(INITIAL, actions, maxAttempts), maxAttempts)
  {
    if actions != [] {
      RunKeeps(actions[..|actions| - 1], maxAttempts);
      StepKeeps(Run(INITIAL, actions[..|actions| - 1], maxAttempts), actions[|actions| - 1], maxAttempts);
    }
  }
}
