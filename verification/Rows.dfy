/** The rows of the approval tables (app/db.py) and the material-argument hash (app/materialargs.py). */
module Rows {
  import opened Common

  type Id = string

  /** The body of a model response, as canonical JSON text. */
  type Response = string

  datatype State = PENDING | APPROVED | RESUMING | DENIED | EXPIRED | CANCELLED | COMPLETED | FAILED

  predicate Final(s: State) {
    s.DENIED? || s.EXPIRED? || s.CANCELLED? || s.COMPLETED? || s.FAILED?
  }

  /** One chat message. `role` and `content` are JSON values as text, absent when the key is missing. */
  datatype Message = Message(role: Option<string>, content: Option<string>, otherFields: string)

  /** The stored request body: messages, declared tools, and every other field as text. */
  datatype Payload = Payload(messages: seq<Message>, tools: Option<seq<string>>, otherFields: string)

  datatype Judged = Judged(role: string, content: string)

  /** What the hash covers: the role and content of each message, and the tools. */
  datatype Material = Material(messages: seq<Judged>, tools: seq<string>)

  /** SHA-256 over canonical JSON, as a free constructor: equal digests have equal material. */
  datatype Digest = Sha256(material: Material)

  /** A missing key reads as a JSON null. */
  function Value(field: Option<string>): string {
    if field.Some? then field.value else "null"
  }

  function JudgedOf(messages: seq<Message>): (r: seq<Judged>)
    ensures |r| == |messages|
    ensures forall i :: 0 <= i < |r| ==> r[i] == Judged(Value(messages[i].role), Value(messages[i].content))
  {
    if messages == [] then []
    else [Judged(Value(messages[0].role), Value(messages[0].content))] + JudgedOf(messages[1..])
  }

  /** Absent tools and an empty list are the same request. */
  function Tools(p: Payload): seq<string> {
    if p.tools.Some? then p.tools.value else []
  }

  function MaterialHash(p: Payload): Digest {
    Sha256(Material(JudgedOf(p.messages), Tools(p)))
  }

  /** The same value, or a missing key on one side and a null on the other. */
  predicate SameField(a: Option<string>, b: Option<string>) {
    a == b || (a.None? && b == Some("null")) || (b.None? && a == Some("null"))
  }

  /** Two payloads ask the model for the same thing as far as a reviewer saw it: the same roles and contents in the
      same order, and the same tools, an empty list being as good as none. */
  ghost predicate SameRequest(p: Payload, q: Payload) {
    && |p.messages| == |q.messages|
    && (forall i :: 0 <= i < |p.messages| ==>
          SameField(p.messages[i].role, q.messages[i].role) && SameField(p.messages[i].content, q.messages[i].content))
    && (p.tools == q.tools || (p.tools in {None, Some([])} && q.tools in {None, Some([])}))
  }

  lemma ValueForgetsMissing(a: Option<string>, b: Option<string>)
    ensures Value(a) == Value(b) <==> SameField(a, b)
  {
  }

  /** The hash decides exactly the roles, the contents and the tools, and nothing else of the body. */
  lemma HashDecidesRequest(p: Payload, q: Payload)
    ensures MaterialHash(p) == MaterialHash(q) <==> SameRequest(p, q)
  {
    hide Value, SameField;
    forall a, b ensures Value(a) == Value(b) <==> SameField(a, b) { ValueForgetsMissing(a, b); }
    var a, b := JudgedOf(p.messages), JudgedOf(q.messages);
    if MaterialHash(p) == MaterialHash(q) {
      assert a == b;
      forall i | 0 <= i < |p.messages|
        ensures SameField(p.messages[i].role, q.messages[i].role)
        ensures SameField(p.messages[i].content, q.messages[i].content)
      {
        assert a[i] == b[i];
      }
    }
    if SameRequest(p, q) {
      assert a == b;
    }
  }

  /** `row.transformed_payload` is `payload`, `material_args_hash` is `materialHash`. */
  datatype Approval = Approval(
    txnId: Id,
    state: State,
    payload: Payload,
    materialHash: Digest,
    creator: Id,
    resumeAttempts: nat,
    completion: Option<Response>,
    createdAt: int,
    expiresAt: int)

  datatype Txn = Txn(identity: Id, status: State, materialHash: Digest, createdAt: int, completedAt: Option<int>)

  datatype Choice = APPROVE | DENY | OTHER(text: string)

  datatype DecisionRow = DecisionRow(
    approvalId: Id,
    decision: Choice,
    reviewer: Id,
    note: Option<string>,
    key: string,
    fromState: State,
    toState: State,
    createdAt: int)

  datatype EventKind =
    | APPROVAL_CREATED
    | APPROVAL_EXPIRED_SWEEP
    | APPROVAL_EXPIRED_ON_DECISION
    | APPROVAL_DECIDED
    | APPROVAL_EXPIRED_BEFORE_RESUME
    | RESUME_CLAIMED
    | RESUME_ARGUMENTS_CHANGED
    | RESUME_OUTPUT_GUARD_DENIED
    | RESUME_COMPLETED
    | STARTUP_RECONCILE

  datatype Move = Move(from: State, to: State)

  /** An audit event; the creation event is the one whose payload names no states. */
  datatype Event = Event(approvalId: Id, kind: EventKind, move: Option<Move>)

  /** The database: keyed tables, and the two append-only logs in commit order. */
  datatype Store = Store(
    approvals: map<Id, Approval>,
    txns: map<Id, Txn>,
    decisions: seq<DecisionRow>,
    events: seq<Event>)
}
