/** Pairing of external identities with an integration (main.py): challenges, codes, owner decisions, audit rows. */
module Pairing {
  import opened Text
  import opened Seqs

  datatype Key = Key(platform: string, integration: string, user: string)

  datatype Kind = Request | Create | Approve | Deny | Revoke
  datatype Status = Pending | Approved | Denied | Revoked | Expired

  /** One row of the audit table; its id is its position. Codes are stored hashed. */
  datatype Row = Row(key: Key, kind: Kind, status: Status, codeHash: Option<int>, expiresAt: Option<int>)

  /** The two tables and the rate-limit map. */
  datatype Db = Db(rows: seq<Row>, identities: map<Key, Status>, lastIssued: map<string, real>)

  const EMPTY := Db([], map[], map[])
  const CODE_TTL := 600
  const RATE_LIMIT := 90.0

  function RateKey(key: Key, channel: Option<string>): string {
    key.platform + ":" + key.integration + ":" + key.user + ":"
    + if channel.Some? && channel.value != "" then channel.value else "dm"
  }

  // ----- Queries -----

  /** `scalar_one_or_none` for a condition at most one row meets; the first such row. */
  function First(rows: seq<Row>, p: Row -> bool): (r: Option<nat>)
    ensures r.Some? ==> r.value < |rows| && p(rows[r.value])
    ensures r.None? ==> forall i | 0 <= i < |rows| :: !p(rows[i])
  {
    if rows == [] then None
    else if p(rows[0]) then Some(0)
    else
      match First(rows[1..], p)
      case None => None
      case Some(i) => Some(i + 1)
  }

  function PendingWithCode(key: Key, hash: int): Row -> bool {
    (r: Row) => r.key == key && r.status == Pending && r.codeHash == Some(hash)
  }

  function RequestWithCode(key: Key, hash: int): Row -> bool {
    (r: Row) => r.key == key && r.kind == Request && r.codeHash == Some(hash)
  }

  function PendingRequest(key: Key): Row -> bool {
    (r: Row) => r.key == key && r.kind == Request && r.status == Pending
  }

  predicate Overdue(r: Row, now: int) { r.expiresAt.Some? && r.expiresAt.value < now }

  // ----- Handlers -----

  function SetStatus(db: Db, i: nat, status: Status): Db
    requires i < |db.rows|
  {
    db.(rows := db.rows[i := db.rows[i].(status := status)])
  }

  function AuditRow(key: Key, kind: Kind, status: Status): Row { Row(key, kind, status, None, None) }

  function TryConsume(db: Db, key: Key, hash: int, now: int): (Db, bool) {
    match First(db.rows, PendingWithCode(key, hash))
    case None => (db, false)
    case Some(i) =>
      if db.rows[i].expiresAt == None then (db, false)
      else if Overdue(db.rows[i], now) then (SetStatus(db, i, Expired), false)
      else
        var g := SetStatus(db, i, Approved);
        (g.(identities := g.identities[key := Approved], rows := g.rows + [AuditRow(key, Create, Approved)]), true)
  }

  /** What the direct-message, group and pairing policies decide before any pairing state is read. */
  datatype Gate = Blocks | Opens | RequiresPairing

  datatype Message =
    | Callback(request: nat, nonceOk: bool)  // a button of a challenge (Telegram only)
    | PairCode(hash: Option<int>)            // "/pair <code>", None for a blank code
    | BarePair                               // "/pair"
    | Other

  /** `Admitted` is the only reply that lets the message through. */
  datatype Reply = Admitted | Paired | Refused | Challenged(request: nat)

  function ExpireMatching(db: Db, key: Key, hash: int, now: int): Db {
    match First(db.rows, RequestWithCode(key, hash))
    case None => db
    case Some(i) => if Overdue(db.rows[i], now) then SetStatus(db, i, Expired) else db
  }

  /** The pending request of the key, after an overdue one was marked expired. */
  function ExpirePending(db: Db, key: Key, now: int): (Db, Option<nat>) {
    match First(db.rows, PendingRequest(key))
    case None => (db, None)
    case Some(i) => if Overdue(db.rows[i], now) then (SetStatus(db, i, Expired), None) else (db, Some(i))
  }

  function LastIssued(db: Db, rateKey: string): real {
    if rateKey in db.lastIssued then db.lastIssued[rateKey] else 0.0
  }

  function IssueChallenge(db: Db, key: Key, rateKey: string, now: int, clock: real, newHash: int): (Db, Reply) {
    if clock - LastIssued(db, rateKey) < RATE_LIMIT then (db, Refused)
    else
      (db.(rows := db.rows + [Row(key, Request, Pending, Some(newHash), Some(now + CODE_TTL))],
           lastIssued := db.lastIssued[rateKey := clock]),
       Challenged(|db.rows|))
  }

  function Ingress(db: Db, key: Key, channel: Option<string>, gate: Gate, message: Message,
                   now: int, clock: real, newHash: int): (Db, Reply) {
    match gate
    case Blocks => (db, Refused)
    case Opens => (db, Admitted)
    case RequiresPairing =>
      if key in db.identities && db.identities[key] == Approved then (db, Admitted)
      else Unpaired(db, key, channel, message, now, clock, newHash)
  }

  function Unpaired(db: Db, key: Key, channel: Option<string>, message: Message,
                    now: int, clock: real, newHash: int): (Db, Reply) {
    match message
    case Callback(i, _) =>
      if i < |db.rows| && PendingRequest(key)(db.rows[i]) && Overdue(db.rows[i], now)
      then (SetStatus(db, i, Expired), Refused) else (db, Refused)
    case PairCode(None) => (db, Refused)
    case PairCode(Some(hash)) =>
      var (g, ok) := TryConsume(db, key, hash, now);
      if ok then (g, Paired) else (ExpireMatching(g, key, hash, now), Refused)
    case BarePair => (ExpirePending(db, key, now).0, Refused)
    case Other =>
      var (g, pending) := ExpirePending(db, key, now);
      if pending == None then IssueChallenge(g, key, RateKey(key, channel), now, clock, newHash) else (g, Refused)
  }

  /** The row an owner decision addresses: by id, within the owner's platform and integration. */
  predicate Addressed(db: Db, platform: string, integration: string, i: nat) {
    i < |db.rows| && db.rows[i].key.platform == platform && db.rows[i].key.integration == integration
  }

  function DoApprove(db: Db, platform: string, integration: string, i: nat): (Db, bool) {
    if !Addressed(db, platform, integration, i) then (db, false)
    else
      var key := db.rows[i].key;
      var g := SetStatus(db, i, Approved);
      var created := if key in g.identities then [] else [AuditRow(key, Create, Approved)];
      (g.(identities := g.identities[key := Approved],
          rows := g.rows + (created + [AuditRow(key, Approve, Approved)])),
       true)
  }

  function DoDeny(db: Db, platform: string, integration: string, i: nat): (Db, bool) {
    if !Addressed(db, platform, integration, i) then (db, false)
    else
      var key := db.rows[i].key;
      var g := SetStatus(db, i, Denied);
      var wasApproved := key in g.identities && g.identities[key] == Approved;
      var revoked := if wasApproved then [AuditRow(key, Revoke, Revoked)] else [];
      (g.(identities := g.identities[key := if wasApproved then Revoked else Denied],
          rows := g.rows + (revoked + [AuditRow(key, Deny, Denied)])),
       true)
  }

  datatype Op =
    | OpIngress(key: Key, channel: Option<string>, gate: Gate, message: Message, now: int, clock: real, newHash: int)
    | OpApprove(platform: string, integration: string, row: nat)
    | OpDeny(platform: string, integration: string, row: nat)

  function Apply(db: Db, op: Op): Db {
    match op
    case OpIngress(key, channel, gate, message, now, clock, newHash) =>
      Ingress(db, key, channel, gate, message, now, clock, newHash).0
    case OpApprove(platform, integration, i) => DoApprove(db, platform, integration, i).0
    case OpDeny(platform, integration, i) => DoDeny(db, platform, integration, i).0
  }

  function Run(db: Db, ops: seq<Op>): Db
    decreases |ops|
  {
    if ops == [] then db else Run(Apply(db, ops[0]), ops[1..])
  }

  // ----- What every run keeps -----

  /** The approved identities an auditor gets by replaying the rows in order. */
  function Replay(rows: seq<Row>): set<Key> {
    if rows == [] then {}
    else
      var before, last := Replay(rows[..|rows| - 1]), rows[|rows| - 1];
      match last.kind
      case Create => before + {last.key}
      case Approve => before + {last.key}
      case Deny => before - {last.key}
      case Revoke => before - {last.key}
      case Request => before
  }

  function ApprovedSet(identities: map<Key, Status>): set<Key> {
    set k | k in identities && identities[k] == Approved
  }

  /** At most one pending row per key, and it is a request with an expiry. */
  ghost predicate PendingUnique(rows: seq<Row>) {
    && (forall i | 0 <= i < |rows| && rows[i].status == Pending :: rows[i].kind == Request && rows[i].expiresAt.Some?)
    && (forall i, j | 0 <= i < j < |rows| && rows[i].status == Pending && rows[j].status == Pending ::
          rows[i].key != rows[j].key)
  }

  ghost predicate Inv(db: Db) {
    PendingUnique(db.rows) && Replay(db.rows) == ApprovedSet(db.identities)
  }

  /** Rows keep their key, kind and code for good, and none becomes pending again. */
  ghost predicate RowsKept(before: seq<Row>, after: seq<Row>) {
    && |before| <= |after|
    && forall i | 0 <= i < |before| ::
         && after[i] == before[i].(status := after[i].status)
         && (after[i].status == Pending ==> before[i].status == Pending)
  }

  ghost predicate Kept(before: Db, after: Db) {
    Inv(after) && RowsKept(before.rows, after.rows)
  }

  lemma KeptTwice(a: Db, b: Db, c: Db)
    requires Kept(a, b) && Kept(b, c)
    ensures Kept(a, c)
  {
    forall i | 0 <= i < |a.rows|
      ensures c.rows[i] == a.rows[i].(status := c.rows[i].status) && (c.rows[i].status == Pending ==>
            a.rows[i].status == Pending) {
      assert b.rows[i] == a.rows[i].(status := b.rows[i].status);
    }
  }

  lemma {:induction false} ReplaySame(a: seq<Row>, b: seq<Row>)
    requires |a| == |b| && forall i | 0 <= i < |a| :: a[i].key == b[i].key && a[i].kind == b[i].kind
    ensures Replay(a) == Replay(b)
  {
    if a != [] { ReplaySame(a[..|a| - 1], b[..|b| - 1]); }
  }

  lemma ReplaySnoc(rows: seq<Row>, r: Row)
    ensures Replay(rows + [r]) == if r.kind == Create || r.kind == Approve then Replay(rows) + {r.key}
                                  else if r.kind == Request then Replay(rows) else Replay(rows) - {r.key}
  {
    assert (rows + [r])[..|rows|] == rows;
  }

  lemma SetStatusInv(db: Db, i: nat, status: Status)
    requires Inv(db) && i < |db.rows| && status != Pending
    ensures Kept(db, SetStatus(db, i, status))
  {
    ReplaySame(db.rows, SetStatus(db, i, status).rows);
  }

  predicate DecidedRow(r: Row, key: Key, approves: bool) {
    r.key == key && r.status != Pending
         && if approves then r.kind == Create || r.kind == Approve else r.kind == Deny || r.kind == Revoke
  }

  lemma {:induction false} DecidedReplay(rows: seq<Row>, extra: seq<Row>, key: Key, approves: bool)
    requires forall r | r in extra :: DecidedRow(r, key, approves)
    ensures Replay(rows + extra) == if extra == [] then Replay(rows)
                                    else if approves then Replay(rows) + {key} else Replay(rows) - {key}
  {
    if extra == [] {
      assert rows + extra == rows;
    } else {
      var n := |extra| - 1;
      assert rows + extra == (rows + extra[..n]) + [extra[n]];
      assert DecidedRow(extra[n], key, approves);
      DecidedReplay(rows, extra[..n], key, approves);
      ReplaySnoc(rows + extra[..n], extra[n]);
    }
  }

  lemma DecidedRowsKeep(db: Db, extra: seq<Row>)
    requires Inv(db) && forall r | r in extra :: r.status != Pending
    ensures PendingUnique(db.rows + extra) && RowsKept(db.rows, db.rows + extra)
  {
    var rows := db.rows + extra;
    assert forall i | |db.rows| <= i < |rows| :: rows[i] in extra;
  }

  lemma ApprovedAfter(identities: map<Key, Status>, key: Key, status: Status)
    ensures ApprovedSet(identities[key := status])
         == if status == Approved then ApprovedSet(identities) + {key} else ApprovedSet(identities) - {key}
  {
  }

  /** Adding decided audit rows and setting the identity as they say. */
  lemma DecideInv(db: Db, key: Key, status: Status, approves: bool, extra: seq<Row>)
    requires Inv(db) && status != Pending && (approves <==> status == Approved)
    requires extra != [] && forall r | r in extra :: DecidedRow(r, key, approves)
    ensures Kept(db, db.(identities := db.identities[key := status], rows := db.rows + extra))
  {
    DecidedRowsKeep(db, extra);
    DecidedReplay(db.rows, extra, key, approves);
    ApprovedAfter(db.identities, key, status);
  }

  lemma TryConsumeInv(db: Db, key: Key, hash: int, now: int)
    requires Inv(db)
    ensures Kept(db, TryConsume(db, key, hash, now).0)
  {
    var found := First(db.rows, PendingWithCode(key, hash));
    if found.Some? && db.rows[found.value].expiresAt.Some? {
      var i := found.value;
      if Overdue(db.rows[i], now) {
        SetStatusInv(db, i, Expired);
      } else {
        SetStatusInv(db, i, Approved);
        var g := SetStatus(db, i, Approved);
        var created := [AuditRow(key, Create, Approved)];
        DecideInv(g, key, Approved, true, created);
        KeptTwice(db, g, g.(identities := g.identities[key := Approved], rows := g.rows + created));
      }
    }
  }

  lemma PairCodeInv(db: Db, key: Key, hash: int, now: int)
    requires Inv(db)
    ensures Kept(db, ExpireMatching(TryConsume(db, key, hash, now).0, key, hash, now))
  {
    TryConsumeInv(db, key, hash, now);
    var g := TryConsume(db, key, hash, now).0;
    var found := First(g.rows, RequestWithCode(key, hash));
    if found.Some? && Overdue(g.rows[found.value], now) {
      SetStatusInv(g, found.value, Expired);
      KeptTwice(db, g, SetStatus(g, found.value, Expired));
    }
  }

  lemma RequestRow(rows: seq<Row>, r: Row)
    requires PendingUnique(rows) && forall i | 0 <= i < |rows| :: !PendingRequest(r.key)(rows[i])
    requires r.kind == Request && r.status == Pending && r.expiresAt.Some?
    ensures PendingUnique(rows + [r]) && RowsKept(rows, rows + [r]) && Replay(rows + [r]) == Replay(rows)
  {
    ReplaySnoc(rows, r);
    forall i | 0 <= i < |rows| && rows[i].status == Pending ensures rows[i].key != r.key {
      assert !PendingRequest(r.key)(rows[i]);
    }
  }

  lemma IssueInv(db: Db, key: Key, rateKey: string, now: int, clock: real, newHash: int)
    requires Inv(db) && forall i | 0 <= i < |db.rows| :: !PendingRequest(key)(db.rows[i])
    ensures Kept(db, IssueChallenge(db, key, rateKey, now, clock, newHash).0)
  {
    if clock - LastIssued(db, rateKey) >= RATE_LIMIT {
      RequestRow(db.rows, Row(key, Request, Pending, Some(newHash), Some(now + CODE_TTL)));
    }
  }

  lemma ExpirePendingInv(db: Db, key: Key, now: int)
    requires Inv(db)
    ensures var (g, pending) := ExpirePending(db, key, now);
      Kept(db, g) && (pending == None ==> forall i | 0 <= i < |g.rows| :: !PendingRequest(key)(g.rows[i]))
  {
    var found := First(db.rows, PendingRequest(key));
    if found.Some? && Overdue(db.rows[found.value], now) {
      SetStatusInv(db, found.value, Expired);
    }
  }

  lemma OtherInv(db: Db, key: Key, rateKey: string, now: int, clock: real, newHash: int)
    requires Inv(db) && ExpirePending(db, key, now).1 == None
    ensures Kept(db, IssueChallenge(ExpirePending(db, key, now).0, key, rateKey, now, clock, newHash).0)
  {
    ExpirePendingInv(db, key, now);
    var g := ExpirePending(db, key, now).0;
    IssueInv(g, key, rateKey, now, clock, newHash);
    KeptTwice(db, g, IssueChallenge(g, key, rateKey, now, clock, newHash).0);
  }

  lemma IngressInv(db: Db, key: Key, channel: Option<string>, gate: Gate, message: Message, now: int, clock: real,
                   newHash: int)
    requires Inv(db)
    ensures Kept(db, Ingress(db, key, channel, gate, message, now, clock, newHash).0)
  {
    UnpairedInv(db, key, channel, message, now, clock, newHash);
  }

  lemma UnpairedInv(db: Db, key: Key, channel: Option<string>, message: Message, now: int, clock: real, newHash: int)
    requires Inv(db)
    ensures Kept(db, Unpaired(db, key, channel, message, now, clock, newHash).0)
  {
    match message
    case Callback(i, _) =>
      if i < |db.rows| { SetStatusInv(db, i, Expired); }
    case PairCode(code) =>
      if code.Some? {
        TryConsumeInv(db, key, code.value, now);
        PairCodeInv(db, key, code.value, now);
      }
    case BarePair => ExpirePendingInv(db, key, now);
    case Other =>
      ExpirePendingInv(db, key, now);
      if ExpirePending(db, key, now).1 == None {
        OtherInv(db, key, RateKey(key, channel), now, clock, newHash);
      }
  }

  lemma ApproveInv(db: Db, platform: string, integration: string, i: nat)
    requires Inv(db)
    ensures Kept(db, DoApprove(db, platform, integration, i).0)
  {
    if Addressed(db, platform, integration, i) {
      var key, g := db.rows[i].key, SetStatus(db, i, Approved);
      SetStatusInv(db, i, Approved);
      var created := if key in g.identities then [] else [AuditRow(key, Create, Approved)];
      DecideInv(g, key, Approved, true, created + [AuditRow(key, Approve, Approved)]);
      KeptTwice(db, g, DoApprove(db, platform, integration, i).0);
    }
  }

  lemma DenyInv(db: Db, platform: string, integration: string, i: nat)
    requires Inv(db)
    ensures Kept(db, DoDeny(db, platform, integration, i).0)
  {
    if Addressed(db, platform, integration, i) {
      var key, g := db.rows[i].key, SetStatus(db, i, Denied);
      SetStatusInv(db, i, Denied);
      var wasApproved := key in g.identities && g.identities[key] == Approved;
      var revoked := if wasApproved then [AuditRow(key, Revoke, Revoked)] else [];
      DecideInv(g, key, if wasApproved then Revoked else Denied, false, revoked + [AuditRow(key, Deny, Denied)]);
      KeptTwice(db, g, DoDeny(db, platform, integration, i).0);
    }
  }

  lemma ApplyInv(db: Db, op: Op)
    requires Inv(db)
    ensures Kept(db, Apply(db, op))
  {
    match op
    case OpIngress(key, channel, gate, message, now, clock, newHash) =>
      IngressInv(db, key, channel, gate, message, now, clock, newHash);
    case OpApprove(platform, integration, i) => ApproveInv(db, platform, integration, i);
    case OpDeny(platform, integration, i) => DenyInv(db, platform, integration, i);
  }

  /**
   * Every run of messages and owner decisions keeps: one pending request per key, and the approved identities equal
   * to the replay of the audit rows. Rows stay, with their key, kind and code, and never become pending again.
   */
  lemma {:induction false} RunInv(db: Db, ops: seq<Op>)
    requires Inv(db)
    ensures Kept(db, Run(db, ops))
    decreases |ops|
  {
    if ops != [] {
      ApplyInv(db, ops[0]);
      RunInv(Apply(db, ops[0]), ops[1..]);
      KeptTwice(db, Apply(db, ops[0]), Run(db, ops));
    }
  }

  // ----- What the replies say over a run -----

  lemma {:induction false} RunSnoc(db: Db, ops: seq<Op>, op: Op)
    ensures Run(db, ops + [op]) == Apply(Run(db, ops), op)
    decreases |ops|
  {
    if ops == [] {
      assert [op][1..] == [];
    } else {
      assert (ops + [op])[0] == ops[0] && (ops + [op])[1..] == ops[1..] + [op];
      RunSnoc(Apply(db, ops[0]), ops[1..], op);
    }
  }

  lemma RunLast(ops: seq<Op>)
    requires ops != []
    ensures var n := |ops| - 1; Run(EMPTY, ops) == Apply(Run(EMPTY, ops[..n]), ops[n])
  {
    var n := |ops| - 1;
    assert ops == ops[..n] + [ops[n]];
    RunSnoc(EMPTY, ops[..n], ops[n]);
  }

  function ReplyTo(db: Db, op: Op): Reply
    requires op.OpIngress?
  {
    Ingress(db, op.key, op.channel, op.gate, op.message, op.now, op.clock, op.newHash).1
  }

  /** A code that paired, and an owner decision that found its request, decide about one identity. */
  datatype Decision = Decision(key: Key, approves: bool)

  function DecisionOf(db: Db, op: Op): Option<Decision> {
    match op
    case OpIngress(key, _, _, _, _, _, _) => if ReplyTo(db, op) == Paired then Some(Decision(key, true)) else None
    case OpApprove(platform, integration, i) =>
      if i < |db.rows| && DoApprove(db, platform, integration, i).1 then Some(Decision(db.rows[i].key, true)) else None
    case OpDeny(platform, integration, i) =>
      if i < |db.rows| && DoDeny(db, platform, integration, i).1 then Some(Decision(db.rows[i].key, false)) else None
  }

  /** The last decision about the identity, if there was one. */
  function LastDecision(ops: seq<Op>, key: Key): Option<bool> {
    if ops == [] then None
    else
      var n := |ops| - 1;
      var d := DecisionOf(Run(EMPTY, ops[..n]), ops[n]);
      if d.Some? && d.value.key == key then Some(d.value.approves) else LastDecision(ops[..n], key)
  }

  lemma DecisionStep(db: Db, op: Op)
    ensures var before, after := ApprovedSet(db.identities), ApprovedSet(Apply(db, op).identities);
      match DecisionOf(db, op)
      case None => after == before
      case Some(d) => after == if d.approves then before + {d.key} else before - {d.key}
  {
    match op
    case OpIngress(key, channel, gate, message, now, clock, newHash) =>
      ApprovedAfter(db.identities, key, Approved);
    case OpApprove(platform, integration, i) =>
      if i < |db.rows| { ApprovedAfter(db.identities, db.rows[i].key, Approved); }
    case OpDeny(platform, integration, i) =>
      if i < |db.rows| {
        ApprovedAfter(db.identities, db.rows[i].key, Denied);
        ApprovedAfter(db.identities, db.rows[i].key, Revoked);
      }
  }

  /** An identity is approved exactly when the last decision about it approved it. */
  lemma {:induction false} ApprovedIff(ops: seq<Op>, key: Key)
    ensures key in ApprovedSet(Run(EMPTY, ops).identities) <==> LastDecision(ops, key) == Some(true)
    decreases |ops|
  {
    if ops != [] {
      var n := |ops| - 1;
      RunLast(ops);
      ApprovedIff(ops[..n], key);
      DecisionStep(Run(EMPTY, ops[..n]), ops[n]);
    }
  }

  /** A challenge that was sent: under which rate key and when. */
  datatype Issue = Issue(rateKey: string, at: real)

  function Challenges(ops: seq<Op>): seq<Issue> {
    if ops == [] then []
    else
      var n := |ops| - 1;
      Challenges(ops[..n]) + ChallengeOf(Run(EMPTY, ops[..n]), ops[n])
  }

  function ChallengeOf(db: Db, op: Op): seq<Issue> {
    if op.OpIngress? && ReplyTo(db, op).Challenged? then [Issue(RateKey(op.key, op.channel), op.clock)] else []
  }

  /** Successive challenges under one rate key are at least the rate limit apart. */
  ghost predicate Spaced(issued: seq<Issue>, lastIssued: map<string, real>) {
    && (forall i, j | 0 <= i < j < |issued| && issued[i].rateKey == issued[j].rateKey ::
          issued[j].at - issued[i].at >= RATE_LIMIT)
    && (forall x | x in issued :: x.rateKey in lastIssued && x.at <= lastIssued[x.rateKey])
    && (forall k | k in lastIssued :: Issue(k, lastIssued[k]) in issued)
  }

  lemma IssueSpaced(issued: seq<Issue>, lastIssued: map<string, real>, rateKey: string, clock: real)
    requires Spaced(issued, lastIssued)
    requires rateKey in lastIssued ==> clock - lastIssued[rateKey] >= RATE_LIMIT
    ensures Spaced(issued + [Issue(rateKey, clock)], lastIssued[rateKey := clock])
  {
    var all := issued + [Issue(rateKey, clock)];
    assert all[|issued|] == Issue(rateKey, clock);
    forall i | 0 <= i < |issued| && issued[i].rateKey == rateKey ensures clock - issued[i].at >= RATE_LIMIT {
      assert issued[i] in issued;
    }
    forall k | k in lastIssued && k != rateKey ensures Issue(k, lastIssued[k]) in all {
      assert Issue(k, lastIssued[k]) in issued;
    }
  }

  lemma ChallengeStep(db: Db, op: Op)
    ensures ChallengeOf(db, op) == [] ==> Apply(db, op).lastIssued == db.lastIssued
    ensures ChallengeOf(db, op) != [] ==>
              var rateKey := RateKey(op.key, op.channel);
              && Apply(db, op).lastIssued == db.lastIssued[rateKey := op.clock]
              && op.clock - LastIssued(db, rateKey) >= RATE_LIMIT
  {
    if op.OpIngress? {
      MessageIssues(db, op.key, op.channel, op.message, op.now, op.clock, op.newHash);
    }
  }

  lemma MessageIssues(db: Db, key: Key, channel: Option<string>, message: Message, now: int, clock: real, newHash: int)
    ensures var (after, reply) := Unpaired(db, key, channel, message, now, clock, newHash);
      Issues(db.lastIssued, after.lastIssued, RateKey(key, channel), clock, reply.Challenged?)
  {
    match message
    case Callback(_, _) =>
    case PairCode(_) =>
    case BarePair =>
    case Other =>
      assert ExpirePending(db, key, now).0.lastIssued == db.lastIssued;
  }

  predicate Issues(before: map<string, real>, after: map<string, real>, rateKey: string, clock: real, issued: bool) {
    if issued then
      && after == before[rateKey := clock]
      && clock - (if rateKey in before then before[rateKey] else 0.0) >= RATE_LIMIT
    else after == before
  }

  lemma {:induction false} RunSpaced(ops: seq<Op>)
    ensures Spaced(Challenges(ops), Run(EMPTY, ops).lastIssued)
    decreases |ops|
  {
    if ops != [] {
      var n := |ops| - 1;
      var before := Run(EMPTY, ops[..n]);
      RunLast(ops);
      RunSpaced(ops[..n]);
      ChallengeStep(before, ops[n]);
      if ChallengeOf(before, ops[n]) == [] {
        assert Challenges(ops[..n]) + [] == Challenges(ops[..n]);
      } else {
        IssueSpaced(Challenges(ops[..n]), before.lastIssued, RateKey(ops[n].key, ops[n].channel), ops[n].clock);
      }
    }
  }

  // ----- What one call changes -----

  /** The effect of a found owner decision: the row, the identity, and the audit rows it adds. */
  ghost predicate Decides(before: Db, after: Db, i: nat, row: Status, identity: Status, audit: seq<Row>) {
    && i < |before.rows|
    && after.rows == before.rows[i := before.rows[i].(status := row)] + audit
    && after.identities == before.identities[before.rows[i].key := identity]
    && after.lastIssued == before.lastIssued
  }

  /**
   * A denial that finds its request within the owner's integration takes the approval away, whatever the request's
   * status was: the identity is revoked if it was approved, which has its own audit row, and denied otherwise.
   */
  lemma DenialEffect(db: Db, platform: string, integration: string, i: nat)
    ensures var (after, found) := DoDeny(db, platform, integration, i);
      && (found <==> i < |db.rows| && db.rows[i].key.platform == platform && db.rows[i].key.integration == integration)
      && (!found ==> after == db)
      && (found ==>
            var key := db.rows[i].key;
            var revoked := key in ApprovedSet(db.identities);
            && ApprovedSet(after.identities) == ApprovedSet(db.identities) - {key}
            && Decides(db, after, i, Denied, if revoked then Revoked else Denied,
                       (if revoked then [Row(key, Revoke, Revoked, None, None)] else [])
                       + [Row(key, Deny, Denied, None, None)]))
  {
    DecisionStep(db, OpDeny(platform, integration, i));
  }

  /** An approval that finds its request approves the identity; one that is new has its own audit row. */
  lemma ApprovalEffect(db: Db, platform: string, integration: string, i: nat)
    ensures var (after, found) := DoApprove(db, platform, integration, i);
      && (found <==> i < |db.rows| && db.rows[i].key.platform == platform && db.rows[i].key.integration == integration)
      && (!found ==> after == db)
      && (found ==>
            var key := db.rows[i].key;
            && ApprovedSet(after.identities) == ApprovedSet(db.identities) + {key}
            && Decides(db, after, i, Approved, Approved,
                       (if key in db.identities then [] else [Row(key, Create, Approved, None, None)])
                       + [Row(key, Approve, Approved, None, None)]))
  {
    DecisionStep(db, OpApprove(platform, integration, i));
  }

  /** Nothing changes but requests of the key that have run out, which are marked so. */
  ghost predicate OnlyExpired(before: seq<Row>, after: seq<Row>, key: Key, now: int) {
    && |after| == |before|
    && forall i | 0 <= i < |before| && after[i] != before[i] ::
         before[i].key == key && before[i].kind == Request && Overdue(before[i], now)
         && after[i] == before[i].(status := Expired)
  }

  /** Row i is a request of the key that carries the code and has not run out; it is used up and pairs the key. */
  ghost predicate UsesUp(before: Db, after: Db, key: Key, hash: int, now: int, i: nat) {
    && i < |before.rows| && before.rows[i].key == key && before.rows[i].kind == Request
    && before.rows[i].status == Pending && before.rows[i].codeHash == Some(hash)
    && before.rows[i].expiresAt.Some? && now <= before.rows[i].expiresAt.value
    && Decides(before, after, i, Approved, Approved, [Row(key, Create, Approved, None, None)])
  }

  /** A new request of the key with the new code, good for ten minutes, and the instant kept for the rate limit. */
  ghost predicate NewRequest(before: Db, after: Db, key: Key, rateKey: string, now: int, clock: real, hash: int) {
    && |after.rows| == |before.rows| + 1
    && OnlyExpired(before.rows, after.rows[..|before.rows|], key, now)
    && after.rows[|before.rows|] == Row(key, Request, Pending, Some(hash), Some(now + 600))
    && after.identities == before.identities && after.lastIssued == before.lastIssued[rateKey := clock]
  }

  /** What a message does to the tables, by the reply it gets. */
  ghost predicate MessageEffect(before: Db, after: Db, key: Key, rateKey: string, message: Message, now: int,
                                clock: real, newHash: int, reply: Reply) {
    match reply
    case Admitted => after == before
    case Refused =>
      && OnlyExpired(before.rows, after.rows, key, now)
      && after.identities == before.identities && after.lastIssued == before.lastIssued
    case Paired =>
      message.PairCode? && message.hash.Some? && exists i :: UsesUp(before, after, key, message.hash.value, now, i)
    case Challenged(n) => n == |before.rows| && NewRequest(before, after, key, rateKey, now, clock, newHash)
  }

  lemma ConsumeEffect(db: Db, key: Key, hash: int, now: int)
    requires Inv(db)
    ensures var (after, ok) := TryConsume(db, key, hash, now);
      if ok then exists i :: UsesUp(db, after, key, hash, now, i)
      else OnlyExpired(db.rows, after.rows, key, now) && after.identities == db.identities
           && after.lastIssued == db.lastIssued
  {
    var found := First(db.rows, PendingWithCode(key, hash));
    if TryConsume(db, key, hash, now).1 {
      assert UsesUp(db, TryConsume(db, key, hash, now).0, key, hash, now, found.value);
    }
  }

  lemma OnlyExpiredTwice(a: seq<Row>, b: seq<Row>, c: seq<Row>, key: Key, now: int)
    requires OnlyExpired(a, b, key, now) && OnlyExpired(b, c, key, now)
    ensures OnlyExpired(a, c, key, now)
  {
  }

  lemma PairCodeEffect(db: Db, key: Key, hash: int, now: int)
    requires Inv(db) && !TryConsume(db, key, hash, now).1
    ensures var after := ExpireMatching(TryConsume(db, key, hash, now).0, key, hash, now);
      OnlyExpired(db.rows, after.rows, key, now) && after.identities == db.identities
      && after.lastIssued == db.lastIssued
  {
    ConsumeEffect(db, key, hash, now);
    var g := TryConsume(db, key, hash, now).0;
    OnlyExpiredTwice(db.rows, g.rows, ExpireMatching(g, key, hash, now).rows, key, now);
  }

  lemma ChallengeEffect(db: Db, key: Key, rateKey: string, now: int, clock: real, newHash: int)
    ensures var g := ExpirePending(db, key, now).0;
      var (after, reply) := IssueChallenge(g, key, rateKey, now, clock, newHash);
      MessageEffect(db, after, key, rateKey, Other, now, clock, newHash, reply)
  {
    var g := ExpirePending(db, key, now).0;
    var after := IssueChallenge(g, key, rateKey, now, clock, newHash).0;
    assert after.rows == g.rows || after.rows[..|g.rows|] == g.rows;
  }

  /** Every message changes the tables as its reply says, and no more. */
  lemma IngressEffect(ops: seq<Op>, key: Key, channel: Option<string>, gate: Gate, message: Message, now: int,
                      clock: real, newHash: int)
    ensures var db := Run(EMPTY, ops);
      var (after, reply) := Ingress(db, key, channel, gate, message, now, clock, newHash);
      MessageEffect(db, after, key, RateKey(key, channel), message, now, clock, newHash, reply)
  {
    RunInv(EMPTY, ops);
    UnpairedEffect(Run(EMPTY, ops), key, channel, message, now, clock, newHash);
  }

  lemma UnpairedEffect(db: Db, key: Key, channel: Option<string>, message: Message, now: int, clock: real, newHash: int)
    requires Inv(db)
    ensures var (after, reply) := Unpaired(db, key, channel, message, now, clock, newHash);
      MessageEffect(db, after, key, RateKey(key, channel), message, now, clock, newHash, reply)
  {
    match message
    case Callback(i, _) =>
      if i < |db.rows| && PendingRequest(key)(db.rows[i]) && Overdue(db.rows[i], now) {
        CallbackEffect(db, key, i, now);
      }
    case PairCode(code) =>
      if code.Some? {
        ConsumeEffect(db, key, code.value, now);
        if !TryConsume(db, key, code.value, now).1 { PairCodeEffect(db, key, code.value, now); }
      }
    case BarePair => PendingEffect(db, key, now);
    case Other =>
      PendingEffect(db, key, now);
      ChallengeEffect(db, key, RateKey(key, channel), now, clock, newHash);
  }

  lemma CallbackEffect(db: Db, key: Key, i: nat, now: int)
    requires i < |db.rows| && PendingRequest(key)(db.rows[i]) && Overdue(db.rows[i], now)
    ensures OnlyExpired(db.rows, SetStatus(db, i, Expired).rows, key, now)
  {
  }

  lemma PendingEffect(db: Db, key: Key, now: int)
    ensures var g := ExpirePending(db, key, now).0;
      OnlyExpired(db.rows, g.rows, key, now) && g.identities == db.identities && g.lastIssued == db.lastIssued
  {
  }

  /** A request of the identity that a message looks at and finds overdue does not stay pending. */
  lemma OverdueIsMarked(ops: seq<Op>, key: Key, channel: Option<string>, message: Message, now: int, clock: real,
                        newHash: int)
    requires LastDecision(ops, key) != Some(true)
    ensures var rows := Ingress(Run(EMPTY, ops), key, channel, RequiresPairing, message, now, clock, newHash).0.rows;
      forall i | 0 <= i < |rows| && PendingRequest(key)(rows[i]) && LooksAt(message, i, rows[i]) ::
        !Overdue(rows[i], now)
  {
    ApprovedIff(ops, key);
    RunInv(EMPTY, ops);
    MessageMarks(Run(EMPTY, ops), key, channel, message, now, clock, newHash);
  }

  /** Row i is the identity's first request with the code. */
  ghost predicate FirstWithCode(rows: seq<Row>, key: Key, hash: int, i: nat) {
    i < |rows| && RequestWithCode(key, hash)(rows[i]) && forall j | 0 <= j < i :: !RequestWithCode(key, hash)(rows[j])
  }

  lemma {:induction false} FirstIs(rows: seq<Row>, p: Row -> bool, i: nat)
    requires i < |rows| && p(rows[i]) && forall j | 0 <= j < i :: !p(rows[j])
    ensures First(rows, p) == Some(i)
  {
    if i > 0 {
      forall j | 0 <= j < i - 1 ensures !p(rows[1..][j]) {
        assert rows[1..][j] == rows[j + 1];
      }
      FirstIs(rows[1..], p, i - 1);
    }
  }

  lemma SameCodes(before: seq<Row>, after: seq<Row>, key: Key, now: int, hash: int, i: nat)
    requires OnlyExpired(before, after, key, now) && FirstWithCode(before, key, hash, i)
    ensures FirstWithCode(after, key, hash, i) && after[i].expiresAt == before[i].expiresAt
  {
    forall j | 0 <= j < i ensures !RequestWithCode(key, hash)(after[j]) {
      assert !RequestWithCode(key, hash)(before[j]);
    }
  }

  /** A code that is refused because its request has run out marks that request, whatever became of it before. */
  lemma ExpiredCodeIsMarked(ops: seq<Op>, key: Key, channel: Option<string>, hash: int, now: int, clock: real,
                            newHash: int, i: nat)
    requires LastDecision(ops, key) != Some(true) && !TryConsume(Run(EMPTY, ops), key, hash, now).1
    requires var rows := Run(EMPTY, ops).rows; FirstWithCode(rows, key, hash, i) && Overdue(rows[i], now)
    ensures var rows := Ingress(Run(EMPTY, ops), key, channel, RequiresPairing, PairCode(Some(hash)), now, clock,
                                newHash).0.rows;
      i < |rows| && rows[i].status == Expired
  {
    var db := Run(EMPTY, ops);
    ApprovedIff(ops, key);
    RunInv(EMPTY, ops);
    ConsumeEffect(db, key, hash, now);
    var g := TryConsume(db, key, hash, now).0;
    SameCodes(db.rows, g.rows, key, now, hash, i);
    FirstIs(g.rows, RequestWithCode(key, hash), i);
  }

  predicate LooksAt(message: Message, i: nat, r: Row) {
    match message
    case Callback(request, _) => i == request
    case PairCode(hash) => hash.Some? && r.codeHash == hash
    case BarePair => true
    case Other => true
  }

  lemma MessageMarks(db: Db, key: Key, channel: Option<string>, message: Message, now: int, clock: real, newHash: int)
    requires Inv(db)
    ensures var rows := Unpaired(db, key, channel, message, now, clock, newHash).0.rows;
      forall i | 0 <= i < |rows| && PendingRequest(key)(rows[i]) && LooksAt(message, i, rows[i]) ::
        !Overdue(rows[i], now)
  {
    match message
    case Callback(_, _) =>
    case PairCode(code) => if code.Some? { PairCodeMarks(db, key, code.value, now); }
    case BarePair => PendingMarks(db, key, now);
    case Other => PendingMarks(db, key, now);
  }

  lemma PendingMarks(db: Db, key: Key, now: int)
    requires Inv(db)
    ensures var rows := ExpirePending(db, key, now).0.rows;
      forall i | 0 <= i < |rows| && PendingRequest(key)(rows[i]) :: !Overdue(rows[i], now)
  {
    OpenRequestIff(db, key, now);
  }

  /** A code that was looked at is on no pending row any more: it paired, or had run out. */
  lemma PairCodeMarks(db: Db, key: Key, hash: int, now: int)
    requires Inv(db)
    ensures var (g, ok) := TryConsume(db, key, hash, now);
      var rows := (if ok then g else ExpireMatching(g, key, hash, now)).rows;
      forall i | 0 <= i < |rows| :: !PendingWithCode(key, hash)(rows[i])
  {
    var (g, ok) := TryConsume(db, key, hash, now);
    var rows := (if ok then g else ExpireMatching(g, key, hash, now)).rows;
    forall i | 0 <= i < |rows| ensures !PendingWithCode(key, hash)(rows[i]) {
      if i < |db.rows| && PendingWithCode(key, hash)(db.rows[i]) { PendingCodeUnique(db, key, hash, i); }
    }
  }

  // ----- Main results, from empty tables -----

  lemma OnePendingRequest(ops: seq<Op>, i: nat, j: nat)
    requires i < j < |Run(EMPTY, ops).rows|
    ensures var rows := Run(EMPTY, ops).rows;
      !(rows[i].status == Pending && rows[j].status == Pending && rows[i].key == rows[j].key)
  {
    RunInv(EMPTY, ops);
  }

  /** The n-th call is a message that pairs by using up row i. */
  ghost predicate UsedUpAt(ops: seq<Op>, n: nat, i: nat)
    requires n < |ops|
  {
    && ops[n].OpIngress? && ops[n].message.PairCode? && ops[n].message.hash.Some?
    && UsesUp(Run(EMPTY, ops[..n]), Run(EMPTY, ops[..n + 1]), ops[n].key, ops[n].message.hash.value, ops[n].now, i)
  }

  lemma {:induction false} RunConcat(db: Db, a: seq<Op>, b: seq<Op>)
    ensures Run(db, a + b) == Run(Run(db, a), b)
    decreases |b|
  {
    if b == [] {
      assert a + b == a;
    } else {
      var n := |b| - 1;
      assert a + b == (a + b[..n]) + [b[n]] && b == b[..n] + [b[n]];
      RunConcat(db, a, b[..n]);
      RunSnoc(db, a + b[..n], b[n]);
      RunSnoc(Run(db, a), b[..n], b[n]);
    }
  }

  lemma RowsKeptBetween(ops: seq<Op>, m: nat, n: nat)
    requires m <= n <= |ops|
    ensures RowsKept(Run(EMPTY, ops[..m]).rows, Run(EMPTY, ops[..n]).rows)
  {
    assert ops[..n] == ops[..m] + ops[m..n];
    RunConcat(EMPTY, ops[..m], ops[m..n]);
    RunInv(EMPTY, ops[..m]);
    RunInv(Run(EMPTY, ops[..m]), ops[m..n]);
  }

  /** Every message that pairs uses up a request, and no request twice, whatever the owner does in between. */
  lemma CodeConsumedOnce(ops: seq<Op>, n: nat)
    requires n < |ops| && ops[n].OpIngress? && ReplyTo(Run(EMPTY, ops[..n]), ops[n]) == Paired
    ensures exists i :: UsedUpAt(ops, n, i)
    ensures forall i, m: nat | m < n && UsedUpAt(ops, n, i) :: !UsedUpAt(ops, m, i)
  {
    var op := ops[n];
    IngressEffect(ops[..n], op.key, op.channel, op.gate, op.message, op.now, op.clock, op.newHash);
    assert ops[..n + 1] == ops[..n] + [op];
    RunSnoc(EMPTY, ops[..n], op);
    var i :| UsesUp(Run(EMPTY, ops[..n]), Run(EMPTY, ops[..n + 1]), op.key, op.message.hash.value, op.now, i);
    assert UsedUpAt(ops, n, i);
    forall i, m: nat | m < n && UsedUpAt(ops, n, i) ensures !UsedUpAt(ops, m, i) {
      RowsKeptBetween(ops, m + 1, n);
    }
  }

  /**
   * Replaying the create, approve, deny and revoke rows rebuilds exactly the approved identities, which are those whose
   * last decision, as the replies tell it, approved them.
   */
  lemma AuditReplay(ops: seq<Op>)
    ensures Replay(Run(EMPTY, ops).rows) == ApprovedSet(Run(EMPTY, ops).identities)
    ensures forall key :: key in Replay(Run(EMPTY, ops).rows) <==> LastDecision(ops, key) == Some(true)
  {
    RunInv(EMPTY, ops);
    forall key ensures key in Replay(Run(EMPTY, ops).rows) <==> LastDecision(ops, key) == Some(true) {
      ApprovedIff(ops, key);
    }
  }

  /** Where pairing is required, a message is let through exactly when the key's last decision approved it. */
  lemma AdmittedIff(ops: seq<Op>, key: Key, channel: Option<string>, gate: Gate, message: Message,
                    now: int, clock: real, newHash: int)
    ensures var db := Run(EMPTY, ops);
      (Ingress(db, key, channel, gate, message, now, clock, newHash).1 == Admitted)
      <==> (gate == Opens || (gate == RequiresPairing && LastDecision(ops, key) == Some(true)))
  {
    ApprovedIff(ops, key);
  }

  /**
   * A message pairs exactly when pairing is required, the identity is not approved, and the message carries the code
   * of a pending request of the identity that has not run out.
   */
  lemma PairedReplyIff(ops: seq<Op>, key: Key, channel: Option<string>, gate: Gate, message: Message,
                       now: int, clock: real, newHash: int)
    ensures var db := Run(EMPTY, ops);
      (Ingress(db, key, channel, gate, message, now, clock, newHash).1 == Paired)
      <==> gate == RequiresPairing && LastDecision(ops, key) != Some(true) && message.PairCode? && message.hash.Some?
           && exists i | 0 <= i < |db.rows| ::
                PendingWithCode(key, message.hash.value)(db.rows[i]) && !Overdue(db.rows[i], now)
  {
    ApprovedIff(ops, key);
    if message.PairCode? && message.hash.Some? { PairedIff(ops, key, message.hash.value, now); }
  }

  /** A code pairs exactly when a pending request of this key carries it and has not run out. */
  lemma PairedIff(ops: seq<Op>, key: Key, hash: int, now: int)
    ensures var db := Run(EMPTY, ops);
      TryConsume(db, key, hash, now).1
      <==> exists i | 0 <= i < |db.rows| :: PendingWithCode(key, hash)(db.rows[i]) && !Overdue(db.rows[i], now)
  {
    RunInv(EMPTY, ops);
    var db := Run(EMPTY, ops);
    var found := First(db.rows, PendingWithCode(key, hash));
    if found.Some? {
      assert db.rows[found.value].status == Pending;
      forall i | 0 <= i < |db.rows| && PendingWithCode(key, hash)(db.rows[i]) ensures i == found.value {
      }
      if TryConsume(db, key, hash, now).1 {
        assert PendingWithCode(key, hash)(db.rows[found.value]) && !Overdue(db.rows[found.value], now);
      }
    }
  }

  ghost predicate HasOpenRequest(db: Db, key: Key, now: int) {
    exists i | 0 <= i < |db.rows| :: PendingRequest(key)(db.rows[i]) && !Overdue(db.rows[i], now)
  }

  /**
   * An ordinary message of an identity that must pair draws a challenge exactly when the identity is not approved,
   * has no open request, and 90 seconds have passed since its last challenge (the clock, as time since 1970, is past
   * 90 seconds itself).
   */
  lemma ChallengedIff(ops: seq<Op>, key: Key, channel: Option<string>, now: int, clock: real, newHash: int)
    requires clock >= RATE_LIMIT
    ensures var db := Run(EMPTY, ops);
      Ingress(db, key, channel, RequiresPairing, Other, now, clock, newHash).1.Challenged?
      <==> LastDecision(ops, key) != Some(true) && !HasOpenRequest(db, key, now)
           && forall x | x in Challenges(ops) && x.rateKey == RateKey(key, channel) :: clock - x.at >= RATE_LIMIT
  {
    RunInv(EMPTY, ops);
    RunSpaced(ops);
    ApprovedIff(ops, key);
    ChallengedWhen(Run(EMPTY, ops), key, channel, now, clock, newHash, Challenges(ops));
  }

  lemma ChallengedWhen(db: Db, key: Key, channel: Option<string>, now: int, clock: real, newHash: int,
                       issued: seq<Issue>)
    requires Inv(db) && clock >= RATE_LIMIT && Spaced(issued, db.lastIssued)
    ensures Ingress(db, key, channel, RequiresPairing, Other, now, clock, newHash).1.Challenged?
      <==> key !in ApprovedSet(db.identities) && !HasOpenRequest(db, key, now)
           && forall x | x in issued && x.rateKey == RateKey(key, channel) :: clock - x.at >= RATE_LIMIT
  {
    OpenRequestIff(db, key, now);
    RateLimitIff(db, RateKey(key, channel), clock, issued);
    assert ExpirePending(db, key, now).0.lastIssued == db.lastIssued;
  }

  lemma OpenRequestIff(db: Db, key: Key, now: int)
    requires Inv(db)
    ensures ExpirePending(db, key, now).1.Some? <==> HasOpenRequest(db, key, now)
  {
    var found := First(db.rows, PendingRequest(key));
    if found.Some? {
      forall i | 0 <= i < |db.rows| && PendingRequest(key)(db.rows[i]) ensures i == found.value {
      }
    }
  }

  lemma RateLimitIff(db: Db, rateKey: string, clock: real, issued: seq<Issue>)
    requires Spaced(issued, db.lastIssued) && clock >= RATE_LIMIT
    ensures clock - LastIssued(db, rateKey) >= RATE_LIMIT
       <==> forall x | x in issued && x.rateKey == rateKey :: clock - x.at >= RATE_LIMIT
  {
    if rateKey in db.lastIssued {
      assert Issue(rateKey, db.lastIssued[rateKey]) in issued;
    }
  }

  /** A challenge's code pairs while it lasts, the identity is then admitted, and the same code does not pair again. */
  lemma ChallengeRoundTrip(ops: seq<Op>, key: Key, channel: Option<string>, now: int, clock: real, code: int,
                           at: int, message: Message, later: int)
    requires now <= at <= now + CODE_TTL
    requires Ingress(Run(EMPTY, ops), key, channel, RequiresPairing, Other, now, clock, code).1.Challenged?
    ensures var challenged := Ingress(Run(EMPTY, ops), key, channel, RequiresPairing, Other, now, clock, code).0;
            var (paired, ok) := TryConsume(challenged, key, code, at);
      && ok
      && Ingress(paired, key, channel, RequiresPairing, message, later, clock, code) == (paired, Admitted)
      && !TryConsume(paired, key, code, later).1
  {
    RunInv(EMPTY, ops);
    var db := Run(EMPTY, ops);
    IngressInv(db, key, channel, RequiresPairing, Other, now, clock, code);
    ChallengeRow(db, key, channel, now, clock, code);
    var challenged := Unpaired(db, key, channel, Other, now, clock, code).0;
    CodeWorks(challenged, key, code, at, |challenged.rows| - 1);
  }

  lemma ChallengeRow(db: Db, key: Key, channel: Option<string>, now: int, clock: real, code: int)
    requires Unpaired(db, key, channel, Other, now, clock, code).1.Challenged?
    ensures var rows := Unpaired(db, key, channel, Other, now, clock, code).0.rows;
      rows != [] && rows[|rows| - 1] == Row(key, Request, Pending, Some(code), Some(now + CODE_TTL))
  {
  }

  lemma CodeWorks(db: Db, key: Key, code: int, now: int, i: nat)
    requires Inv(db) && i < |db.rows| && PendingWithCode(key, code)(db.rows[i])
    requires db.rows[i].expiresAt.Some? && !Overdue(db.rows[i], now)
    ensures var (paired, ok) := TryConsume(db, key, code, now);
      && ok && key in paired.identities && paired.identities[key] == Approved
      && First(paired.rows, PendingWithCode(key, code)) == None
  {
    PendingCodeUnique(db, key, code, i);
    NothingPendingAfter(db, key, code, now, i);
  }

  lemma PendingCodeUnique(db: Db, key: Key, code: int, i: nat)
    requires Inv(db) && i < |db.rows| && PendingWithCode(key, code)(db.rows[i])
    ensures First(db.rows, PendingWithCode(key, code)) == Some(i)
  {
  }

  lemma NothingPendingAfter(db: Db, key: Key, code: int, now: int, i: nat)
    requires Inv(db) && First(db.rows, PendingWithCode(key, code)) == Some(i) && i < |db.rows|
    requires db.rows[i].expiresAt.Some? && !Overdue(db.rows[i], now)
    ensures First(TryConsume(db, key, code, now).0.rows, PendingWithCode(key, code)) == None
  {
    var rows := TryConsume(db, key, code, now).0.rows;
    forall j | 0 <= j < |rows| ensures !PendingWithCode(key, code)(rows[j]) {
      assert j < |db.rows| && j != i ==> rows[j] == db.rows[j];
    }
  }

  /** Two challenges under one rate key are at least 90 seconds apart. */
  lemma ChallengesSpaced(ops: seq<Op>, i: nat, j: nat)
    requires i < j < |Challenges(ops)|
    ensures var issued := Challenges(ops);
      issued[i].rateKey == issued[j].rateKey ==> issued[j].at - issued[i].at >= 90.0
  {
    RunSpaced(ops);
  }

  // ----- Rate keys -----

  function ChannelName(channel: Option<string>): string {
    if channel.None? || channel.value == "" then "dm" else channel.value
  }

  predicate NoColon(key: Key) {
    ':' !in key.platform && ':' !in key.integration && ':' !in key.user
  }

  /** Identities and channels share a rate key only if they are the same, as long as the ids hold no colon. */
  lemma RateKeysDiffer(a: Key, b: Key, c: Option<string>, d: Option<string>)
    requires NoColon(a) && NoColon(b)
    ensures RateKey(a, c) == RateKey(b, d) <==> a == b && ChannelName(c) == ChannelName(d)
  {
    RateKeySplits(a, c);
    RateKeySplits(b, d);
    JoinSplit(ChannelName(c));
    JoinSplit(ChannelName(d));
    if RateKey(a, c) == RateKey(b, d) {
      var x, y := Split(RateKey(a, c)), Split(RateKey(b, d));
      assert x[0] == y[0] && x[1] == y[1] && x[2] == y[2] && x[3..] == y[3..];
    }
  }

  lemma RateKeySplits(key: Key, channel: Option<string>)
    requires NoColon(key)
    ensures Split(RateKey(key, channel)) == [key.platform, key.integration, key.user] + Split(ChannelName(channel))
  {
    var name := ChannelName(channel);
    RateKeyAssoc(key.platform, key.integration, key.user, name);
    SplitField(key.platform, key.integration + ":" + (key.user + ":" + name));
    SplitField(key.integration, key.user + ":" + name);
    SplitField(key.user, name);
  }

  lemma RateKeyAssoc(a: string, b: string, c: string, d: string)
    ensures a + ":" + b + ":" + c + ":" + d == a + ":" + (b + ":" + (c + ":" + d))
  {
    ConcatAssoc(a + ":" + b + ":", c + ":", d);
    ConcatAssoc(a + ":", b + ":", c + ":" + d);
  }
}
