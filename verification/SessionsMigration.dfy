/** Archiving legacy rows once, under interleaved migrations (backend/sessions_migration_service.py). */
module SessionsMigration {
  import opened Seqs
  import opened Text

  const MAIN_SESSION := "agent:main:main"

  /** The archive key `conversation:<id>` or `chat_session:<id>` of a row. */
  datatype Kind = Conversation | ChatSession
  datatype Key = Key(kind: Kind, id: int)

  /** `snapshot` is what reading the row and its messages gives at the moment. */
  datatype Row = Row(user: string, platform: string, sessionId: string, archived: bool, snapshot: string)

  datatype Db = Db(rows: map<Key, Row>, archives: map<Key, string>)

  /** A row a migration of this user may select: the main session never is. */
  predicate Legacy(db: Db, user: string, platform: string, k: Key) {
    && k in db.rows && db.rows[k].user == user && db.rows[k].platform == platform
    && (k.kind == ChatSession ==> db.rows[k].sessionId != MAIN_SESSION)
  }

  function Selected(db: Db, user: string, platform: string, kind: Kind): set<Key> {
    set k | k in db.rows && k.kind == kind && Legacy(db, user, platform, k) && !db.rows[k].archived
  }

  /** `on_conflict_do_nothing`: an existing record stays; the result says whether this call inserted. */
  function InsertIfAbsent(db: Db, k: Key, payload: string): (Db, bool) {
    if k in db.archives then (db, false) else (db.(archives := db.archives[k := payload]), true)
  }

  /** The insert of a loop iteration, with the payload read before, and the new status. */
  function ArchivePayload(db: Db, k: Key, payload: string): (Db, bool)
    requires k in db.rows
  {
    var (g, inserted) := InsertIfAbsent(db, k, payload);
    (g.(rows := g.rows[k := g.rows[k].(archived := true)]), inserted)
  }

  /** One iteration of the archive loops with nothing happening in between. */
  function ArchiveRow(db: Db, k: Key): (Db, bool)
    requires k in db.rows
  {
    ArchivePayload(db, k, db.rows[k].snapshot)
  }

  predicate HasMain(db: Db, user: string, platform: string) {
    exists k | k in db.rows :: k.kind == ChatSession && db.rows[k].user == user && db.rows[k].platform == platform
                               && db.rows[k].sessionId == MAIN_SESSION
  }

  /** `get_or_create_session(SESSION_MAIN_ID)`; `newId` is the new uuid. */
  function EnsureMain(db: Db, user: string, platform: string, newId: int): Db {
    if HasMain(db, user, platform) then db
    else db.(rows := db.rows[Key(ChatSession, newId) := Row(user, platform, MAIN_SESSION, false, "")])
  }

  // ----- Interleaved migrations -----

  datatype Phase = Idle | Conversations | Sessions | Finished

  /** `read` is the payload built for the head of the queue, once its messages were read. */
  datatype Worker = Worker(user: string, platform: string, phase: Phase, queue: seq<Key>, read: Option<string>,
                           conversations: nat, sessions: nat)

  /**
   * `inserted` is the history of the rows that got a record, `escaped` of those that a user's delete archived while
   * they had no record and no worker held them.
   */
  datatype System = System(db: Db, workers: seq<Worker>, inserted: seq<Key>, escaped: set<Key>)

  /**
   * `Begin` and `Switch` read the rows of the next loop (in any order, perhaps stale: rows archived meanwhile may be
   * among them). An iteration is two steps, with an await between them: `ReadNext` reads the row and its messages,
   * `ArchiveNext` inserts the record. `Close` ensures the main session. The rest are other writers: a row's content
   * changes, a row is added, a user deletes a conversation, which only sets the status.
   */
  datatype Step =
    | Begin(worker: nat, rows: seq<Key>)
    | ReadNext(worker: nat)
    | ArchiveNext(worker: nat)
    | Switch(worker: nat, rows: seq<Key>)
    | Close(worker: nat, newId: int)
    | Message(row: Key, snapshot: string)
    | Arrive(row: Key, content: Row)
    | SoftDelete(user: string, row: Key)

  /**
   * A select returns rows that are not archived. A row archived by a migration that has not committed may still look
   * so; it has its record then.
   */
  predicate MayRead(db: Db, w: Worker, kind: Kind, keys: seq<Key>) {
    forall k | k in keys ::
      k.kind == kind && Legacy(db, w.user, w.platform, k) && (!db.rows[k].archived || k in db.archives)
  }

  function Counted(w: Worker, inserted: bool): Worker {
    var rest := w.(queue := w.queue[if w.queue == [] then 0 else 1..], read := None);
    if !inserted then rest
    else if w.phase == Conversations then rest.(conversations := w.conversations + 1)
    else rest.(sessions := w.sessions + 1)
  }

  /** The worker's next row is there. */
  predicate AtRow(s: System, i: nat) {
    i < |s.workers| && s.workers[i].queue != [] && s.workers[i].queue[0] in s.db.rows
  }

  predicate Held(workers: seq<Worker>, k: Key) {
    exists i | 0 <= i < |workers| :: k in workers[i].queue
  }

  /** The delete endpoint knows conversations only, and answers 404 to anyone but the owner. */
  predicate Deletable(db: Db, user: string, k: Key) {
    k in db.rows && k.kind == Conversation && db.rows[k].user == user
  }

  function Next(s: System, step: Step): System {
    match step
    case Begin(i, keys) =>
      if i < |s.workers| && s.workers[i].phase == Idle && MayRead(s.db, s.workers[i], Conversation, keys)
      then s.(workers := s.workers[i := s.workers[i].(phase := Conversations, queue := keys)]) else s
    case Switch(i, keys) =>
      if i < |s.workers| && s.workers[i].phase == Conversations && s.workers[i].queue == []
         && MayRead(s.db, s.workers[i], ChatSession, keys)
      then s.(workers := s.workers[i := s.workers[i].(phase := Sessions, queue := keys)]) else s
    case ReadNext(i) =>
      if AtRow(s, i) && s.workers[i].read == None then
        var payload := s.db.rows[s.workers[i].queue[0]].snapshot;
        s.(workers := s.workers[i := s.workers[i].(read := Some(payload))])
      else s
    case ArchiveNext(i) =>
      if AtRow(s, i) && s.workers[i].read.Some? then
        var k := s.workers[i].queue[0];
        var (db, inserted) := ArchivePayload(s.db, k, s.workers[i].read.value);
        s.(db := db, workers := s.workers[i := Counted(s.workers[i], inserted)],
           inserted := s.inserted + if inserted then [k] else [])
      else s
    case Close(i, newId) =>
      if i < |s.workers| && s.workers[i].phase == Sessions && s.workers[i].queue == []
           && Key(ChatSession, newId) !in s.db.rows
      then s.(db := EnsureMain(s.db, s.workers[i].user, s.workers[i].platform, newId),
              workers := s.workers[i := s.workers[i].(phase := Finished)]) else s
    case Message(k, snapshot) =>
      if k in s.db.rows then s.(db := s.db.(rows := s.db.rows[k := s.db.rows[k].(snapshot := snapshot)])) else s
    case Arrive(k, content) =>
      if k !in s.db.rows && !content.archived then s.(db := s.db.(rows := s.db.rows[k := content])) else s
    case SoftDelete(user, k) =>
      if Deletable(s.db, user, k) then
        s.(db := s.db.(rows := s.db.rows[k := s.db.rows[k].(archived := true)]),
           escaped := s.escaped + if k !in s.db.archives && !Held(s.workers, k) then {k} else {})
      else s
  }

  function Run(s: System, steps: seq<Step>): System
    decreases |steps|
  {
    if steps == [] then s else Run(Next(s, steps[0]), steps[1..])
  }

  /** What the workers will return, added up. */
  function CountSum(workers: seq<Worker>): nat {
    if workers == [] then 0 else workers[0].conversations + workers[0].sessions + CountSum(workers[1..])
  }

  lemma {:induction false} CountSumUpdate(workers: seq<Worker>, i: nat, w: Worker)
    requires i < |workers|
    ensures CountSum(workers[i := w])
         == CountSum(workers) - workers[i].conversations - workers[i].sessions + w.conversations + w.sessions
  {
    if i == 0 {
      assert workers[0 := w][1..] == workers[1..];
    } else {
      assert workers[i := w][1..] == workers[1..][i - 1 := w];
      CountSumUpdate(workers[1..], i - 1, w);
    }
  }

  /** Rows stay, and records never change or go away. */
  ghost predicate Extends(before: Db, after: Db) {
    && (forall k | k in before.archives :: k in after.archives && after.archives[k] == before.archives[k])
    && (forall k | k in before.rows :: k in after.rows && (before.rows[k].archived ==> after.rows[k].archived))
  }

  lemma ExtendsTwice(a: Db, b: Db, c: Db)
    requires Extends(a, b) && Extends(b, c)
    ensures Extends(a, c)
  {
  }

  lemma ArchivePayloadExtends(db: Db, k: Key, payload: string)
    requires k in db.rows
    ensures var after := ArchivePayload(db, k, payload).0; Extends(db, after) && k in after.archives
  {
  }

  /** `s` was reached from `start`: its new records are those of the rows in `s.inserted`, one each. */
  ghost predicate Accounted(start: System, s: System) {
    && Extends(start.db, s.db)
    && CountSum(s.workers) == CountSum(start.workers) + |s.inserted|
    && Recorded(start.db.archives.Keys, s.inserted, s.db.archives.Keys)
  }

  ghost predicate Recorded(before: set<Key>, inserted: seq<Key>, after: set<Key>) {
    && NoDup(inserted) && before !! ToSet(inserted)
    && after == before + ToSet(inserted)
  }

  lemma RecordOneMore(before: set<Key>, inserted: seq<Key>, after: set<Key>, k: Key)
    requires Recorded(before, inserted, after) && k !in after
    ensures Recorded(before, inserted + [k], after + {k})
  {
    assert k !in ToSet(inserted);
    assert ToSet(inserted + [k]) == ToSet(inserted) + {k};
  }

  lemma ArchiveNextAccounted(start: System, s: System, i: nat)
    requires Accounted(start, s) && AtRow(s, i) && s.workers[i].read.Some?
    ensures Accounted(start, Next(s, ArchiveNext(i))) && Extends(s.db, Next(s, ArchiveNext(i)).db)
  {
    var k := s.workers[i].queue[0];
    var inserted := k !in s.db.archives;
    CountSumUpdate(s.workers, i, Counted(s.workers[i], inserted));
    var after := ArchivePayload(s.db, k, s.workers[i].read.value).0;
    ArchivePayloadExtends(s.db, k, s.workers[i].read.value);
    ExtendsTwice(start.db, s.db, after);
    if inserted {
      RecordOneMore(start.db.archives.Keys, s.inserted, s.db.archives.Keys, k);
      assert after.archives.Keys == s.db.archives.Keys + {k};
    } else {
      assert s.inserted + [] == s.inserted;
    }
  }

  lemma OtherWriterExtends(s: System, step: Step)
    requires step.Message? || step.Arrive? || step.Close? || step.SoftDelete?
    ensures Extends(s.db, Next(s, step).db) && Next(s, step).inserted == s.inserted
    ensures Next(s, step).db.archives == s.db.archives && CountSum(Next(s, step).workers) == CountSum(s.workers)
  {
    match step
    case Close(i, newId) => if i < |s.workers| { CountSumUpdate(s.workers, i, s.workers[i].(phase := Finished)); }
    case _ =>
  }

  lemma QueryChangesNoRow(s: System, step: Step)
    requires step.Begin? || step.Switch? || step.ReadNext?
    ensures Next(s, step).db == s.db && Next(s, step).inserted == s.inserted
    ensures CountSum(Next(s, step).workers) == CountSum(s.workers)
  {
    match step
    case Begin(i, keys) =>
      if i < |s.workers| { CountSumUpdate(s.workers, i, s.workers[i].(phase := Conversations, queue := keys)); }
    case Switch(i, keys) =>
      if i < |s.workers| { CountSumUpdate(s.workers, i, s.workers[i].(phase := Sessions, queue := keys)); }
    case ReadNext(i) =>
      if AtRow(s, i) {
        CountSumUpdate(s.workers, i, s.workers[i].(read := Some(s.db.rows[s.workers[i].queue[0]].snapshot)));
      }
  }

  lemma NextAccounted(start: System, s: System, step: Step)
    requires Accounted(start, s)
    ensures Accounted(start, Next(s, step)) && Extends(s.db, Next(s, step).db)
  {
    if step.ArchiveNext? {
      var i := step.worker;
      if AtRow(s, i) && s.workers[i].read.Some? {
        ArchiveNextAccounted(start, s, i);
      }
    } else if step.Begin? || step.Switch? || step.ReadNext? {
      QueryChangesNoRow(s, step);
    } else {
      OtherWriterExtends(s, step);
      ExtendsTwice(start.db, s.db, Next(s, step).db);
    }
  }

  /**
   * Any number of migrations, interleaved row by row with each other and with other writers: records are only added,
   * at most one per row, and the counts the migrations return add up to the number of new records, every one of them
   * for a different row.
   */
  lemma {:induction false} InterleavedMigrations(start: System, s: System, steps: seq<Step>)
    requires Accounted(start, s)
    ensures Accounted(start, Run(s, steps)) && Extends(s.db, Run(s, steps).db)
    ensures CountSum(Run(s, steps).workers) - CountSum(start.workers)
         == |Run(s, steps).db.archives.Keys - start.db.archives.Keys|
    decreases |steps|
  {
    if steps == [] {
      NoDupCard(s.inserted);
      assert s.db.archives.Keys - start.db.archives.Keys == ToSet(s.inserted);
    } else {
      NextAccounted(start, s, steps[0]);
      InterleavedMigrations(start, Next(s, steps[0]), steps[1..]);
      ExtendsTwice(s.db, Next(s, steps[0]).db, Run(s, steps).db);
    }
  }

  // ----- Which archived rows have a record -----

  /** Idle workers hold nothing, and held rows are there. */
  ghost predicate QueuesKnown(s: System) {
    forall i | 0 <= i < |s.workers| ::
      && (s.workers[i].phase == Idle ==> s.workers[i].queue == [])
      && forall k | k in s.workers[i].queue :: k in s.db.rows
  }

  /** Escaped rows are archived, have no record, and no worker holds them. */
  ghost predicate EscapedForGood(s: System) {
    forall k | k in s.escaped :: k in s.db.rows && s.db.rows[k].archived && k !in s.db.archives && !Held(s.workers, k)
  }

  /** A row archived since the start has a record, or escaped, or a worker still holds it. */
  ghost predicate NoneForgotten(start: Db, s: System) {
    forall k | k in s.db.rows && s.db.rows[k].archived && !(k in start.rows && start.rows[k].archived) ::
      k in s.db.archives || k in s.escaped || Held(s.workers, k)
  }

  ghost predicate Tracked(start: Db, s: System) {
    QueuesKnown(s) && EscapedForGood(s) && NoneForgotten(start, s)
  }

  /** Only worker i's queue changed: it lost its head, or was filled. */
  lemma HeldUpdate(workers: seq<Worker>, i: nat, w: Worker, k: Key)
    requires i < |workers|
    ensures Held(workers[i := w], k) ==> Held(workers, k) || k in w.queue
    ensures Held(workers, k) ==> Held(workers[i := w], k) || k in workers[i].queue
  {
    var after := workers[i := w];
    if Held(after, k) {
      var j :| 0 <= j < |after| && k in after[j].queue;
      if j != i { assert k in workers[j].queue; }
    }
    if Held(workers, k) {
      var j :| 0 <= j < |workers| && k in workers[j].queue;
      if j != i { assert k in after[j].queue; }
    }
  }

  lemma SelectTracked(start: Db, s: System, i: nat, phase: Phase, kind: Kind, keys: seq<Key>)
    requires Tracked(start, s) && i < |s.workers| && s.workers[i].queue == [] && phase != Idle
    requires MayRead(s.db, s.workers[i], kind, keys)
    ensures Tracked(start, s.(workers := s.workers[i := s.workers[i].(phase := phase, queue := keys)]))
  {
    var w := s.workers[i].(phase := phase, queue := keys);
    forall k ensures Held(s.workers[i := w], k) ==> Held(s.workers, k) || k in keys
             ensures Held(s.workers, k) ==> Held(s.workers[i := w], k) {
      HeldUpdate(s.workers, i, w, k);
    }
  }

  lemma SameQueueTracked(start: Db, s: System, i: nat, w: Worker)
    requires Tracked(start, s) && i < |s.workers| && w.queue == s.workers[i].queue
    requires w.phase == Idle ==> w.queue == []
    ensures Tracked(start, s.(workers := s.workers[i := w]))
  {
    forall k ensures Held(s.workers[i := w], k) <==> Held(s.workers, k) {
      HeldUpdate(s.workers, i, w, k);
      HeldUpdate(s.workers[i := w], i, s.workers[i], k);
      assert s.workers[i := w][i := s.workers[i]] == s.workers;
      if k in w.queue {
        assert k in s.workers[i].queue && k in s.workers[i := w][i].queue;
      }
    }
  }

  lemma ArchiveTracked(start: Db, s: System, i: nat)
    requires Tracked(start, s) && AtRow(s, i) && s.workers[i].read.Some?
    ensures Tracked(start, Next(s, ArchiveNext(i)))
  {
    var k, w := s.workers[i].queue[0], Counted(s.workers[i], s.workers[i].queue[0] !in s.db.archives);
    assert k in s.workers[i].queue;
    assert Held(s.workers, k);
    forall x ensures Held(s.workers[i := w], x) ==> Held(s.workers, x)
             ensures Held(s.workers, x) && x != k ==> Held(s.workers[i := w], x) {
      ArchivedHead(s.workers, i, w, x);
    }
  }

  lemma ArchivedHead(workers: seq<Worker>, i: nat, w: Worker, x: Key)
    requires i < |workers| && workers[i].queue != [] && w.queue == workers[i].queue[1..]
    ensures Held(workers[i := w], x) ==> Held(workers, x)
    ensures Held(workers, x) && x != workers[i].queue[0] ==> Held(workers[i := w], x)
  {
    HeldUpdate(workers, i, w, x);
    if x in w.queue { assert x in workers[i].queue; }
    if x in workers[i].queue && x != workers[i].queue[0] {
      assert workers[i].queue == [workers[i].queue[0]] + w.queue;
      assert x in workers[i := w][i].queue;
    }
  }

  lemma CloseTracked(start: Db, s: System, i: nat, newId: int)
    requires Tracked(start, s)
    ensures Tracked(start, Next(s, Close(i, newId)))
  {
    if i < |s.workers| && s.workers[i].phase == Sessions && s.workers[i].queue == []
       && Key(ChatSession, newId) !in s.db.rows {
      SameQueueTracked(start, s, i, s.workers[i].(phase := Finished));
    }
  }

  lemma NextTracked(start: Db, s: System, step: Step)
    requires Tracked(start, s)
    ensures Tracked(start, Next(s, step))
  {
    match step
    case Begin(i, keys) =>
      if i < |s.workers| && s.workers[i].phase == Idle && MayRead(s.db, s.workers[i], Conversation, keys) {
        SelectTracked(start, s, i, Conversations, Conversation, keys);
      }
    case Switch(i, keys) =>
      if i < |s.workers| && s.workers[i].phase == Conversations && s.workers[i].queue == []
         && MayRead(s.db, s.workers[i], ChatSession, keys) {
        SelectTracked(start, s, i, Sessions, ChatSession, keys);
      }
    case ReadNext(i) =>
      if AtRow(s, i) {
        SameQueueTracked(start, s, i, s.workers[i].(read := Some(s.db.rows[s.workers[i].queue[0]].snapshot)));
      }
    case ArchiveNext(i) =>
      if AtRow(s, i) && s.workers[i].read.Some? { ArchiveTracked(start, s, i); }
    case Close(i, newId) => CloseTracked(start, s, i, newId);
    case _ =>
  }

  lemma {:induction false} RunTracked(start: Db, s: System, steps: seq<Step>)
    requires Tracked(start, s)
    ensures Tracked(start, Run(s, steps))
    decreases |steps|
  {
    if steps != [] {
      NextTracked(start, s, steps[0]);
      RunTracked(start, Next(s, steps[0]), steps[1..]);
    }
  }

  /** Nothing escaped yet, and nobody is in the middle of a loop. */
  ghost predicate Fresh(s: System) {
    s.escaped == {} && forall i | 0 <= i < |s.workers| :: s.workers[i].queue == []
  }

  /**
   * Once no worker is in the middle of a loop, a row archived during the run has a record if and only if it did not
   * escape: no user deleted it while it had no record and no worker held it.
   */
  lemma RecordedUnlessEscaped(start: System, steps: seq<Step>, k: Key)
    requires Fresh(start)
    requires var end := Run(start, steps); forall i | 0 <= i < |end.workers| :: end.workers[i].queue == []
    requires var end := Run(start, steps);
      k in end.db.rows && end.db.rows[k].archived && !(k in start.db.rows && start.db.rows[k].archived)
    ensures var end := Run(start, steps); k in end.db.archives <==> k !in end.escaped
  {
    RunTracked(start.db, start, steps);
  }

  /** The steps with which worker i works off the first n rows of its queue. */
  function WorkOff(i: nat, n: nat): seq<Step> {
    if n == 0 then [] else [ReadNext(i), ArchiveNext(i)] + WorkOff(i, n - 1)
  }

  lemma {:induction false} HolderRecords(s: System, i: nat, j: nat)
    requires QueuesKnown(s) && i < |s.workers| && j < |s.workers[i].queue|
    ensures s.workers[i].queue[j] in Run(s, WorkOff(i, j + 1)).db.archives
    decreases j
  {
    var k, queue := s.workers[i].queue[j], s.workers[i].queue;
    assert queue[0] in queue && AtRow(s, i);
    var s1 := Next(s, ReadNext(i));
    assert s1.workers[i].read.Some? && s1.workers[i].queue == queue && s1.db == s.db;
    var s2 := Next(s1, ArchiveNext(i));
    RunTwo(s, ReadNext(i), ArchiveNext(i), WorkOff(i, j));
    if j == 0 {
      assert Run(s2, []) == s2;
    } else {
      WorkedOff(s, i);
      HolderRecords(s2, i, j - 1);
    }
  }

  /** Reading and archiving its next row moves the worker on by one. */
  lemma WorkedOff(s: System, i: nat)
    requires QueuesKnown(s) && AtRow(s, i)
    ensures var s2 := Next(Next(s, ReadNext(i)), ArchiveNext(i));
      QueuesKnown(s2) && i < |s2.workers| && s2.workers[i].queue == s.workers[i].queue[1..]
  {
  }

  lemma RunTwo(s: System, a: Step, b: Step, rest: seq<Step>)
    ensures Run(s, [a, b] + rest) == Run(Next(Next(s, a), b), rest)
  {
    var steps := [a, b] + rest;
    assert steps[1..] == [b] + rest && steps[1..][1..] == rest;
  }

  predicate RecordedAfter(s: System, steps: seq<Step>, k: Key) {
    k in Run(s, steps).db.archives
  }

  /**
   * A conversation a user deletes stays without a record for good, whatever happens afterwards, if and only if at the
   * delete it has none and no worker holds it: every later select passes it over, but a worker that holds it records
   * it when it gets there.
   */
  lemma DeletedWithoutRecordIff(s: System, user: string, k: Key)
    requires QueuesKnown(s) && EscapedForGood(s) && Deletable(s.db, user, k)
    ensures (forall steps :: !RecordedAfter(Next(s, SoftDelete(user, k)), steps, k))
       <==> k !in s.db.archives && !Held(s.workers, k)
  {
    var s1 := Next(s, SoftDelete(user, k));
    if k !in s.db.archives && !Held(s.workers, k) {
      forall steps ensures !RecordedAfter(s1, steps, k) {
        EscapedStays(s1, steps, k);
      }
    } else if k in s.db.archives {
      assert RecordedAfter(s1, [], k);
    } else {
      var i :| 0 <= i < |s.workers| && k in s.workers[i].queue;
      var j :| 0 <= j < |s.workers[i].queue| && s.workers[i].queue[j] == k;
      HolderRecords(s1, i, j);
      assert RecordedAfter(s1, WorkOff(i, j + 1), k);
    }
  }

  lemma EscapedStays(s: System, steps: seq<Step>, k: Key)
    requires QueuesKnown(s) && EscapedForGood(s) && k in s.escaped
    ensures k in Run(s, steps).db.rows && Run(s, steps).db.rows[k].archived && k !in Run(s, steps).db.archives
  {
    NoneForgottenNow(s);
    RunTracked(s.db, s, steps);
    EscapedGrows(s, steps);
  }

  lemma NoneForgottenNow(s: System)
    ensures NoneForgotten(s.db, s)
  {
  }

  lemma {:induction false} EscapedGrows(s: System, steps: seq<Step>)
    ensures s.escaped <= Run(s, steps).escaped
    decreases |steps|
  {
    if steps != [] {
      EscapedGrows(Next(s, steps[0]), steps[1..]);
    }
  }

  /** One conversation and one worker that has not begun. */
  function Single(k: Key, row: Row): System {
    System(Db(map[k := row], map[]), [Worker(row.user, row.platform, Idle, [], None, 0, 0)], [], {})
  }

  /** So a conversation deleted before its user's first migration is archived without a record, whatever follows. */
  lemma DeletedBeforeMigration(user: string, platform: string, id: int, snapshot: string, steps: seq<Step>)
    ensures var k := Key(Conversation, id);
      var start := Single(k, Row(user, platform, "", false, snapshot));
      var end := Run(Next(start, SoftDelete(user, k)), steps).db;
      k in end.rows && end.rows[k].archived && k !in end.archives
  {
    var k := Key(Conversation, id);
    var start := Single(k, Row(user, platform, "", false, snapshot));
    EscapedStays(Next(start, SoftDelete(user, k)), steps, k);
  }

  // ----- What a record holds -----

  /** The step belongs to worker i. */
  predicate Own(step: Step, i: nat) {
    match step
    case Begin(w, _) => w == i
    case ReadNext(w) => w == i
    case ArchiveNext(w) => w == i
    case Switch(w, _) => w == i
    case Close(w, _) => w == i
    case Message(_, _) => false
    case Arrive(_, _) => false
    case SoftDelete(_, _) => false
  }

  lemma {:induction false} OthersLeaveWorker(s: System, i: nat, steps: seq<Step>)
    requires i < |s.workers| && forall step | step in steps :: !Own(step, i)
    ensures |Run(s, steps).workers| == |s.workers| && Run(s, steps).workers[i] == s.workers[i]
    decreases |steps|
  {
    if steps != [] {
      assert steps[0] in steps;
      assert |Next(s, steps[0]).workers| == |s.workers| && Next(s, steps[0]).workers[i] == s.workers[i];
      OthersLeaveWorker(Next(s, steps[0]), i, steps[1..]);
    }
  }

  /**
   * A row's record is, for good, what the row held when the worker that inserted it had read it, whatever other
   * workers and writers do between the read and the insert: a message arriving there is not in the record.
   */
  lemma FirstSnapshotStays(start: System, s: System, i: nat, between: seq<Step>, later: seq<Step>)
    requires Accounted(start, s) && AtRow(s, i) && s.workers[i].read == None
    requires forall step | step in between :: !Own(step, i)
    ensures var k := s.workers[i].queue[0];
      var before := Run(Next(s, ReadNext(i)), between);
      var end := Run(Next(before, ArchiveNext(i)), later).db;
      && k in end.archives
      && end.archives[k] == if k in before.db.archives then before.db.archives[k] else s.db.rows[k].snapshot
  {
    var k := s.workers[i].queue[0];
    NextAccounted(start, s, ReadNext(i));
    InterleavedMigrations(start, Next(s, ReadNext(i)), between);
    OthersLeaveWorker(Next(s, ReadNext(i)), i, between);
    InsertedStays(start, Run(Next(s, ReadNext(i)), between), i, later);
  }

  /** An insert leaves a record for the row: what was there, else the payload, for good. */
  lemma InsertedStays(start: System, s: System, i: nat, later: seq<Step>)
    requires Accounted(start, s) && AtRow(s, i) && s.workers[i].read.Some?
    ensures var k := s.workers[i].queue[0];
      var end := Run(Next(s, ArchiveNext(i)), later).db;
      && k in end.archives
      && end.archives[k] == if k in s.db.archives then s.db.archives[k] else s.workers[i].read.value
  {
    NextAccounted(start, s, ArchiveNext(i));
    InterleavedMigrations(start, Next(s, ArchiveNext(i)), later);
  }

  /** What a row holds after the steps, from what it held: the last message step to it decides. */
  function Content(steps: seq<Step>, k: Key, was: string): string {
    if steps == [] then was
    else
      var last := steps[|steps| - 1];
      if last.Message? && last.row == k then last.snapshot else Content(steps[..|steps| - 1], k, was)
  }

  lemma {:induction false} ContentCons(step: Step, rest: seq<Step>, k: Key, was: string)
    ensures Content([step] + rest, k, was)
         == Content(rest, k, if step.Message? && step.row == k then step.snapshot else was)
    decreases |rest|
  {
    var all := [step] + rest;
    if rest == [] {
      assert all[..0] == [];
    } else {
      assert all[..|all| - 1] == [step] + rest[..|rest| - 1];
      ContentCons(step, rest[..|rest| - 1], k, was);
    }
  }

  lemma {:induction false} RowHolds(s: System, steps: seq<Step>, k: Key)
    requires k in s.db.rows
    ensures k in Run(s, steps).db.rows
    ensures Run(s, steps).db.rows[k].snapshot == Content(steps, k, s.db.rows[k].snapshot)
    decreases |steps|
  {
    if steps != [] {
      assert steps == [steps[0]] + steps[1..];
      ContentCons(steps[0], steps[1..], k, s.db.rows[k].snapshot);
      RowHolds(Next(s, steps[0]), steps[1..], k);
    }
  }

  /**
   * A row and its record agree at the end if and only if the messages that came after the worker's read, before or
   * after the insert, left the row holding what it held at the read (or what an older record says).
   */
  lemma RecordAgreesIff(start: System, s: System, i: nat, between: seq<Step>, later: seq<Step>)
    requires Accounted(start, s) && AtRow(s, i) && s.workers[i].read == None
    requires forall step | step in between :: !Own(step, i)
    ensures var k := s.workers[i].queue[0];
      var before := Run(Next(s, ReadNext(i)), between);
      var end := Run(Next(before, ArchiveNext(i)), later).db;
      var was := s.db.rows[k].snapshot;
      && k in end.rows && k in end.archives
      && (end.archives[k] == end.rows[k].snapshot
          <==> Content(later, k, Content(between, k, was))
               == if k in before.db.archives then before.db.archives[k] else was)
  {
    var k := s.workers[i].queue[0];
    FirstSnapshotStays(start, s, i, between, later);
    RowHolds(Next(s, ReadNext(i)), between, k);
    var before := Run(Next(s, ReadNext(i)), between);
    RowHolds(Next(before, ArchiveNext(i)), later, k);
  }

  /** From the start of a migration: a message between the read and the insert, or after it, is not in the record. */
  lemma MessageMissed(id: int, row: Row, late: string)
    requires !row.archived && late != row.snapshot
    ensures var k := Key(Conversation, id);
      var between := [Begin(0, [k]), ReadNext(0), Message(k, late), ArchiveNext(0)];
      var after := [Begin(0, [k]), ReadNext(0), ArchiveNext(0), Message(k, late)];
      Missed(Run(Single(k, row), between).db, k, row, late) && Missed(Run(Single(k, row), after).db, k, row, late)
  {
    var k := Key(Conversation, id);
    var s := Single(k, row);
    RunFour(s, Begin(0, [k]), ReadNext(0), Message(k, late), ArchiveNext(0));
    RunFour(s, Begin(0, [k]), ReadNext(0), ArchiveNext(0), Message(k, late));
  }

  /** The row is archived and holds the late content, its record what it held first. */
  predicate Missed(db: Db, k: Key, row: Row, late: string) {
    && k in db.rows && db.rows[k].archived && db.rows[k].snapshot == late
    && k in db.archives && db.archives[k] == row.snapshot
  }

  lemma RunFour(s: System, a: Step, b: Step, c: Step, d: Step)
    ensures Run(s, [a, b, c, d]) == Next(Next(Next(Next(s, a), b), c), d)
  {
    assert [a, b, c, d] == [a, b] + [c, d] && [c, d] == [c, d] + [];
    RunTwo(s, a, b, [c, d]);
    RunTwo(Next(Next(s, a), b), c, d, []);
  }

  // ----- One migration on its own -----

  predicate Known(db: Db, keys: seq<Key>) {
    forall k | k in keys :: k in db.rows
  }

  function ArchiveAll(db: Db, keys: seq<Key>): (Db, nat)
    requires Known(db, keys)
    decreases |keys|
  {
    if keys == [] then (db, 0)
    else
      var (g, inserted) := ArchiveRow(db, keys[0]);
      var (g', n) := ArchiveAll(g, keys[1..]);
      (g', n + if inserted then 1 else 0)
  }

  /** `after` is `before` with exactly these rows archived, each with a record that is new only if it was missing. */
  ghost predicate ArchivedExactly(before: Db, keys: set<Key>, after: Db) {
    && after.rows.Keys == before.rows.Keys
    && (forall k | k in before.rows ::
          after.rows[k] == if k in keys then before.rows[k].(archived := true) else before.rows[k])
    && after.archives.Keys == before.archives.Keys + keys
    && (forall k | k in after.archives ::
          if k in before.archives then after.archives[k] == before.archives[k]
          else k in before.rows && after.archives[k] == before.rows[k].snapshot)
  }

  lemma ArchiveRowExact(db: Db, k: Key)
    requires k in db.rows
    ensures ArchivedCounted(db, {k}, ArchiveRow(db, k).0, if ArchiveRow(db, k).1 then 1 else 0)
  {
    if k !in db.archives {
      assert db.archives[k := db.rows[k].snapshot].Keys == db.archives.Keys + {k};
    }
  }

  lemma ExactTwice(a: Db, some: set<Key>, b: Db, more: set<Key>, c: Db)
    requires ArchivedExactly(a, some, b) && ArchivedExactly(b, more, c) && some <= a.rows.Keys
    ensures ArchivedExactly(a, some + more, c)
  {
  }

  lemma ToSetCons<T>(xs: seq<T>)
    requires xs != []
    ensures ToSet(xs) == {xs[0]} + ToSet(xs[1..])
  {
    assert xs == [xs[0]] + xs[1..];
  }

  ghost predicate ArchivedCounted(before: Db, keys: set<Key>, after: Db, n: nat) {
    ArchivedExactly(before, keys, after) && n == |after.archives| - |before.archives|
  }

  lemma CountedTwice(a: Db, some: set<Key>, b: Db, n: nat, more: set<Key>, c: Db, m: nat)
    requires ArchivedCounted(a, some, b, n) && ArchivedCounted(b, more, c, m) && some <= a.rows.Keys
    ensures ArchivedCounted(a, some + more, c, n + m)
  {
    ExactTwice(a, some, b, more, c);
  }

  lemma KnownAfter(db: Db, keys: seq<Key>)
    requires Known(db, keys) && keys != []
    ensures keys[0] in db.rows && {keys[0]} <= db.rows.Keys && Known(ArchiveRow(db, keys[0]).0, keys[1..])
  {
  }

  lemma {:induction false} ArchiveAllExact(db: Db, keys: seq<Key>)
    requires Known(db, keys)
    ensures ArchivedCounted(db, ToSet(keys), ArchiveAll(db, keys).0, ArchiveAll(db, keys).1)
    decreases |keys|
  {
    if keys == [] {
    } else {
      KnownAfter(db, keys);
      ArchiveRowExact(db, keys[0]);
      var g, one := ArchiveRow(db, keys[0]).0, if ArchiveRow(db, keys[0]).1 then 1 else 0;
      ArchiveAllExact(g, keys[1..]);
      CountedTwice(db, {keys[0]}, g, one, ToSet(keys[1..]), ArchiveAll(g, keys[1..]).0, ArchiveAll(g, keys[1..]).1);
      ToSetCons(keys);
    }
  }

  /** A complete migration: all selected conversations, then all selected sessions, then the main session. */
  ghost predicate Migrated(db: Db, user: string, platform: string, conversations: seq<Key>, sessions: seq<Key>,
                           newId: int) {
    && Known(db, conversations) && ToSet(conversations) == Selected(db, user, platform, Conversation)
    && Known(ArchiveAll(db, conversations).0, sessions)
    && ToSet(sessions) == Selected(ArchiveAll(db, conversations).0, user, platform, ChatSession)
    && Key(ChatSession, newId) !in db.rows
  }

  /** The user's only unarchived row left is the main session; rows of others are as before. */
  ghost predicate OnlyMainLeft(db: Db, after: Db, user: string, platform: string) {
    && (forall k | k in after.rows && after.rows[k].user == user && after.rows[k].platform == platform
         && !after.rows[k].archived ::
          k.kind == ChatSession && after.rows[k].sessionId == MAIN_SESSION)
    && (forall k | k in db.rows && !(db.rows[k].user == user && db.rows[k].platform == platform) ::
          k in after.rows && after.rows[k] == db.rows[k])
  }

  /** What a migration promises: nothing left to archive, and the main session there. */
  ghost predicate AllArchived(db: Db, user: string, platform: string) {
    (forall kind :: Selected(db, user, platform, kind) == {}) && HasMain(db, user, platform)
  }

  lemma BothLoopsLeaveMain(db: Db, mid: Db, end: Db, user: string, platform: string)
    requires ArchivedExactly(db, Selected(db, user, platform, Conversation), mid)
    requires ArchivedExactly(mid, Selected(mid, user, platform, ChatSession), end)
    ensures OnlyMainLeft(db, end, user, platform) && end.rows.Keys == db.rows.Keys
  {
    forall k | k in end.rows && end.rows[k].user == user && end.rows[k].platform == platform && !end.rows[k].archived
      ensures k.kind == ChatSession && end.rows[k].sessionId == MAIN_SESSION {
      assert k !in Selected(mid, user, platform, ChatSession);
      assert k !in Selected(db, user, platform, Conversation);
    }
  }

  lemma MainAdded(db: Db, end: Db, user: string, platform: string, newId: int)
    requires OnlyMainLeft(db, end, user, platform) && end.rows.Keys == db.rows.Keys
         && Key(ChatSession, newId) !in db.rows
    ensures OnlyMainLeft(db, EnsureMain(end, user, platform, newId), user, platform)
    ensures HasMain(EnsureMain(end, user, platform, newId), user, platform)
    ensures EnsureMain(end, user, platform, newId).archives == end.archives
  {
    if !HasMain(end, user, platform) {
      assert Key(ChatSession, newId) in EnsureMain(end, user, platform, newId).rows;
    }
  }

  /**
   * A migration on its own leaves nothing of the user unarchived but the main session, which exists; rows of others
   * are as before. Its counts add up to the new records, and a second migration finds nothing to do.
   */
  lemma MigrationIsComplete(db: Db, user: string, platform: string, conversations: seq<Key>, sessions: seq<Key>,
                            newId: int)
    requires Migrated(db, user, platform, conversations, sessions, newId)
    ensures var (mid, n) := ArchiveAll(db, conversations);
            var (end, m) := ArchiveAll(mid, sessions);
            var after := EnsureMain(end, user, platform, newId);
      && OnlyMainLeft(db, after, user, platform) && AllArchived(after, user, platform)
      && n + m == |after.archives| - |db.archives|
      && Extends(db, after)
  {
    var mid := ArchiveAll(db, conversations).0;
    var end := ArchiveAll(mid, sessions).0;
    ArchiveAllExact(db, conversations);
    ArchiveAllExact(mid, sessions);
    BothLoopsLeaveMain(db, mid, end, user, platform);
    MainAdded(db, end, user, platform, newId);
    NothingSelected(db, EnsureMain(end, user, platform, newId), user, platform);
    ExactExtends(db, ToSet(conversations), mid);
    ExactExtends(mid, ToSet(sessions), end);
    MainExtends(end, user, platform, newId);
    ExtendsTwice(db, mid, end);
    ExtendsTwice(db, end, EnsureMain(end, user, platform, newId));
  }

  lemma NothingSelected(db: Db, after: Db, user: string, platform: string)
    requires OnlyMainLeft(db, after, user, platform)
    ensures forall kind :: Selected(after, user, platform, kind) == {}
  {
    forall kind ensures Selected(after, user, platform, kind) == {} {
      assert forall k :: k !in Selected(after, user, platform, kind);
    }
  }

  lemma HeadInToSet<T>(xs: seq<T>)
    ensures xs == [] || xs[0] in ToSet(xs)
  {
  }

  // ----- A worker on its own is that migration -----

  /** Worker i works off its whole queue: every row is archived, and the new records are counted for the phase. */
  ghost predicate WorkedThrough(s: System, i: nat, end: System)
    requires i < |s.workers| && Known(s.db, s.workers[i].queue)
  {
    var w, n := s.workers[i], ArchiveAll(s.db, s.workers[i].queue).1;
    && end.db == ArchiveAll(s.db, w.queue).0 && |end.workers| == |s.workers|
    && end.workers[i] == w.(queue := [], conversations := w.conversations + (if w.phase == Conversations then n else 0),
                            sessions := w.sessions + if w.phase == Conversations then 0 else n)
  }

  lemma OneRowWorked(s: System, i: nat)
    requires i < |s.workers| && s.workers[i].read == None && s.workers[i].queue != []
    requires Known(s.db, s.workers[i].queue)
    ensures var s2 := Next(Next(s, ReadNext(i)), ArchiveNext(i));
      var k := s.workers[i].queue[0];
      && k in s.db.rows && s2.db == ArchiveRow(s.db, k).0 && |s2.workers| == |s.workers|
      && s2.workers[i] == Counted(s.workers[i], ArchiveRow(s.db, k).1) && Known(s2.db, s2.workers[i].queue)
  {
    var k := s.workers[i].queue[0];
    assert k in s.workers[i].queue && AtRow(s, i);
    KnownAfter(s.db, s.workers[i].queue);
  }

  lemma {:induction false} WorkOffArchives(s: System, i: nat)
    requires i < |s.workers| && s.workers[i].read == None && Known(s.db, s.workers[i].queue)
    ensures WorkedThrough(s, i, Run(s, WorkOff(i, |s.workers[i].queue|)))
    decreases if i < |s.workers| then |s.workers[i].queue| else 0
  {
    var queue := s.workers[i].queue;
    if queue != [] {
      var s2 := Next(Next(s, ReadNext(i)), ArchiveNext(i));
      OneRowWorked(s, i);
      RunTwo(s, ReadNext(i), ArchiveNext(i), WorkOff(i, |queue| - 1));
      WorkOffArchives(s2, i);
      WorkedOneMore(s, s2, i, Run(s2, WorkOff(i, |queue| - 1)));
    }
  }

  lemma WorkedOneMore(s: System, s2: System, i: nat, end: System)
    requires i < |s.workers| == |s2.workers| && s.workers[i].queue != [] && Known(s.db, s.workers[i].queue)
    requires s.workers[i].read == None && s.workers[i].queue[0] in s.db.rows
    requires s2.db == ArchiveRow(s.db, s.workers[i].queue[0]).0
    requires s2.workers[i] == Counted(s.workers[i], ArchiveRow(s.db, s.workers[i].queue[0]).1)
    requires Known(s2.db, s2.workers[i].queue) && WorkedThrough(s2, i, end)
    ensures WorkedThrough(s, i, end)
  {
  }

  lemma {:induction false} RunConcat(s: System, a: seq<Step>, b: seq<Step>)
    ensures Run(s, a + b) == Run(Run(s, a), b)
    decreases |a|
  {
    if a == [] {
      assert a + b == b;
    } else {
      assert (a + b)[0] == a[0] && (a + b)[1..] == a[1..] + b;
      RunConcat(Next(s, a[0]), a[1..], b);
    }
  }

  /** The steps of one migration with nothing in between. */
  function Alone(i: nat, conversations: seq<Key>, sessions: seq<Key>, newId: int): seq<Step> {
    [Begin(i, conversations)]
    + (WorkOff(i, |conversations|) + ([Switch(i, sessions)] + (WorkOff(i, |sessions|) + [Close(i, newId)])))
  }

  lemma RunFirst(s: System, step: Step, rest: seq<Step>)
    ensures Run(s, [step] + rest) == Run(Next(s, step), rest)
  {
    assert ([step] + rest)[1..] == rest;
  }

  lemma RunOne(s: System, step: Step)
    ensures Run(s, [step]) == Next(s, step)
  {
    assert [step][1..] == [];
  }

  /** A loop of the migration: it starts with the selected rows and works them off. */
  lemma LoopRuns(s: System, s1: System, i: nat, phase: Phase, keys: seq<Key>, rest: seq<Step>)
    requires i < |s.workers| && s.workers[i].read == None && Known(s.db, keys)
    requires s1 == s.(workers := s.workers[i := s.workers[i].(phase := phase, queue := keys)])
    ensures var end := Run(s1, WorkOff(i, |keys|));
      && Run(s1, WorkOff(i, |keys|) + rest) == Run(end, rest)
      && WorkedThrough(s1, i, end)
  {
    WorkOffArchives(s1, i);
    RunConcat(s1, WorkOff(i, |keys|), rest);
  }

  lemma SelectedMayBeRead(db: Db, w: Worker, kind: Kind, keys: seq<Key>)
    requires Known(db, keys) && ToSet(keys) == Selected(db, w.user, w.platform, kind)
    ensures MayRead(db, w, kind, keys)
  {
    forall k | k in keys ensures k.kind == kind && Legacy(db, w.user, w.platform, k) && !db.rows[k].archived {
      assert k in ToSet(keys);
    }
  }

  lemma AfterClose(s: System, i: nat, newId: int)
    requires i < |s.workers| && s.workers[i].phase == Sessions && s.workers[i].queue == []
    requires Key(ChatSession, newId) !in s.db.rows
    ensures var end := Next(s, Close(i, newId));
      && end.db == EnsureMain(s.db, s.workers[i].user, s.workers[i].platform, newId)
      && |end.workers| == |s.workers| && end.workers[i] == s.workers[i].(phase := Finished)
  {
  }

  /** The last loop and the main session, from the state after the first loop. */
  lemma SecondHalf(s: System, i: nat, sessions: seq<Key>, newId: int)
    requires i < |s.workers| && s.workers[i].phase == Conversations && s.workers[i].queue == []
    requires s.workers[i].read == None && s.workers[i].sessions == 0 && Key(ChatSession, newId) !in s.db.rows
    requires Known(s.db, sessions)
          && ToSet(sessions) == Selected(s.db, s.workers[i].user, s.workers[i].platform, ChatSession)
    ensures var w := s.workers[i];
      var end := Run(s, [Switch(i, sessions)] + (WorkOff(i, |sessions|) + [Close(i, newId)]));
      && end.db == EnsureMain(ArchiveAll(s.db, sessions).0, w.user, w.platform, newId)
      && i < |end.workers| && end.workers[i].conversations == w.conversations
      && end.workers[i].sessions == ArchiveAll(s.db, sessions).1
  {
    var s1 := Next(s, Switch(i, sessions));
    SelectedMayBeRead(s.db, s.workers[i], ChatSession, sessions);
    RunFirst(s, Switch(i, sessions), WorkOff(i, |sessions|) + [Close(i, newId)]);
    LoopRuns(s, s1, i, Sessions, sessions, [Close(i, newId)]);
    var s2 := Run(s1, WorkOff(i, |sessions|));
    ArchiveAllExact(s.db, sessions);
    RunOne(s2, Close(i, newId));
    AfterClose(s2, i, newId);
  }

  /**
   * Step by step and with nobody in between, a worker does what the migration on its own does: the same tables in the
   * end, and the same counts.
   */
  lemma AloneIsMigration(s: System, i: nat, conversations: seq<Key>, sessions: seq<Key>, newId: int)
    requires i < |s.workers| && s.workers[i] == Worker(s.workers[i].user, s.workers[i].platform, Idle, [], None, 0, 0)
    requires Migrated(s.db, s.workers[i].user, s.workers[i].platform, conversations, sessions, newId)
    ensures var w := s.workers[i];
      var (mid, n) := ArchiveAll(s.db, conversations);
      var (all, m) := ArchiveAll(mid, sessions);
      var end := Run(s, Alone(i, conversations, sessions, newId));
      && end.db == EnsureMain(all, w.user, w.platform, newId)
      && i < |end.workers| && end.workers[i].conversations == n && end.workers[i].sessions == m
  {
    var s1 := Next(s, Begin(i, conversations));
    var rest := [Switch(i, sessions)] + (WorkOff(i, |sessions|) + [Close(i, newId)]);
    SelectedMayBeRead(s.db, s.workers[i], Conversation, conversations);
    RunFirst(s, Begin(i, conversations), WorkOff(i, |conversations|) + rest);
    LoopRuns(s, s1, i, Conversations, conversations, rest);
    ArchiveAllExact(s.db, conversations);
    SecondHalf(Run(s1, WorkOff(i, |conversations|)), i, sessions, newId);
  }

  /** Migrating what is migrated already counts nothing and changes nothing. */
  lemma SecondMigrationDoesNothing(db: Db, user: string, platform: string, conversations: seq<Key>, sessions: seq<Key>,
                                   newId: int)
    requires Migrated(db, user, platform, conversations, sessions, newId) && AllArchived(db, user, platform)
    ensures var (mid, n) := ArchiveAll(db, conversations);
            var (end, m) := ArchiveAll(mid, sessions);
            n == m == 0 && EnsureMain(end, user, platform, newId) == db
  {
    HeadInToSet(conversations);
    HeadInToSet(sessions);
  }

  // ----- The service -----

  class MigrationService {
    var rows: map<Key, Row>
    var archives: map<Key, string>

    ghost function View(): Db
      reads this
    {
      Db(rows, archives)
    }

    constructor (db: Db)
      ensures View() == db
    {
      rows, archives := db.rows, db.archives;
    }

    method InsertArchiveIfAbsent(k: Key, payload: string) returns (inserted: bool)
      modifies this`archives
      ensures (View(), inserted) == InsertIfAbsent(old(View()), k, payload)
    {
      if k in archives {
        return false;
      }
      archives := archives[k := payload];
      return true;
    }

    /** One of the two archive loops; `order` is the order the query returned. */
    method ArchiveLegacy(user: string, platform: string, kind: Kind) returns (archived: nat, ghost order: seq<Key>)
      modifies this
      ensures Known(old(View()), order) && ToSet(order) == Selected(old(View()), user, platform, kind)
      ensures (View(), archived) == ArchiveAll(old(View()), order) && rows.Keys == old(rows).Keys
    {
      var remaining := set k | k in rows && k.kind == kind && rows[k].user == user && rows[k].platform == platform
                                && (k.kind == ChatSession ==> rows[k].sessionId != MAIN_SESSION) && !rows[k].archived;
      assert remaining == Selected(View(), user, platform, kind);
      archived, order := 0, [];
      while remaining != {}
        invariant ToSet(order) !! remaining
        invariant ToSet(order) + remaining == Selected(old(View()), user, platform, kind)
        invariant Known(old(View()), order)
        invariant (View(), archived) == ArchiveAll(old(View()), order)
        invariant rows.Keys == old(rows).Keys
      {
        var k :| k in remaining;
        remaining := remaining - {k};
        ArchiveAllSnoc(old(View()), order, k);
        ToSetSnoc(order, k);
        order := order + [k];
        var inserted := InsertArchiveIfAbsent(k, rows[k].snapshot);
        rows := rows[k := rows[k].(archived := true)];
        if inserted {
          archived := archived + 1;
        }
      }
    }

    method EnsureMainSession(user: string, platform: string, newId: int)
      requires Key(ChatSession, newId) !in rows
      modifies this`rows
      ensures View() == EnsureMain(old(View()), user, platform, newId)
    {
      if !(exists k | k in rows :: k.kind == ChatSession && rows[k].user == user && rows[k].platform == platform
                                   && rows[k].sessionId == MAIN_SESSION) {
        rows := rows[Key(ChatSession, newId) := Row(user, platform, MAIN_SESSION, false, "")];
      }
    }

    method MigrateUserToSessionsFirst(user: string, platform: string, newId: int)
      returns (conversations: nat, sessions: nat)
      requires Key(ChatSession, newId) !in rows
      modifies this
      ensures conversations + sessions == |archives| - |old(archives)|
      ensures AllArchived(View(), user, platform) && OnlyMainLeft(old(View()), View(), user, platform)
      ensures Extends(old(View()), View())
      ensures AllArchived(old(View()), user, platform) ==> conversations == sessions == 0 && View() == old(View())
    {
      ghost var db := View();
      ghost var first, second;
      conversations, first := ArchiveLegacy(user, platform, Conversation);
      sessions, second := ArchiveLegacy(user, platform, ChatSession);
      EnsureMainSession(user, platform, newId);
      MigrationIsComplete(db, user, platform, first, second, newId);
      if AllArchived(db, user, platform) {
        SecondMigrationDoesNothing(db, user, platform, first, second, newId);
      }
    }
  }

  lemma ExactExtends(before: Db, keys: set<Key>, after: Db)
    requires ArchivedExactly(before, keys, after)
    ensures Extends(before, after)
  {
  }

  lemma MainExtends(db: Db, user: string, platform: string, newId: int)
    requires Key(ChatSession, newId) !in db.rows
    ensures Extends(db, EnsureMain(db, user, platform, newId))
  {
  }

  lemma {:induction false} ArchiveAllSnoc(db: Db, keys: seq<Key>, k: Key)
    requires k in db.rows && Known(db, keys)
    ensures k in ArchiveAll(db, keys).0.rows
    ensures var (g, n) := ArchiveAll(db, keys);
            var (g', inserted) := ArchiveRow(g, k);
            ArchiveAll(db, keys + [k]) == (g', n + if inserted then 1 else 0)
    decreases |keys|
  {
    if keys == [] {
      assert keys + [k] == [k];
      assert [k][1..] == [];
    } else {
      assert (keys + [k])[1..] == keys[1..] + [k];
      ArchiveAllSnoc(ArchiveRow(db, keys[0]).0, keys[1..], k);
    }
  }
}
