/**
 * Writing each runtime `final_message` once (main.py): the LRU of persisted run ids, shared by every websocket bridge
 * and the runtime persister.
 */
module RunPersistence {
  import opened Text
  import opened Seqs

  const RUNS_MAX: nat := 4096

  // ----- The LRU against the whole call history -----

  /** `_runtime_persistence_already_done`: touch a known id, else insert it and evict the oldest over the cap. */
  function Touch(cap: nat, order: seq<string>, id: string): (seq<string>, bool) {
    if id in order then (Without(order, id) + [id], true)
    else
      var grown := order + [id];
      (if |grown| > cap then grown[1..] else grown, false)
  }

  function TouchAll(cap: nat, calls: seq<string>): seq<string> {
    if calls == [] then []
    else Touch(cap, TouchAll(cap, calls[..|calls| - 1]), calls[|calls| - 1]).0
  }

  function LastIndex(calls: seq<string>, id: string): (i: nat)
    requires id in calls
    ensures i < |calls| && calls[i] == id && id !in calls[i + 1..]
  {
    var n := |calls| - 1;
    if calls[n] == id then n
    else
      assert calls == calls[..n] + [calls[n]];
      var i := LastIndex(calls[..n], id);
      assert calls[i + 1..] == calls[..n][i + 1..] + [calls[n]];
      i
  }

  /** The history specification: called before, with fewer than `cap` distinct ids called since. */
  ghost predicate Remembered(cap: nat, calls: seq<string>, id: string) {
    id in calls && |ToSet(calls[LastIndex(calls, id) + 1..])| < cap
  }

  /** The distinct ids called so far, least recently called first. */
  function Recency(calls: seq<string>): seq<string> {
    if calls == [] then []
    else Without(Recency(calls[..|calls| - 1]), calls[|calls| - 1]) + [calls[|calls| - 1]]
  }

  lemma {:induction false} RecencyDistinct(calls: seq<string>)
    ensures NoDup(Recency(calls)) && ToSet(Recency(calls)) == ToSet(calls)
  {
    if calls != [] {
      var n := |calls| - 1;
      RecencyDistinct(calls[..n]);
      FilterNoDup(Recency(calls[..n]), NotEq(calls[n]));
      assert calls[n] !in Without(Recency(calls[..n]), calls[n]);
      assert calls == calls[..n] + [calls[n]];
      forall x ensures x in Recency(calls) <==> x in calls {
        assert x in Recency(calls[..n]) <==> x in ToSet(calls[..n]);
      }
    }
  }

  lemma WithoutSplit(a: seq<string>, id: string, b: seq<string>, x: string)
    requires x != id
    ensures Without(a + [id] + b, x) + [x] == Without(a, x) + [id] + (Without(b, x) + [x])
  {
    FilterConcat(a + [id], b, NotEq(x));
    FilterConcat(a, [id], NotEq(x));
  }

  /** What follows an id in recency order is what was called since its last call. */
  lemma {:induction false} RecencySplit(calls: seq<string>, id: string) returns (a: seq<string>, b: seq<string>)
    requires id in calls
    ensures Recency(calls) == a + [id] + b
    ensures ToSet(b) == ToSet(calls[LastIndex(calls, id) + 1..])
    decreases |calls|
  {
    var n := |calls| - 1;
    var before, x := calls[..n], calls[n];
    assert calls == before + [x];
    if x == id {
      a, b := Without(Recency(before), id), [];
    } else {
      var a0, b0 := RecencySplit(before, id);
      SplitOrder(before, x, id, a0, b0);
      SplitSince(before, x, id, b0);
      a, b := Without(a0, x), Without(b0, x) + [x];
    }
  }

  lemma RecencySnoc(before: seq<string>, x: string)
    ensures Recency(before + [x]) == Without(Recency(before), x) + [x]
  {
    assert (before + [x])[..|before|] == before;
  }

  lemma SplitOrder(before: seq<string>, x: string, id: string, a: seq<string>, b: seq<string>)
    requires x != id && Recency(before) == a + [id] + b
    ensures Recency(before + [x]) == Without(a, x) + [id] + (Without(b, x) + [x])
  {
    RecencySnoc(before, x);
    WithoutSplit(a, id, b, x);
  }

  lemma SplitSince(before: seq<string>, x: string, id: string, b: seq<string>)
    requires id in before && x != id && ToSet(b) == ToSet(before[LastIndex(before, id) + 1..])
    ensures id in before + [x]
    ensures ToSet(Without(b, x) + [x]) == ToSet((before + [x])[LastIndex(before + [x], id) + 1..])
  {
    LastIndexSnoc(before, x, id);
    ToSetWithoutSnoc(b, x);
  }

  lemma ToSetWithoutSnoc(xs: seq<string>, x: string)
    ensures ToSet(Without(xs, x) + [x]) == ToSet(xs) + {x}
  {
    ToSetSnoc(Without(xs, x), x);
    assert ToSet(Without(xs, x)) == ToSet(xs) - {x};
  }

  lemma LastIndexSnoc(prefix: seq<string>, x: string, id: string)
    requires id in prefix && x != id
    ensures var calls := prefix + [x];
            var i := LastIndex(prefix, id);
      LastIndex(calls, id) == i && ToSet(calls[i + 1..]) == ToSet(prefix[i + 1..]) + {x}
  {
    var calls := prefix + [x];
    var i := LastIndex(prefix, id);
    assert calls[..|calls| - 1] == prefix;
    assert calls[i + 1..] == prefix[i + 1..] + [x];
    ToSetSnoc(prefix[i + 1..], x);
  }

  lemma NoDupPart(p: seq<string>, s: seq<string>)
    requires NoDup(p + s)
    ensures NoDup(s) && forall x | x in p :: x !in s
  {
    forall j, k | 0 <= j < k < |s| ensures s[j] != s[k] {
      assert s[j] == (p + s)[|p| + j] && s[k] == (p + s)[|p| + k];
    }
    forall x | x in p ensures x !in s {
      var i :| 0 <= i < |p| && p[i] == x;
      forall j | 0 <= j < |s| ensures s[j] != x {
        assert (p + s)[i] == x && (p + s)[|p| + j] == s[j];
      }
    }
  }

  lemma TouchKnown(cap: nat, p: seq<string>, s: seq<string>, id: string)
    requires NoDup(p + s) && id in s && |s| <= cap && (p != [] ==> |s| == cap)
    ensures Without(s, id) + [id] == Suffix(Without(p + s, id) + [id], cap)
  {
    NoDupPart(p, s);
    FilterConcat(p, s, NotEq(id));
    FilterAll(p, NotEq(id));
    var i :| 0 <= i < |s| && s[i] == id;
    NoDupAllBut(s, i);
    FilterDeletes(s, i, NotEq(id));
    assert |Without(s, id) + [id]| == |s|;
    assert p + Without(s, id) + [id] == p + (Without(s, id) + [id]);
  }

  lemma TouchNew(cap: nat, p: seq<string>, s: seq<string>, id: string)
    requires id !in s && |s| <= cap && (p != [] ==> |s| == cap)
    ensures Touch(cap, s, id).0 == Suffix(Without(p + s, id) + [id], cap)
  {
    FilterConcat(p, s, NotEq(id));
    FilterAll(s, NotEq(id));
    TouchGrown(cap, p, Without(p, id), s, id);
  }

  lemma TouchGrown(cap: nat, p: seq<string>, p': seq<string>, s: seq<string>, id: string)
    requires id !in s && |s| <= cap && (p != [] ==> |s| == cap) && |p'| <= |p|
    ensures Touch(cap, s, id).0 == Suffix(p' + s + [id], cap)
  {
    ConcatAssoc(p', s, [id]);
    if p' == [] {
      assert p' + (s + [id]) == s + [id];
    } else {
      SuffixOfConcat(p', s + [id], cap);
    }
  }

  lemma TouchSuffix(cap: nat, recency: seq<string>, id: string)
    requires NoDup(recency)
    ensures Touch(cap, Suffix(recency, cap), id).0 == Suffix(Without(recency, id) + [id], cap)
  {
    var s := Suffix(recency, cap);
    var p := recency[..|recency| - |s|];
    assert recency == p + s;
    if id in s {
      TouchKnown(cap, p, s, id);
    } else {
      TouchNew(cap, p, s, id);
    }
  }

  lemma {:induction false} LruKeepsRecent(cap: nat, calls: seq<string>)
    ensures TouchAll(cap, calls) == Suffix(Recency(calls), cap)
  {
    if calls != [] {
      var n := |calls| - 1;
      LruKeepsRecent(cap, calls[..n]);
      RecencyDistinct(calls[..n]);
      TouchSuffix(cap, Recency(calls[..n]), calls[n]);
    }
  }

  /** The LRU answers True exactly for the remembered ids, for every history of calls. */
  lemma LruAnswer(cap: nat, calls: seq<string>, id: string)
    ensures Touch(cap, TouchAll(cap, calls), id).1 <==> Remembered(cap, calls, id)
  {
    LruKeepsRecent(cap, calls);
    RecencyDistinct(calls);
    if id in calls {
      var a, b := RecencySplit(calls, id);
      NoDupPart(a + [id], b);
      NoDupCard(b);
      InSuffix(a, id, b, cap);
    } else {
      assert id !in ToSet(Recency(calls));
      if id in Suffix(Recency(calls), cap) { SuffixMembers(Recency(calls), cap, id); }
    }
  }

  lemma SuffixMembers(xs: seq<string>, n: nat, x: string)
    requires x in Suffix(xs, n)
    ensures x in xs
  {
  }

  /** An element of a duplicate-free list is among the last n exactly if fewer than n follow it. */
  lemma InSuffix(a: seq<string>, id: string, b: seq<string>, n: nat)
    requires NoDup(a + [id] + b)
    ensures id in Suffix(a + [id] + b, n) <==> |b| < n
  {
    NoDupPart(a + [id], b);
    assert id in a + [id];
    if |b| < n {
      SuffixOfLong(a, [id] + b, n);
      ConcatAssoc(a, [id], b);
    } else {
      SuffixOfConcat(a + [id], b, n);
      if id in Suffix(b, n) { SuffixMembers(b, n, id); }
    }
  }

  lemma SuffixOfLong(a: seq<string>, b: seq<string>, n: nat)
    requires |b| <= n
    ensures forall x | x in b :: x in Suffix(a + b, n)
  {
    var s := Suffix(a + b, n);
    forall i | 0 <= i < |b| ensures b[i] in s {
      assert s[|s| - |b| + i] == b[i];
    }
  }

  // ----- Bridges and persister racing on final messages -----

  /** A fan-out event; a field that is missing or not a string is None. */
  datatype Event = Event(kind: string, channel: string, runId: Option<string>, text: Option<string>,
                         origin: Option<string>)

  /**
   * One atomic decision: a tab's bridge forwarding an event (`runtimeUid` is None without a runtime), or the runtime
   * persister being called.
   */
  datatype Call =
    | Bridge(tab: string, runtimeUid: Option<string>, connected: bool, sendOk: bool, event: Event)
    | Persist(runId: string, owner: string, session: string, text: string)

  datatype Write = Write(session: string, text: string)

  predicate Eligible(c: Call) {
    match c
    case Bridge(_, uid, connected, sendOk, e) =>
      connected && sendOk && e.kind == "final_message" && e.channel == "web"
      && uid.Some? && uid.value != "" && e.text.Some? && !Blank(e.text.value)
    case Persist(_, owner, session, text) => owner != "" && session != "" && !Blank(text)
  }

  /** The id the call asks the memory about, if it gets that far. */
  function Consults(c: Call): Option<string> {
    if !Eligible(c) then None
    else match c
      case Bridge(_, _, _, _, e) => if e.runId.Some? && e.runId.value != "" then e.runId else None
      case Persist(runId, _, _, _) => Some(runId)
  }

  function WriteOf(c: Call): Write
    requires Eligible(c)
  {
    match c
    case Bridge(tab, _, _, _, e) =>
      Write(if e.origin.Some? && e.origin.value != "" then e.origin.value else tab, e.text.value)
    case Persist(_, _, session, text) => Write(session, text)
  }

  function Attempt(cap: nat, order: seq<string>, c: Call): (seq<string>, Option<Write>) {
    if !Eligible(c) then (order, None)
    else match Consults(c)
      case None => (order, Some(WriteOf(c)))
      case Some(id) =>
        var (order', done) := Touch(cap, order, id);
        (order', if done then None else Some(WriteOf(c)))
  }

  function Asked(c: Call): seq<string> {
    match Consults(c) case None => [] case Some(id) => [id]
  }

  function Consulted(calls: seq<Call>): seq<string> {
    if calls == [] then [] else Consulted(calls[..|calls| - 1]) + Asked(calls[|calls| - 1])
  }

  class RunMemory {
    var order: seq<string>  // the keys of the OrderedDict
    ghost var calls: seq<string>

    ghost predicate Valid()
      reads this
    {
      order == TouchAll(RUNS_MAX, calls)
    }

    constructor ()
      ensures Valid() && calls == []
    {
      order, calls := [], [];
    }

    method AlreadyDone(runId: string) returns (done: bool)
      requires Valid()
      modifies this
      ensures Valid() && calls == old(calls) + [runId]
      ensures done <==> Remembered(RUNS_MAX, old(calls), runId)
      ensures (order, done) == Touch(RUNS_MAX, old(order), runId)
    {
      LruAnswer(RUNS_MAX, calls, runId);
      assert (calls + [runId])[..|calls|] == calls;
      calls := calls + [runId];
      if runId in order {
        order := Without(order, runId) + [runId];
        return true;
      }
      order := order + [runId];
      if |order| > RUNS_MAX {
        order := order[1..];
      }
      return false;
    }

    /** The end of a tab bridge's `_forward`: the write it attempts, if any. */
    method Forward(tab: string, runtimeUid: Option<string>, connected: bool, sendOk: bool, e: Event)
      returns (write: Option<Write>)
      requires Valid()
      modifies this
      ensures Valid() && calls == old(calls) + Asked(Bridge(tab, runtimeUid, connected, sendOk, e))
      ensures (order, write) == Attempt(RUNS_MAX, old(order), Bridge(tab, runtimeUid, connected, sendOk, e))
    {
      if !connected || !sendOk {
        return None;
      }
      if e.kind != "final_message" || e.channel != "web" || runtimeUid == None || runtimeUid.value == "" {
        return None;
      }
      var text := if e.text.Some? then e.text.value else "";
      var session := if e.origin.Some? && e.origin.value != "" then e.origin.value else tab;
      var shouldPersist := Strip(text) != "";
      if shouldPersist && e.runId.Some? && e.runId.value != "" {
        var done := AlreadyDone(e.runId.value);
        shouldPersist := !done;
      }
      return if shouldPersist then Some(Write(session, text)) else None;
    }

    /** The guards of the runtime persister, and the write that follows them. */
    method PersistFinal(runId: string, owner: string, session: string, text: string) returns (write: Option<Write>)
      requires Valid()
      modifies this
      ensures Valid() && calls == old(calls) + Asked(Persist(runId, owner, session, text))
      ensures (order, write) == Attempt(RUNS_MAX, old(order), Persist(runId, owner, session, text))
    {
      if owner == "" || session == "" || Strip(text) == "" {
        return None;
      }
      var done := AlreadyDone(runId);
      return if done then None else Some(Write(session, text));
    }
  }

  function Memory(cap: nat, calls: seq<Call>): seq<string> {
    if calls == [] then [] else Attempt(cap, Memory(cap, calls[..|calls| - 1]), calls[|calls| - 1]).0
  }

  /** The attempted writes of the calls that consulted the memory about `id`, in order. */
  function WritesFor(cap: nat, calls: seq<Call>, id: string): seq<Write> {
    if calls == [] then []
    else
      var n := |calls| - 1;
      WritesFor(cap, calls[..n], id)
      + if Consults(calls[n]) != Some(id) then []
        else match Attempt(cap, Memory(cap, calls[..n]), calls[n]).1 { case None => [] case Some(w) => [w] }
  }

  lemma {:induction false} MemoryIsLru(cap: nat, calls: seq<Call>)
    ensures Memory(cap, calls) == TouchAll(cap, Consulted(calls))
  {
    if calls != [] {
      var n := |calls| - 1;
      MemoryIsLru(cap, calls[..n]);
      var before := Consulted(calls[..n]);
      if Consults(calls[n]).Some? {
        assert (before + [Consults(calls[n]).value])[..|before|] == before;
      } else {
        assert before + [] == before;
      }
    }
  }

  /** A call about a run id attempts its write exactly when the memory does not remember the id. */
  lemma AttemptIff(cap: nat, calls: seq<Call>, c: Call, id: string)
    requires Consults(c) == Some(id)
    ensures Attempt(cap, Memory(cap, calls), c).1
         == if Remembered(cap, Consulted(calls), id) then None else Some(WriteOf(c))
  {
    MemoryIsLru(cap, calls);
    LruAnswer(cap, Consulted(calls), id);
  }

  // ----- What a call does, from its fields -----

  /** A string that is given and not empty. */
  predicate Given(x: Option<string>) { x.Some? && x.value != "" }

  /**
   * After any history a bridge attempts a write exactly if the frame went out, the event is a final message of the web
   * channel with a text, the runtime has a user, and its run id is missing or not remembered. It writes the text to
   * the session that fired the message, or to its own tab's if the event names none.
   */
  lemma BridgeWritesIff(cap: nat, calls: seq<Call>, tab: string, uid: Option<string>, connected: bool, sendOk: bool,
                        e: Event, w: Write)
    ensures Attempt(cap, Memory(cap, calls), Bridge(tab, uid, connected, sendOk, e)).1 == Some(w)
       <==> connected && sendOk && e.kind == "final_message" && e.channel == "web" && Given(uid)
            && e.text == Some(w.text) && !Blank(w.text)
            && w.session == (if Given(e.origin) then e.origin.value else tab)
            && (Given(e.runId) ==> !Remembered(cap, Consulted(calls), e.runId.value))
  {
    var c := Bridge(tab, uid, connected, sendOk, e);
    if Consults(c).Some? { AttemptIff(cap, calls, c, Consults(c).value); }
  }

  /** The persister attempts a write exactly if it is given an owner, a session and a text and the run id is new. */
  lemma PersisterWritesIff(cap: nat, calls: seq<Call>, runId: string, owner: string, session: string, text: string,
                           w: Write)
    ensures Attempt(cap, Memory(cap, calls), Persist(runId, owner, session, text)).1 == Some(w)
       <==> owner != "" && session != "" && !Blank(text) && w == Write(session, text)
            && !Remembered(cap, Consulted(calls), runId)
  {
    var c := Persist(runId, owner, session, text);
    if Consults(c).Some? { AttemptIff(cap, calls, c, runId); }
  }

  /** Which run id a call asks the memory about: none without a run id, or if nothing would be written anyway. */
  lemma AskedIff(c: Call, id: string)
    ensures Asked(c) == [id]
       <==> match c
            case Bridge(tab, uid, connected, sendOk, e) =>
              connected && sendOk && e.kind == "final_message" && e.channel == "web" && Given(uid)
              && e.text.Some? && !Blank(e.text.value) && e.runId == Some(id) && id != ""
            case Persist(runId, owner, session, text) =>
              owner != "" && session != "" && !Blank(text) && runId == id
    ensures Asked(c) == [] || exists x :: Asked(c) == [x]
  {
    if Consults(c).Some? { assert Asked(c) == [Consults(c).value]; }
  }

  /** From one consultation about `id` to the next, fewer than `cap` distinct other ids are consulted. */
  ghost predicate StaysInWindow(cap: nat, ids: seq<string>, id: string) {
    forall k | 0 <= k < |ids| && ids[k] == id && id in ids[..k] :: Remembered(cap, ids[..k], id)
  }

  /** How many of the consultations about `id` found it not remembered. */
  ghost function Forgotten(cap: nat, ids: seq<string>, id: string): nat {
    if ids == [] then 0
    else
      var before, last := ids[..|ids| - 1], ids[|ids| - 1];
      Forgotten(cap, before, id) + if last == id && !Remembered(cap, before, id) then 1 else 0
  }

  lemma {:induction false} WritesCounted(cap: nat, calls: seq<Call>, id: string)
    ensures |WritesFor(cap, calls, id)| == Forgotten(cap, Consulted(calls), id)
  {
    if calls != [] {
      var n := |calls| - 1;
      var before := Consulted(calls[..n]);
      WritesCounted(cap, calls[..n], id);
      match Consults(calls[n]) {
        case None => assert Consulted(calls) == before;
        case Some(x) =>
          assert Consulted(calls)[..|before|] == before;
          if x == id { AttemptIff(cap, calls[..n], calls[n], id); }
      }
    }
  }

  lemma WindowSnoc(cap: nat, before: seq<string>, x: string, id: string)
    ensures StaysInWindow(cap, before + [x], id)
       <==> StaysInWindow(cap, before, id) && (x == id && id in before ==> Remembered(cap, before, id))
  {
    var ids := before + [x];
    assert ids[..|before|] == before && ids[|before|] == x;
    forall k | 0 <= k < |before| ensures ids[..k] == before[..k] && ids[k] == before[k] {}
  }

  lemma {:induction false} ForgottenOnce(cap: nat, ids: seq<string>, id: string)
    ensures Forgotten(cap, ids, id) == 0 <==> id !in ids
    ensures Forgotten(cap, ids, id) == 1 <==> id in ids && StaysInWindow(cap, ids, id)
  {
    if ids != [] {
      var before, last := ids[..|ids| - 1], ids[|ids| - 1];
      assert ids == before + [last];
      ForgottenOnce(cap, before, id);
      WindowSnoc(cap, before, last, id);
    }
  }

  /**
   * However many bridges and persister calls race, a run id is written exactly once if and only if somebody asks
   * about it and it stays in the window from each consultation to the next; it is written at least once if asked.
   */
  lemma WrittenOnce(cap: nat, calls: seq<Call>, id: string)
    ensures |WritesFor(cap, calls, id)| == 0 <==> id !in Consulted(calls)
    ensures |WritesFor(cap, calls, id)| == 1
       <==> id in Consulted(calls) && StaysInWindow(cap, Consulted(calls), id)
  {
    WritesCounted(cap, calls, id);
    ForgottenOnce(cap, Consulted(calls), id);
  }

  /** In particular while at most `cap` different ids are consulted in all. */
  lemma FewIdsStayInWindow(cap: nat, ids: seq<string>, id: string)
    requires |ToSet(ids)| <= cap
    ensures StaysInWindow(cap, ids, id)
  {
    forall k | 0 <= k < |ids| && ids[k] == id && id in ids[..k] ensures Remembered(cap, ids[..k], id) {
      var since := ToSet(ids[..k][LastIndex(ids[..k], id) + 1..]);
      assert since <= ToSet(ids) - {id};
      SubsetCard(since, ToSet(ids) - {id});
      assert |ToSet(ids) - {id}| == |ToSet(ids)| - 1;
    }
  }

  lemma {:induction false} SubsetCard<T>(a: set<T>, b: set<T>)
    requires a <= b
    ensures |a| <= |b|
    decreases a
  {
    if a != {} {
      var x :| x in a;
      SubsetCard(a - {x}, b - {x});
    }
  }

  /** The call carries this final message: the event names its origin session, or the persister is given it. */
  predicate Carries(c: Call, id: string, text: string, origin: string) {
    match c
    case Bridge(_, _, _, _, e) => e.runId == Some(id) && e.text == Some(text) && e.origin == Some(origin)
    case Persist(runId, _, session, t) => runId == id && t == text && session == origin
  }

  predicate AnyEligible(calls: seq<Call>) {
    exists i | 0 <= i < |calls| :: Eligible(calls[i])
  }

  lemma AnyEligibleSnoc(calls: seq<Call>)
    requires calls != []
    ensures AnyEligible(calls) <==> AnyEligible(calls[..|calls| - 1]) || Eligible(calls[|calls| - 1])
  {
    var n := |calls| - 1;
    if AnyEligible(calls[..n]) {
      var i :| 0 <= i < n && Eligible(calls[..n][i]);
      assert Eligible(calls[i]);
    }
    if AnyEligible(calls) {
      var i :| 0 <= i < |calls| && Eligible(calls[i]);
      if i < n { assert Eligible(calls[..n][i]); }
    }
  }

  /** In a race on one final message only its run id is consulted, and it is as soon as one caller is eligible. */
  lemma {:induction false} RaceConsults(calls: seq<Call>, id: string, text: string, origin: string)
    requires id != "" && forall c | c in calls :: Carries(c, id, text, origin)
    ensures forall x | x in Consulted(calls) :: x == id
    ensures id in Consulted(calls) <==> AnyEligible(calls)
  {
    if calls != [] {
      var n := |calls| - 1;
      assert calls[n] in calls;
      RaceConsults(calls[..n], id, text, origin);
      AnyEligibleSnoc(calls);
      if Eligible(calls[n]) {
        assert Consults(calls[n]) == Some(id);
      }
    }
  }

  /** The memory remembers the only id it was ever asked about. */
  lemma OnlyIdRemembered(cap: nat, ids: seq<string>, id: string)
    requires cap >= 1 && forall x | x in ids :: x == id
    ensures Remembered(cap, ids, id) <==> id in ids
  {
    if id in ids {
      var since := ids[LastIndex(ids, id) + 1..];
      assert forall x | x in since :: x in ids;
      assert ToSet(since) == {};
    }
  }

  /**
   * In any run, whatever else is written in it: if the callers asking about a run id all carry one final message,
   * every write attempted for the id has its text and goes to the session that fired it, whichever tab wins.
   */
  lemma {:induction false} WritesGoToOrigin(cap: nat, calls: seq<Call>, id: string, text: string, origin: string)
    requires origin != "" && forall c | c in calls && Consults(c) == Some(id) :: Carries(c, id, text, origin)
    ensures forall w | w in WritesFor(cap, calls, id) :: w == Write(origin, text)
  {
    if calls != [] {
      var n := |calls| - 1;
      assert calls[n] in calls;
      WritesGoToOrigin(cap, calls[..n], id, text, origin);
    }
  }

  /**
   * A race on one final message: whichever of the racing bridges and persister calls comes first, and however many
   * there are, one write is attempted, with that text, in the session that fired the message.
   */
  lemma RaceWritesOrigin(cap: nat, calls: seq<Call>, id: string, text: string, origin: string)
    requires cap >= 1 && id != "" && origin != ""
    requires forall c | c in calls :: Carries(c, id, text, origin)
    ensures WritesFor(cap, calls, id) == if AnyEligible(calls) then [Write(origin, text)] else []
  {
    var ids, writes := Consulted(calls), WritesFor(cap, calls, id);
    RaceConsults(calls, id, text, origin);
    forall k | 0 <= k < |ids| && ids[k] == id && id in ids[..k] ensures Remembered(cap, ids[..k], id) {
      assert forall x | x in ids[..k] :: x in ids;
      OnlyIdRemembered(cap, ids[..k], id);
    }
    WrittenOnce(cap, calls, id);
    WritesGoToOrigin(cap, calls, id, text, origin);
    if AnyEligible(calls) {
      assert writes[0] in writes && writes == [writes[0]];
    }
  }
}
