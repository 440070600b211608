/** Offset pagination over the newest-first, filtered event list (backend/runtime_telemetry.py, `list_events`). */
module RuntimeEventPages {
  import opened Numbers
  import opened Text
  import opened Seqs
  import opened RuntimeTelemetry

  /** The raw filter arguments; "" stands for a missing one. */
  datatype Query = Query(session: string, subsystem: string, level: string, platform: string, integration: string,
                         user: string, status: string)

  function Detail(e: Event, key: string): string {
    if key in e.details then Strip(e.details[key]) else ""
  }

  /** A user filter matches any of four detail fields that is present. */
  predicate UserMatches(user: string, e: Event) {
    user == ""
    || exists key | key in {"user_id", "external_user_id", "owner_uid", "actor_user_id"} ::
         key in e.details && Strip(e.details[key]) == user
  }

  predicate Matches(q: Query, e: Event) {
    && (Strip(q.session) == "" || e.session == Some(Strip(q.session)))
    && (Strip(q.subsystem) == "" || e.subsystem == Lower(Strip(q.subsystem)))
    && (Strip(q.level) == "" || e.level == Lower(Strip(q.level)))
    && (Strip(q.platform) == "" || Lower(Detail(e, "platform")) == Lower(Strip(q.platform)))
    && (Strip(q.integration) == "" || Detail(e, "integration_id") == Strip(q.integration))
    && UserMatches(Strip(q.user), e)
    && (Strip(q.status) == "" || Lower(Detail(e, "status")) == Lower(Strip(q.status)))
  }

  function Matching(q: Query): Event -> bool { (e: Event) => Matches(q, e) }

  function Reverse(events: seq<Event>): (r: seq<Event>)
    ensures |r| == |events|
  {
    if events == [] then [] else Reverse(events[1..]) + [events[0]]
  }

  /** The matching events, newest first. */
  function Filtered(q: Query, events: seq<Event>): seq<Event> {
    Filter(Reverse(events), Matching(q))
  }

  datatype Page = Page(events: seq<Event>, cursor: nat, next: Option<nat>, limit: nat, total: nat)

  function PageLimit(limit: int): nat {
    if limit < 1 then 1 else if limit > 200 then 200 else limit
  }

  /** Python's `xs[a:a + n]`, which is empty past the end. */
  function Slice(xs: seq<Event>, a: nat, n: nat): seq<Event> {
    if a >= |xs| then [] else if a + n >= |xs| then xs[a..] else xs[a..a + n]
  }

  function PageOf(filtered: seq<Event>, limit: int, cursor: int): Page {
    var at := if cursor < 0 then 0 else cursor;
    var page := Slice(filtered, at, PageLimit(limit));
    var next := at + |page|;
    Page(page, at, if next < |filtered| then Some(next) else None, PageLimit(limit), |filtered|)
  }

  /** Without the filter, or of an event that has the value. */
  predicate Passes(filter: string, has: bool) { Blank(filter) || has }

  predicate DetailIs(e: Event, key: string, value: string) {
    if key in e.details then Strip(e.details[key]) == value else value == ""
  }

  /** As `DetailIs`, upper and lower case letters being the same. */
  predicate DetailLike(e: Event, key: string, value: string) {
    if key in e.details then Lower(Strip(e.details[key])) == Lower(value) else value == ""
  }

  /** The filtered list holds exactly the stored events that pass every filter. */
  lemma FilteredIff(q: Query, events: seq<Event>, e: Event)
    ensures e in Filtered(q, events)
       <==> && e in events
            && Passes(q.session, e.session == Some(Strip(q.session)))
            && Passes(q.subsystem, e.subsystem == Lower(Strip(q.subsystem)))
            && Passes(q.level, e.level == Lower(Strip(q.level)))
            && Passes(q.platform, DetailLike(e, "platform", Strip(q.platform)))
            && Passes(q.integration, DetailIs(e, "integration_id", Strip(q.integration)))
            && Passes(q.user, || DetailIs(e, "user_id", Strip(q.user)) || DetailIs(e, "external_user_id", Strip(q.user))
                              || DetailIs(e, "owner_uid", Strip(q.user))
                              || DetailIs(e, "actor_user_id", Strip(q.user)))
            && Passes(q.status, DetailLike(e, "status", Strip(q.status)))
  {
    ReverseMembers(events, e);
    LikeIff(e, "platform", Strip(q.platform));
    LikeIff(e, "status", Strip(q.status));
    UserIff(Strip(q.user), e);
  }

  lemma LikeIff(e: Event, key: string, value: string)
    ensures Lower(Detail(e, key)) == Lower(value) <==> DetailLike(e, key, value)
  {
  }

  lemma UserIff(user: string, e: Event)
    ensures user != "" ==>
              (UserMatches(user, e)
               <==> DetailIs(e, "user_id", user) || DetailIs(e, "external_user_id", user)
                    || DetailIs(e, "owner_uid", user) || DetailIs(e, "actor_user_id", user))
  {
  }

  lemma SliceIs(xs: seq<Event>, a: nat, n: nat)
    ensures |Slice(xs, a, n)| == Max(0, Min(n, |xs| - a))
    ensures forall i | 0 <= i < |Slice(xs, a, n)| :: Slice(xs, a, n)[i] == xs[a + i]
  {
  }

  /** A page holds between 1 and 200 entries as asked for, from the cursor on, and names the next cursor if any. */
  lemma PageBounds(filtered: seq<Event>, limit: int, cursor: int)
    ensures var page := PageOf(filtered, limit, cursor);
      && 1 <= page.limit <= 200 && (1 <= limit <= 200 ==> page.limit == limit)
      && (limit < 1 ==> page.limit == 1) && (limit > 200 ==> page.limit == 200)
      && page.cursor == (if cursor < 0 then 0 else cursor) && page.total == |filtered|
      && |page.events| == Max(0, Min(page.limit, |filtered| - page.cursor))
      && (forall i | 0 <= i < |page.events| :: page.events[i] == filtered[page.cursor + i])
      && page.next == if page.cursor + page.limit < |filtered| then Some(page.cursor + page.limit) else None
  {
    SliceIs(filtered, if cursor < 0 then 0 else cursor, PageLimit(limit));
  }

  /** Following `next_cursor` until there is none, and joining the pages. */
  function Walk(filtered: seq<Event>, limit: int, cursor: nat): seq<Event>
    decreases |filtered| - cursor
  {
    var page := PageOf(filtered, limit, cursor);
    page.events + match page.next { case None => [] case Some(next) => Walk(filtered, limit, next) }
  }

  /** A walk from the start returns every matching event exactly once, newest first, for any page size. */
  lemma {:induction false} WalkIsComplete(filtered: seq<Event>, limit: int, cursor: nat)
    requires cursor <= |filtered|
    ensures Walk(filtered, limit, cursor) == filtered[cursor..]
    decreases |filtered| - cursor
  {
    var page := PageOf(filtered, limit, cursor);
    if page.next.Some? {
      WalkIsComplete(filtered, limit, page.next.value);
      assert filtered[cursor..] == page.events + filtered[page.next.value..];
    }
  }

  // ----- Walking while events arrive -----

  /** Each fetch sees the list at its time, with its own page size; the walk is completed when a page has no next. */
  function WalkLists(lists: seq<seq<Event>>, limits: seq<int>, cursor: nat): (seq<Event>, bool)
    requires |limits| == |lists|
    decreases |lists|
  {
    if lists == [] then ([], false)
    else
      var page := PageOf(lists[0], limits[0], cursor);
      match page.next
      case None => (page.events, true)
      case Some(next) =>
        var (rest, done) := WalkLists(lists[1..], limits[1..], next);
        (page.events + rest, done)
  }

  ghost predicate EndsWith(xs: seq<Event>, end: seq<Event>) {
    |end| <= |xs| && xs[|xs| - |end|..] == end
  }

  ghost predicate Growing(lists: seq<seq<Event>>) {
    forall i | 0 <= i < |lists| - 1 :: EndsWith(lists[i + 1], lists[i])
  }

  lemma GrowingRest(lists: seq<seq<Event>>)
    requires Growing(lists) && |lists| > 1
    ensures Growing(lists[1..]) && EndsWith(lists[1], lists[0])
  {
    assert EndsWith(lists[0 + 1], lists[0]);
    forall i | 0 <= i < |lists[1..]| - 1 ensures EndsWith(lists[1..][i + 1], lists[1..][i]) {
      assert EndsWith(lists[i + 1 + 1], lists[i + 1]);
    }
  }

  /** What a page covers, and what it leaves to the next one. */
  lemma PageCovers(filtered: seq<Event>, limit: int, cursor: nat, j: nat)
    requires cursor <= j < |filtered|
    ensures var page := PageOf(filtered, limit, cursor);
            filtered[j] in page.events || (page.next.Some? && page.next.value <= j)
  {
    var page := PageOf(filtered, limit, cursor);
    if j < cursor + |page.events| {
      assert page.events[j - cursor] == filtered[j];
    }
  }

  /** Events arriving in front between the pages can repeat events but never hide one behind the cursor. */
  lemma {:induction false} GrowingWalkMissesNothing(lists: seq<seq<Event>>, limits: seq<int>, cursor: nat, j: nat)
    requires |limits| == |lists| > 0 && Growing(lists)
    requires cursor <= j < |lists[0]| && WalkLists(lists, limits, cursor).1
    ensures lists[0][j] in WalkLists(lists, limits, cursor).0
    decreases |lists|
  {
    var page := PageOf(lists[0], limits[0], cursor);
    PageCovers(lists[0], limits[0], cursor, j);
    if lists[0][j] !in page.events {
      GrowingRest(lists);
      var d := |lists[1]| - |lists[0]|;
      assert lists[1][d..][j] == lists[1][d + j];
      GrowingWalkMissesNothing(lists[1..], limits[1..], page.next.value, d + j);
    }
  }

  lemma {:induction false} ReverseConcat(a: seq<Event>, b: seq<Event>)
    ensures Reverse(a + b) == Reverse(b) + Reverse(a)
  {
    if a == [] {
      assert a + b == b;
    } else {
      assert (a + b)[1..] == a[1..] + b;
      ReverseConcat(a[1..], b);
    }
  }

  lemma FilteredSnoc(q: Query, events: seq<Event>, e: Event)
    ensures Filtered(q, events + [e]) == if Matches(q, e) then [e] + Filtered(q, events) else Filtered(q, events)
  {
    ReverseConcat(events, [e]);
    assert Reverse([e]) == [] + [e];
    FilterConcat([e], Reverse(events), Matching(q));
    if Matches(q, e) {
      FilterAll([e], Matching(q));
    } else {
      FilterNone([e], Matching(q));
    }
  }

  /** The lists a client sees for one query while the store only grows. */
  function Views(q: Query, stores: seq<seq<Event>>): (views: seq<seq<Event>>)
    ensures |views| == |stores| && forall i | 0 <= i < |stores| :: views[i] == Filtered(q, stores[i])
  {
    if stores == [] then [] else [Filtered(q, stores[0])] + Views(q, stores[1..])
  }

  lemma AppendedView(q: Query, before: seq<Event>, after: seq<Event>)
    requires before <= after
    ensures EndsWith(Filtered(q, after), Filtered(q, before))
  {
    assert after == before + after[|before|..];
    ReverseConcat(before, after[|before|..]);
    FilterConcat(Reverse(after[|before|..]), Reverse(before), Matching(q));
  }

  lemma {:induction false} ReverseMembers(events: seq<Event>, e: Event)
    ensures e in Reverse(events) <==> e in events
  {
    if events != [] {
      assert events == [events[0]] + events[1..];
      ReverseMembers(events[1..], e);
    }
  }

  lemma ViewsGrow(q: Query, stores: seq<seq<Event>>)
    requires forall i | 0 <= i < |stores| - 1 :: stores[i] <= stores[i + 1]
    ensures Growing(Views(q, stores))
  {
    var views := Views(q, stores);
    forall i | 0 <= i < |views| - 1 ensures EndsWith(views[i + 1], views[i]) {
      AppendedView(q, stores[i], stores[i + 1]);
    }
  }

  lemma InFirstView(q: Query, stores: seq<seq<Event>>, e: Event)
    requires |stores| > 0 && e in stores[0] && Matches(q, e)
    ensures e in Views(q, stores)[0]
  {
    ReverseMembers(stores[0], e);
  }

  /**
   * If events are only appended between the pages (nothing pruned), every matching event that was in the store at
   * the start of a walk is returned by any walk that completes.
   */
  lemma WalkDuringAppends(q: Query, stores: seq<seq<Event>>, limits: seq<int>, e: Event)
    requires |limits| == |stores| > 0
    requires forall i | 0 <= i < |stores| - 1 :: stores[i] <= stores[i + 1]
    requires e in stores[0] && Matches(q, e) && WalkLists(Views(q, stores), limits, 0).1
    ensures e in WalkLists(Views(q, stores), limits, 0).0
  {
    var views := Views(q, stores);
    ViewsGrow(q, stores);
    InFirstView(q, stores, e);
    var j :| 0 <= j < |views[0]| && views[0][j] == e;
    GrowingWalkMissesNothing(views, limits, 0, j);
  }
}
