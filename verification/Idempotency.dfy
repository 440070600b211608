/** Bounded webhook delivery deduper (integrations/idempotency.py): a set and a FIFO of the last accepted ids. */
module Idempotency {
  import opened Seqs

  /** `Raised` is the IndexError of popping from the empty deque, which only a negative setting runs into. */
  datatype Answer = Seen | New | Raised

  /** One call of `seen_or_add` and what it answered. */
  datatype Call = Call(id: string, answer: Answer)

  /** The call stored its id. */
  predicate Accepts(c: Call) { c.id != "" && c.answer != Seen }

  /** How many of the calls from the m-th on stored their id. */
  function AcceptedFrom(calls: seq<Call>, m: nat): nat {
    if |calls| <= m then 0
    else AcceptedFrom(calls[..|calls| - 1], m) + if Accepts(calls[|calls| - 1]) then 1 else 0
  }

  /** The id was accepted before, and fewer than `capacity` ids were accepted since. */
  ghost predicate Remembered(capacity: nat, calls: seq<Call>, id: string) {
    exists m | 0 <= m < |calls| ::
      calls[m].id == id && Accepts(calls[m]) && AcceptedFrom(calls, m + 1) < capacity
  }

  /** How many ids a deduper with this setting can hold; a negative one holds none. */
  function Capacity(maxEntries: int): nat {
    if maxEntries < 0 then 0 else maxEntries
  }

  /** What every history of calls on a deduper with this setting obeys; `LawIsUnique`: it says each answer. */
  ghost predicate Law(maxEntries: int, calls: seq<Call>) {
    forall n | 0 <= n < |calls| :: Right(maxEntries, calls[..n], calls[n])
  }

  ghost predicate Right(maxEntries: int, before: seq<Call>, c: Call) {
    && (c.answer == Seen <==> c.id != "" && Remembered(Capacity(maxEntries), before, c.id))
    && (c.answer == Raised <==> maxEntries < 0 && c.id != "")
  }

  lemma LawSnoc(maxEntries: int, calls: seq<Call>, c: Call)
    requires Law(maxEntries, calls) && Right(maxEntries, calls, c)
    ensures Law(maxEntries, calls + [c])
  {
    var all := calls + [c];
    forall n | 0 <= n < |all| ensures Right(maxEntries, all[..n], all[n]) {
      if n < |calls| { assert all[..n] == calls[..n]; } else { assert all[..n] == calls; }
    }
  }

  lemma LawPrefix(maxEntries: int, calls: seq<Call>, n: nat)
    requires Law(maxEntries, calls) && n <= |calls|
    ensures Law(maxEntries, calls[..n])
  {
    forall k | 0 <= k < n ensures Right(maxEntries, calls[..n][..k], calls[..n][k]) {
      assert calls[..n][..k] == calls[..k];
    }
  }

  function Ids(calls: seq<Call>): (r: seq<string>)
    ensures |r| == |calls| && forall i | 0 <= i < |calls| :: r[i] == calls[i].id
  {
    seq(|calls|, i requires 0 <= i < |calls| => calls[i].id)
  }

  /** The setting and the ids called determine every answer. */
  lemma {:induction false} LawIsUnique(maxEntries: int, a: seq<Call>, b: seq<Call>)
    requires Law(maxEntries, a) && Law(maxEntries, b) && Ids(a) == Ids(b)
    ensures a == b
    decreases |a|
  {
    if a != [] {
      var n := |a| - 1;
      assert |b| == n + 1;
      assert Ids(a)[n] == Ids(b)[n] && Ids(a)[..n] == Ids(a[..n]) && Ids(b)[..n] == Ids(b[..n]);
      LawPrefix(maxEntries, a, n);
      LawPrefix(maxEntries, b, n);
      LawIsUnique(maxEntries, a[..n], b[..n]);
      assert Right(maxEntries, a[..n], a[n]) && Right(maxEntries, b[..n], b[n]);
      assert a == a[..n] + [a[n]] && b == b[..n] + [b[n]];
    }
  }

  /** An id that was answered New is answered Seen by the next call with it while fewer than `max` others are new. */
  lemma SeenAgain(maxEntries: int, calls: seq<Call>, m: nat, n: nat)
    requires Law(maxEntries, calls) && m < n < |calls| && calls[n].id == calls[m].id != ""
    requires calls[m].answer == New && AcceptedFrom(calls[..n], m + 1) < maxEntries
    ensures calls[n].answer == Seen
  {
    assert calls[..n][m] == calls[m];
    assert Right(maxEntries, calls[..n], calls[n]);
  }

  /** Two acceptances of one id have at least `max` others between them. */
  lemma AcceptancesSpreadOut(maxEntries: int, calls: seq<Call>, m: nat, n: nat)
    requires Law(maxEntries, calls) && m < n < |calls| && calls[m].id == calls[n].id
    requires Accepts(calls[m]) && Accepts(calls[n])
    ensures AcceptedFrom(calls[..n], m + 1) >= Capacity(maxEntries)
  {
    assert calls[..n][m] == calls[m];
    assert Right(maxEntries, calls[..n], calls[n]);
  }

  // ----- The queue holds the last accepted ids -----

  function AcceptedIds(calls: seq<Call>): seq<string> {
    if calls == [] then []
    else AcceptedIds(calls[..|calls| - 1]) + if Accepts(calls[|calls| - 1]) then [calls[|calls| - 1].id] else []
  }

  lemma AcceptedSnoc(calls: seq<Call>, c: Call)
    ensures AcceptedIds(calls + [c]) == if Accepts(c) then AcceptedIds(calls) + [c.id] else AcceptedIds(calls)
  {
    assert (calls + [c])[..|calls|] == calls;
    assert AcceptedIds(calls) + [] == AcceptedIds(calls);
  }

  lemma FromSnoc(calls: seq<Call>, c: Call, m: nat)
    requires m <= |calls|
    ensures AcceptedFrom(calls + [c], m) == AcceptedFrom(calls, m) + if Accepts(c) then 1 else 0
  {
    assert (calls + [c])[..|calls|] == calls;
  }

  lemma RememberedSnoc(capacity: nat, calls: seq<Call>, c: Call, id: string)
    ensures Remembered(capacity, calls + [c], id)
       <==> if !Accepts(c) then Remembered(capacity, calls, id)
            else capacity > 0 && (c.id == id || Remembered(capacity - 1, calls, id))
  {
    var all, least := calls + [c], if Accepts(c) then 1 else 0;
    forall m | 0 <= m < |calls| ensures AcceptedFrom(all, m + 1) == AcceptedFrom(calls, m + 1) + least
                                ensures all[m] == calls[m] {
      FromSnoc(calls, c, m + 1);
    }
    assert all[|calls|] == c && AcceptedFrom(all, |calls| + 1) == 0;
    if Remembered(capacity, all, id) {
      var m :| 0 <= m < |all| && all[m].id == id && Accepts(all[m]) && AcceptedFrom(all, m + 1) < capacity;
      if m < |calls| { assert calls[m].id == id; }
    }
    if capacity >= least && Remembered(capacity - least, calls, id) {
      var m :| 0 <= m < |calls| && calls[m].id == id && Accepts(calls[m])
               && AcceptedFrom(calls, m + 1) < capacity - least;
      assert all[m].id == id;
    }
  }

  lemma SuffixMember(xs: seq<string>, x: string, n: nat, id: string)
    ensures id in Suffix(xs + [x], n) <==> n > 0 && (id == x || id in Suffix(xs, n - 1))
  {
    if n > 0 {
      assert Suffix(xs + [x], n) == Suffix(xs, n - 1) + [x];
    }
  }

  lemma {:induction false} RememberedIff(capacity: nat, calls: seq<Call>, id: string)
    ensures Remembered(capacity, calls, id) <==> id in Suffix(AcceptedIds(calls), capacity)
    decreases |calls|
  {
    if calls != [] {
      var before, last := calls[..|calls| - 1], calls[|calls| - 1];
      assert calls == before + [last];
      AcceptedSnoc(before, last);
      RememberedSnoc(capacity, before, last, id);
      RememberedIff(capacity, before, id);
      if capacity > 0 { RememberedIff(capacity - 1, before, id); }
      SuffixMember(AcceptedIds(before), last.id, capacity, id);
    }
  }

  lemma SuffixSnoc(xs: seq<string>, x: string, n: nat)
    ensures Suffix(Suffix(xs, n) + [x], n) == Suffix(xs + [x], n)
  {
  }

  /** The history obeys the law, and the deque holds its last accepted ids. */
  ghost predicate Holds(maxEntries: int, calls: seq<Call>, order: seq<string>) {
    Law(maxEntries, calls) && order == Suffix(AcceptedIds(calls), Capacity(maxEntries))
  }

  lemma CallKept(maxEntries: int, calls: seq<Call>, c: Call, order: seq<string>, order': seq<string>)
    requires Holds(maxEntries, calls, order) && Right(maxEntries, calls, c)
    requires order' == if Accepts(c) then Suffix(order + [c.id], Capacity(maxEntries)) else order
    ensures Holds(maxEntries, calls + [c], order')
  {
    LawSnoc(maxEntries, calls, c);
    AcceptedSnoc(calls, c);
    SuffixSnoc(AcceptedIds(calls), c.id, Capacity(maxEntries));
  }

  lemma OneMoreDistinct(order: seq<string>, id: string)
    requires NoDup(order) && id !in ToSet(order)
    ensures NoDup(order + [id]) && ToSet(order + [id]) == ToSet(order) + {id}
  {
    ToSetSnoc(order, id);
  }

  lemma RememberedIsQueued(maxEntries: int, calls: seq<Call>, order: seq<string>, id: string)
    requires Holds(maxEntries, calls, order)
    ensures Remembered(Capacity(maxEntries), calls, id) <==> id in order
  {
    RememberedIff(Capacity(maxEntries), calls, id);
  }

  class DeliveryDeduper {
    const maxEntries: int
    var seen: set<string>
    var order: seq<string>
    ghost var calls: seq<Call>  // every call since the last clear, with its answer

    ghost predicate Valid()
      reads this
    {
      Holds(maxEntries, calls, order) && NoDup(order) && seen == ToSet(order)
    }

    constructor (maxEntries: int)
      ensures Valid() && calls == [] && this.maxEntries == maxEntries
    {
      this.maxEntries := maxEntries;
      seen, order, calls := {}, [], [];
    }

    method SeenOrAdd(id: string) returns (answer: Answer)
      requires Valid()
      modifies this
      ensures Valid() && calls == old(calls) + [Call(id, answer)]
      ensures answer == Seen <==> id != "" && Remembered(Capacity(maxEntries), old(calls), id)
      ensures answer == Raised <==> maxEntries < 0 && id != ""
    {
      RememberedIsQueued(maxEntries, calls, order, id);
      ghost var before := order;
      if id == "" {
        answer := New;
      } else if id in seen {
        answer := Seen;
      } else {
        OneMoreDistinct(order, id);
        seen := seen + {id};
        order := order + [id];
        var raised := Evict();
        answer := if raised then Raised else New;
      }
      CallKept(maxEntries, calls, Call(id, answer), before, order);
      calls := calls + [Call(id, answer)];
    }

    /** The eviction loop: the oldest ids go until the setting is met, or nothing is left to pop. */
    method Evict() returns (raised: bool)
      requires NoDup(order) && seen == ToSet(order)
      modifies this`order, this`seen
      ensures order == Suffix(old(order), Capacity(maxEntries)) && seen == ToSet(order) && NoDup(order)
      ensures raised <==> maxEntries < 0
    {
      ghost var grown := order;
      while |order| > maxEntries
        invariant Suffix(order, Capacity(maxEntries)) == Suffix(grown, Capacity(maxEntries))
        invariant NoDup(order) && seen == ToSet(order)
      {
        if order == [] {
          return true;
        }
        SuffixRest(order, Capacity(maxEntries));
        var oldest := order[0];
        seen := seen - {oldest};
        order := order[1..];
        assert ToSet(order) == seen;
      }
      return false;
    }

    method Clear()
      requires Valid()
      modifies this
      ensures Valid() && calls == [] && order == [] && seen == {}
    {
      seen, order, calls := {}, [], [];
    }
  }
}
