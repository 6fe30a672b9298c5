/** The events of the timeline once loaded: ordered by timestamp, and the index the
    slider starts at (the event closest to the current time). */
module EventStore {

  /** One event: its timestamp in milliseconds since the epoch and its map position.
      Title, description, city and country only feed the popup and are not modelled. */
  datatype Event = Event(ts: int, lat: real, lon: real)

  /** Timestamps never decrease along `s`. */
  ghost predicate Sorted(s: seq<Event>) {
    forall i, j :: 0 <= i < j < |s| ==> s[i].ts <= s[j].ts
  }

  /** The events of `s` whose timestamp is exactly `t`, in their order in `s`. */
  function Ties(s: seq<Event>, t: int): seq<Event> {
    if s == [] then [] else (if s[0].ts == t then [s[0]] else []) + Ties(s[1..], t)
  }

  /** Places `x` in the sorted `s` before the first event that is not earlier than it,
      so `x` goes in front of the events it ties with. */
  function Insert(x: Event, s: seq<Event>): (r: seq<Event>)
    requires Sorted(s)
    ensures Sorted(r)
    ensures multiset(r) == multiset(s) + multiset{x}
    ensures |r| == |s| + 1 && (r[0] == x || (s != [] && r[0] == s[0]))
  {
    if s == [] || x.ts <= s[0].ts then [x] + s
    else
      assert s == [s[0]] + s[1..];
      [s[0]] + Insert(x, s[1..])
  }

  /** The ordering the loader applies to the fetched events: ascending by timestamp,
      events with equal timestamps kept in their input order (a stable sort, as
      ECMAScript requires of Array.prototype.sort). */
  function SortByTs(s: seq<Event>): (r: seq<Event>)
    ensures Sorted(r)
    ensures multiset(r) == multiset(s)
  {
    if s == [] then []
    else
      assert s == [s[0]] + s[1..];
      Insert(s[0], SortByTs(s[1..]))
  }

  /** Inserting `x` adds it in front of the events that share its timestamp. */
  lemma {:induction false} InsertTies(x: Event, s: seq<Event>, t: int)
    requires Sorted(s)
    ensures Ties(Insert(x, s), t) == (if x.ts == t then [x] else []) + Ties(s, t)
  {
    var own := if x.ts == t then [x] else [];
    if s == [] || x.ts <= s[0].ts {
      assert ([x] + s)[1..] == s;
      assert Ties([x] + s, t) == own + Ties(s, t);
    } else {
      var rest := Insert(x, s[1..]);
      var head := if s[0].ts == t then [s[0]] else [];
      InsertTies(x, s[1..], t);
      assert ([s[0]] + rest)[1..] == rest;
      assert Ties([s[0]] + rest, t) == head + Ties(rest, t);
      assert Ties(s, t) == head + Ties(s[1..], t);
      // s[0] is strictly earlier than x, so at most one of them carries timestamp t
      assert head == [] || own == [];
      assert head + (own + Ties(s[1..], t)) == own + (head + Ties(s[1..], t));
    }
  }

  /** The sort is stable: for every timestamp, the events carrying it appear in the
      output in the same order as in the input. */
  lemma {:induction false} SortStable(s: seq<Event>, t: int)
    ensures Ties(SortByTs(s), t) == Ties(s, t)
  {
    if s != [] {
      SortStable(s[1..], t);
      InsertTies(s[0], SortByTs(s[1..]), t);
    }
  }

  /** How far timestamp `ts` lies from `now`, in milliseconds. */
  function Distance(ts: int, now: int): nat {
    if ts >= now then ts - now else now - ts
  }

  /** `k` is the first index whose event is closest to `now`. */
  ghost predicate IsFirstClosest(events: seq<Event>, now: int, k: int) {
    && 0 <= k < |events|
    && (forall j :: 0 <= j < |events| ==> Distance(events[k].ts, now) <= Distance(events[j].ts, now))
    && (forall j :: 0 <= j < k ==> Distance(events[k].ts, now) < Distance(events[j].ts, now))
  }

  /** The scan that picks the slider's start index: a later event replaces the best so
      far only when it is strictly closer, so ties go to the earliest index. */
  method ClosestIndex(events: seq<Event>, now: int) returns (closest: nat)
    requires |events| > 0
    ensures closest < |events|
    ensures forall j :: 0 <= j < |events| ==> Distance(events[closest].ts, now) <= Distance(events[j].ts, now)
    ensures forall j :: 0 <= j < closest ==> Distance(events[closest].ts, now) < Distance(events[j].ts, now)
  {
    closest := 0;
    var minDiff := Distance(events[0].ts, now);
    var i := 1;
    while i < |events|
      invariant 1 <= i <= |events|
      invariant closest < i
      invariant minDiff == Distance(events[closest].ts, now)
      invariant forall j :: 0 <= j < i ==> minDiff <= Distance(events[j].ts, now)
      invariant forall j :: 0 <= j < closest ==> minDiff < Distance(events[j].ts, now)
    {
      var diff := Distance(events[i].ts, now);
      if diff < minDiff {
        minDiff := diff;
        closest := i;
      }
      i := i + 1;
    }
  }
}
