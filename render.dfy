/** What the map shows for a timeline threshold: which events are visible, the fading
    dotted segments between consecutive visible events, and the arithmetic of the
    animated segment (progress over time and the interpolated point). */
module Render {
  import opened EventStore

  /** The two icons a marker switches between. */
  datatype Icon = Normal | Highlighted

  /** A marker's mutable presentation: the timestamp of its event, whether it is on
      the map, its icon and its opacity. */
  datatype Marker = Marker(ts: int, attached: bool, icon: Icon, opacity: real)

  /** Opacity of a marker that is not the current one. */
  const DimOpacity: real := 0.6

  /** The event timestamps the markers stand for, in marker order. `Times` below is the
      same projection over events; `Valid` compares the two to align markers with events. */
  function Stamps(ms: seq<Marker>): (r: seq<int>)
    ensures |r| == |ms|
  {
    seq(|ms|, i requires 0 <= i < |ms| => ms[i].ts)
  }

  /** How a render pass at threshold `uptoTs` leaves a marker: on the map exactly when
      its event is at or before the threshold, highlighted at full opacity exactly when
      its event is at the threshold, dimmed otherwise. */
  ghost predicate ShownAt(m: Marker, uptoTs: int) {
    && (m.attached <==> m.ts <= uptoTs)
    && (m.icon == Highlighted <==> m.ts == uptoTs)
    && m.opacity == (if m.ts == uptoTs then 1.0 else DimOpacity)
  }

  /** An opacity as the browser computes it: a number, or NaN when the fade divides
      zero by zero. */
  datatype Opacity = Level(value: real) | NotANumber

  /** A dotted path segment between two events. */
  datatype Segment = Segment(startEvent: Event, endEvent: Event, opacity: Opacity)

  /** A map position, and the straight line the animation draws. */
  datatype Point = Point(lat: real, lon: real)
  datatype Line = Line(from: Point, to: Point)

  /** The timestamps of the events, in order (the counterpart of `Stamps`, over events). */
  function Times(events: seq<Event>): (r: seq<int>)
    ensures |r| == |events|
  {
    seq(|events|, i requires 0 <= i < |events| => events[i].ts)
  }

  function Pos(e: Event): Point {
    Point(e.lat, e.lon)
  }

  function Min(a: real, b: real): real {
    if a <= b then a else b
  }

  /** Every event of `v` is at or before the threshold. */
  ghost predicate AllUpTo(v: seq<Event>, uptoTs: int) {
    forall i :: 0 <= i < |v| ==> v[i].ts <= uptoTs
  }

  /** The visible events: those whose timestamp is at most the threshold, in order. */
  function Visible(s: seq<Event>, uptoTs: int): (v: seq<Event>)
    ensures |v| <= |s|
  {
    if s == [] then []
    else (if s[0].ts <= uptoTs then [s[0]] else []) + Visible(s[1..], uptoTs)
  }

  /** No visible event is later than the threshold, and there are no more visible
      events than events. */
  lemma {:induction false} VisibleUpTo(s: seq<Event>, uptoTs: int)
    ensures |Visible(s, uptoTs)| <= |s|
    ensures AllUpTo(Visible(s, uptoTs), uptoTs)
  {
    if s != [] {
      VisibleUpTo(s[1..], uptoTs);
    }
  }

  /** Every visible event is one of the events. */
  lemma {:induction false} VisibleSubset(s: seq<Event>, uptoTs: int)
    ensures forall e :: e in Visible(s, uptoTs) ==> e in s
  {
    if s != [] {
      VisibleSubset(s[1..], uptoTs);
    }
  }

  /** An event is visible exactly when it is at or before the threshold. */
  lemma {:induction false} VisibleMembers(s: seq<Event>, uptoTs: int)
    ensures forall e :: e in s ==> (e in Visible(s, uptoTs) <==> e.ts <= uptoTs)
  {
    if s != [] {
      VisibleMembers(s[1..], uptoTs);
      var head := if s[0].ts <= uptoTs then [s[0]] else [];
      assert Visible(s, uptoTs) == head + Visible(s[1..], uptoTs);
      forall e | e in s
        ensures e in Visible(s, uptoTs) <==> e.ts <= uptoTs
      {
        if e in s[1..] {
          assert e in Visible(s[1..], uptoTs) <==> e.ts <= uptoTs;
        } else {
          assert e == s[0];
          assert e !in Visible(s[1..], uptoTs) by { VisibleSubset(s[1..], uptoTs); }
        }
      }
    }
  }

  /** Over events sorted by timestamp the visible events are a prefix, and every
      event after that prefix is later than the threshold. */
  lemma {:induction false} VisiblePrefix(s: seq<Event>, uptoTs: int)
    requires Sorted(s)
    ensures var v := Visible(s, uptoTs);
            |v| <= |s| && v == s[..|v|] && forall i :: |v| <= i < |s| ==> uptoTs < s[i].ts
  {
    if s != [] {
      VisiblePrefix(s[1..], uptoTs);
      VisibleUpTo(s[1..], uptoTs);
      var rest := Visible(s[1..], uptoTs);
      if s[0].ts <= uptoTs {
        assert Visible(s, uptoTs) == [s[0]] + rest;
      } else {
        assert Visible(s, uptoTs) == rest;
      }
    }
  }

  /** The fade of a segment whose end event is `age` milliseconds older than the
      threshold, with `maxDiff` the time span of all events: one minus the clamped
      ratio, computed as the browser does (0/0 is NaN, a positive age over 0 is
      infinite and clamps to 1). */
  function Fade(age: int, maxDiff: int): (o: Opacity)
    requires age >= 0 && maxDiff >= 0
    ensures maxDiff > 0 ==> o.Level? && 0.0 <= o.value <= 1.0
    ensures maxDiff > 0 && age == 0 ==> o == Level(1.0)
    ensures age >= maxDiff > 0 ==> o == Level(0.0)
    ensures maxDiff == 0 && age == 0 ==> o == NotANumber
  {
    if maxDiff == 0 then
      if age == 0 then NotANumber else Level(0.0)
    else
      Level(1.0 - Min(1.0, (age as real) / (maxDiff as real)))
  }

  /** The older a segment's end event, the fainter the segment. */
  lemma FadeMonotone(age1: int, age2: int, maxDiff: int)
    requires 0 <= age1 <= age2 && maxDiff > 0
    ensures Fade(age2, maxDiff).value <= Fade(age1, maxDiff).value
  {
    var m := maxDiff as real;
    assert (age1 as real) / m <= (age2 as real) / m by {
      assert (age2 as real) / m - (age1 as real) / m == ((age2 - age1) as real) / m;
    }
  }

  /** The segment from `a` to `b` faded at threshold `uptoTs`. */
  function Connect(a: Event, b: Event, uptoTs: int, maxDiff: int): (r: Segment)
    requires b.ts <= uptoTs && maxDiff >= 0
    ensures r.startEvent == a && r.endEvent == b
    ensures maxDiff > 0 ==> r.opacity.Level? && 0.0 <= r.opacity.value <= 1.0
    ensures maxDiff > 0 && b.ts == uptoTs ==> r.opacity == Level(1.0)
    ensures b.ts + maxDiff <= uptoTs && maxDiff > 0 ==> r.opacity == Level(0.0)
  {
    Segment(a, b, Fade(uptoTs - b.ts, maxDiff))
  }

  /** One segment per adjacent pair of visible events, in order. */
  function PathSegments(v: seq<Event>, uptoTs: int, maxDiff: int): (r: seq<Segment>)
    requires maxDiff >= 0 && AllUpTo(v, uptoTs)
    ensures |r| == if |v| < 2 then 0 else |v| - 1
  {
    if |v| < 2 then []
    else [Connect(v[0], v[1], uptoTs, maxDiff)] + PathSegments(v[1..], uptoTs, maxDiff)
  }

  /** The i-th segment of the path joins the i-th visible event to the next one. */
  lemma {:induction false} PathSegmentsPairs(v: seq<Event>, uptoTs: int, maxDiff: int)
    requires maxDiff >= 0 && AllUpTo(v, uptoTs)
    ensures var r := PathSegments(v, uptoTs, maxDiff);
            forall i :: 0 <= i < |r| ==> r[i] == Connect(v[i], v[i + 1], uptoTs, maxDiff)
  {
    if |v| >= 2 {
      PathSegmentsPairs(v[1..], uptoTs, maxDiff);
    }
  }

  /** The fixed segments a render pass draws: every adjacent pair of visible events,
      except that the last pair is left out after a forward move. */
  function FixedSegments(v: seq<Event>, uptoTs: int, maxDiff: int, forward: bool): (r: seq<Segment>)
    requires maxDiff >= 0 && AllUpTo(v, uptoTs)
    ensures |r| == if |v| < 2 then 0 else if forward then |v| - 2 else |v| - 1
  {
    var all := PathSegments(v, uptoTs, maxDiff);
    if forward && |v| >= 2 then all[..|v| - 2] else all
  }

  /** Every fixed segment joins a visible event to the next one, in order. */
  lemma FixedSegmentsPairs(v: seq<Event>, uptoTs: int, maxDiff: int, forward: bool)
    requires maxDiff >= 0 && AllUpTo(v, uptoTs)
    ensures var r := FixedSegments(v, uptoTs, maxDiff, forward);
            forall i :: 0 <= i < |r| ==> r[i] == Connect(v[i], v[i + 1], uptoTs, maxDiff)
  {
    PathSegmentsPairs(v, uptoTs, maxDiff);
  }

  /** The pair a forward render leaves out is the last pair of visible events: adding
      it back, at the same threshold, gives the full path. */
  lemma SuppressedSegmentIsLast(v: seq<Event>, uptoTs: int, maxDiff: int)
    requires maxDiff >= 0 && AllUpTo(v, uptoTs) && |v| >= 2
    ensures FixedSegments(v, uptoTs, maxDiff, true) + [Connect(v[|v| - 2], v[|v| - 1], uptoTs, maxDiff)]
            == FixedSegments(v, uptoTs, maxDiff, false)
  {
    var full := FixedSegments(v, uptoTs, maxDiff, false);
    var with := FixedSegments(v, uptoTs, maxDiff, true) + [Connect(v[|v| - 2], v[|v| - 1], uptoTs, maxDiff)];
    FixedSegmentsPairs(v, uptoTs, maxDiff, true);
    FixedSegmentsPairs(v, uptoTs, maxDiff, false);
    assert |with| == |full|;
    assert forall i :: 0 <= i < |full| ==> with[i] == full[i];
  }

  /** Length of the animated segment, in milliseconds. */
  const AnimationDuration: int := 15000

  /** The fraction of the animation done `elapsed` milliseconds after it started. */
  function Progress(elapsed: int): (p: real)
    ensures p <= 1.0
    ensures elapsed >= 0 ==> 0.0 <= p
    ensures p == 1.0 <==> elapsed >= AnimationDuration
    ensures elapsed == 0 ==> p == 0.0
  {
    Min((elapsed as real) / (AnimationDuration as real), 1.0)
  }

  /** The point `p` of the way from `a` to `b`. */
  function Interpolate(a: Point, b: Point, p: real): (r: Point)
    ensures p == 0.0 ==> r == a
    ensures p == 1.0 ==> r == b
  {
    Point(a.lat + (b.lat - a.lat) * p, a.lon + (b.lon - a.lon) * p)
  }
}
