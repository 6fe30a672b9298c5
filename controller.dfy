/** The timeline controller: the module-level state of the page script (indices, play
    and animation flags, markers, fixed segments, the running animation) and the
    handlers that change it. Host callbacks become explicit calls: the slider's
    `update` event is OnSliderUpdate, an animation frame is Tick, a `setTimeout` of
    the play loop is Advance; the wall clock is the parameter `now`. */
module Controller {
  import opened EventStore
  import opened Render

  datatype Option<T> = None | Some(value: T)

  /** What the `animate` closure captured when the animation started: the two events it
      joins, the start time, the threshold and the event span of that render pass. */
  datatype Animation = Animation(newStart: Event, newEnd: Event, startTime: int, uptoTs: int, maxDiff: int)

  /** The time span of all events (last minus first timestamp). */
  function MaxDiff(events: seq<Event>): (span: int)
    requires |events| > 0
    ensures Sorted(events) ==> 0 <= span
    ensures Sorted(events) ==> forall i :: 0 <= i < |events| ==> events[i].ts - events[0].ts <= span
  {
    events[|events| - 1].ts - events[0].ts
  }

  ghost predicate Captured(a: Animation) {
    a.newEnd.ts <= a.uptoTs && a.maxDiff >= 0
  }

  /** The dotted segment an animation leaves behind when it ends, faded at the
      threshold it captured. */
  function FinalSegment(a: Animation): (r: Segment)
    requires Captured(a)
    ensures r.startEvent == a.newStart && r.endEvent == a.newEnd
    ensures a.maxDiff > 0 ==> r.opacity.Level? && 0.0 <= r.opacity.value <= 1.0
  {
    Connect(a.newStart, a.newEnd, a.uptoTs, a.maxDiff)
  }

  /** The play step's target: one past `cur`, but never past the last index. */
  function NextIndex(cur: int, n: int): (next: int)
    requires 0 <= cur < n
    ensures cur <= next < n
    ensures next == cur <==> cur == n - 1
    ensures next != cur ==> next == cur + 1
  {
    if cur + 1 < n - 1 then cur + 1 else n - 1
  }

  class TimelineController {
    const events: seq<Event>
    var markers: seq<Marker>
    var polylines: seq<Segment>
    var currentIndex: int
    var previousIndex: int
    var isAnimating: bool
    var cancelAnimation: bool
    var isFromPlay: bool
    var shouldAnimate: bool
    var playing: bool
    /** The scheduled `animate` closure, if any. */
    var animation: Option<Animation>
    /** The interpolated line and the moving point of the running animation. */
    var animatingLine: Option<Line>
    var drawingMarker: Option<Point>

    /** The invariant every handler keeps, also while the page is still loading. */
    ghost predicate Consistent()
      reads this`currentIndex, this`previousIndex, this`isFromPlay, this`shouldAnimate,
            this`cancelAnimation, this`isAnimating, this`animation, this`animatingLine, this`drawingMarker
    {
      && |events| > 0 && MaxDiff(events) >= 0
      && -1 <= previousIndex < |events|
      && -1 <= currentIndex < |events|
      && (currentIndex == -1 ==> previousIndex == -1 && !isFromPlay)
      && (previousIndex == -1 ==> !shouldAnimate)
      // a cancel request is only ever pending against a running animation
      && (cancelAnimation ==> isAnimating)
      // one animation at most, scheduled exactly while the flag is up
      && (isAnimating <==> animation.Some?)
      && (animation.Some? ==> Captured(animation.value) && animation.value.maxDiff == MaxDiff(events))
      // no interpolated line or point survives the animation
      && (!isAnimating ==> animatingLine.None? && drawingMarker.None?)
      && (animatingLine.Some? <==> drawingMarker.Some?)
      && (animatingLine.Some? ==>
            animation.Some? && animatingLine.value == Line(Pos(animation.value.newStart), drawingMarker.value))
    }

    /** The invariant once the page has loaded: the events are sorted, an index is
        selected and every event has its marker. */
    ghost predicate Valid()
      reads this
    {
      Consistent() && Sorted(events) && 0 <= currentIndex && Stamps(markers) == Times(events)
    }

    /** Every marker is on the map exactly when its event is at or before the
        threshold, and highlighted exactly when its event is at the threshold. */
    ghost predicate MarkersShow(uptoTs: int)
      reads this`markers
    {
      forall i :: 0 <= i < |markers| ==> ShownAt(markers[i], uptoTs)
    }

    /** The fixed segments are those of a render pass at the threshold, with the
        last pair left out when the index moved forward. */
    ghost predicate SegmentsShow(uptoTs: int)
      reads this`polylines, this`currentIndex, this`previousIndex
      requires |events| > 0 && MaxDiff(events) >= 0
    {
      VisibleUpTo(events, uptoTs);
      polylines == FixedSegments(Visible(events, uptoTs), uptoTs, MaxDiff(events), currentIndex > previousIndex)
    }

    /** A render pass at the threshold starts an animation, given whether one was
        already running. */
    ghost predicate Triggers(uptoTs: int, wasAnimating: bool)
      reads this`shouldAnimate, this`currentIndex, this`previousIndex
    {
      shouldAnimate && currentIndex > previousIndex && |Visible(events, uptoTs)| >= 2 && !wasAnimating
    }

    /** An animation has just started (at time `now`) between the last two visible
        events, and its first frame drew the line and point at the start event. */
    ghost predicate StartedAt(uptoTs: int, now: int)
      reads this
      requires Consistent()
    {
      var v := Visible(events, uptoTs);
      && |v| >= 2
      && isAnimating && !cancelAnimation
      && animation == Some(Animation(v[|v| - 2], v[|v| - 1], now, uptoTs, MaxDiff(events)))
      && drawingMarker == Some(Pos(v[|v| - 2]))
    }

    /** The index bookkeeping of a slider update to `index`, from a state whose
        current index, previous index, animate flag and play flag were `cur`, `prev`,
        `should` and `fromPlay`: a new index shifts current into previous and moves the
        play flag into the animate flag; the same index changes none of them. */
    ghost predicate IndexSelected(index: int, cur: int, prev: int, should: bool, fromPlay: bool)
      reads this`currentIndex, this`previousIndex, this`shouldAnimate, this`isFromPlay
    {
      && currentIndex == index
      && if index != cur then previousIndex == cur && shouldAnimate == fromPlay && !isFromPlay
         else previousIndex == prev && shouldAnimate == should && isFromPlay == fromPlay
    }

    /** The animation state is the one given: flag, scheduled closure, line and point. */
    ghost predicate AnimationIs(running: bool, a: Option<Animation>, line: Option<Line>, point: Option<Point>)
      reads this`isAnimating, this`animation, this`animatingLine, this`drawingMarker
    {
      isAnimating == running && animation == a && animatingLine == line && drawingMarker == point
    }

    /** Page load once the events are fetched and sorted: the slider is created at 0
        and binding its `update` handler fires it there; it is then set to the event
        closest to `now`, which fires it again; only then are the markers added, all
        on the map with the normal icon at full opacity. */
    constructor Load(sorted: seq<Event>, now: int)
      requires |sorted| > 0 && Sorted(sorted)
      ensures Valid() && events == sorted
      ensures IsFirstClosest(events, now, currentIndex)
      ensures previousIndex == if currentIndex == 0 then -1 else 0
      ensures forall i :: 0 <= i < |markers| ==> markers[i] == Marker(events[i].ts, true, Normal, 1.0)
      ensures SegmentsShow(events[currentIndex].ts)
      ensures !isAnimating && !cancelAnimation && !playing && !isFromPlay && !shouldAnimate
    {
      events := sorted;
      markers := [];
      polylines := [];
      currentIndex, previousIndex := -1, -1;
      isAnimating, cancelAnimation := false, false;
      isFromPlay, shouldAnimate, playing := false, false, false;
      animation, animatingLine, drawingMarker := None, None, None;
      new;
      OnSliderUpdate(0, now);
      var closest := ClosestIndex(events, now);
      OnSliderUpdate(closest, now);
      AddAllMarkers();
    }

    /** One marker per event, in event order, added to the map with the normal icon. */
    method AddAllMarkers()
      requires markers == []
      modifies this`markers
      ensures Stamps(markers) == Times(events)
      ensures forall i :: 0 <= i < |markers| ==> markers[i] == Marker(events[i].ts, true, Normal, 1.0)
    {
      var i := 0;
      while i < |events|
        invariant 0 <= i <= |events|
        invariant |markers| == i
        invariant forall j :: 0 <= j < i ==> markers[j] == Marker(events[j].ts, true, Normal, 1.0)
      {
        markers := markers + [Marker(events[i].ts, true, Normal, 1.0)];
        i := i + 1;
      }
    }

    /** The slider's `update` handler. A new index shifts current into previous,
        latches the play flag into `shouldAnimate` and asks a running animation to
        stop; an unchanged index leaves all of that alone. Either way the map is
        re-rendered at the event's timestamp. */
    method OnSliderUpdate(index: nat, now: int)
      requires Consistent() && index < |events|
      modifies this`currentIndex, this`previousIndex, this`shouldAnimate, this`isFromPlay,
               this`cancelAnimation, this`markers, this`polylines, this`isAnimating,
               this`animation, this`animatingLine, this`drawingMarker
      ensures Consistent() && Stamps(markers) == old(Stamps(markers))
      ensures IndexSelected(index, old(currentIndex), old(previousIndex), old(shouldAnimate), old(isFromPlay))
      ensures cancelAnimation == (old(cancelAnimation) || (index != old(currentIndex) && old(isAnimating)))
      ensures MarkersShow(events[index].ts) && SegmentsShow(events[index].ts)
      ensures Triggers(events[index].ts, old(isAnimating)) ==> StartedAt(events[index].ts, now)
      ensures !Triggers(events[index].ts, old(isAnimating)) ==>
                AnimationIs(old(isAnimating), old(animation), old(animatingLine), old(drawingMarker))
      // a backward move never starts an animation
      ensures index < old(currentIndex) ==>
                AnimationIs(old(isAnimating), old(animation), old(animatingLine), old(drawingMarker))
    {
      SelectIndex(index);
      label selected:
      UpdateMarkers(events[index].ts, now);
      assert unchanged@selected(this`currentIndex, this`previousIndex, this`shouldAnimate, this`isFromPlay);
    }

    /** The first half of the `update` handler: the index bookkeeping. */
    method SelectIndex(index: nat)
      requires Consistent() && index < |events|
      modifies this`currentIndex, this`previousIndex, this`shouldAnimate, this`isFromPlay,
               this`cancelAnimation
      ensures Consistent()
      ensures IndexSelected(index, old(currentIndex), old(previousIndex), old(shouldAnimate), old(isFromPlay))
      ensures cancelAnimation == (old(cancelAnimation) || (index != old(currentIndex) && isAnimating))
    {
      if index != currentIndex {
        previousIndex := currentIndex;
        currentIndex := index;
        shouldAnimate := isFromPlay;
        isFromPlay := false;
        if isAnimating {
          cancelAnimation := true;
        }
      }
    }

    /** The render pass at threshold `uptoTs`: markers, then fixed segments, then the
        animation of the newest segment when the move was a flagged forward step. */
    method UpdateMarkers(uptoTs: int, now: int)
      requires Consistent()
      modifies this`markers, this`polylines, this`isAnimating, this`animation,
               this`animatingLine, this`drawingMarker, this`cancelAnimation
      ensures Consistent() && Stamps(markers) == old(Stamps(markers)) && cancelAnimation == old(cancelAnimation)
      ensures MarkersShow(uptoTs) && SegmentsShow(uptoTs)
      ensures old(Triggers(uptoTs, isAnimating)) ==> StartedAt(uptoTs, now)
      ensures !old(Triggers(uptoTs, isAnimating)) ==>
                AnimationIs(old(isAnimating), old(animation), old(animatingLine), old(drawingMarker))
    {
      ProjectMarkers(uptoTs);
      DrawPath(uptoTs, now);
    }

    /** The path half of a render pass: the fixed segments, then the animation of the
        newest segment when the move was a flagged forward step and none is running. */
    method DrawPath(uptoTs: int, now: int)
      requires Consistent()
      modifies this`polylines, this`isAnimating, this`animation,
               this`animatingLine, this`drawingMarker, this`cancelAnimation
      ensures Consistent() && cancelAnimation == old(cancelAnimation) && SegmentsShow(uptoTs)
      ensures old(Triggers(uptoTs, isAnimating)) ==> StartedAt(uptoTs, now)
      ensures !old(Triggers(uptoTs, isAnimating)) ==>
                AnimationIs(old(isAnimating), old(animation), old(animatingLine), old(drawingMarker))
    {
      RedrawSegments(uptoTs);
      AnimateNewest(uptoTs, now);
    }

    /** The last step of a render pass: the newest segment is animated after a flagged
        forward move with at least two visible events, unless an animation is running. */
    method AnimateNewest(uptoTs: int, now: int)
      requires Consistent()
      modifies this`polylines, this`isAnimating, this`animation,
               this`animatingLine, this`drawingMarker, this`cancelAnimation
      ensures Consistent() && cancelAnimation == old(cancelAnimation) && polylines == old(polylines)
      ensures old(Triggers(uptoTs, isAnimating)) ==> StartedAt(uptoTs, now)
      ensures !old(Triggers(uptoTs, isAnimating)) ==>
                AnimationIs(old(isAnimating), old(animation), old(animatingLine), old(drawingMarker))
    {
      var visible := Visible(events, uptoTs);
      VisibleUpTo(events, uptoTs);
      if shouldAnimate && currentIndex > previousIndex && |visible| >= 2 && !isAnimating {
        StartAnimation(visible[|visible| - 2], visible[|visible| - 1], uptoTs, now);
      }
    }

    /** The start of an animation from `newStart` to `newEnd`: the flag goes up, the
        closure captures its events, the clock, the threshold and the event span, and
        it runs its first frame at once, at zero elapsed time. */
    method StartAnimation(newStart: Event, newEnd: Event, uptoTs: int, now: int)
      requires Consistent() && !isAnimating && newEnd.ts <= uptoTs
      modifies this`isAnimating, this`animation, this`animatingLine, this`drawingMarker,
               this`polylines, this`cancelAnimation
      ensures Consistent() && isAnimating && !cancelAnimation && polylines == old(polylines)
      ensures animation == Some(Animation(newStart, newEnd, now, uptoTs, MaxDiff(events)))
      ensures drawingMarker == Some(Pos(newStart))
    {
      isAnimating := true;
      animation := Some(Animation(newStart, newEnd, now, uptoTs, MaxDiff(events)));
      var rescheduled := Tick(now);
    }

    /** The marker loop of a render pass: icon and opacity from whether the marker is
        the current one; attach or detach only when `hasLayer` says it is needed. */
    method ProjectMarkers(uptoTs: int)
      modifies this`markers
      ensures Stamps(markers) == old(Stamps(markers))
      ensures MarkersShow(uptoTs)
    {
      var i := 0;
      while i < |markers|
        invariant 0 <= i <= |markers| == |old(markers)|
        invariant forall j :: 0 <= j < |markers| ==> markers[j].ts == old(markers[j].ts)
        invariant forall j :: 0 <= j < i ==> ShownAt(markers[j], uptoTs)
      {
        var m := markers[i];
        var isCurrent := m.ts == uptoTs;
        var attached := m.attached;
        if m.ts <= uptoTs {
          if !attached {
            attached := true;
          }
        } else {
          if attached {
            attached := false;
          }
        }
        markers := markers[i := Marker(m.ts, attached, if isCurrent then Highlighted else Normal,
                                       if isCurrent then 1.0 else DimOpacity)];
        i := i + 1;
      }
      assert forall j :: 0 <= j < |markers| ==> Stamps(markers)[j] == Stamps(old(markers))[j];
    }

    /** The segment loop of a render pass: every earlier segment is removed, then one
        segment per adjacent pair of visible events is drawn, skipping the last pair
        whenever the index moved forward. */
    method RedrawSegments(uptoTs: int)
      requires |events| > 0 && MaxDiff(events) >= 0
      modifies this`polylines
      ensures SegmentsShow(uptoTs)
    {
      polylines := [];
      var visible := Visible(events, uptoTs);
      VisibleUpTo(events, uptoTs);
      var maxDiff := MaxDiff(events);
      var forward := currentIndex > previousIndex;
      var i := 0;
      while i < |visible| - 1
        invariant 0 <= i <= if |visible| < 2 then 0 else |visible| - 1
        invariant |polylines| == if forward && |visible| >= 2 && i == |visible| - 1 then i - 1 else i
        invariant forall j :: 0 <= j < |polylines| ==>
                    polylines[j] == Connect(visible[j], visible[j + 1], uptoTs, maxDiff)
      {
        if !(forward && i == |visible| - 2) {
          polylines := polylines + [Connect(visible[i], visible[i + 1], uptoTs, maxDiff)];
        }
        i := i + 1;
      }
      ghost var expected := FixedSegments(visible, uptoTs, maxDiff, forward);
      FixedSegmentsPairs(visible, uptoTs, maxDiff, forward);
      assert |polylines| == |expected|;
      forall j | 0 <= j < |polylines|
        ensures polylines[j] == expected[j]
      {
        assert j < |expected|;
        assert expected[j] == Connect(visible[j], visible[j + 1], uptoTs, maxDiff);
        assert polylines[j] == Connect(visible[j], visible[j + 1], uptoTs, maxDiff);
      }
    }

    /** One frame of the running animation. A pending cancel request finishes the
        animation at once; otherwise the line and point move to the current progress,
        and the animation finishes when progress reaches 1. Finishing either way adds
        exactly the captured final segment and removes the line and point. The result
        says whether another frame is requested. */
    method Tick(now: int) returns (rescheduled: bool)
      requires Consistent() && isAnimating
      modifies this`polylines, this`isAnimating, this`cancelAnimation, this`animation,
               this`animatingLine, this`drawingMarker
      ensures Consistent()
      ensures rescheduled == isAnimating && !cancelAnimation
      ensures old(cancelAnimation) ==>
                !isAnimating && polylines == old(polylines) + [FinalSegment(old(animation).value)]
      ensures !old(cancelAnimation) ==>
                var a := old(animation).value;
                var p := Progress(now - a.startTime);
                && (p < 1.0 ==>
                      isAnimating && animation == old(animation) && polylines == old(polylines)
                      && drawingMarker == Some(Interpolate(Pos(a.newStart), Pos(a.newEnd), p)))
                && (p == 1.0 ==> !isAnimating && polylines == old(polylines) + [FinalSegment(a)])
    {
      var a := animation.value;
      if cancelAnimation {
        polylines := polylines + [FinalSegment(a)];
        if animatingLine.Some? {
          animatingLine := None;
        }
        if drawingMarker.Some? {
          drawingMarker := None;
        }
        isAnimating := false;
        cancelAnimation := false;
        animation := None;
        return false;
      }
      var progress := Progress(now - a.startTime);
      var current := Interpolate(Pos(a.newStart), Pos(a.newEnd), progress);
      // created by the first frame, moved by the later ones
      animatingLine := Some(Line(Pos(a.newStart), current));
      drawingMarker := Some(current);
      if progress < 1.0 {
        rescheduled := true;
      } else {
        polylines := polylines + [FinalSegment(a)];
        animatingLine := None;
        drawingMarker := None;
        isAnimating := false;
        animation := None;
        rescheduled := false;
      }
    }

    /** The outcome of a play step to `next` from a state whose current index, previous
        index and animate flag were `cur`, `prev` and `should`, with no animation
        running: the slider update ran with the play flag up, so its bookkeeping and
        render pass happened at `next`; playing goes on unless `next` is the last index.
        The animation guard is evaluated after the bookkeeping, so it also fires on an
        unchanged index when the animate flag is still up from an earlier step. */
    ghost predicate SteppedTo(next: int, cur: int, prev: int, should: bool, now: int)
      reads this
      requires Consistent() && 0 <= next < |events|
    {
      && IndexSelected(next, cur, prev, should, true)
      && playing == (next < |events| - 1)
      && !cancelAnimation
      && MarkersShow(events[next].ts) && SegmentsShow(events[next].ts)
      && (Triggers(events[next].ts, false) ==> StartedAt(events[next].ts, now))
      && (!Triggers(events[next].ts, false) ==> AnimationIs(false, None, None, None))
    }

    /** One run of the play loop's `advance` callback. While an animation runs it only
        asks to be called again; otherwise it latches the play flag and sets the slider
        one index further (never past the last), and stops playing at the last index. */
    method Advance(now: int) returns (rescheduled: bool)
      requires Valid()
      modifies this
      ensures Valid()
      ensures !old(playing) ==> !rescheduled && unchanged(this)
      ensures old(playing) && old(isAnimating) ==> rescheduled && unchanged(this)
      ensures old(playing) && !old(isAnimating) ==>
                var next := NextIndex(old(currentIndex), |events|);
                && rescheduled == playing
                && SteppedTo(next, old(currentIndex), old(previousIndex), old(shouldAnimate), now)
                // a real step always animates the segment it adds
                && (next != old(currentIndex) ==> StartedAt(events[next].ts, now))
    {
      if playing && !isAnimating {
        var next := NextIndex(currentIndex, |events|);
        isFromPlay := true;
        if next != currentIndex {
          // the step is forward from an index of at least 0, so both events are visible
          VisibleAtLeast(events, next);
        }
        OnSliderUpdate(next, now);
        if next < |events| - 1 {
          rescheduled := true;
        } else {
          playing := false;
          rescheduled := false;
        }
      } else if playing {
        rescheduled := true;
      } else {
        rescheduled := false;
      }
    }

    /** The play button: pauses a playing timeline, or starts playing and runs the
        first `advance` at once. Pausing and waiting for a running animation change
        nothing else. */
    method OnPlayClick(now: int) returns (rescheduled: bool)
      requires Valid()
      modifies this
      ensures Valid()
      ensures old(playing) ==>
                !playing && !rescheduled
                && unchanged(this`markers, this`polylines, this`currentIndex, this`previousIndex,
                             this`isAnimating, this`cancelAnimation, this`isFromPlay, this`shouldAnimate,
                             this`animation, this`animatingLine, this`drawingMarker)
      ensures !old(playing) && old(isAnimating) ==>
                playing && rescheduled
                && unchanged(this`markers, this`polylines, this`currentIndex, this`previousIndex,
                             this`isAnimating, this`cancelAnimation, this`isFromPlay, this`shouldAnimate,
                             this`animation, this`animatingLine, this`drawingMarker)
      ensures !old(playing) && !old(isAnimating) ==>
                var next := NextIndex(old(currentIndex), |events|);
                && rescheduled == playing
                && SteppedTo(next, old(currentIndex), old(previousIndex), old(shouldAnimate), now)
                && (next != old(currentIndex) ==> StartedAt(events[next].ts, now))
    {
      if playing {
        playing := false;
        rescheduled := false;
      } else {
        playing := true;
        rescheduled := Advance(now);
      }
    }

    /** The reset button: asks a running animation to stop, then sets the slider to
        the first event. A reset never starts an animation. */
    method Reset(now: int)
      requires Valid()
      modifies this
      ensures Valid() && currentIndex == 0 && playing == old(playing)
      ensures cancelAnimation == old(isAnimating)
      ensures AnimationIs(old(isAnimating), old(animation), old(animatingLine), old(drawingMarker))
      ensures IndexSelected(0, old(currentIndex), old(previousIndex), old(shouldAnimate), old(isFromPlay))
      ensures MarkersShow(events[0].ts) && SegmentsShow(events[0].ts)
    {
      if isAnimating {
        cancelAnimation := true;
      }
      OnSliderUpdate(0, now);
    }
  }

  /** The segment an animation leaves behind is the one its render pass held back: a
      forward pass at the captured threshold plus the final segment is the full path. */
  lemma FinalSegmentCompletesPath(events: seq<Event>, a: Animation)
    requires |events| > 0 && MaxDiff(events) >= 0
    requires var v := Visible(events, a.uptoTs);
             |v| >= 2 && a.newStart == v[|v| - 2] && a.newEnd == v[|v| - 1] && a.maxDiff == MaxDiff(events)
    ensures Captured(a) && AllUpTo(Visible(events, a.uptoTs), a.uptoTs)
    ensures var v := Visible(events, a.uptoTs);
            FixedSegments(v, a.uptoTs, a.maxDiff, true) + [FinalSegment(a)]
            == FixedSegments(v, a.uptoTs, a.maxDiff, false)
  {
    var v := Visible(events, a.uptoTs);
    VisibleUpTo(events, a.uptoTs);
    SuppressedSegmentIsLast(v, a.uptoTs, a.maxDiff);
  }

  /** A forward step to index `k >= 1` leaves at least two events visible. */
  lemma VisibleAtLeast(events: seq<Event>, k: int)
    requires Sorted(events) && 1 <= k < |events|
    ensures |Visible(events, events[k].ts)| >= 2
  {
    VisiblePrefix(events, events[k].ts);
    assert events[1].ts <= events[k].ts;
  }

  /** The fetch handler: an empty response leaves the page without a timeline;
      otherwise the events are sorted by timestamp and the timeline is loaded, with
      the state `Load` leaves behind. */
  method LoadEvents(data: seq<Event>, now: int) returns (c: TimelineController?)
    ensures c == null <==> data == []
    ensures c != null ==>
              && fresh(c) && c.Valid()
              && c.events == SortByTs(data)
              && IsFirstClosest(c.events, now, c.currentIndex)
              && c.previousIndex == (if c.currentIndex == 0 then -1 else 0)
              && (forall i :: 0 <= i < |c.markers| ==> c.markers[i] == Marker(c.events[i].ts, true, Normal, 1.0))
              && c.SegmentsShow(c.events[c.currentIndex].ts)
              && !c.isAnimating && !c.cancelAnimation && !c.playing && !c.isFromPlay && !c.shouldAnimate
  {
    if data == [] {
      return null;
    }
    var sorted := SortByTs(data);
    c := new TimelineController.Load(sorted, now);
  }
}
