# Timeline-to-map synchronisation

A model of the page script of a travel-timeline site (`static/js/main.js`). The page
fetches a list of dated, geolocated events, sorts them by date, and drives a Leaflet map
from a one-handle slider whose positions are the event indices. The slider's starting
position is the event closest to the current time. Moving the slider re-renders the map
at that event's timestamp (the threshold):

- every event at or before the threshold has its marker on the map, and the current
  event's marker is highlighted;
- every pair of consecutive visible events is joined by a dotted segment that fades
  with the age of its end event;
- a Play button steps the slider forward one event at a time, and each forward step
  animates the newest segment over 15 seconds;
- a Reset button returns to the first event, cancelling a running animation.

The model is in three modules:

- `EventStore` (`event_store.dfy`): the event record, the loader's stable sort by
  timestamp, and the scan that picks the slider's start index.
- `Render` (`render.dfy`): pure functions for visibility, marker presentation, segment
  opacity, the segments a render pass draws, animation progress and interpolation.
- `Controller` (`controller.dfy`): class `TimelineController`. Its fields are the
  script's module-level variables `markers`, `polylines`, `currentIndex`,
  `previousIndex`, `isAnimating`, `cancelAnimation`, `isFromPlay`, `shouldAnimate`,
  `animatingLine` and `drawingMarker`, and `playing`, the play handler's flag declared
  in `initTimeline`. The field `animation` stands for the scheduled `animate` closure.
  The script's handlers are methods of the class.

Host callbacks become explicit method calls:

- `OnSliderUpdate` is the slider's `update` event.
- `Tick` is one `requestAnimationFrame` callback.
- `Advance` is one run of the play loop's `setTimeout` callback.

The wall clock (`Date.now()`) is a parameter `now`. The slider fires `update` when the
handler is bound and on every `set`, even when the value does not change. `Load` and
`Advance` model it that way.

The invariant `Consistent` is kept by every handler:

- a cancel request is only pending while an animation runs;
- at most one animation is scheduled, exactly while `isAnimating` is up;
- the interpolated line and point exist only during an animation.

`Valid` adds three facts once the page has loaded: the events are sorted, an index is
selected, and there is one marker per event, in event order.

Three behaviours of the code are kept as written:

- A zero time span (all events at the same instant) makes the fade divide 0 by 0, so
  the opacity is NaN; `Fade` returns `NotANumber` there.
- A render pass leaves the last segment out whenever `currentIndex > previousIndex`,
  whether or not an animation follows.
- Indices are not clamped, because the slider's range bounds them; `OnSliderUpdate`
  requires `index < |events|`.

## Model

| member | source | states |
|---|---|---|
| EventStore.SortByTs | static/js/main.js:53 | the loaded events are ordered by timestamp and are a permutation of the fetched ones |
| EventStore.SortStable | static/js/main.js:53 | the sort is stable: for every timestamp, the events carrying it keep their input order |
| EventStore.Insert | static/js/main.js:53 | inserting into a sorted list keeps it sorted and adds exactly that one event |
| EventStore.ClosestIndex | static/js/main.js:254-264 | the start index is in range, no event is closer to `now`, and every earlier index is strictly farther (ties go to the earliest) |
| Render.Visible | static/js/main.js:92 | the filter keeps at most as many events as it is given |
| Render.VisibleUpTo | static/js/main.js:92 | every visible event is at or before the threshold |
| Render.VisibleSubset | static/js/main.js:92 | every visible event is one of the events |
| Render.VisibleMembers | static/js/main.js:92 | an event is visible if and only if its timestamp is at most the threshold |
| Render.VisiblePrefix | static/js/main.js:92 | over sorted events the visible events are a prefix, and every later event is past the threshold |
| Controller.MaxDiff | static/js/main.js:93 | over sorted events the span is non-negative and no event lies further than the span after the first one |
| Render.Fade | static/js/main.js:98-100 | with a positive span the opacity is within [0, 1]: 1 for an end event at the threshold, 0 once the age reaches the span; with a zero span and zero age it is NaN |
| Render.FadeMonotone | static/js/main.js:98-100 | with a positive span, a segment whose end event is older has an opacity no higher than one whose end event is newer: opacity never increases with age |
| Render.Connect | static/js/main.js:96-100 | the segment joins the two given events; with a positive span its opacity is within [0, 1], 1 when the end event is at the threshold and 0 once the end event is a full span old |
| Render.PathSegments | static/js/main.js:94-107 | one segment per adjacent pair of visible events |
| Render.PathSegmentsPairs | static/js/main.js:94-107 | the i-th segment joins the i-th visible event to the next one, faded by the age of its end event |
| Render.FixedSegments | static/js/main.js:94-109 | a render pass draws one segment per adjacent pair, one fewer after a forward move |
| Render.FixedSegmentsPairs | static/js/main.js:94-109 | every drawn segment joins a visible event to the next one, in order, so after a forward move the missing one is the last pair |
| Render.SuppressedSegmentIsLast | static/js/main.js:95 | the pair a forward pass leaves out is exactly the last pair; adding it back gives the full path |
| Controller.FinalSegment | static/js/main.js:121-123 | the segment an animation leaves behind joins its two captured events, with an opacity within [0, 1] when the captured span is positive |
| Controller.FinalSegmentCompletesPath | static/js/main.js:161-170 | an animation between the last two visible events leaves behind exactly the segment its forward render pass held back |
| Render.Progress | static/js/main.js:143-144 | progress is 0 at the start, at most 1, non-negative for non-negative elapsed time, and exactly 1 once 15000 ms have passed |
| Render.Interpolate | static/js/main.js:145-146 | the moving point is at the start event at progress 0 and at the end event at progress 1 |
| Controller.NextIndex | static/js/main.js:230 | the play step goes one index forward, stays in range, and stays put exactly at the last index |
| Controller.VisibleAtLeast | static/js/main.js:112 | a step to an index of at least 1 leaves at least two events visible, so the animation guard's length test holds |
| Controller.TimelineController.Load | static/js/main.js:186-265 | after loading, the index is the first event closest to `now` and the previous index records the initial `update` at 0; every marker is on the map with the normal icon at full opacity; the segments are those of a pass at the start event; and no animation, play or cancel is pending |
| Controller.TimelineController.AddAllMarkers | static/js/main.js:59-73 | one marker per event, in event order, attached, with the normal icon at full opacity |
| Controller.TimelineController.OnSliderUpdate | static/js/main.js:201-215 | keeps `Consistent`; the index bookkeeping of `IndexSelected`; a cancel request for a running animation on a real move; markers and segments at the event's timestamp; the animation guard is evaluated after the bookkeeping, so it starts an animation exactly when `Triggers` holds, which can also happen on an unchanged index while the animate flag is still up from the last play step; otherwise the animation state is unchanged, and a backward move never starts one |
| Controller.TimelineController.SelectIndex | static/js/main.js:204-212 | a new index shifts current into previous, moves the play flag into the animate flag and requests a cancel if an animation runs; the same index changes nothing |
| Controller.TimelineController.UpdateMarkers | static/js/main.js:75-184 | after a render pass, markers and segments show the threshold, and the animation starts exactly when the guard holds; otherwise the animation state is unchanged |
| Controller.TimelineController.ProjectMarkers | static/js/main.js:76-85 | each marker is attached exactly when its event is at or before the threshold, highlighted at opacity 1 exactly when its event is at the threshold, and dimmed to 0.6 otherwise |
| Controller.TimelineController.DrawPath | static/js/main.js:87-183 | the segments are those of `FixedSegments`, and the animation starts exactly when the guard holds |
| Controller.TimelineController.RedrawSegments | static/js/main.js:87-109 | the loop leaves exactly the segments `FixedSegments` specifies |
| Controller.TimelineController.AnimateNewest | static/js/main.js:111-115 | the animation starts between the last two visible events exactly when the guard holds; otherwise nothing changes |
| Controller.TimelineController.StartAnimation | static/js/main.js:112-118 | the animation captures its events, start time, threshold and span, and its first frame puts the moving point on the start event |
| Controller.TimelineController.Tick | static/js/main.js:118-181 | a pending cancel ends the animation at once; otherwise the point moves to the interpolated position and the animation ends when progress reaches 1; ending adds exactly the captured final segment and removes the line and point; another frame is requested exactly while the animation still runs |
| Controller.TimelineController.Advance | static/js/main.js:227-242 | when not playing nothing changes; during an animation it only reschedules; otherwise the step of `SteppedTo`: the bookkeeping with the play flag up, markers and segments at the next event, playing stops at the last index, and the animation starts exactly when the guard holds, always on a real step and also as a replay of the last segment when Play is pressed again at the last index |
| Controller.TimelineController.OnPlayClick | static/js/main.js:219-245 | a click on a playing timeline pauses it and a click during an animation only starts playing, both leaving every other field unchanged; otherwise it starts playing and runs the first step, with the full outcome of `SteppedTo` |
| Controller.TimelineController.Reset | static/js/main.js:247-252 | a running animation is asked to stop, the slider goes to the first event with the bookkeeping of `IndexSelected`, markers and segments show the first event, and the animation state (flag, closure, line and point) is unchanged, so no new animation starts |
| Controller.LoadEvents | static/js/main.js:45-56 | an empty response leaves no timeline; otherwise the timeline is loaded from the events sorted by timestamp, at the first event closest to `now`, with the previous index of the initial updates, every marker on the map with the normal icon at full opacity, the segments of a pass at that event, and no animation, play or cancel pending |

## Left out

- The Flask server (`app.py`) and the `/events` endpoint are not part of this model. The fetched data is a parameter of `LoadEvents`.
- JSON parsing and date parsing (`new Date(e.date).getTime()`) are left out: events arrive with integer millisecond timestamps. Unparsable dates (NaN timestamps) are not modelled.
- A failed fetch is left out; it only logs to the console.
- Leaflet presentation (tile layer, icon images and sizes, popups, line colours, weights and dash patterns) is left out: markers and segments keep only what the logic reads or sets.
- `formatDate`, the date label's text and the play button's label (`Play` / `Pause`) are left out (DOM output only).
- A handler call sees one clock reading `now`. The script reads `Date.now()` once for the animation's start time and again in the first `animate()` frame it runs at once; the model gives both the same value, so that first frame runs at zero elapsed time and puts the point on the start event.
- The slider widget is left out. Its value is the controller's `currentIndex`, rounding of the slider value is the identity on its integer steps, and its range is the precondition `index < |events|`.
- Scheduling is left out: `requestAnimationFrame` and `setTimeout` are the environment calling `Tick` and `Advance`; `Tick` requires a scheduled animation, and the model does not track several `advance` chains running at once after fast Pause/Play clicks.
- The map camera (`map.setView` during the animation) is left out: it does not affect the state.
- Numbers are exact reals and unbounded integers, not IEEE doubles. Rounding of the fade and the interpolation is not modelled; the one NaN the code can produce (0/0 in the fade) is.
- Leaflet's layer registry (`map.hasLayer`) is not separate state: a marker's `attached` flag stands for it.
