/** The viewport's interaction session: the `moved` flag fed by the orbit
    controls and the mouse wheel, the raycast results the frame loop leaves
    behind, the double-click that places an annotation (or warns at capacity),
    and the two-click measurement protocol with its per-frame update and its
    reset. In the editor these are `let` locals captured by event listeners;
    here they are one explicit record, and the raycasts are inputs. */
module Interaction {
  import opened Base
  import Annotations

  /** One measurement's line: its fixed start and its (possibly still moving)
      end. Its label sits at the midpoint and shows the distance. */
  datatype Measurement = Measurement(start: Vec3, end: Vec3)

  /** The session state.
      - `moved`: the camera was manipulated since the last controls start/end.
      - `textHovered`: the pointer is over an annotation's text panel.
      - `intersects`: `intersection.intersects`, the last annotation raycast hit.
      - `hitListed`: the shared intersection list is non-empty.
      - `anchor`: `n`, the surface point (pushed off along the normal) of the
        last annotation raycast hit, where a placed annotation goes.
      - `drawingLine`, `lineId`: the measurement protocol's phase and the key
        of the line being drawn.
      - `labels`: `measurementLabels`, one measurement per line key.
      - `faulted`: a frame callback has thrown (see `MeasuringFrame`). */
  datatype Session = Session(
    moved: bool,
    textHovered: bool,
    intersects: bool,
    hitListed: bool,
    anchor: Vec3,
    drawingLine: bool,
    lineId: int,
    labels: map<int, Measurement>,
    faulted: bool)

  /** The locals' values when the viewport is set up. */
  function Initial(): (s: Session)
    ensures !s.moved && !s.drawingLine && s.lineId == 0 && s.labels == map[] && !s.faulted
    ensures LabelsBounded(s)
  {
    Session(false, false, true, false, Vec3(0.0, 0.0, 0.0), false, 0, map[], false)
  }

  // ---------------------------------------------------------------------------
  // Gesture arbitration.

  /** Camera-manipulation events: the orbit controls' start, change and end,
      and a mouse-wheel turn anywhere in the window. */
  datatype Gesture = ControlsStart | ControlsChange | ControlsEnd | Wheel

  /** The listeners' effect: start and end clear `moved`, change and the
      wheel set it. Nothing else in the session changes. */
  function OnGesture(s: Session, g: Gesture): (r: Session)
    ensures r.moved <==> (g == ControlsChange || g == Wheel)
    ensures r.(moved := s.moved) == s
  {
    match g
    case ControlsStart => s.(moved := false)
    case ControlsChange => s.(moved := true)
    case ControlsEnd => s.(moved := false)
    case Wheel => s.(moved := true)
  }

  /** The text panels' pointer-over and pointer-out handlers. */
  function OnTextHover(s: Session, hovered: bool): (r: Session)
    ensures r.textHovered == hovered && r.(textHovered := s.textHovered) == s
  {
    s.(textHovered := hovered)
  }

  /** The guard both double-click listeners share: annotation mode is on, the
      camera is still, the last raycast hit the model and no text panel is
      under the pointer. */
  predicate PlacementGuard(s: Session, annotationMode: bool)
  {
    annotationMode && !s.moved && s.intersects && !s.textHovered
  }

  /** What a double-click produces: the annotation store after it and whether
      the capacity warning was raised. */
  datatype DblClickOutcome = DblClickOutcome(store: Annotations.Store, warned: bool)

  /** A double-click on the canvas. The first listener places an annotation
      at the session's anchor when the guard holds; the second raises the
      warning when the guard holds, the store is full and no toast with the
      annotations' id is on screen (`toastActive`, supplied by the toast
      library). Both listeners read the counter as it was before the click. */
  function DblClick(st: Annotations.Store, s: Session, annotationMode: bool, toastActive: bool): (o: DblClickOutcome)
    ensures o.warned <==> PlacementGuard(s, annotationMode) && st.counter == MaxCounter && !toastActive
    ensures o.store != st ==> PlacementGuard(s, annotationMode) && st.counter < MaxCounter
    ensures PlacementGuard(s, annotationMode) && st.counter < MaxCounter ==>
              o.store.counter == st.counter + 1 && o.store.selected == st.counter
    ensures Annotations.Valid(st) && PlacementGuard(s, annotationMode) && st.counter < MaxCounter ==>
              o.store.annotations == st.annotations + [Annotations.Annotation(s.anchor, "", "")]
    ensures o.warned ==> o.store == st
  {
    var guard := PlacementGuard(s, annotationMode);
    var placed := if guard then Annotations.Place(st, s.anchor) else st;
    DblClickOutcome(placed, guard && st.counter == MaxCounter && !toastActive)
  }

  /** The warning is deduplicated: two double-clicks at capacity with no toast
      on screen raise exactly one warning, because the first one's toast is
      still active when the second arrives. */
  lemma WarningRaisedOnce(st: Annotations.Store, s: Session)
    requires PlacementGuard(s, true) && st.counter == MaxCounter
    ensures DblClick(st, s, true, false).warned
    ensures DblClick(st, s, true, false).store == st
    ensures !DblClick(DblClick(st, s, true, false).store, s, true, true).warned
  {
  }

  // ---------------------------------------------------------------------------
  // Measurement.

  /** A click on the canvas (`handleMeasurement`): with a hit listed, measuring
      on and the camera still, the first click starts a line and the second
      finishes it, moving on to the next line key. */
  function Click(s: Session, measuringMode: bool): (r: Session)
    ensures !(s.hitListed && measuringMode && !s.moved) ==> r == s
    ensures s.hitListed && measuringMode && !s.moved && !s.drawingLine ==>
              r.drawingLine && r.lineId == s.lineId
    ensures s.hitListed && measuringMode && !s.moved && s.drawingLine ==>
              !r.drawingLine && r.lineId == s.lineId + 1
    ensures r.labels == s.labels && r.moved == s.moved && r.hitListed == s.hitListed
    ensures LabelsBounded(s) ==> LabelsBounded(r)
  {
    if s.hitListed && measuringMode && !s.moved then
      if !s.drawingLine then s.(drawingLine := true)
      else s.(lineId := s.lineId + 1, drawingLine := false)
    else s
  }

  /** Every label is keyed by a line id in 0 .. `lineId`: earlier keys are
      finished lines, `lineId` itself the line being drawn or about to be. */
  predicate LabelsBounded(s: Session)
  {
    s.lineId >= 0 && forall k :: k in s.labels ==> 0 <= k <= s.lineId
  }

  /** The inputs of one rendered frame: the editor's modes, whether the model
      has a mesh to raycast against yet, and the two raycasts' results. The
      annotation raycast yields the hit already pushed off the surface along
      its normal; the measuring raycast yields the nearest hit point. */
  datatype FrameInput = FrameInput(
    annotationMode: bool,
    measuringMode: bool,
    modelLoaded: bool,
    annotationHit: Option<Vec3>,
    measuringHit: Option<Vec3>)

  /** The annotation half of the frame callback: raycast while annotation
      mode is on, the camera is still and no text is hovered; otherwise empty
      a non-empty intersection list and forget the hit. */
  function AnnotationFrame(s: Session, f: FrameInput): (r: Session)
    ensures r.drawingLine == s.drawingLine && r.lineId == s.lineId && r.labels == s.labels
    ensures r.moved == s.moved && r.textHovered == s.textHovered
    ensures r.anchor != s.anchor ==> f.annotationHit == Some(r.anchor)
    ensures f.annotationMode && !s.moved && !s.textHovered && f.modelLoaded ==>
              r.intersects == f.annotationHit.Some? && !r.hitListed
    ensures f.annotationMode && !s.moved && !s.textHovered && f.modelLoaded && f.annotationHit.Some? ==>
              r.anchor == f.annotationHit.value
    ensures r.faulted == s.faulted
  {
    if f.annotationMode && !s.moved && !s.textHovered && f.modelLoaded then
      match f.annotationHit
      case Some(n) => s.(anchor := n, intersects := true, hitListed := false)
      case None => s.(intersects := false, hitListed := false)
    else if s.hitListed then s.(hitListed := false, intersects := false)
    else s
  }

  /** The measuring half of the frame callback. With measuring on and a mesh
      to raycast against, it lists the raycast's hit; while no line is being
      drawn the pending line (and its label) is re-created at the hit, and
      while one is drawn its end follows the hit. In every other frame (measuring
      off, or no mesh yet) every label is dropped and the line key goes back
      to 0 (`handleDeleteMeasurement`); `drawingLine` is not touched.

      A line can be "drawn" without a label: a click that starts a line only
      raises `drawingLine`, and the label is created by a frame that saw the
      camera still. When the next such frame finds no label for `lineId`, the
      callback dereferences it and throws (after moving the previous line's
      end, which this model does not track); `faulted` records that, and the
      labels stay as they were. */
  function MeasuringFrame(s: Session, f: FrameInput): (r: Session)
    ensures r.drawingLine == s.drawingLine
    ensures f.measuringMode && f.modelLoaded ==> r.lineId == s.lineId
    ensures !(f.measuringMode && f.modelLoaded) ==> r.lineId == 0 && r.labels == map[] && r.faulted == s.faulted
    ensures f.measuringMode && f.modelLoaded ==>
              forall k :: k in s.labels && k != s.lineId ==> k in r.labels && r.labels[k] == s.labels[k]
    ensures f.measuringMode && f.modelLoaded ==> forall k :: k in r.labels ==> k in s.labels || k == s.lineId
    ensures f.measuringMode && f.modelLoaded && !s.moved && f.measuringHit.Some? &&
            (!s.drawingLine || s.lineId in s.labels) ==>
              s.lineId in r.labels && r.labels[s.lineId].end == f.measuringHit.value
    ensures f.measuringMode && f.modelLoaded && !s.moved && f.measuringHit.Some? && !s.drawingLine ==>
              r.labels[s.lineId].start == f.measuringHit.value
    ensures f.measuringMode && f.modelLoaded && s.drawingLine && s.lineId in s.labels ==>
              s.lineId in r.labels && r.labels[s.lineId].start == s.labels[s.lineId].start
    ensures r.faulted <==> s.faulted || (f.measuringMode && f.modelLoaded && !s.moved &&
                                        f.measuringHit.Some? && s.drawingLine && s.lineId !in s.labels)
    ensures LabelsBounded(s) ==> LabelsBounded(r)
  {
    if f.measuringMode && f.modelLoaded then
      var s1 := s.(hitListed := f.measuringHit.Some?);
      match f.measuringHit
      case Some(p) =>
        if s.moved then s1.(intersects := false)
        else if !s.drawingLine then s1.(labels := s.labels[s.lineId := Measurement(p, p)])
        else if s.lineId in s.labels then
          s1.(labels := s.labels[s.lineId := s.labels[s.lineId].(end := p)])
        else s1.(faulted := true)
      case None => s1.(intersects := false)
    else
      var s1 := s.(lineId := 0, labels := map[]);
      if s1.hitListed then s1.(hitListed := false, intersects := false) else s1
  }

  /** One frame: the annotation half, then the measuring half. */
  function Frame(s: Session, f: FrameInput): (r: Session)
    ensures r.drawingLine == s.drawingLine
    ensures f.measuringMode && f.modelLoaded ==> r.lineId == s.lineId
    ensures !(f.measuringMode && f.modelLoaded) ==> r.lineId == 0 && r.labels == map[]
    ensures LabelsBounded(s) ==> LabelsBounded(r)
  {
    MeasuringFrame(AnnotationFrame(s, f), f)
  }

  /** A measurement whose key is below the current line key is finished: no
      later frame with measuring on and a mesh loaded, and no click, moves or
      drops it. */
  lemma FinishedLinesAreKept(s: Session, f: FrameInput, measuringMode: bool, k: int)
    requires f.measuringMode && f.modelLoaded && k in s.labels && k < s.lineId
    ensures k in Frame(s, f).labels && Frame(s, f).labels[k] == s.labels[k]
    ensures k in Click(s, measuringMode).labels && Click(s, measuringMode).labels[k] == s.labels[k]
    ensures Click(s, measuringMode).lineId >= s.lineId
  {
  }

  /** While the camera is being moved, a click starts or finishes no line and
      a double-click places no annotation, whatever the raycasts report. */
  lemma MovedSuppressesActions(s: Session, st: Annotations.Store, measuringMode: bool, annotationMode: bool, toastActive: bool)
    requires s.moved
    ensures Click(s, measuringMode) == s
    ensures DblClick(st, s, annotationMode, toastActive).store == st
    ensures !DblClick(st, s, annotationMode, toastActive).warned
  {
  }

  /** The label's anchor: the midpoint of the line (`lerpVectors(v0, v1, 0.5)`). */
  function LabelAnchor(m: Measurement): (c: Vec3)
    ensures DistSq(c, m.start) == DistSq(c, m.end)
    ensures 4.0 * DistSq(c, m.start) == DistSq(m.start, m.end)
  {
    Vec3((m.start.x + m.end.x) / 2.0, (m.start.y + m.end.y) / 2.0, (m.start.z + m.end.z) / 2.0)
  }

  /** The events the session reacts to, in the order they arrive. */
  datatype Event =
    | GestureEvent(g: Gesture)
    | ClickEvent
    | FrameEvent(f: FrameInput)

  function Step(s: Session, e: Event, measuringMode: bool): Session
  {
    match e
    case GestureEvent(g) => OnGesture(s, g)
    case ClickEvent => Click(s, measuringMode)
    case FrameEvent(f) => Frame(s, f.(measuringMode := measuringMode))
  }

  function RunSession(s: Session, es: seq<Event>, measuringMode: bool): Session
    decreases |es|
  {
    if |es| == 0 then s else RunSession(Step(s, es[0], measuringMode), es[1..], measuringMode)
  }

  /** Every frame of `es` has the model's mesh to raycast against. */
  predicate MeshLoaded(es: seq<Event>)
  {
    forall i :: 0 <= i < |es| && es[i].FrameEvent? ==> es[i].f.modelLoaded
  }

  /** With measuring mode held on and the model loaded, line keys only grow
      and every finished measurement survives any run of gestures, clicks and
      frames unchanged. */
  lemma {:induction false} MeasuringRunKeepsFinished(s: Session, es: seq<Event>, k: int)
    requires LabelsBounded(s) && k in s.labels && k < s.lineId
    requires MeshLoaded(es)
    ensures RunSession(s, es, true).lineId >= s.lineId
    ensures k in RunSession(s, es, true).labels
    ensures RunSession(s, es, true).labels[k] == s.labels[k]
    ensures LabelsBounded(RunSession(s, es, true))
    decreases |es|
  {
    if |es| > 0 {
      var next := Step(s, es[0], true);
      match es[0] {
        case GestureEvent(g) =>
        case ClickEvent =>
        case FrameEvent(f) =>
          FinishedLinesAreKept(s, f.(measuringMode := true), true, k);
      }
      assert MeshLoaded(es[1..]) by {
        forall i | 0 <= i < |es| - 1 && es[1..][i].FrameEvent?
          ensures es[1..][i].f.modelLoaded
        {
          assert es[1..][i] == es[i + 1];
        }
      }
      MeasuringRunKeepsFinished(next, es[1..], k);
    }
  }

  /** The thrown frame is reachable with the ruler on: a wheel turn sets
      `moved`, so the next frame lists its hit but creates no label; the
      controls' `start` clears `moved`; the click then starts a line on the
      listed hit; and the frame after it finds no label for line 0. */
  lemma UnlabelledLineFaults(p: Vec3)
    ensures var hit := FrameEvent(FrameInput(false, true, true, None, Some(p)));
            var es := [GestureEvent(Wheel), hit, GestureEvent(ControlsStart), ClickEvent];
            var s := RunSession(Initial(), es, true);
            s.drawingLine && s.lineId !in s.labels && !s.faulted &&
            RunSession(s, [hit], true).faulted
  {
    var f := FrameInput(false, true, true, None, Some(p));
    var hit := FrameEvent(f);
    var es := [GestureEvent(Wheel), hit, GestureEvent(ControlsStart), ClickEvent];
    var s1 := Step(Initial(), es[0], true);
    assert s1.moved && !s1.drawingLine && s1.labels == map[];
    var s2 := Step(s1, es[1], true);
    assert s2.hitListed && s2.moved && !s2.drawingLine && s2.labels == map[] && !s2.faulted;
    var s3 := Step(s2, es[2], true);
    var s4 := Step(s3, es[3], true);
    assert s4.drawingLine && s4.labels == map[] && !s4.faulted;
    assert es[3..][1..] == [];
    assert RunSession(s3, es[3..], true) == s4;
    assert es[2..][1..] == es[3..];
    assert RunSession(s2, es[2..], true) == s4;
    assert es[1..][1..] == es[2..];
    assert RunSession(s1, es[1..], true) == s4;
    assert RunSession(Initial(), es, true) == s4;
    assert RunSession(s4, [hit], true) == Step(s4, hit, true);
  }
}
