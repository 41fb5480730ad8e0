/** The annotations drawn in the viewport: which annotation's text panel is
    visible after each frame, the `controlsChange` flag that hides it while
    the camera moves, the icons' click and hover handlers (with the matching
    highlight of the settings panels), and where each text panel is anchored. */
module AnnotationsMap {
  import opened Base

  /** The inputs of the per-frame visibility pass (props of the component and
      its `controlsChange` state). `range` is the editor's annotation counter. */
  datatype View = View(annotationMode: bool, controlsChange: bool, range: int, selected: int)

  /** `handleAnnotationsTextClassList(element, index)` as written: three
      `classList` writes in a row, the later ones overriding the earlier. The
      first ("open the last annotation") is always overridden by the second,
      so the outcome is the single rule of the postcondition. */
  function TextVisible(v: View, index: int): (visible: bool)
    ensures visible <==> v.annotationMode && !v.controlsChange && v.range > 0 && index == v.selected
  {
    var afterLast :=
      !v.controlsChange && v.range > 0 && index == v.range - 1 && index == v.selected;
    var afterSelected :=
      if !v.controlsChange && v.range > 0 && index == v.selected then true else false;
    var afterMode := if !v.annotationMode then false else afterSelected;
    afterMode
  }

  /** The indices among `n` annotations whose text panel is visible. */
  function VisibleTexts(v: View, n: nat): (r: set<int>)
    ensures |r| <= 1
    ensures forall i :: i in r <==> 0 <= i < n && TextVisible(v, i)
    ensures !v.annotationMode ==> r == {}
    ensures v.annotationMode && !v.controlsChange && v.range > 0 && 0 <= v.selected < n ==> r == {v.selected}
  {
    var r := set i | 0 <= i < n && TextVisible(v, i);
    assert r == if v.annotationMode && !v.controlsChange && v.range > 0 && 0 <= v.selected < n
                then {v.selected} else {};
    r
  }

  /** Selecting annotation `k` of `n` (with annotation mode on and the
      controls at rest) makes its text the only visible one. */
  lemma SelectedIsOnlyVisible(v: View, n: nat, k: int)
    requires v.annotationMode && !v.controlsChange && v.range > 0
    requires 0 <= k < n && v.selected == k
    ensures VisibleTexts(v, n) == {k}
  {
  }

  /** The state behind the icons: the `controlsChange` flag, the selected
      annotation (the editor's `selectedAnnotation`), each icon's scale and
      the settings panels carrying the hover highlight. */
  datatype IconState = IconState(
    controlsChange: bool,
    selected: int,
    iconScale: map<int, Vec3>,
    hoverPanels: set<int>)

  /** An icon's resting scale for the component's `scale` prop. */
  function RestScale(scale: real): Vec3
  {
    Vec3(scale, scale, 1.0)
  }

  /** An icon's enlarged scale while the pointer is over it. */
  function HoverScale(scale: real): (r: Vec3)
    ensures r.x == 1.3 * RestScale(scale).x && r.y == 1.3 * RestScale(scale).y && r.z == RestScale(scale).z
  {
    Vec3(scale * 1.3, scale * 1.3, 1.0)
  }

  /** The orbit controls' `start` event. */
  function OnControlsStart(s: IconState): (r: IconState)
    ensures r.controlsChange && r.(controlsChange := s.controlsChange) == s
  {
    s.(controlsChange := true)
  }

  /** A click on icon `i`: in annotation mode it selects `i` and clears
      `controlsChange`; otherwise nothing happens. */
  function OnIconClick(s: IconState, i: int, annotationMode: bool): (r: IconState)
    ensures !annotationMode ==> r == s
    ensures annotationMode ==> r.selected == i && !r.controlsChange
    ensures r.iconScale == s.iconScale && r.hoverPanels == s.hoverPanels
  {
    if annotationMode then s.(selected := i, controlsChange := false) else s
  }

  /** The pointer enters icon `i`: in annotation mode the icon grows by 1.3
      and, unless `i` is the selected annotation, its settings panel gets the
      hover highlight. */
  function OnIconHoverEnter(s: IconState, i: int, scale: real, annotationMode: bool): (r: IconState)
    ensures !annotationMode ==> r == s
    ensures annotationMode ==> i in r.iconScale && r.iconScale[i] == HoverScale(scale)
    ensures annotationMode ==> (i in r.hoverPanels <==> i != s.selected || i in s.hoverPanels)
    ensures r.selected == s.selected && r.controlsChange == s.controlsChange
    ensures forall j :: j != i ==> (j in r.hoverPanels <==> j in s.hoverPanels)
  {
    if annotationMode then
      s.(iconScale := s.iconScale[i := HoverScale(scale)],
         hoverPanels := if i != s.selected then s.hoverPanels + {i} else s.hoverPanels)
    else s
  }

  /** The pointer leaves icon `i`: in annotation mode the icon returns to its
      resting scale and its settings panel loses the hover highlight. */
  function OnIconHoverLeave(s: IconState, i: int, scale: real, annotationMode: bool): (r: IconState)
    ensures !annotationMode ==> r == s
    ensures annotationMode ==> i in r.iconScale && r.iconScale[i] == RestScale(scale) && i !in r.hoverPanels
    ensures r.selected == s.selected && r.controlsChange == s.controlsChange
    ensures forall j :: j != i ==> (j in r.hoverPanels <==> j in s.hoverPanels)
  {
    if annotationMode then
      s.(iconScale := s.iconScale[i := RestScale(scale)], hoverPanels := s.hoverPanels - {i})
    else s
  }

  /** The render pass over the settings panels: the selected one is marked
      selected and never keeps the hover highlight. */
  function MarkSelected(s: IconState): (r: IconState)
    ensures s.selected !in r.hoverPanels
    ensures forall j :: j != s.selected ==> (j in r.hoverPanels <==> j in s.hoverPanels)
    ensures r.selected == s.selected && r.iconScale == s.iconScale
  {
    s.(hoverPanels := s.hoverPanels - {s.selected})
  }

  /** Entering and then leaving an icon that was at rest and not highlighted
      leaves everything as it was. */
  lemma HoverRoundTrip(s: IconState, i: int, scale: real, annotationMode: bool)
    requires i in s.iconScale && s.iconScale[i] == RestScale(scale) && i !in s.hoverPanels
    ensures OnIconHoverLeave(OnIconHoverEnter(s, i, scale, annotationMode), i, scale, annotationMode) == s
  {
    if annotationMode {
      var r := OnIconHoverLeave(OnIconHoverEnter(s, i, scale, annotationMode), i, scale, annotationMode);
      assert r.iconScale == s.iconScale;
      assert r.hoverPanels == s.hoverPanels;
    }
  }

  /** How far below its annotation a text panel hangs: a twentieth of the
      scene's average dimension (`textPos`). */
  function TextOffset(sceneSize: Vec3): real
  {
    (sceneSize.x + sceneSize.y + sceneSize.z) / 3.0 / 20.0
  }

  /** The text panel's anchor: the annotation's position moved down by
      `TextOffset` along y only. */
  function TextAnchor(position: Vec3, sceneSize: Vec3): (r: Vec3)
    ensures r.x == position.x && r.z == position.z
    ensures 60.0 * (position.y - r.y) == sceneSize.x + sceneSize.y + sceneSize.z
    ensures sceneSize.x + sceneSize.y + sceneSize.z > 0.0 ==> r.y < position.y
  {
    Vec3(position.x, position.y - TextOffset(sceneSize), position.z)
  }
}
