/** The editor's mode register: `annotationMode`, `measuringMode` and
    `lightingMode`, written only by the settings tabs, the lighting sub-tabs and
    the ruler button. The tab handlers also clear the three lights'
    selections. Annotation mode excludes the other two in every reachable
    state; measuring and lighting can both be on. */
module Modes {
  import Lights

  /** The five settings tabs and the lighting panel's three sub-tabs. */
  datatype Tab = MaterialsTab | AnnotationsTab | LightingTab | SceneTab | PostprocessingTab
  datatype LightTab = DirectTab | PointTab | SpotTab

  /** The user actions that write the modes. */
  datatype Event = TabClick(tab: Tab) | LightTabClick(lightTab: LightTab) | RulerClick

  /** The three mode flags and the ruler's click counter (`counterMeasuring`). */
  datatype Modes = Modes(annotationMode: bool, measuringMode: bool, lightingMode: bool, rulerClicks: int)

  /** The mode register with the three light lists whose selections the tab
      handlers reset. */
  datatype Workspace = Workspace(
    modes: Modes,
    direct: Lights.LightList<Lights.DirectLight>,
    point: Lights.LightList<Lights.PointLight>,
    spot: Lights.LightList<Lights.SpotLight>)

  function Initial(): (w: Workspace)
    ensures !w.modes.annotationMode && !w.modes.measuringMode && !w.modes.lightingMode
  {
    Workspace(Modes(false, false, false, 0), Lights.Initial(), Lights.Initial(), Lights.Initial())
  }

  /** The ruler is shown only outside annotation mode and once loading is over. */
  predicate RulerOffered(m: Modes, loading: bool)
  {
    !m.annotationMode && !loading
  }

  /** Every tab except Materials is disabled while the model is loading. */
  predicate TabEnabled(tab: Tab, loading: bool)
  {
    tab == MaterialsTab || !loading
  }

  /** Annotation mode never holds together with measuring or lighting. */
  predicate Exclusive(m: Modes)
  {
    !(m.annotationMode && m.measuringMode) && !(m.annotationMode && m.lightingMode)
  }

  /** A tab click's effect on the flags. Materials clears annotation and
      lighting mode but leaves measuring as it was; Annotations turns annotation
      mode on and the other two off; Lighting turns lighting on and the other
      two off; Scene and Postprocessing turn all three off. */
  function TabModes(m: Modes, tab: Tab): (r: Modes)
    ensures r.annotationMode <==> tab == AnnotationsTab
    ensures r.lightingMode <==> tab == LightingTab
    ensures r.measuringMode <==> tab == MaterialsTab && m.measuringMode
    ensures r.rulerClicks == m.rulerClicks
  {
    match tab
    case MaterialsTab => m.(annotationMode := false, lightingMode := false)
    case AnnotationsTab => m.(annotationMode := true, measuringMode := false, lightingMode := false)
    case LightingTab => m.(lightingMode := true, annotationMode := false, measuringMode := false)
    case SceneTab => m.(annotationMode := false, measuringMode := false, lightingMode := false)
    case PostprocessingTab => m.(annotationMode := false, measuringMode := false, lightingMode := false)
  }

  /** Applies one event in the given loading state. A disabled tab or a hidden
      ruler does nothing. Every tab except Lighting deselects all lights; a
      lighting sub-tab turns measuring off and deselects the other two kinds. */
  function Step(w: Workspace, e: Event, loading: bool): (r: Workspace)
    ensures Exclusive(w.modes) ==> Exclusive(r.modes)
    ensures r.direct.items == w.direct.items && r.point.items == w.point.items && r.spot.items == w.spot.items
    ensures e.TabClick? && TabEnabled(e.tab, loading) && e.tab != LightingTab ==>
              r.direct.selected == -1 && r.point.selected == -1 && r.spot.selected == -1
    ensures e.LightTabClick? ==> !r.modes.measuringMode
    ensures e == RulerClick && RulerOffered(w.modes, loading) ==>
              r.modes.measuringMode == !w.modes.measuringMode && r.modes.rulerClicks == w.modes.rulerClicks + 1
    ensures e == RulerClick && !RulerOffered(w.modes, loading) ==> r == w
    ensures e.TabClick? && !TabEnabled(e.tab, loading) ==> r == w
  {
    match e
    case TabClick(tab) =>
      if !TabEnabled(tab, loading) then w
      else if tab == LightingTab then w.(modes := TabModes(w.modes, tab))
      else Workspace(TabModes(w.modes, tab), Lights.Select(w.direct, -1),
                     Lights.Select(w.point, -1), Lights.Select(w.spot, -1))
    case LightTabClick(lt) =>
      var m := w.modes.(measuringMode := false);
      (match lt
       case DirectTab => w.(modes := m, point := Lights.Select(w.point, -1), spot := Lights.Select(w.spot, -1))
       case PointTab => w.(modes := m, direct := Lights.Select(w.direct, -1), spot := Lights.Select(w.spot, -1))
       case SpotTab => w.(modes := m, direct := Lights.Select(w.direct, -1), point := Lights.Select(w.point, -1)))
    case RulerClick =>
      if RulerOffered(w.modes, loading) then
        w.(modes := w.modes.(measuringMode := !w.modes.measuringMode, rulerClicks := w.modes.rulerClicks + 1))
      else w
  }

  /** Applies a run of events, each with the loading state it arrived in. */
  function Run(w: Workspace, es: seq<(Event, bool)>): Workspace
    decreases |es|
  {
    if |es| == 0 then w else Run(Step(w, es[0].0, es[0].1), es[1..])
  }

  /** From start-up, no run of tab clicks, sub-tab clicks and ruler clicks
      reaches annotation mode together with measuring or with lighting. */
  lemma {:induction false} ReachableExclusive(w: Workspace, es: seq<(Event, bool)>)
    requires Exclusive(w.modes)
    ensures Exclusive(Run(w, es).modes)
    decreases |es|
  {
    if |es| > 0 {
      ReachableExclusive(Step(w, es[0].0, es[0].1), es[1..]);
    }
  }

  /** Measuring and lighting are not exclusive: opening the Lighting tab and
      then clicking the ruler (which stays on screen outside annotation mode)
      turns both on. */
  lemma MeasuringWhileLighting()
    ensures Run(Initial(), [(TabClick(LightingTab), false), (RulerClick, false)]).modes.measuringMode
    ensures Run(Initial(), [(TabClick(LightingTab), false), (RulerClick, false)]).modes.lightingMode
  {
  }

  /** After a tab click other than Lighting, no light of any kind has its
      transform gizmo active. */
  lemma TabClickHidesGizmos(w: Workspace, tab: Tab, loading: bool)
    requires TabEnabled(tab, loading) && tab != LightingTab
    ensures Lights.ActiveGizmos(|Step(w, TabClick(tab), loading).direct.items|, Step(w, TabClick(tab), loading).direct.selected) == {}
    ensures Lights.ActiveGizmos(|Step(w, TabClick(tab), loading).point.items|, Step(w, TabClick(tab), loading).point.selected) == {}
    ensures Lights.ActiveGizmos(|Step(w, TabClick(tab), loading).spot.items|, Step(w, TabClick(tab), loading).spot.selected) == {}
  {
  }
}
