/** The editor's three light lists (directional, point and spot). Each kind is
    the same pattern: a list of light records with a counter and a selected
    index, a capacity-bounded append, a delete by index, per-index field edits
    from the settings panels, and the write-back of a position after the
    transform gizmo has moved a light. */
module Lights {
  import opened Base
  import Lists

  /** A directional light: position, rotation (Euler angles), intensity and
      colour (the colour picker may hand back `undefined`). */
  datatype DirectLight = DirectLight(position: Vec3, rotation: Vec3, intensity: real, color: Option<string>)

  /** A point light; `distance` is its range. */
  datatype PointLight = PointLight(position: Vec3, intensity: real, color: Option<string>, distance: real)

  /** A spot light; `angle` is the cone's half-angle in radians. */
  datatype SpotLight = SpotLight(position: Vec3, intensity: real, color: Option<string>, distance: real, angle: real)

  /** One kind's list with its counter and selected index (`directLighting`,
      `counterDirectLight`, `selectedDirectLight` and their point and spot twins). */
  datatype LightList<L> = LightList(items: seq<L>, counter: int, selected: int)

  /** Start-up: no lights, counter 0, and the selection initialised to the
      counter, 0. */
  function Initial<L>(): (r: LightList<L>)
    ensures Valid(r) && r.selected == 0
  {
    LightList([], 0, 0)
  }

  /** The counter agrees with the list, which is within capacity. */
  predicate Valid<L>(ls: LightList<L>)
  {
    ls.counter == |ls.items| <= MaxCounter
  }

  /** `handlePlace…Light`: below capacity, `light` is appended, the counter
      goes up and the old counter value, the new light's index, is selected;
      at capacity nothing changes. */
  function Place<L>(ls: LightList<L>, light: L): (r: LightList<L>)
    ensures ls.counter < MaxCounter ==>
              r.items == ls.items + [light] && r.counter == ls.counter + 1 && r.selected == ls.counter
    ensures ls.counter >= MaxCounter ==> r == ls
    ensures Valid(ls) ==> Valid(r)
    ensures Valid(ls) && ls.counter < MaxCounter ==> r.items[r.selected] == light
  {
    if ls.counter < MaxCounter then LightList(ls.items + [light], ls.counter + 1, ls.counter)
    else ls
  }

  /** `handleDelete…Light(i)`: the counter goes down and light `i` is filtered
      out by reference (removal at `i` on distinct entries); the selection is
      left as it was. */
  function Delete<L>(ls: LightList<L>, i: int): (r: LightList<L>)
    ensures r.counter == ls.counter - 1 && r.selected == ls.selected
    ensures 0 <= i < |ls.items| ==> |r.items| == |ls.items| - 1
    ensures 0 <= i < |ls.items| ==>
              (forall k :: 0 <= k < i ==> r.items[k] == ls.items[k]) &&
              (forall k :: i <= k < |r.items| ==> r.items[k] == ls.items[k + 1])
    ensures !(0 <= i < |ls.items|) ==> r.items == ls.items
    ensures Valid(ls) && 0 <= i < |ls.items| ==> Valid(r)
  {
    LightList(Lists.RemoveAt(ls.items, i), ls.counter - 1, ls.selected)
  }

  /** The accordion's `onChange(index)`: the opened item becomes the selected
      light (-1 when every item is collapsed); the open item is the selected one. */
  function Select<L>(ls: LightList<L>, index: int): (r: LightList<L>)
    ensures r.selected == index && r.items == ls.items && r.counter == ls.counter
  {
    ls.(selected := index)
  }

  /** The light records a newly placed light starts from; `p` stands for the
      random position in the cube [-3, 3) on each axis. */
  function NewDirectLight(p: Vec3): (l: DirectLight)
    ensures l.position == p && l.rotation == Vec3(0.0, 0.0, 0.0)
    ensures l.intensity == 1.0 && l.color == Some("#ffffff")
  {
    DirectLight(p, Vec3(0.0, 0.0, 0.0), 1.0, Some("#ffffff"))
  }

  function NewPointLight(p: Vec3): (l: PointLight)
    ensures l.position == p && l.intensity == 1.0 && l.color == Some("#ffffff") && l.distance == 5.0
  {
    PointLight(p, 1.0, Some("#ffffff"), 5.0)
  }

  function NewSpotLight(p: Vec3): (l: SpotLight)
    ensures l.position == p && l.intensity == 1.0 && l.color == Some("#ffffff")
    ensures l.distance == 5.0 && l.angle == 0.3
  {
    SpotLight(p, 1.0, Some("#ffffff"), 5.0, 0.3)
  }

  // ---------------------------------------------------------------------------
  // Directional lights: settings-panel edits and gizmo write-back.

  /** `handleChangeColor(id, val)`: only entry `id`'s colour changes. */
  function SetDirectColor(ls: seq<DirectLight>, id: int, val: Option<string>): (r: seq<DirectLight>)
    ensures |r| == |ls|
    ensures forall k :: 0 <= k < |ls| && k != id ==> r[k] == ls[k]
    ensures 0 <= id < |ls| ==>
              r[id].color == val && r[id].position == ls[id].position &&
              r[id].rotation == ls[id].rotation && r[id].intensity == ls[id].intensity
  {
    Lists.MapAt(ls, id, (l: DirectLight) => l.(color := val))
  }

  /** `handleChangeIntensity(value)`, committed when the slider is released:
      only entry `id`'s intensity changes. */
  function SetDirectIntensity(ls: seq<DirectLight>, id: int, value: real): (r: seq<DirectLight>)
    ensures |r| == |ls|
    ensures forall k :: 0 <= k < |ls| && k != id ==> r[k] == ls[k]
    ensures 0 <= id < |ls| ==>
              r[id].intensity == value && r[id].position == ls[id].position &&
              r[id].rotation == ls[id].rotation && r[id].color == ls[id].color
  {
    Lists.MapAt(ls, id, (l: DirectLight) => l.(intensity := value))
  }

  /** The debounced write-back: entry `id` takes the gizmo's position
      `positionCurrent`; everything else is kept. */
  function WriteBackDirect(ls: seq<DirectLight>, id: int, positionCurrent: Vec3): (r: seq<DirectLight>)
    ensures |r| == |ls|
    ensures forall k :: 0 <= k < |ls| && k != id ==> r[k] == ls[k]
    ensures 0 <= id < |ls| ==>
              r[id].position == positionCurrent && r[id].rotation == ls[id].rotation &&
              r[id].intensity == ls[id].intensity && r[id].color == ls[id].color
  {
    Lists.MapAt(ls, id, (l: DirectLight) => l.(position := positionCurrent))
  }

  // ---------------------------------------------------------------------------
  // Point lights.

  function SetPointColor(ls: seq<PointLight>, id: int, val: Option<string>): (r: seq<PointLight>)
    ensures |r| == |ls|
    ensures forall k :: 0 <= k < |ls| && k != id ==> r[k] == ls[k]
    ensures 0 <= id < |ls| ==>
              r[id].color == val && r[id].position == ls[id].position &&
              r[id].intensity == ls[id].intensity && r[id].distance == ls[id].distance
  {
    Lists.MapAt(ls, id, (l: PointLight) => l.(color := val))
  }

  function SetPointIntensity(ls: seq<PointLight>, id: int, value: real): (r: seq<PointLight>)
    ensures |r| == |ls|
    ensures forall k :: 0 <= k < |ls| && k != id ==> r[k] == ls[k]
    ensures 0 <= id < |ls| ==>
              r[id].intensity == value && r[id].position == ls[id].position &&
              r[id].color == ls[id].color && r[id].distance == ls[id].distance
  {
    Lists.MapAt(ls, id, (l: PointLight) => l.(intensity := value))
  }

  function SetPointDistance(ls: seq<PointLight>, id: int, value: real): (r: seq<PointLight>)
    ensures |r| == |ls|
    ensures forall k :: 0 <= k < |ls| && k != id ==> r[k] == ls[k]
    ensures 0 <= id < |ls| ==>
              r[id].distance == value && r[id].position == ls[id].position &&
              r[id].intensity == ls[id].intensity && r[id].color == ls[id].color
  {
    Lists.MapAt(ls, id, (l: PointLight) => l.(distance := value))
  }

  function WriteBackPoint(ls: seq<PointLight>, id: int, positionCurrent: Vec3): (r: seq<PointLight>)
    ensures |r| == |ls|
    ensures forall k :: 0 <= k < |ls| && k != id ==> r[k] == ls[k]
    ensures 0 <= id < |ls| ==>
              r[id].position == positionCurrent && r[id].intensity == ls[id].intensity &&
              r[id].color == ls[id].color && r[id].distance == ls[id].distance
  {
    Lists.MapAt(ls, id, (l: PointLight) => l.(position := positionCurrent))
  }

  // ---------------------------------------------------------------------------
  // Spot lights.

  function SetSpotColor(ls: seq<SpotLight>, id: int, val: Option<string>): (r: seq<SpotLight>)
    ensures |r| == |ls|
    ensures forall k :: 0 <= k < |ls| && k != id ==> r[k] == ls[k]
    ensures 0 <= id < |ls| ==>
              r[id].color == val && r[id].position == ls[id].position &&
              r[id].intensity == ls[id].intensity && r[id].distance == ls[id].distance &&
              r[id].angle == ls[id].angle
  {
    Lists.MapAt(ls, id, (l: SpotLight) => l.(color := val))
  }

  function SetSpotIntensity(ls: seq<SpotLight>, id: int, value: real): (r: seq<SpotLight>)
    ensures |r| == |ls|
    ensures forall k :: 0 <= k < |ls| && k != id ==> r[k] == ls[k]
    ensures 0 <= id < |ls| ==>
              r[id].intensity == value && r[id].position == ls[id].position &&
              r[id].color == ls[id].color && r[id].distance == ls[id].distance &&
              r[id].angle == ls[id].angle
  {
    Lists.MapAt(ls, id, (l: SpotLight) => l.(intensity := value))
  }

  function SetSpotDistance(ls: seq<SpotLight>, id: int, value: real): (r: seq<SpotLight>)
    ensures |r| == |ls|
    ensures forall k :: 0 <= k < |ls| && k != id ==> r[k] == ls[k]
    ensures 0 <= id < |ls| ==>
              r[id].distance == value && r[id].position == ls[id].position &&
              r[id].intensity == ls[id].intensity && r[id].color == ls[id].color &&
              r[id].angle == ls[id].angle
  {
    Lists.MapAt(ls, id, (l: SpotLight) => l.(distance := value))
  }

  function SetSpotAngle(ls: seq<SpotLight>, id: int, value: real): (r: seq<SpotLight>)
    ensures |r| == |ls|
    ensures forall k :: 0 <= k < |ls| && k != id ==> r[k] == ls[k]
    ensures 0 <= id < |ls| ==>
              r[id].angle == value && r[id].position == ls[id].position &&
              r[id].intensity == ls[id].intensity && r[id].color == ls[id].color &&
              r[id].distance == ls[id].distance
  {
    Lists.MapAt(ls, id, (l: SpotLight) => l.(angle := value))
  }

  function WriteBackSpot(ls: seq<SpotLight>, id: int, positionCurrent: Vec3): (r: seq<SpotLight>)
    ensures |r| == |ls|
    ensures forall k :: 0 <= k < |ls| && k != id ==> r[k] == ls[k]
    ensures 0 <= id < |ls| ==>
              r[id].position == positionCurrent && r[id].intensity == ls[id].intensity &&
              r[id].color == ls[id].color && r[id].distance == ls[id].distance &&
              r[id].angle == ls[id].angle
  {
    Lists.MapAt(ls, id, (l: SpotLight) => l.(position := positionCurrent))
  }

  // ---------------------------------------------------------------------------
  // Selection and the transform gizmo.

  /** What each light's transform gizmo shows: its three axis handles and
      whether it reacts to dragging. */
  datatype Gizmo = Gizmo(showX: bool, showY: bool, showZ: bool, enabled: bool)

  /** The gizmo of light `i` when `sel` is the kind's selected index: every
      flag is the light's `selected` prop, `i === selected`. */
  function GizmoOf(i: int, sel: int): Gizmo
  {
    var selected := i == sel;
    Gizmo(selected, selected, selected, selected)
  }

  /** The indices among `n` lights whose gizmo is shown and enabled: the
      selected index when it names a light, and none otherwise (in particular
      none for -1, the value the tab handlers reset to). */
  function ActiveGizmos(n: nat, sel: int): (r: set<int>)
    ensures |r| <= 1
    ensures 0 <= sel < n ==> r == {sel}
    ensures !(0 <= sel < n) ==> r == {}
    ensures forall i :: i in r <==> 0 <= i < n && GizmoOf(i, sel).enabled
  {
    var r := set i | 0 <= i < n && GizmoOf(i, sel).enabled && GizmoOf(i, sel).showX;
    assert r == if 0 <= sel < n then {sel} else {};
    r
  }

  /** A gizmo is either fully on or fully off, and it is on exactly for the
      selected light. */
  lemma GizmoFollowsSelection(i: int, sel: int)
    ensures GizmoOf(i, sel).enabled <==> i == sel
    ensures GizmoOf(i, sel).showX == GizmoOf(i, sel).enabled
    ensures GizmoOf(i, sel).showY == GizmoOf(i, sel).enabled
    ensures GizmoOf(i, sel).showZ == GizmoOf(i, sel).enabled
  {
  }

  /** A freshly placed light is the one whose gizmo is active. */
  lemma PlaceActivatesNewGizmo<L>(ls: LightList<L>, light: L)
    requires Valid(ls) && ls.counter < MaxCounter
    ensures ActiveGizmos(|Place(ls, light).items|, Place(ls, light).selected) == {|ls.items|}
  {
  }

  // ---------------------------------------------------------------------------
  // Runs of list operations.

  /** The list operations of one light kind the editor offers. */
  datatype Op<L> = PlaceOp(light: L) | DeleteOp(i: int) | SelectOp(index: int)

  /** The delete buttons are rendered once per light, so a delete names one. */
  predicate Offered<L>(ls: LightList<L>, op: Op<L>)
  {
    op.DeleteOp? ==> 0 <= op.i < |ls.items|
  }

  function Apply<L>(ls: LightList<L>, op: Op<L>): LightList<L>
  {
    match op
    case PlaceOp(light) => Place(ls, light)
    case DeleteOp(i) => Delete(ls, i)
    case SelectOp(index) => Select(ls, index)
  }

  /** Runs the operations the panel offers, skipping any it would not. */
  function Run<L>(ls: LightList<L>, ops: seq<Op<L>>): LightList<L>
    decreases |ops|
  {
    if |ops| == 0 then ls
    else Run(if Offered(ls, ops[0]) then Apply(ls, ops[0]) else ls, ops[1..])
  }

  /** From start-up, every run of offered operations keeps the counter equal
      to the number of lights of that kind, and so at most `MaxCounter`. */
  lemma {:induction false} RunKeepsValid<L>(ls: LightList<L>, ops: seq<Op<L>>)
    requires Valid(ls)
    ensures Valid(Run(ls, ops))
    decreases |ops|
  {
    if |ops| > 0 {
      var next := if Offered(ls, ops[0]) then Apply(ls, ops[0]) else ls;
      assert Valid(next) by {
        if Offered(ls, ops[0]) {
          match ops[0]
          case PlaceOp(light) =>
          case DeleteOp(i) =>
          case SelectOp(index) =>
        }
      }
      RunKeepsValid(next, ops[1..]);
    }
  }

  /** Edits of two different lights do not interfere: applying them in either
      order gives the same list. */
  lemma DirectEditsCommute(ls: seq<DirectLight>, i: int, j: int, val: Option<string>, value: real)
    requires i != j
    ensures SetDirectIntensity(SetDirectColor(ls, i, val), j, value)
            == SetDirectColor(SetDirectIntensity(ls, j, value), i, val)
  {
    var a := SetDirectIntensity(SetDirectColor(ls, i, val), j, value);
    var b := SetDirectColor(SetDirectIntensity(ls, j, value), i, val);
    forall k | 0 <= k < |ls| ensures a[k] == b[k] {
    }
  }

  /** A gizmo write-back does not undo a settings edit made meanwhile: the
      light keeps the new colour and takes the new position. */
  lemma WriteBackKeepsEdit(ls: seq<SpotLight>, id: int, val: Option<string>, positionCurrent: Vec3)
    requires 0 <= id < |ls|
    ensures WriteBackSpot(SetSpotColor(ls, id, val), id, positionCurrent)[id]
            == ls[id].(color := val, position := positionCurrent)
  {
  }
}
