/** The Scene settings panel: the tooltip names of the HDR thumbnails, the
    lookup from the chosen HDR file to its thumbnail, the environment switches
    (colour or HDR environment, shown as background or not) with the panel's
    local `tabIndex` and `bgState`, and the model-rotation gizmo flag. */
module SceneSettings {

  // ---------------------------------------------------------------------
  // JavaScript string operations used by the file-name formatter

  /** How `String.prototype.slice` reads one index: a negative index counts
      from the end, and the result is clamped to `[0, len]`. */
  function SliceIndex(len: nat, i: int): (r: nat)
    ensures r <= len
    ensures 0 <= i <= len ==> r == i
    ensures i < 0 <= len + i ==> r - i == len
    ensures i > len ==> r == len
    ensures len + i < 0 ==> r == 0
  {
    if i < 0 then (if len + i >= 0 then len + i else 0)
    else if i <= len then i else len
  }

  /** `s.slice(start, end)`: the characters between the two read indices, or
      the empty string when they cross. */
  function Slice(s: string, start: int, end: int): (r: string)
    ensures var b, e := SliceIndex(|s|, start), SliceIndex(|s|, end);
            (b < e ==> |r| == e - b && forall k :: 0 <= k < |r| ==> r[k] == s[b + k]) &&
            (b >= e ==> r == [])
  {
    var b, e := SliceIndex(|s|, start), SliceIndex(|s|, end);
    if b < e then s[b..e] else []
  }

  /** `s.replaceAll(from, to)` for one-character patterns: every `from`
      becomes `to`, nothing else moves. */
  function ReplaceAll(s: string, from: char, to: char): (r: string)
    ensures |r| == |s|
    ensures forall k :: 0 <= k < |s| ==> r[k] == (if s[k] == from then to else s[k])
    ensures from != to ==> forall k :: 0 <= k < |r| ==> r[k] != from
  {
    seq(|s|, k requires 0 <= k < |s| => if s[k] == from then to else s[k])
  }

  /** `s.charAt(0)`: the first character, or the empty string. */
  function FirstChar(s: string): (r: string)
    ensures |s| == 0 ==> r == []
    ensures |s| > 0 ==> r == [s[0]]
  {
    if |s| == 0 then [] else s[..1]
  }

  /** `toUpperCase` on the ASCII letters. */
  function UpperChar(c: char): (r: char)
    ensures 'a' <= c <= 'z' ==> 'A' <= r <= 'Z' && r as int == c as int - 32
    ensures !('a' <= c <= 'z') ==> r == c
  {
    if 'a' <= c <= 'z' then (c as int - 32) as char else c
  }

  function Upper(s: string): (r: string)
    ensures |r| == |s|
    ensures forall k :: 0 <= k < |s| ==> r[k] == UpperChar(s[k])
  {
    seq(|s|, k requires 0 <= k < |s| => UpperChar(s[k]))
  }

  // ---------------------------------------------------------------------
  // Thumbnail names

  /** The fourteen characters of `/textures/hdr/` in front of every file
      name, and the ten of `_thumb.png` behind every thumbnail's name. */
  const PrefixLength: int := 14
  const SuffixLength: int := 10

  /** `handleFileName(name)`: the name between the fixed prefix and suffix,
      underscores turned into spaces and the first letter capitalised. */
  function FileName(name: string): (r: string)
    ensures |r| == if |name| <= PrefixLength + SuffixLength then 0
                   else |name| - PrefixLength - SuffixLength
    ensures forall k :: 0 <= k < |r| ==> r[k] != '_'
    ensures forall k :: 1 <= k < |r| ==>
              r[k] == (if name[PrefixLength + k] == '_' then ' ' else name[PrefixLength + k])
  {
    Upper(FirstChar(ReplaceAll(Slice(name, PrefixLength, -SuffixLength), '_', ' ')))
      + ReplaceAll(Slice(name, PrefixLength + 1, -SuffixLength), '_', ' ')
  }

  /** The name a reader sees for a path: empty when nothing lies between
      prefix and suffix; otherwise that middle part with each underscore read
      as a space and its first letter upper-case. */
  function DisplayName(name: string): (r: string)
  {
    if |name| <= PrefixLength + SuffixLength then []
    else
      var middle := name[PrefixLength..|name| - SuffixLength];
      [UpperChar(if middle[0] == '_' then ' ' else middle[0])]
        + ReplaceAll(middle[1..], '_', ' ')
  }

  /** Both slices of the formatter read the part between prefix and suffix:
      the whole of it, and all of it but its first character. */
  lemma MiddleSlices(name: string)
    ensures |name| <= PrefixLength + SuffixLength ==>
              Slice(name, PrefixLength, -SuffixLength) == [] &&
              Slice(name, PrefixLength + 1, -SuffixLength) == []
    ensures |name| > PrefixLength + SuffixLength ==>
              Slice(name, PrefixLength, -SuffixLength) == name[PrefixLength..|name| - SuffixLength] &&
              Slice(name, PrefixLength + 1, -SuffixLength) == name[PrefixLength + 1..|name| - SuffixLength]
  {
  }

  /** The formatter computes the display name for every string, including the
      empty `thumb` shown before the first lookup. */
  lemma FileNameIsDisplayName(name: string)
    ensures FileName(name) == DisplayName(name)
  {
    MiddleSlices(name);
    if |name| > PrefixLength + SuffixLength {
      var middle := name[PrefixLength..|name| - SuffixLength];
      assert middle[1..] == name[PrefixLength + 1..|name| - SuffixLength];
      var c := if middle[0] == '_' then ' ' else middle[0];
      var first := FirstChar(ReplaceAll(middle, '_', ' '));
      assert first == [c];
      assert Upper(first) == [UpperChar(c)];
    }
  }

  /** A display name is 24 characters shorter than its path (empty for
      shorter paths) and holds no underscore. */
  lemma DisplayNameLength(name: string)
    ensures |DisplayName(name)| == if |name| <= 24 then 0 else |name| - 24
    ensures forall k :: 0 <= k < |DisplayName(name)| ==> DisplayName(name)[k] != '_'
  {
  }

  /** After its first letter, a display name repeats the path's characters
      from the fifteenth on, underscores read as spaces. */
  lemma DisplayNameChars(name: string)
    ensures forall k :: 1 <= k < |DisplayName(name)| ==>
              DisplayName(name)[k] == (if name[PrefixLength + k] == '_' then ' ' else name[PrefixLength + k])
  {
    FileNameIsDisplayName(name);
  }

  /** The six thumbnails offered and the HDR file behind each, in the same
      order. */
  const Thumbs: seq<string> := [
    "/textures/hdr/clarens_midday_thumb.png",
    "/textures/hdr/clarens_night_02_thumb.png",
    "/textures/hdr/cyclorama_hard_light_thumb.png",
    "/textures/hdr/fouriesburg_mountain_lookout_thumb.png",
    "/textures/hdr/kloppenheim_06_puresky_thumb.png",
    "/textures/hdr/studio_small_08_thumb.png"
  ]

  const Hdrs: seq<string> := [
    "/textures/hdr/clarens_midday_2k.hdr",
    "/textures/hdr/clarens_night_02_2k.hdr",
    "/textures/hdr/cyclorama_hard_light_2k.hdr",
    "/textures/hdr/fouriesburg_mountain_lookout_2k.hdr",
    "/textures/hdr/kloppenheim_06_puresky_2k.hdr",
    "/textures/hdr/studio_small_08_2k.hdr"
  ]

  /** The editor's HDR file on start-up. */
  const InitialHdr: string := "/textures/hdr/clarens_midday_2k.hdr"

  /** A path made of the prefix, a middle part and the suffix is named after
      its middle part. */
  lemma DisplayNameOfParts(prefix: string, middle: string, suffix: string)
    requires |prefix| == PrefixLength && |suffix| == SuffixLength && |middle| > 0
    ensures DisplayName(prefix + middle + suffix) ==
              [UpperChar(if middle[0] == '_' then ' ' else middle[0])] + ReplaceAll(middle[1..], '_', ' ')
  {
    var name := prefix + middle + suffix;
    assert name[PrefixLength..|name| - SuffixLength] == middle;
  }

  lemma FirstThumbFormatted()
    ensures FileName(Thumbs[0]) == DisplayName("/textures/hdr/" + "clarens_midday" + "_thumb.png")
  {
    assert Thumbs[0] == "/textures/hdr/" + "clarens_midday" + "_thumb.png";
    FileNameIsDisplayName(Thumbs[0]);
  }

  lemma FirstThumbMiddle()
    ensures DisplayName("/textures/hdr/" + "clarens_midday" + "_thumb.png")
              == [UpperChar('c')] + ReplaceAll("larens_midday", '_', ' ')
  {
    var prefix, middle, suffix := "/textures/hdr/", "clarens_midday", "_thumb.png";
    DisplayNameOfParts(prefix, middle, suffix);
    assert middle[0] == 'c' && middle[1..] == "larens_midday";
  }

  /** Two words joined by one underscore read as two words joined by a
      space. */
  lemma ReplaceOneUnderscore(a: string, b: string)
    requires forall k :: 0 <= k < |a| ==> a[k] != '_'
    requires forall k :: 0 <= k < |b| ==> b[k] != '_'
    ensures ReplaceAll(a + "_" + b, '_', ' ') == a + " " + b
  {
    var s, t := a + "_" + b, a + " " + b;
    var r := ReplaceAll(s, '_', ' ');
    forall k | 0 <= k < |s|
      ensures r[k] == t[k]
    {
      if k < |a| {
        assert s[k] == a[k] && t[k] == a[k];
      } else if k == |a| {
        assert s[k] == '_' && t[k] == ' ';
      } else {
        assert s[k] == b[k - |a| - 1] && t[k] == b[k - |a| - 1];
      }
    }
  }

  lemma FirstThumbTail()
    ensures ReplaceAll("larens_midday", '_', ' ') == "larens midday"
  {
    assert "larens_midday" == "larens" + "_" + "midday";
    assert "larens midday" == "larens" + " " + "midday";
    ReplaceOneUnderscore("larens", "midday");
  }

  lemma FirstThumbCapital()
    ensures [UpperChar('c')] + "larens midday" == "Clarens midday"
  {
    assert UpperChar('c') == 'C';
  }

  /** The first thumbnail's tooltip. */
  lemma FirstThumbName()
    ensures FileName(Thumbs[0]) == "Clarens midday"
  {
    FirstThumbFormatted();
    FirstThumbMiddle();
    FirstThumbTail();
    FirstThumbCapital();
  }

  /** The HDR files are pairwise different. */
  predicate HdrsDistinct()
  {
    forall i, j :: 0 <= i < j < |Hdrs| ==> Hdrs[i] != Hdrs[j]
  }

  lemma HdrsAreDistinct()
    ensures HdrsDistinct()
  {
  }

  /** The effect that follows each render: walk the HDR list and, on every
      entry equal to the chosen file, take the thumbnail at the same index.
      The last match wins; with no match the thumbnail stays as it was. */
  method ThumbFor(envMapFile: string, thumb: string) returns (r: string)
    ensures (forall i :: 0 <= i < |Hdrs| ==> Hdrs[i] != envMapFile) ==> r == thumb
    ensures forall i :: (0 <= i < |Hdrs| && Hdrs[i] == envMapFile &&
              forall j :: i < j < |Hdrs| ==> Hdrs[j] != envMapFile) ==> r == Thumbs[i]
    ensures forall i :: 0 <= i < |Hdrs| && Hdrs[i] == envMapFile ==> r == Thumbs[i]
  {
    r := thumb;
    var last := -1;
    var k := 0;
    while k < |Hdrs|
      invariant 0 <= k <= |Hdrs|
      invariant -1 <= last < k
      invariant last == -1 ==> r == thumb
      invariant last >= 0 ==> Hdrs[last] == envMapFile && r == Thumbs[last]
      invariant forall j :: last < j < k ==> Hdrs[j] != envMapFile
    {
      if Hdrs[k] == envMapFile {
        r := Thumbs[k];
        last := k;
      }
      k := k + 1;
    }
    HdrsAreDistinct();
  }

  /** The indices of the thumbnails drawn highlighted for the current
      `thumb`. */
  function Highlighted(thumb: string): (r: set<int>)
    ensures forall i :: i in r <==> 0 <= i < |Thumbs| && Thumbs[i] == thumb
  {
    set i | 0 <= i < |Thumbs| && Thumbs[i] == thumb
  }

  /** Clicking thumbnail `i` chooses HDR file `i`; the following effect then
      shows thumbnail `i` as the only highlighted one, whatever was shown
      before. */
  method PickThumb(i: int, thumb: string) returns (envMapFile: string, shown: string)
    requires 0 <= i < |Thumbs|
    ensures envMapFile == Hdrs[i]
    ensures shown == Thumbs[i]
    ensures Highlighted(shown) == {i}
  {
    envMapFile := Hdrs[i];
    shown := ThumbFor(envMapFile, thumb);
    assert forall j :: 0 <= j < |Thumbs| && j != i ==> Thumbs[j] != Thumbs[i];
    assert Highlighted(shown) == {i};
  }

  // ---------------------------------------------------------------------
  // Environment switches

  /** The editor's environment state: colour environment, HDR environment,
      and whether each is also drawn as the background. */
  datatype Env = Env(colorState: bool, mapState: bool, colorBG: bool, mapBG: bool)

  /** The panel's own state: the open sub-tab (0 Color, 1 HDR) and the
      background switch. */
  datatype Local = Local(tabIndex: int, bgState: bool)

  datatype Panel = Panel(env: Env, local: Local)

  /** The editor starts with the colour environment on and no background. */
  function InitialEnv(): (e: Env)
    ensures e.colorState && !e.mapState && !e.colorBG && !e.mapBG
  {
    Env(true, false, false, false)
  }

  /** Whether some environment is on; the main switch shows this. */
  predicate EnvOn(e: Env)
  {
    e.colorState || e.mapState
  }

  /** The panel's local state as it is initialised whenever the panel is
      mounted (the settings tabs mount their panels lazily): the Color tab
      unless only the HDR environment is on; the background switch on if
      either background is. */
  function Mount(e: Env): (l: Local)
    ensures l.tabIndex == 1 <==> !e.colorState && e.mapState
    ensures l.tabIndex == 0 || l.tabIndex == 1
    ensures l.bgState <==> e.colorBG || e.mapBG
  {
    Local(if e.colorState then 0 else if e.mapState then 1 else 0, e.colorBG || e.mapBG)
  }

  /** The main switch set to `checked`: the colour environment follows it and
      the HDR environment goes off; switching off also resets the sub-tab and
      both backgrounds. */
  function MainSwitch(p: Panel, checked: bool): (r: Panel)
    ensures r.env.colorState == checked && !r.env.mapState
    ensures checked ==> r.local == p.local && r.env.colorBG == p.env.colorBG && r.env.mapBG == p.env.mapBG
    ensures !checked ==> r.local == Local(0, false) && !r.env.colorBG && !r.env.mapBG
  {
    var env := p.env.(colorState := checked, mapState := false);
    if !checked then Panel(env.(colorBG := false, mapBG := false), Local(0, false))
    else Panel(env, p.local)
  }

  /** The background switch set to `checked`: it is remembered, and the
      background of the environment of the open sub-tab follows it while the
      other background goes off. */
  function BgSwitch(p: Panel, checked: bool): (r: Panel)
    ensures r.local == p.local.(bgState := checked)
    ensures r.env.colorState == p.env.colorState && r.env.mapState == p.env.mapState
    ensures p.local.tabIndex == 0 ==> r.env.colorBG == checked && !r.env.mapBG
    ensures p.local.tabIndex == 1 ==> r.env.mapBG == checked && !r.env.colorBG
    ensures p.local.tabIndex != 0 && p.local.tabIndex != 1 ==> r.env == p.env
  {
    var local := p.local.(bgState := checked);
    if p.local.tabIndex == 0 then Panel(p.env.(colorBG := checked, mapBG := false), local)
    else if p.local.tabIndex == 1 then Panel(p.env.(mapBG := checked, colorBG := false), local)
    else Panel(p.env, local)
  }

  /** Opening sub-tab `index`: its environment goes on and the other off, and
      with the background switch on the background moves along. */
  function TabChange(p: Panel, index: int): (r: Panel)
    ensures r.local == p.local.(tabIndex := index)
    ensures index == 0 ==> r.env.colorState && !r.env.mapState
    ensures index == 1 ==> r.env.mapState && !r.env.colorState
    ensures (index == 0 || index == 1) && p.local.bgState ==>
              r.env.colorBG == (index == 0) && r.env.mapBG == (index == 1)
    ensures !p.local.bgState ==> r.env.colorBG == p.env.colorBG && r.env.mapBG == p.env.mapBG
    ensures index != 0 && index != 1 ==> r.env == p.env
  {
    var local := p.local.(tabIndex := index);
    if index == 0 then
      var env := p.env.(colorState := true, mapState := false);
      Panel(if p.local.bgState then env.(colorBG := true, mapBG := false) else env, local)
    else if index == 1 then
      var env := p.env.(mapState := true, colorState := false);
      Panel(if p.local.bgState then env.(mapBG := true, colorBG := false) else env, local)
    else Panel(p.env, local)
  }

  /** What a user can do in the panel. The switches toggle what they show;
      the background switch and the sub-tabs are on screen only while an
      environment is on, and there are two sub-tabs. Reopening the panel
      mounts it afresh. */
  datatype EnvEvent = ToggleMain | ToggleBg | OpenSubTab(index: int) | Reopen

  function EnvStep(p: Panel, ev: EnvEvent): Panel
  {
    match ev
    case ToggleMain => MainSwitch(p, !EnvOn(p.env))
    case ToggleBg => if EnvOn(p.env) then BgSwitch(p, !(p.env.colorBG || p.env.mapBG)) else p
    case OpenSubTab(index) =>
      if EnvOn(p.env) && (index == 0 || index == 1) then TabChange(p, index) else p
    case Reopen => Panel(p.env, Mount(p.env))
  }

  function EnvRun(p: Panel, evs: seq<EnvEvent>): Panel
    decreases |evs|
  {
    if |evs| == 0 then p else EnvRun(EnvStep(p, evs[0]), evs[1..])
  }

  /** At most one environment and at most one background are on, and a
      background is only drawn by an environment that is on. */
  predicate EnvSound(e: Env)
  {
    !(e.colorState && e.mapState) && (e.colorBG ==> e.colorState) && (e.mapBG ==> e.mapState)
  }

  /** The panel's local state agrees with the environment: the open sub-tab
      is the environment that is on (the Color tab when none is), and the
      background switch shows whether a background is drawn. */
  predicate Consistent(p: Panel)
  {
    EnvSound(p.env)
    && (p.local.tabIndex == 0 || p.local.tabIndex == 1)
    && (p.local.tabIndex == 1 <==> p.env.mapState)
    && (p.local.bgState <==> p.env.colorBG || p.env.mapBG)
  }

  function InitialPanel(): (p: Panel)
    ensures Consistent(p)
  {
    Panel(InitialEnv(), Mount(InitialEnv()))
  }

  /** In a consistent panel, mounting afresh changes nothing. */
  lemma RemountAgrees(p: Panel)
    requires Consistent(p)
    ensures Mount(p.env) == p.local
  {
  }

  lemma EnvStepConsistent(p: Panel, ev: EnvEvent)
    requires Consistent(p)
    ensures Consistent(EnvStep(p, ev))
  {
    match ev
    case ToggleMain =>
    case ToggleBg =>
    case OpenSubTab(index) =>
    case Reopen => RemountAgrees(p);
  }

  /** Every run of the panel's controls from start-up keeps it consistent:
      never both environments or both backgrounds, and no background without
      its environment. */
  lemma {:induction false} EnvRunConsistent(p: Panel, evs: seq<EnvEvent>)
    requires Consistent(p)
    ensures Consistent(EnvRun(p, evs))
    ensures !(EnvRun(p, evs).env.colorBG && EnvRun(p, evs).env.mapBG)
    decreases |evs|
  {
    if |evs| > 0 {
      EnvStepConsistent(p, evs[0]);
      EnvRunConsistent(EnvStep(p, evs[0]), evs[1..]);
    }
  }

  /** Switching the environment off and on again lands on the colour
      environment with no background, whatever was on before. */
  lemma OffOnResets(p: Panel)
    requires Consistent(p) && EnvOn(p.env)
    ensures EnvRun(p, [ToggleMain, ToggleMain]) == Panel(Env(true, false, false, false), Local(0, false))
  {
  }

  // ---------------------------------------------------------------------
  // Model rotation gizmo

  /** The index of the Scene tab among the editor's settings tabs. */
  const SceneTabIndex: int := 3

  /** The editor's open settings tab and whether the model's rotation gizmo is
      on. */
  datatype Rotation = Rotation(tabIndex: int, rotationState: bool)

  /** Opening or closing an item of the panel's accordion: the gizmo is on
      exactly when the Model item (index 0) is open. */
  function AccordionChange(rot: Rotation, index: int): (r: Rotation)
    ensures r.rotationState <==> index == 0
    ensures r.tabIndex == rot.tabIndex
  {
    rot.(rotationState := index == 0)
  }

  /** Opening settings tab `index`; the effect on the tab index switches the
      gizmo off on every tab but Scene. */
  function OpenSettingsTab(rot: Rotation, index: int): (r: Rotation)
    ensures r.tabIndex == index
    ensures index != SceneTabIndex ==> !r.rotationState
    ensures index == SceneTabIndex ==> r.rotationState == rot.rotationState
  {
    Rotation(index, if index != SceneTabIndex then false else rot.rotationState)
  }

  datatype RotationEvent = OpenTab(index: int) | Accordion(item: int)

  /** The accordion is inside the Scene panel, which is only mounted while
      the Scene tab is open. */
  function RotationStep(rot: Rotation, ev: RotationEvent): Rotation
  {
    match ev
    case OpenTab(index) => OpenSettingsTab(rot, index)
    case Accordion(item) => if rot.tabIndex == SceneTabIndex then AccordionChange(rot, item) else rot
  }

  function RotationRun(rot: Rotation, evs: seq<RotationEvent>): Rotation
    decreases |evs|
  {
    if |evs| == 0 then rot else RotationRun(RotationStep(rot, evs[0]), evs[1..])
  }

  /** From start-up (first tab open, gizmo off), the rotation gizmo is only
      ever on while the Scene tab is open. */
  lemma {:induction false} GizmoOnlyOnSceneTab(rot: Rotation, evs: seq<RotationEvent>)
    requires rot.rotationState ==> rot.tabIndex == SceneTabIndex
    ensures RotationRun(rot, evs).rotationState ==> RotationRun(rot, evs).tabIndex == SceneTabIndex
    decreases |evs|
  {
    if |evs| > 0 {
      GizmoOnlyOnSceneTab(RotationStep(rot, evs[0]), evs[1..]);
    }
  }
}
