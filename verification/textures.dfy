/** The per-material texture panel: a colour per material and two lists of
    uploaded maps (base colour and normal), each keyed by material name. The
    panel edits colours by key, looks entries up with `find`, appends uploads,
    filters a material's maps out, and renders only for the material chosen in
    the selector. The editor hands the map lists' URLs to the texture loader. */
module Textures {
  import opened Base
  import Lists

  /** `{material, color}`; both may be `undefined`. */
  datatype ColorEntry = ColorEntry(material: Option<string>, color: Option<string>)

  /** `{material, url}`; the URL may be `null`. */
  datatype MapEntry = MapEntry(material: Option<string>, url: Option<string>)

  predicate ColorOf(material: string, e: ColorEntry)
  {
    e.material == Some(material)
  }

  predicate MapOf(material: string, e: MapEntry)
  {
    e.material == Some(material)
  }

  /** JavaScript truthiness of a `string | null`: neither null nor empty. */
  predicate Truthy(url: Option<string>)
  {
    url.Some? && url.value != ""
  }

  /** The colour list built once the model is loaded: one entry per material,
      in the model's order, with no colour. */
  function InitColors(materials: seq<string>): (r: seq<ColorEntry>)
    ensures |r| == |materials|
    ensures forall k :: 0 <= k < |r| ==> r[k].material == Some(materials[k]) && r[k].color.None?
  {
    seq(|materials|, k requires 0 <= k < |materials| => ColorEntry(Some(materials[k]), None))
  }

  /** `handleChangeColor(newColor)`: every entry of this material gets the new
      colour (`None` clears it); other entries and the order stay. */
  function ChangeColor(colors: seq<ColorEntry>, material: string, newColor: Option<string>): (r: seq<ColorEntry>)
    ensures |r| == |colors|
    ensures forall k :: 0 <= k < |colors| && ColorOf(material, colors[k]) ==>
              r[k] == ColorEntry(colors[k].material, newColor)
    ensures forall k :: 0 <= k < |colors| && !ColorOf(material, colors[k]) ==> r[k] == colors[k]
  {
    Lists.MapWhere(colors, e => ColorOf(material, e), (e: ColorEntry) => e.(color := newColor))
  }

  /** The panel's `colorItem`: the first colour entry of this material. */
  function FindColor(colors: seq<ColorEntry>, material: string): (r: Option<ColorEntry>)
    ensures r.Some? <==> exists k :: 0 <= k < |colors| && ColorOf(material, colors[k])
    ensures r.Some? ==> ColorOf(material, r.value)
    ensures r.Some? ==> exists k :: (0 <= k < |colors| && colors[k] == r.value &&
              forall j :: 0 <= j < k ==> !ColorOf(material, colors[j]))
  {
    Lists.Find(colors, e => ColorOf(material, e))
  }

  /** The first map entry of this material (`colorMapUrl`, `normalMapURL`). */
  function FindMap(maps: seq<MapEntry>, material: string): (r: Option<MapEntry>)
    ensures r.Some? <==> exists k :: 0 <= k < |maps| && MapOf(material, maps[k])
    ensures r.Some? ==> MapOf(material, r.value)
    ensures r.Some? ==> exists k :: (0 <= k < |maps| && maps[k] == r.value &&
              forall j :: 0 <= j < k ==> !MapOf(material, maps[j]))
  {
    Lists.Find(maps, e => MapOf(material, e))
  }

  /** After a colour change, this material's colour reads back as the new one,
      provided the list holds an entry for it. */
  lemma ColorReadBack(colors: seq<ColorEntry>, material: string, newColor: Option<string>)
    requires exists k :: 0 <= k < |colors| && ColorOf(material, colors[k])
    ensures FindColor(ChangeColor(colors, material, newColor), material).Some?
    ensures FindColor(ChangeColor(colors, material, newColor), material).value.color == newColor
  {
    var r := ChangeColor(colors, material, newColor);
    var k :| 0 <= k < |colors| && ColorOf(material, colors[k]);
    var p := (e: ColorEntry) => ColorOf(material, e);
    assert p(r[k]);
    var i := Lists.FirstIndex(r, p);
    assert i.Some?;
    assert ColorOf(material, colors[i.value]);
    assert FindColor(r, material) == Some(r[i.value]);
  }

  /** A colour change for one material never changes what another material
      reads back. */
  lemma ColorChangeIsolated(colors: seq<ColorEntry>, material: string, other: string, newColor: Option<string>)
    requires other != material
    ensures FindColor(ChangeColor(colors, material, newColor), other) == FindColor(colors, other)
  {
    var r := ChangeColor(colors, material, newColor);
    assert forall k :: 0 <= k < |colors| && ColorOf(other, colors[k]) ==> r[k] == colors[k];
    assert forall k :: 0 <= k < |colors| ==> (ColorOf(other, r[k]) <==> ColorOf(other, colors[k]));
    var p := (e: ColorEntry) => ColorOf(other, e);
    var a, b := Lists.FirstIndex(r, p), Lists.FirstIndex(colors, p);
    if b.Some? {
      assert a.Some? && !(a.value < b.value) && !(b.value < a.value);
    } else {
      assert a.None?;
    }
  }

  /** The upload handler: with a file chosen, one `{material, url}` entry is
      appended (the URL is the object URL the browser made for the file);
      without one, the list stays. */
  function AddMap(maps: seq<MapEntry>, material: string, upload: Option<string>): (r: seq<MapEntry>)
    ensures upload.None? ==> r == maps
    ensures upload.Some? ==> |r| == |maps| + 1 && r[..|maps|] == maps
    ensures upload.Some? ==> r[|maps|] == MapEntry(Some(material), upload)
  {
    if upload.Some? then maps + [MapEntry(Some(material), upload)] else maps
  }

  /** `handleDeleteMap`: every entry of this material is filtered out. */
  function DeleteMaps(maps: seq<MapEntry>, material: string): (r: seq<MapEntry>)
    ensures |r| <= |maps|
    ensures forall k :: 0 <= k < |r| ==> !MapOf(material, r[k]) && r[k] in maps
    ensures forall k :: 0 <= k < |maps| && !MapOf(material, maps[k]) ==> maps[k] in r
  {
    Lists.Filter(maps, e => !MapOf(material, e))
  }

  /** A delete keeps the surviving entries in their order: it distributes
      over concatenation, and a single entry survives exactly when it belongs
      to another material. Together these fix the result for every list. */
  lemma DeleteMapsAppend(a: seq<MapEntry>, b: seq<MapEntry>, material: string)
    ensures DeleteMaps(a + b, material) == DeleteMaps(a, material) + DeleteMaps(b, material)
    ensures DeleteMaps([], material) == []
    ensures forall e :: DeleteMaps([e], material) == if MapOf(material, e) then [] else [e]
  {
    Lists.FilterAppend(a, b, e => !MapOf(material, e));
  }

  /** On a well-keyed list, deleting a material's maps removes exactly its
      one entry and keeps the others in order, so the loader's list stays
      index-aligned with what is left. */
  lemma DeleteMapsIsRemoveAt(maps: seq<MapEntry>, material: string, i: int)
    requires WellKeyed(maps) && 0 <= i < |maps| && MapOf(material, maps[i])
    ensures DeleteMaps(maps, material) == Lists.RemoveAt(maps, i)
  {
    forall k | 0 <= k < |maps| && k != i
      ensures !MapOf(material, maps[k])
    {
      assert maps[k].material != maps[i].material;
    }
    Lists.FilterDropsOne(maps, i, e => !MapOf(material, e));
  }

  /** Deleting a material that has no map changes nothing. */
  lemma DeleteMapsAbsent(maps: seq<MapEntry>, material: string)
    requires forall k :: 0 <= k < |maps| ==> !MapOf(material, maps[k])
    ensures DeleteMaps(maps, material) == maps
  {
    Lists.FilterKeepsAll(maps, e => !MapOf(material, e));
  }

  /** After a delete, looking the material up finds nothing. */
  lemma DeleteThenFindNone(maps: seq<MapEntry>, material: string)
    ensures FindMap(DeleteMaps(maps, material), material).None?
  {
  }

  /** Deleting one material's maps leaves another material's entry as the
      lookup sees it. */
  lemma DeleteKeepsOthers(maps: seq<MapEntry>, material: string, other: string)
    requires other != material
    ensures FindMap(DeleteMaps(maps, material), other).Some? <==> FindMap(maps, other).Some?
  {
    var r := DeleteMaps(maps, material);
    if FindMap(maps, other).Some? {
      var k :| 0 <= k < |maps| && MapOf(other, maps[k]);
      assert maps[k] in r;
    }
  }

  /** An upload for a material without a map is what the lookup then finds;
      an existing entry keeps shadowing later uploads. */
  lemma AddThenFind(maps: seq<MapEntry>, material: string, url: string)
    ensures FindMap(maps, material).None? ==>
              FindMap(AddMap(maps, material, Some(url)), material) == Some(MapEntry(Some(material), Some(url)))
    ensures FindMap(maps, material).Some? ==>
              FindMap(AddMap(maps, material, Some(url)), material) == FindMap(maps, material)
  {
    Lists.FindAppend(maps, MapEntry(Some(material), Some(url)), e => MapOf(material, e));
  }

  /** The URL handed to the map preview (`MapURL`): the found entry's URL, or
      the empty string when there is none. The preview and its delete button
      show when it is truthy; otherwise the "Add" input is offered. */
  function PreviewUrl(maps: seq<MapEntry>, material: string): (r: Option<string>)
    ensures FindMap(maps, material).None? ==> r == Some("")
    ensures FindMap(maps, material).Some? ==> r == FindMap(maps, material).value.url
  {
    match FindMap(maps, material)
    case None => Some("")
    case Some(e) => e.url
  }

  /** The upload input is on screen only while the preview is not. */
  predicate UploadOffered(maps: seq<MapEntry>, material: string)
  {
    !Truthy(PreviewUrl(maps, material))
  }

  /** No material has two map entries, and every URL is truthy. */
  predicate WellKeyed(maps: seq<MapEntry>)
  {
    (forall i, j :: 0 <= i < j < |maps| ==> maps[i].material != maps[j].material)
    && forall k :: 0 <= k < |maps| ==> Truthy(maps[k].url) && maps[k].material.Some?
  }

  /** What the panel's map controls can do: upload a file (whose object URL
      is never empty) or delete this material's maps. */
  datatype MapEvent = Upload(material: string, url: string) | DeleteMap(material: string)

  function MapStep(maps: seq<MapEntry>, ev: MapEvent): seq<MapEntry>
  {
    match ev
    case Upload(material, url) =>
      if UploadOffered(maps, material) && url != "" then AddMap(maps, material, Some(url)) else maps
    case DeleteMap(material) => DeleteMaps(maps, material)
  }

  function MapRun(maps: seq<MapEntry>, evs: seq<MapEvent>): seq<MapEntry>
    decreases |evs|
  {
    if |evs| == 0 then maps else MapRun(MapStep(maps, evs[0]), evs[1..])
  }

  /** One upload or delete keeps the list well keyed. */
  lemma MapStepWellKeyed(maps: seq<MapEntry>, ev: MapEvent)
    requires WellKeyed(maps)
    ensures WellKeyed(MapStep(maps, ev))
  {
    match ev
    case Upload(material, url) =>
      if UploadOffered(maps, material) && url != "" {
        var r := AddMap(maps, material, Some(url));
        assert forall k :: 0 <= k < |maps| ==> r[k] == maps[k];
        assert forall k :: 0 <= k < |maps| ==> maps[k].material != Some(material);
      }
    case DeleteMap(material) =>
      DeleteMapsWellKeyed(maps, material);
  }

  /** Deleting a material's maps keeps the list well keyed: the survivors
      are entries of the original list, in its order. */
  lemma {:induction false} DeleteMapsWellKeyed(maps: seq<MapEntry>, material: string)
    requires WellKeyed(maps)
    ensures WellKeyed(DeleteMaps(maps, material))
    decreases |maps|
  {
    if |maps| > 0 {
      var p := (e: MapEntry) => !MapOf(material, e);
      var rest := maps[1..];
      assert WellKeyed(rest) by {
        assert forall i, j :: 0 <= i < j < |rest| ==> rest[i] == maps[i + 1] && rest[j] == maps[j + 1];
      }
      DeleteMapsWellKeyed(rest, material);
      var tail := DeleteMaps(rest, material);
      assert Lists.Filter(maps, p) == (if p(maps[0]) then [maps[0]] else []) + tail;
      forall k | 0 <= k < |tail|
        ensures tail[k].material != maps[0].material
      {
        assert tail[k] in rest;
      }
    }
  }

  /** From any well-keyed list (the empty one at start-up included), every run
      of uploads and deletes keeps at most one map per material, so the
      panel's first match is the only match. */
  lemma {:induction false} MapRunWellKeyed(maps: seq<MapEntry>, evs: seq<MapEvent>)
    requires WellKeyed(maps)
    ensures WellKeyed(MapRun(maps, evs))
    decreases |evs|
  {
    if |evs| > 0 {
      MapStepWellKeyed(maps, evs[0]);
      MapRunWellKeyed(MapStep(maps, evs[0]), evs[1..]);
    }
  }

  /** `getMapsUrls(maps)`: the truthy URLs, in list order. */
  function MapsUrls(maps: seq<MapEntry>): (r: seq<string>)
    ensures |r| <= |maps|
    ensures forall k :: 0 <= k < |r| ==> r[k] != ""
    decreases |maps|
  {
    if |maps| == 0 then []
    else (if Truthy(maps[0].url) then [maps[0].url.value] else []) + MapsUrls(maps[1..])
  }

  /** Every URL handed to the loader is the URL of some entry of the list. */
  lemma {:induction false} MapsUrlsFromEntries(maps: seq<MapEntry>, k: int)
    requires 0 <= k < |MapsUrls(maps)|
    ensures exists j :: 0 <= j < |maps| && maps[j].url == Some(MapsUrls(maps)[k])
    decreases |maps|
  {
    var tail := maps[1..];
    var rest := MapsUrls(tail);
    if Truthy(maps[0].url) {
      assert MapsUrls(maps) == [maps[0].url.value] + rest;
      if k == 0 {
        assert maps[0].url == Some(MapsUrls(maps)[0]);
      } else {
        MapsUrlsFromEntries(tail, k - 1);
        var j :| 0 <= j < |tail| && tail[j].url == Some(rest[k - 1]);
        assert maps[j + 1].url == Some(MapsUrls(maps)[k]);
      }
    } else {
      assert MapsUrls(maps) == rest;
      MapsUrlsFromEntries(tail, k);
      var j :| 0 <= j < |tail| && tail[j].url == Some(rest[k]);
      assert maps[j + 1].url == Some(MapsUrls(maps)[k]);
    }
  }

  /** Uploading appends exactly the new URL to the loader's list. */
  lemma {:induction false} MapsUrlsAppend(maps: seq<MapEntry>, e: MapEntry)
    ensures MapsUrls(maps + [e]) == MapsUrls(maps) + (if Truthy(e.url) then [e.url.value] else [])
    decreases |maps|
  {
    if |maps| == 0 {
      assert maps + [e] == [e];
    } else {
      assert (maps + [e])[1..] == maps[1..] + [e];
      MapsUrlsAppend(maps[1..], e);
    }
  }

  /** When every URL is truthy (as uploads keep it), the loader's list lines
      up with the map list index for index, which is how the editor pairs
      loaded textures with materials. */
  lemma {:induction false} MapsUrlsAligned(maps: seq<MapEntry>)
    requires forall k :: 0 <= k < |maps| ==> Truthy(maps[k].url)
    ensures |MapsUrls(maps)| == |maps|
    ensures forall k :: 0 <= k < |maps| ==> Some(MapsUrls(maps)[k]) == maps[k].url
    decreases |maps|
  {
    if |maps| > 0 {
      var tail := maps[1..];
      MapsUrlsAligned(tail);
      var rest := MapsUrls(tail);
      var r := MapsUrls(maps);
      assert r == [maps[0].url.value] + rest;
      forall k | 1 <= k < |maps|
        ensures Some(r[k]) == maps[k].url
      {
        assert r[k] == rest[k - 1] && tail[k - 1] == maps[k];
      }
    }
  }

  /** What one material's panel shows: the colour swatch (and its delete
      button) when a colour is set, and the two map previews. */
  datatype PanelView = PanelView(swatch: Option<string>, colorMap: Option<string>, normalMap: Option<string>)

  /** The panel for `material` renders only when it is the selected one. */
  function Panel(material: string, selectedMaterial: string, colors: seq<ColorEntry>,
                 colorMaps: seq<MapEntry>, normalMaps: seq<MapEntry>): (r: Option<PanelView>)
    ensures r.Some? <==> material == selectedMaterial
    ensures r.Some? ==> r.value.colorMap == PreviewUrl(colorMaps, material)
    ensures r.Some? ==> r.value.normalMap == PreviewUrl(normalMaps, material)
    ensures r.Some? && r.value.swatch.Some? ==>
              FindColor(colors, material).Some? && FindColor(colors, material).value.color == r.value.swatch
  {
    if selectedMaterial != material then None
    else
      var swatch := match FindColor(colors, material)
        case None => None
        case Some(e) => e.color;
      Some(PanelView(swatch, PreviewUrl(colorMaps, material), PreviewUrl(normalMaps, material)))
  }

  /** The swatch's delete button clears the colour: afterwards the selected
      material's panel shows no swatch, whatever the list held before. */
  lemma ClearColorHidesSwatch(material: string, colors: seq<ColorEntry>,
                              colorMaps: seq<MapEntry>, normalMaps: seq<MapEntry>)
    ensures Panel(material, material, ChangeColor(colors, material, None), colorMaps, normalMaps).value.swatch.None?
  {
    var r := ChangeColor(colors, material, None);
    var p := (e: ColorEntry) => ColorOf(material, e);
    var i := Lists.FirstIndex(r, p);
    if i.Some? {
      assert ColorOf(material, colors[i.value]);
      assert FindColor(r, material) == Some(r[i.value]);
    } else {
      assert FindColor(r, material).None?;
    }
  }

  /** Of the panels rendered for a model's materials, only the selected
      material's shows. */
  lemma OnePanelShows(materials: seq<string>, selectedMaterial: string, colors: seq<ColorEntry>,
                      colorMaps: seq<MapEntry>, normalMaps: seq<MapEntry>)
    ensures forall k :: 0 <= k < |materials| ==>
              (Panel(materials[k], selectedMaterial, colors, colorMaps, normalMaps).Some? <==>
               materials[k] == selectedMaterial)
  {
  }
}
