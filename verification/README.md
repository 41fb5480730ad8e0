# A model of the threediana editor core

threediana is a browser editor for a single glTF model. This project models its core in Dafny as immutable state plus pure transition functions. Lemmas then relate these functions to each other.

The editor's features in the model:

- **Annotations.** Placed by double-click, capped at `maxCounter = 10`. Each can be deleted, retitled, given info text and selected.
- **Lights.** Three kinds: directional, point and spot. Each kind has the same cap, and its own placement, deletion and selection. There are per-field editors. After a gizmo drag, the gizmo's position is written back. Only the selected light's transform gizmo is active.
- **Interaction session.** The `moved` flag that suppresses clicks after a camera gesture. The double-click placement guard and its one-time "too many annotations" warning. The ruler's two-click measurement lines and their per-frame labels.
- **Mode register.** The settings tabs, the lighting sub-tabs and the ruler button write the three flags `annotationMode`, `measuringMode` and `lightingMode`.
- **Annotations in the viewport.** Which text panel is visible. The icons' hover and click handlers, with the highlight of the matching settings panel. Where a text panel hangs below its annotation.
- **Scene settings.** The environment-map display name derived from a thumbnail path. The thumbnail lookup for the current HDR file. The environment switches with their local panel state and remount. The model-rotation gizmo that only the Scene tab may enable.
- **Textures.** The per-material colour list, and the colour-map and normal-map upload lists. The material panel's lookups, and the URL list handed to the texture loader.

Modules follow the components:

| module | models |
|---|---|
| `Base` | shared types and the constant 10 |
| `Lists` | JavaScript array idioms (`map`, `filter`, `find`, assignment by index) |
| `Annotations` | annotation state and handlers in `CanvasMain.tsx` |
| `Lights` | light lists in `CanvasMain.tsx`, the `*LightingSettings.tsx` editors, and the `*Lighting.tsx` gizmos |
| `Interaction` | the `Scene` component's listeners and `useFrame` pass |
| `Modes` | the tab and ruler handlers in `CanvasMain.tsx` |
| `AnnotationsMap` | `AnnotationsMap.tsx` |
| `SceneSettings` | `SceneSettings.tsx` |
| `Textures` | `TexturesSettings.tsx`, its use in `CanvasMain.tsx`, and `AddTexture.tsx`'s upload guard |

Behaviours of the code the model keeps:

- Deleting a measurement resets the line counter and the labels, but not `drawingLine`. A frame that finds the ruler off, or no mesh loaded, performs the same reset.
- A frame that finds a line being drawn but no label under the current line id throws inside `useFrame`. The model records this as the session's `faulted` flag, and `Interaction.UnlabelledLineFaults` shows a run that reaches it.
- Nothing keeps measuring and lighting apart. The ruler is shown on the Lighting tab (`Modes.MeasuringWhileLighting`). Only annotation mode excludes the other two.
- `moved` is a plain flag. A controls `change` or a wheel event sets it, and the controls' `start` and `end` events clear it. No latch keeps it set after a drag ends.
- The Materials tab leaves `measuringMode` as it was. The Lighting tab does not deselect lights.
- The material panel shows the FIRST map entry for its material. The material loop applies the LAST. The two agree on every list reachable through the panel (`Textures.MapRunWellKeyed`).

## Model

| member | source | states |
|---|---|---|
| `Annotations.Initial` | src/components/CanvasMain.tsx:110-127 | start-up has no annotations, counter 0, and selection `counter - 1` = -1 |
| `Annotations.StoreAt` | src/components/CanvasMain.tsx:535-542 | the JavaScript assignment `list[counter] = x`: replaces inside the list, appends at the end, and changes nothing at a negative index |
| `Annotations.Place` | src/components/CanvasMain.tsx:535-542 | below capacity, appends a blank annotation at the clicked point, increments the counter and selects the new entry; at capacity nothing changes; keeps the counter equal to the list length |
| `Annotations.Delete` | src/components/CanvasMain.tsx:132-139 | drops exactly entry `i`, keeps the order of the others, decrements the counter, keeps the selection; an out-of-range index breaks counter = length |
| `Annotations.SetTitle` | src/components/CanvasMain.tsx:141-155 | only entry `index`'s title changes; its info and position and every other entry stay |
| `Annotations.SetInfo` | src/components/CanvasMain.tsx:157-171 | only entry `index`'s info changes; its title and position and every other entry stay |
| `Annotations.RunKeepsValid` | src/components/CanvasMain.tsx:132-171 | every sequence of operations the interface offers keeps the counter equal to the number of annotations and at most 10 |
| `Annotations.AnyOpsKeepCounterBounded` | src/components/CanvasMain.tsx:132-139 | even deletes at indices outside the list never push the counter above 10 or above the list length |
| `Annotations.Select` | src/components/CanvasMain.tsx:548-550 | the chosen annotation becomes the selected one; list and counter are untouched |
| `Annotations.PlaceReadBack` | src/components/CanvasMain.tsx:535-542 | the placed entry sits at the old counter and is the selected one, with the clicked position and empty texts |
| `Lists.FilterOutIsRemoveAt` | src/components/CanvasMain.tsx:132-139 | filtering out the reference `list[i]` from a list of distinct entries removes exactly position `i`; out of range it removes nothing |
| `Lists.FilterOut` | src/components/CanvasMain.tsx:132-139 | keeps exactly the entries different from the removed one and nothing else; `Lists.FilterOutIsRemoveAt` pins their order |
| `Lists.FilterDropsOne` | src/components/TexturesSettings.tsx:197-203 | when only entry `i` fails the predicate, `filter` is removal at `i` |
| `Lists.FindAppend` | src/components/TexturesSettings.tsx:184-196 | appending to a list does not change an existing first match of `find`, and the new element is found only when nothing matched before |
| `Lights.Initial` | src/components/CanvasMain.tsx:187-211 | each light list starts empty with counter 0 and selection 0 |
| `Lights.Place` | src/components/CanvasMain.tsx:212-230 | below capacity, appends the new light, increments the counter and selects it; at capacity nothing changes; keeps counter = length |
| `Lights.Delete` | src/components/CanvasMain.tsx:231-238 | drops exactly light `i`, keeps the others in order, decrements the counter, keeps the selection |
| `Lights.Select` | src/components/DirectLightingSettings.tsx:152-157 | the opened accordion item becomes the selected light; the list and its counter are untouched |
| `Lights.NewDirectLight` | src/components/CanvasMain.tsx:212-230 | a new directional light is white, intensity 1, unrotated, at the given position |
| `Lights.NewPointLight` | src/components/CanvasMain.tsx:240-258 | a new point light is white, intensity 1, distance 5, at the given position |
| `Lights.NewSpotLight` | src/components/CanvasMain.tsx:268-287 | a new spot light is white, intensity 1, distance 5, angle 0.3, at the given position |
| `Lights.SetDirectColor` | src/components/DirectLightingSettings.tsx:53-81 | only light `id`'s colour changes |
| `Lights.SetDirectIntensity` | src/components/DirectLightingSettings.tsx:94-123 | only light `id`'s intensity changes |
| `Lights.SetPointColor` | src/components/PointLightingSettings.tsx:53-83 | only point light `id`'s colour changes |
| `Lights.SetPointIntensity` | src/components/PointLightingSettings.tsx:96-127 | only point light `id`'s intensity changes |
| `Lights.SetPointDistance` | src/components/PointLightingSettings.tsx:165-196 | only point light `id`'s distance changes |
| `Lights.SetSpotColor` | src/components/SpotLightingSettings.tsx:53-85 | only spot light `id`'s colour changes |
| `Lights.SetSpotIntensity` | src/components/SpotLightingSettings.tsx:98-131 | only spot light `id`'s intensity changes |
| `Lights.SetSpotDistance` | src/components/SpotLightingSettings.tsx:169-202 | only spot light `id`'s distance changes |
| `Lights.SetSpotAngle` | src/components/SpotLightingSettings.tsx:232-265 | only spot light `id`'s cone angle changes |
| `Lights.WriteBackDirect` | src/components/DirectLighting.tsx:58-91 | after a gizmo drag only light `id`'s position changes, to the gizmo's position |
| `Lights.WriteBackPoint` | src/components/PointLighting.tsx:59-92 | after a gizmo drag only point light `id`'s position changes |
| `Lights.WriteBackSpot` | src/components/SpotLighting.tsx:58-95 | after a gizmo drag only spot light `id`'s position changes |
| `Lights.ActiveGizmos` | src/components/DirectLighting.tsx:101-108 | at most one gizmo is active: the selected light's if the selection is in range, none otherwise |
| `Lights.GizmoFollowsSelection` | src/components/PointLighting.tsx:105-113 | a light's gizmo and its three axis handles are on exactly when it is the selected light |
| `Lights.PlaceActivatesNewGizmo` | src/components/SpotLighting.tsx:109-117 | after placing a light below capacity, the new light's gizmo is the only active one |
| `Lights.RunKeepsValid` | src/components/CanvasMain.tsx:212-295 | every sequence of offered place, delete and select operations keeps the counter equal to the list length and at most 10 |
| `Lights.DirectEditsCommute` | src/components/DirectLightingSettings.tsx:53-123 | edits to two different lights commute: colour then intensity equals intensity then colour |
| `Lights.WriteBackKeepsEdit` | src/components/SpotLighting.tsx:58-95 | a gizmo write-back after a colour edit keeps the new colour and moves the light |
| `Interaction.Initial` | src/components/CanvasMain.tsx:502-514 | a new session is not moved, draws no line, has line id 0 and no labels |
| `Interaction.OnGesture` | src/components/CanvasMain.tsx:890-902 | `moved` becomes true on a controls change or wheel, false on start or end, and nothing else changes |
| `Interaction.DblClick` | src/components/CanvasMain.tsx:524-606 | places exactly when the guard holds and the list is below capacity; warns exactly when the guard holds, the list is full and no warning is showing; a warning never changes the store |
| `Interaction.WarningRaisedOnce` | src/components/CanvasMain.tsx:580-606 | a double-click on a full list raises the warning, and a second one while it shows raises nothing |
| `Interaction.Click` | src/components/CanvasMain.tsx:649-675 | a click on the model in measuring mode without a drag starts a line, or finishes it and advances the line id; otherwise nothing changes |
| `Interaction.AnnotationFrame` | src/components/CanvasMain.tsx:697-726 | the pass only moves the placement point, and only to the surface point under the pointer; in annotation mode, at rest, off the text and with a mesh, a hit moves it to the hit point |
| `Interaction.MeasuringFrame` | src/components/CanvasMain.tsx:728-809 | with the ruler off or no mesh loaded, labels and line id are reset; otherwise only the current line's label may appear or move and finished labels stay; the frame fails exactly when a hit finds a line being drawn without a label |
| `Interaction.Frame` | src/components/CanvasMain.tsx:696-809 | one frame keeps `drawingLine`, keeps the line id in measuring mode with a mesh loaded, resets measurements otherwise, and keeps labels within the line ids |
| `Interaction.FinishedLinesAreKept` | src/components/CanvasMain.tsx:649-809 | in measuring mode with a mesh loaded, labels of finished lines survive both a frame and a click unchanged |
| `Interaction.MovedSuppressesActions` | src/components/CanvasMain.tsx:516-533 | after a camera gesture, clicks and double-clicks do nothing |
| `Interaction.LabelAnchor` | src/components/CanvasMain.tsx:797 | a label sits at the midpoint: equidistant from both ends, at half the line's length |
| `Interaction.MeasuringRunKeepsFinished` | src/components/CanvasMain.tsx:649-809 | in measuring mode, every run of frames with a mesh loaded, clicks and gestures keeps each finished label and never lowers the line id |
| `Interaction.UnlabelledLineFaults` | src/components/CanvasMain.tsx:649-797 | a wheel, a click that starts a line and a controls start leave a line being drawn with no label, and the next hit frame fails |
| `Interaction.OnTextHover` | src/components/CanvasMain.tsx:544-546 | entering or leaving a text panel sets `textHovered` to match, and nothing else changes |
| `Modes.Initial` | src/components/CanvasMain.tsx:110-127 | the editor starts with all three modes off |
| `Modes.TabModes` | src/components/CanvasMain.tsx:1063-1160 | Annotations turns only annotation mode on; Lighting turns only lighting on; Materials keeps measuring; the other tabs turn all three off |
| `Modes.Step` | src/components/CanvasMain.tsx:1036-1044 | tab, sub-tab and ruler clicks keep annotation mode exclusive and never touch the lights; disabled tabs and the hidden ruler do nothing; the ruler toggles measuring and counts the click |
| `Modes.ReachableExclusive` | src/components/CanvasMain.tsx:1063-1160 | no run of clicks reaches annotation mode together with measuring or lighting |
| `Modes.MeasuringWhileLighting` | src/components/CanvasMain.tsx:1036-1044 | the Lighting tab followed by the ruler turns measuring and lighting on together |
| `Modes.TabClickHidesGizmos` | src/components/CanvasMain.tsx:1313-1338 | after any tab other than Lighting, no light of any kind has an active gizmo |
| `AnnotationsMap.TextVisible` | src/components/AnnotationsMap.tsx:53-84 | a text panel is visible exactly when annotation mode is on, the controls are at rest, some annotation exists, and it is the selected one |
| `AnnotationsMap.VisibleTexts` | src/components/AnnotationsMap.tsx:53-97 | at most one text panel is visible; none outside annotation mode; exactly the selected one when it is in range and the controls are at rest |
| `AnnotationsMap.SelectedIsOnlyVisible` | src/components/AnnotationsMap.tsx:53-84 | the selected annotation's text is the only one showing |
| `AnnotationsMap.HoverScale` | src/components/AnnotationsMap.tsx:120-130 | the hovered icon is 1.3 times its resting size in x and y, with depth kept |
| `AnnotationsMap.OnIconClick` | src/components/AnnotationsMap.tsx:140-147 | in annotation mode a click selects the icon's annotation and clears `controlsChange`; otherwise nothing happens |
| `AnnotationsMap.OnIconHoverEnter` | src/components/CanvasMain.tsx:552-559 | in annotation mode the icon grows, and its settings panel gains the hover highlight unless it is the selected one; other panels keep theirs |
| `AnnotationsMap.OnIconHoverLeave` | src/components/CanvasMain.tsx:561-566 | in annotation mode the icon returns to rest and its panel loses the highlight; other panels keep theirs |
| `AnnotationsMap.MarkSelected` | src/components/CanvasMain.tsx:568-578 | the selected panel never keeps the hover highlight; other panels keep theirs |
| `AnnotationsMap.HoverRoundTrip` | src/components/AnnotationsMap.tsx:118-139 | entering and leaving an icon that was at rest and not highlighted leaves the state as it was |
| `AnnotationsMap.OnControlsStart` | src/components/AnnotationsMap.tsx:45-86 | a camera gesture's start sets `controlsChange`, hiding the text panels, and nothing else changes |
| `AnnotationsMap.TextAnchor` | src/components/AnnotationsMap.tsx:164-167 | the text hangs straight below its annotation by one sixtieth of the scene's summed dimensions; x and z are kept |
| `SceneSettings.SliceIndex` | src/components/SceneSettings.tsx:129-135 | JavaScript `slice` index normalisation: negatives count from the end, clamped into the string |
| `SceneSettings.Slice` | src/components/SceneSettings.tsx:129-135 | `slice` returns the characters between the two normalised indices, or nothing when they cross |
| `SceneSettings.ReplaceAll` | src/components/SceneSettings.tsx:129-135 | every occurrence is replaced and no other character changes; none of the replaced character remains |
| `SceneSettings.FileName` | src/components/SceneSettings.tsx:129-135 | the formatted name is 24 characters shorter than the path (or empty), has no underscore, and after its first letter copies the path with `_` as a space |
| `SceneSettings.FileNameIsDisplayName` | src/components/SceneSettings.tsx:129-135 | the source's two-slice formula equals the display name: the middle of the path, underscores as spaces, first letter capitalised |
| `SceneSettings.DisplayNameLength` | src/components/SceneSettings.tsx:129-135 | the name is 24 characters shorter than the path, or empty, and contains no underscore |
| `SceneSettings.DisplayNameChars` | src/components/SceneSettings.tsx:129-135 | after the first character, each character is the path character 14 places later with `_` as a space |
| `SceneSettings.FirstThumbName` | src/components/SceneSettings.tsx:103-135 | the first thumbnail's display name is "Clarens midday" |
| `SceneSettings.HdrsAreDistinct` | src/components/SceneSettings.tsx:103-119 | the six HDR files are pairwise distinct |
| `SceneSettings.ThumbFor` | src/components/SceneSettings.tsx:121-127 | the thumbnail paired with the current HDR file; the old one when no file matches |
| `SceneSettings.PickThumb` | src/components/SceneSettings.tsx:121-159 | picking thumbnail `i` selects HDR `i` and highlights exactly that thumbnail |
| `SceneSettings.InitialEnv` | src/components/CanvasMain.tsx:298-302 | the environment starts with colour on, map off and neither background flag |
| `SceneSettings.Mount` | src/components/SceneSettings.tsx:85-88 | on mount the sub-tab is Map exactly when only the map is on, and the background switch is on exactly when some background flag is |
| `SceneSettings.MainSwitch` | src/components/SceneSettings.tsx:396-405 | on turns colour on and map off; off turns everything off and resets the panel |
| `SceneSettings.BgSwitch` | src/components/SceneSettings.tsx:432-441 | sets the background flag of the open sub-tab alone |
| `SceneSettings.TabChange` | src/components/SceneSettings.tsx:453-470 | switching sub-tab switches the source and carries the background choice over |
| `SceneSettings.InitialPanel` | src/components/SceneSettings.tsx:85-88 | the panel mounted on the initial environment is consistent |
| `SceneSettings.RemountAgrees` | src/components/SceneSettings.tsx:85-88 | remounting a consistent panel reproduces its local state |
| `SceneSettings.EnvRunConsistent` | src/components/SceneSettings.tsx:396-470 | every run of switch, sub-tab and remount events keeps the panel consistent, so the two background flags are never both on |
| `SceneSettings.OffOnResets` | src/components/SceneSettings.tsx:396-405 | turning the environment off and on again returns to colour without background |
| `SceneSettings.AccordionChange` | src/components/SceneSettings.tsx:177-183 | the rotation gizmo is on exactly when the first accordion section is open |
| `SceneSettings.OpenSettingsTab` | src/components/CanvasMain.tsx:337-341 | leaving the Scene tab turns the rotation gizmo off |
| `SceneSettings.GizmoOnlyOnSceneTab` | src/components/CanvasMain.tsx:337-341 | in every run, the rotation gizmo is on only while the Scene tab is open |
| `Textures.InitColors` | src/components/CanvasMain.tsx:73-83 | one entry per material, in order, with no colour |
| `Textures.ChangeColor` | src/components/TexturesSettings.tsx:54-65 | entries of the material get the new colour; all others are unchanged |
| `Textures.FindColor` | src/components/TexturesSettings.tsx:76-78 | finds an entry exactly when one matches the material, and then the first such |
| `Textures.FindMap` | src/components/TexturesSettings.tsx:80-86 | finds a map entry exactly when one matches the material, and then the first such |
| `Textures.ColorReadBack` | src/components/TexturesSettings.tsx:54-78 | after changing a material's colour the panel reads back the new colour |
| `Textures.ColorChangeIsolated` | src/components/TexturesSettings.tsx:54-78 | changing one material's colour does not change what another material's panel shows |
| `Textures.AddMap` | src/components/TexturesSettings.tsx:184-196 | an upload appends one entry for the material with the new URL and earlier entries stay; without a file the list is unchanged |
| `Textures.AddThenFind` | src/components/TexturesSettings.tsx:184-196 | after an upload the material's map is found, and it is the new one if none existed |
| `Textures.DeleteMaps` | src/components/TexturesSettings.tsx:197-203 | removes every entry of the material and keeps all others; `Textures.DeleteMapsAppend` and `Textures.DeleteMapsIsRemoveAt` pin order and multiplicity |
| `Textures.DeleteMapsAppend` | src/components/TexturesSettings.tsx:197-203 | deletion distributes over concatenation and drops or keeps a single entry by its material, so it keeps the survivors' order and multiplicity |
| `Textures.DeleteMapsIsRemoveAt` | src/components/TexturesSettings.tsx:197-203 | in a list with one entry per material, deleting a material's maps removes exactly its position |
| `Textures.DeleteMapsAbsent` | src/components/TexturesSettings.tsx:223-229 | deleting a material without maps leaves the list as it was |
| `Textures.DeleteThenFindNone` | src/components/TexturesSettings.tsx:197-203 | after deleting, no map is found for the material |
| `Textures.DeleteKeepsOthers` | src/components/TexturesSettings.tsx:223-229 | deleting one material's maps does not change whether another material has one |
| `Textures.PreviewUrl` | src/components/AddTexture.tsx:66-98 | the preview URL is the found entry's URL, or the empty string when none is found |
| `Textures.MapRunWellKeyed` | src/components/TexturesSettings.tsx:184-229 | uploads offered only without a preview, and deletes, keep at most one entry per material |
| `Textures.MapsUrls` | src/components/CanvasMain.tsx:429-438 | the loader's URL list holds no empty URL and is no longer than the map list |
| `Textures.MapsUrlsFromEntries` | src/components/CanvasMain.tsx:429-438 | every URL handed to the loader is the URL of some entry of the map list |
| `Textures.MapsUrlsAppend` | src/components/CanvasMain.tsx:429-438 | appending an entry appends its URL exactly when it is truthy |
| `Textures.MapsUrlsAligned` | src/components/CanvasMain.tsx:429-438 | when every entry has a URL, the loader list is index-aligned with the entries |
| `Textures.Panel` | src/components/TexturesSettings.tsx:88-90 | a material panel renders exactly when its material is selected, showing that material's previews |
| `Textures.ClearColorHidesSwatch` | src/components/TexturesSettings.tsx:162-167 | after the swatch's delete button, the material's panel shows no colour |
| `Textures.OnePanelShows` | src/components/TexturesSettings.tsx:88-90 | among the materials, exactly the selected one's panel renders |

## Left out

- Raycasting: the pointer's hit on the model is an input of each frame. The surface-normal offset of the placement point is also left out.
- Measurement text: the distance shown on a label, its `toFixed` formatting and the square root. Only the label's midpoint position is modelled.
- DOM and styling: CSS classes beyond the hover highlight, the cursor, the toast's appearance. Whether a toast is active is an input.
- Timing: the debounced colour pickers, `regress` and adaptive pixel ratio.
- Asset loading: glTF and texture loaders, material cloning, and `traverse`. The loop that pairs loaded textures with materials by list index is not modelled; `Textures.MapsUrlsAligned` states the alignment it relies on.
- Listener registration: `Scene` adds its wheel, double-click and click listeners in its render body, so every render adds another copy. The model treats each listener as registered once.
- Viewport remount: `Scene` is declared inside the editor component, so every editor re-render remounts it. That resets `moved`, `textHovered`, `drawingLine`, `lineId` and the labels. The model keeps one session across editor renders.
- Random placement: the random positions given to new lights are parameters.
- Postprocessing and PostprocessingSettings, ThreeHud's rendering, DebouncedPicker, and the page entry: outside this model's core.
- AddTexture is modelled only through its upload guard and preview URL. The file input and its `createObjectURL` call are not modelled.
- Textures.MapRunWellKeyed: assumes an uploaded object URL is never the empty string.
- SceneSettings.UpperChar: upper-cases ASCII letters only, whereas `toUpperCase` also maps other scripts.
- Interaction.MeasuringFrame: the label's text is not modelled, only its presence and anchor.
