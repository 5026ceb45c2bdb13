# Humanmeter core in Dafny

A model of the state logic of a small Angular application with three
screens:

- an anatomy **viewer** that shows a three.js scene (a fallback demo body
  or a glTF model from a file or a URL), offers one visibility checkbox per
  top-level group, and highlights the mesh the user clicks while printing
  its ancestry;
- a **deed checklist** ("humanmeter") whose store keeps the day's deeds, a
  completion percent, user preferences and a history of the last seven
  recorded day resets, and whose
  page celebrates reaching 100% and announces each change of progress;
- a simulated **sensor board** with six sensors, per-sensor configuration,
  sampling timers and an activity log.

Everything is immutable data and pure transitions. The scene graph is a
tree of `SceneTree.Node`s, and a node is identified by its address, the
list of child indices leading to it. Materials are shared objects, so a
mesh refers to its material by identity and the live emissive colours form
one map. Colours are integer thousandths of three.js's float channels. The
ray caster is an oracle: `Viewer.Pick` receives the ordered hit list as
positions in the pick index. Storage, clocks, `Math.random` and timers
become parameters. A timer is the interval it was started with. Sensor
output data rates are integer tenths of a hertz, and `Math.round` of a
quotient is computed exactly in integers.

Modules: `Wrappers` (Option), `Text` (`||` on strings, `slice`, `join`,
`trim`), `Rounding` (`Math.round` of a quotient), `SceneTree`, `PickIndex`
(`collectPickMeshes`), `Layers` (`buildLayerUI`), `Viewer` (loading,
`clearScene`, layer checkboxes, `onPick`, the demo), `Store`
(`StoreService`), `Sensors` (`SensorsService`) and `Meter`
(`HumanmeterComponent`).

Some behaviours of the code are worth stating plainly, since a reader might
expect otherwise:

- There is no load counter. A URL load clears rootGroup when it starts and
  appends its scene when it completes, so two overlapping loads leave both
  scenes attached, with the panel and pick index taken from the later
  completion (`Viewer.OverlappingLoadsKeepBoth`).
- The file handler reads the file's bytes first and clears the scene only
  once they have arrived. A file that cannot be read leaves the viewer as
  it was (`Viewer.FileChosen`).
- Layer rows are offered for Object3D children as well as Group children.
- The "Whole model" row is bound to the loaded scene, which sits under
  rootGroup, not to rootGroup itself.
- A load whose decoding fails after the clear leaves rootGroup empty.

## Model

| member | source | states |
|---|---|---|
| Text.Trim | src/app/viewer/viewer.component.ts:143 | the trimmed URL is empty exactly when the field holds only whitespace; otherwise it neither starts nor ends with whitespace |
| Text.TrimRecoversCore | src/app/viewer/viewer.component.ts:143 | trimming whitespace from around a text whose ends are not whitespace gives back exactly that text |
| SceneTree.AncestorLabelsWalkUp | src/app/viewer/viewer.component.ts:171-173 | the ancestor list of a node holds, for each depth, the name-or-type of the ancestor at that depth, nearest first, as a walk along parent links meets them |
| SceneTree.SetVisibleChangesOnlyTarget | src/app/viewer/viewer.component.ts:94 | setting one node's visible flag keeps every name, type, material and child list, and leaves every other node's flag unchanged |
| SceneTree.HideSubtree | src/app/viewer/viewer.component.ts:94 | hiding a node stops everything beneath it from being drawn and leaves what is drawn elsewhere unchanged |
| PickIndex.CollectIsPreorderMeshes | src/app/viewer/viewer.component.ts:100-104 | the pick index lists exactly the Mesh nodes of the subtree, in depth-first pre-order, with the subtree root first when it is a mesh |
| PickIndex.AscendingDistinct | src/app/viewer/viewer.component.ts:100-104 | a list in pre-order names no node twice, so the pick index has no duplicates |
| Layers.ContainerIndices | src/app/viewer/viewer.component.ts:82 | the filter keeps exactly the Group and Object3D children, in child order |
| Layers.BuildLayers | src/app/viewer/viewer.component.ts:80-98 | with no Group or Object3D child there is a single ticked "Whole model" row bound to the scene; otherwise one ticked row per such child, in child order, captioned with its name or "Group" and bound to it |
| Viewer.DemoLayers | src/app/viewer/viewer.component.ts:190-198 | the demo's panel is Skin, Muscles, Skeleton, bound to the three groups |
| Viewer.DemoPickIndex | src/app/viewer/viewer.component.ts:193-198 | the demo's pick index is Head, Torso, Biceps, Femur in that order |
| Viewer.Boot | src/app/viewer/viewer.component.ts:202-206 | after start-up rootGroup holds the demo alone, the panel is Skin, Muscles, Skeleton, the pick index is the four demo meshes, and every material shows its own colour with nothing tinted |
| Viewer.BootInv | src/app/viewer/viewer.component.ts:202-206 | the start-up state has its panel and pick index derived from the tree and keeps the highlight discipline |
| Viewer.AtMostOneTinted | src/app/viewer/viewer.component.ts:163-169 | any two materials showing a colour other than their own are the same one, the saved highlight, whose own colour is saved |
| Viewer.ClearScene | src/app/viewer/viewer.component.ts:122-126 | rootGroup loses its children and keeps its own name, kind, visibility and material; the panel is empty and the selection reads "Nothing selected"; the pick index, highlight and info text are left as they were |
| Viewer.CompleteLoad | src/app/viewer/viewer.component.ts:113-120 | the decoded scene is appended as rootGroup's last child, rootGroup and its earlier children otherwise unchanged, and the panel and pick index are rebuilt from that scene |
| Viewer.LoadUrlClicked | src/app/viewer/viewer.component.ts:142-145 | a blank field changes nothing; otherwise the scene is cleared and the trimmed URL is fetched |
| Viewer.FileChosen | src/app/viewer/viewer.component.ts:130-134 | no file, or a file that cannot be read, changes nothing; once the first file's bytes arrive, rootGroup and the panel are emptied and the selection reads "Nothing selected", with the pick index, highlight, colours and info text kept, and the bytes go to the decoder |
| Viewer.FileLoadReplacesScene | src/app/viewer/viewer.component.ts:130-139 | a file load that runs alone leaves rootGroup holding only the decoded scene, with the panel and pick index derived from it; an unreadable file leaves the viewer as it was |
| Viewer.LoadReplacesScene | src/app/viewer/viewer.component.ts:113-120 | a load that runs alone leaves rootGroup holding only the new scene, with the panel and pick index derived from it |
| Viewer.OverlappingLoadsKeepBoth | src/app/viewer/viewer.component.ts:113-120 | two loads started before either completes leave both scenes under rootGroup, with the panel and index from the later completion |
| Viewer.InvClearScene | src/app/viewer/viewer.component.ts:122-126 | clearing keeps the derived lists consistent with the tree |
| Viewer.InvCompleteLoad | src/app/viewer/viewer.component.ts:116-119 | completing a load keeps the derived lists consistent with the tree and every row bound to an existing node |
| Viewer.ConsistentCompleteLoad | src/app/viewer/viewer.component.ts:113-120 | loading adds the new materials at their own colours and keeps the highlight discipline |
| Viewer.SetLayer | src/app/viewer/viewer.component.ts:91-97 | a checkbox change sets only its bound node's visible flag to the checkbox value, and only that row's tick |
| Viewer.InvSetLayer | src/app/viewer/viewer.component.ts:94 | a checkbox change keeps the derived lists consistent with the tree |
| Viewer.DemoHideMuscles | src/app/viewer/viewer.component.ts:94 | unticking Muscles in the demo hides every node of the Muscles group |
| Viewer.DemoHideMusclesKeepsOthers | src/app/viewer/viewer.component.ts:94 | unticking Muscles in the demo keeps every node outside the Muscles group drawn |
| SceneTree.AllVisibleShown | src/app/viewer/viewer.component.ts:94 | when no visible flag is cleared, every node is drawn |
| Viewer.Pick | src/app/viewer/viewer.component.ts:157-180 | a miss leaves no highlight and shows the hint texts; a hit selects hits[0] by name or "Mesh", tints its material exactly when it has an emissive colour, and shows the first four entries of its ancestry |
| Viewer.InvPick | src/app/viewer/viewer.component.ts:157-180 | picking keeps the derived lists consistent with the tree |
| Viewer.ConsistentPick | src/app/viewer/viewer.component.ts:163-169 | after every pick, each material shows its own colour except at most one, tinted, whose own colour is saved |
| Viewer.MissRestores | src/app/viewer/viewer.component.ts:176-179 | a miss restores every material to exactly its own colour; a second miss changes nothing |
| Viewer.PickTwiceSame | src/app/viewer/viewer.component.ts:163-169 | picking the same hit twice ends where picking it once did, never saving the tint as a colour |
| Viewer.OnlyFirstHit | src/app/viewer/viewer.component.ts:164-165 | only the nearest hit affects the result |
| Viewer.PickWithoutEmissive | src/app/viewer/viewer.component.ts:166 | a mesh without an emissive material is selected but nothing is tinted |
| Viewer.SelectionPathFollowsTree | src/app/viewer/viewer.component.ts:171-173 | for an attached subtree the path is the mesh, each live ancestor up to rootGroup, then the Scene |
| Viewer.SelectionPathDetached | src/app/viewer/viewer.component.ts:171-173 | for a subtree removed by a clear the path stops at that subtree's root |
| Viewer.DemoPickHead | src/app/viewer/viewer.component.ts:171-175 | clicking the demo head reads "Selected Head path Head > Skin > Group > Group" and tints the shared skin material |
| Rounding.RoundDiv | src/app/services/store.service.ts:71 | `Math.round` of a quotient: the integer within half a unit of it, a half rounding up |
| Rounding.RoundDivUnique | src/app/services/store.service.ts:71 | that integer is unique |
| Store.ComputePercent | src/app/services/store.service.ts:68-73 | the percent lies in [0, 100]; with a zero total it is the clamped done points; otherwise, taking the signs of both sums so the total is positive, no share gives 0, the whole or more gives 100, and a share in between gives done/total·100 rounded half up |
| Store.AllDoneIsFull | src/app/services/store.service.ts:68-73 | with a positive total, all deeds done gives 100 |
| Store.NoneDoneIsEmpty | src/app/services/store.service.ts:68-73 | no deed done gives 0 |
| Store.TickingNeverLowersPercent | src/app/services/store.service.ts:53-56 | with non-negative points, ticking undone deeds never lowers the percent |
| Store.ToggleDeeds | src/app/services/store.service.ts:54 | `done` flips exactly on the deeds with the id; ids, labels, points, length and order are kept |
| Store.ToggleTwice | src/app/services/store.service.ts:54 | toggling an id twice restores the list |
| Store.ToggleKeepsTotal | src/app/services/store.service.ts:54 | toggling keeps the points total |
| Store.ClearDone | src/app/services/store.service.ts:60 | every deed is undone and otherwise kept |
| Store.DefaultsDistinct | src/app/services/store.service.ts:37-48 | the defaults are ten deeds with pairwise distinct ids |
| Store.DefaultsStartEmpty | src/app/services/store.service.ts:36-51 | the defaults total 100 points and start at 0% |
| Store.InitDefault | src/app/services/store.service.ts:36-51 | the deeds become the defaults and the percent 0 |
| Store.Toggle | src/app/services/store.service.ts:53-56 | the store toggles the deeds and recomputes the percent; preferences and history are kept |
| Store.PushToday | src/app/services/store.service.ts:99-104 | the new entry (date prefix, current percent) goes in front, older entries follow in order, and at most seven are kept |
| Store.ResetDay | src/app/services/store.service.ts:58-62 | every deed is undone, the percent is 0, and the day is recorded first only when asked |
| Store.ResetRecordsDay | src/app/services/store.service.ts:58-62 | the recorded percent is the one before the reset |
| Store.MergeLaws | src/app/services/store.service.ts:64-66 | applying an update twice equals applying it once; successive updates compose into one in which the later keys win; an empty update changes nothing |
| Store.SetPref | src/app/services/store.service.ts:64-66 | only the preferences change |
| Store.Load | src/app/services/store.service.ts:75-97 | a saved non-empty deed list is kept verbatim, anything else gives the defaults; missing preferences and history start empty; the percent agrees with the deeds |
| Sensors.Initial | src/app/sensors/sensors.service.ts:21-37 | at start every sensor is disabled, no timer runs, and each reading carries its unit |
| Sensors.Log | src/app/sensors/sensors.service.ts:42-45 | the new line is first, the older lines follow in order, and at most 200 are kept |
| Sensors.PushedTrans | src/app/sensors/sensors.service.ts:42-45 | writing n lines and then m lines under the 200-line cap is writing n + m lines |
| Sensors.PushedTail | src/app/sensors/sensors.service.ts:42-45 | below the n newest lines the log holds the older log cut to its newest 200 - n lines |
| Sensors.IntervalMs | src/app/sensors/sensors.service.ts:69-70 | the period lies in [50, 1000] ms; a rate below 1 Hz counts as 1 Hz; between 1 and 20 Hz it is 1000/odr rounded |
| Sensors.UpperClampIdle | src/app/sensors/sensors.service.ts:69-70 | once the rate is at least 1 Hz the 1000 ms clamp never bites |
| Sensors.IntervalAntitone | src/app/sensors/sensors.service.ts:69-70 | a higher rate never gives a longer period |
| Sensors.Stop | src/app/sensors/sensors.service.ts:75-79 | the key's timer is gone, other timers are kept, and the stop is logged even when no timer ran, on top of the older log cut to 199 lines |
| Sensors.Start | src/app/sensors/sensors.service.ts:67-74 | the key ends with exactly one timer, its period taken from the current configuration; the start line sits above the stop line and both above the older log cut to 198 lines |
| Sensors.ApplyLaws | src/app/sensors/sensors.service.ts:48 | patching with no field changes nothing, a patch applied twice acts once, two patches act as their combination with the later fields winning, a patch carrying every field replaces the configuration, and a patch leaves it unchanged exactly when every field it carries already holds |
| Sensors.SetConfig | src/app/sensors/sensors.service.ts:47-56 | only the key's configuration changes, to the patched one; timers change only when the patch carries `enabled` and then follow it; one, two or three lines are written on top of the older log, at most 200 kept |
| Sensors.SetConfigLogLines | src/app/sensors/sensors.service.ts:52-55 | the configuration line is newest, then the start and stop lines of `start`, or the stop line alone |
| Sensors.SetConfigKeepsRunning | src/app/sensors/sensors.service.ts:52-54 | afterwards a timer runs for a sensor exactly when it is enabled |
| Sensors.RatePatchKeepsPeriod | src/app/sensors/sensors.service.ts:47-56 | changing only the rate of a running sensor keeps its old period |
| Sensors.SwitchEachSwitched | src/app/sensors/sensors.service.ts:59 | every switched sensor ends enabled or disabled as asked, with a timer exactly when enabled |
| Sensors.SwitchEachUntouched | src/app/sensors/sensors.service.ts:59 | sensors not switched keep their configuration and timer |
| Sensors.SwitchEachLogged | src/app/sensors/sensors.service.ts:59 | every key switched on writes three lines and every key switched off two, on top of the older log |
| Sensors.EnableAll | src/app/sensors/sensors.service.ts:58-61 | all six sensors are enabled, each with a timer at its configured rate, and nothing else in their configuration changes; its line is newest, 19 lines are written on top of the older log, and at most 200 are kept |
| Sensors.DisableAll | src/app/sensors/sensors.service.ts:62-65 | all six sensors are disabled and no timer is left; its line is newest, 13 lines are written on top of the older log, and at most 200 are kept |
| Sensors.Tick | src/app/sensors/sensors.service.ts:81-95 | only the key's reading changes, to a value in the key's range with the key's unit and the current time |
| Meter.Band | src/app/humanmeter/humanmeter.component.ts:53-61 | every percent falls in exactly one band: 0, below 25, below 50, below 75, below 100, and the rest |
| Meter.Encouragement | src/app/humanmeter/humanmeter.component.ts:53-61 | 0 gets "Start now"; below 25 (negatives included) "Good start keep going"; 25 to 49 "Nice work may Allah bless you"; 50 to 74 "Mashallah you are on the path of khayr"; 75 to 99 "Almost there stay patient"; 100 and above the final message |
| Meter.EncouragementMonotone | src/app/humanmeter/humanmeter.component.ts:53-61 | over 0..100 more progress never gives a message earlier in the list of messages, and two percents share a message exactly when they share a band |
| Meter.Effect | src/app/humanmeter/humanmeter.component.ts:36-41 | confetti exactly when the percent is 100 and the remembered one is not; an announcement exactly when they differ; the percent is remembered |
| Meter.Runs | src/app/humanmeter/humanmeter.component.ts:35-42 | the first run reacts to the remembered percent and each later run to the percent observed just before it |
| Meter.RunsFrom | src/app/humanmeter/humanmeter.component.ts:35-42 | over any sequence of observed percents each run reacts to its predecessor as above |
| Meter.RunsFromStart | src/app/humanmeter/humanmeter.component.ts:33-42 | from a fresh page the first run always announces, and each later run compares with the previous percent |
| Meter.StayingFullNoBurst | src/app/humanmeter/humanmeter.component.ts:37 | staying at 100 neither fires confetti again nor announces |
| Meter.Toggle | src/app/humanmeter/humanmeter.component.ts:45-48 | the store toggles the deed, and the beep is silent exactly when mute is set |
| Meter.SetMute | src/app/humanmeter/humanmeter.component.ts:50 | only the mute preference changes |
| Meter.SetColorBlind | src/app/humanmeter/humanmeter.component.ts:51 | only the colour-blind preference changes |
| Meter.Reset | src/app/humanmeter/humanmeter.component.ts:49 | a reset records the day's percent in the history and starts at 0 |
| Meter.MuteSilencesToggle | src/app/humanmeter/humanmeter.component.ts:45-50 | after muting, toggling is silent; after unmuting, it beeps |

## Left out

- three.js rendering, lights, grid, orbit controls, the resize observer, the animation loop and the reset-view button: foreign library calls and browser timing.
- `fitToObject` camera framing, mouse-to-device coordinates and the ray caster's geometry: floating-point 3D math inside three.js. The ray caster is an oracle giving positions in the pick index.
- Viewer.Pick: hits are restricted to pick-index entries. The code intersects recursively, so a non-mesh child of a mesh could be hit; hidden meshes remain hittable, which the oracle allows.
- Viewer.Pick: a multi-material mesh (a material array) has no emissive channel, and is modelled as a mesh without one.
- glTF decoding and fetching: an external decoder whose output is the given tree and its fresh materials. A decode or fetch that fails after the clear has no handler in the code; the model has no transition for it, which leaves the cleared state as it is.
- Scene nodes other than Group, Object3D and meshes (lights, cameras, bones) are `Other` with their type name. `Mesh` stands for every node three.js flags `isMesh`; an unnamed skinned or instanced mesh would show its own type name in a path, where the model shows "Mesh".
- DOM construction: rows and texts are plain data.
- The fallback demo's geometry and colours: only names, hierarchy and shared materials are kept.
- localStorage, the persisting effect and JSON parsing: `Store.Load` receives what storage held, already parsed, or None. A stored JSON `null` or a non-array deed value is not modelled.
- `Date`, `toISOString` and `toLocaleTimeString`: timestamps and clock strings are parameters. Each sensor call uses one clock string for all its log lines.
- `JSON.stringify` in the sensor log: log lines carry structured messages.
- `setInterval` and `clearInterval`: a timer is its interval; timer handles are assumed truthy.
- Confetti, the audio beep, the live announcer and Angular signal scheduling: modelled as values in the result.
- Meter.Effect: Angular runs effects asynchronously and may coalesce changes; the model takes the sequence of percents the effect observed.
- Store.ComputePercent: rounds the percentage of done points in exact arithmetic. The code uses doubles, which can land just below a half and round down where the exact value rounds up (29 done of 200 points is one such case). Points are whole numbers here, where the code accepts any number, fractions included.
- Sensors.IntervalMs: rates are whole tenths of a hertz; finer rates are not representable.
- Sensors.Tick: the reading value is computed in exact reals from the random number.
- The sensor and panel components and the app shell: constant tables and UI wiring, with no logic.
