# Landsat RTS map client — verified model of its sequential core

This project models, in Dafny, the few parts of the browser client that you can state precisely.
The rest of the client is map, chart and DOM wiring.

- **Point store** (`store.dfy`, `points.dfy`). This is the ordered list of analysed points, with the
  `"A" + n` name counter and the 20-colour palette. The logic is implemented three times, in
  app.js, script.js and components/RtsAnalysis.js. The model is one class, `Store.PointStore`, with
  one method per operation. Each reset policy has its own method:
  - `ClearAllPoints` keeps the counter.
  - `BeforeUnmount` sets it back to 1.
  - `InitMapHandlers` sets it back to 1, unless app.js finds no map yet.
  - script.js never resets anything; it uses only the constructor.
- **Plot derivation** (`series_plot.dfy`). `updatePlot` builds the figure from the point list: one
  trace per point, plus two dashed vertical lines per point whose event is complete. The lines
  sit at 1986 + dip index and 1986 + trough index and span y −2..2.
- **Detection sessions** (`app_yolo.dfy`, `yolo_component.dfy`, `detection.dfy`). These are the two
  `YoloDetection` components: the one in app.js and components/YoloDetection.js. Each is a class
  over the data fields `loading`, `detectionResult`, `screenshotImage`, `screenshotBlob`,
  `originalImage` and `objectUrl`.
  - `URL.revokeObjectURL` adds the handle to the ghost set `revoked`.
  - The invariant `NoLeak` says that every handle the component has owned has been revoked,
    except the one it still holds.
  - `drawDetections` is a loop that produces the scaled boxes and label positions.
- **Event bus** (`event_bus.dfy`). A map from event name to a handler list, with `On`, `Off` and
  `Emit`.
- **Validators** (`location_search.dfy`, `selection.dfy`).
  - The parsing and range checks of `searchLocation`. `parseFloat` is a parameter that returns a
    JavaScript number: NaN, ±Infinity or a finite value.
  - The selection rectangle's min/max normalisation and its 10-pixel minimum size.

Environment inputs are parameters:
- the `Date.now()` id (not assumed unique);
- the marker handle;
- the analysis or detection response, as `Option` (`None` for a failed or non-ok request);
- the URL returned by `URL.createObjectURL`;
- whether the map exists yet.

## Model

| member | source | states |
|---|---|---|
| `Decimal.NatToString` | app.js:143 | The template-literal rendering of the counter: at least one character, all decimal digits, and no leading zero unless the value is 0 |
| `Decimal.NatToStringRoundTrip` | app.js:143 | Reading the digits back gives the counter value, so the rendering loses nothing |
| `Decimal.NatToStringInjective` | app.js:143 | Two counter values with the same rendering are equal |
| `Points.PaletteDistinct` | app.js:51-56 | The palette has 20 entries and no two are equal |
| `Points.UsedColors` | app.js:139 | `points.map(p => p.color)`: one colour per live point, in list order |
| `Points.FirstFree` | app.js:140 | The palette `find` from index k: the first index whose colour is not in use, every earlier entry is in use, and `None` only when every entry from k on is in use |
| `Points.NextAvailableColor` | app.js:138-141 | The chosen colour is always a palette entry. If some entry is free, it is free and the lowest-indexed free one. If none is free, it is `palette[0]`. Same code at script.js:58-61 and components/RtsAnalysis.js:136-139 |
| `Points.FreeColorExists` | app.js:138-141 | With fewer than 20 live points, some palette colour is held by no point (pigeonhole) |
| `Points.NextColorIsFree` | app.js:138-141 | With fewer than 20 live points, the colour `getNextAvailableColor` picks is held by no live point |
| `Points.AddKeepsColorsDistinct` | app.js:122 | Appending a point whose colour no live point holds keeps live colours pairwise distinct |
| `Points.PaletteExhausted` | app.js:140 | Twenty live points with distinct palette colours hold every palette colour, so `find` fails |
| `Points.ReusedColorSurvivesRemoval` | app.js:185-195 | If a point is appended with a colour a live point already holds, deleting some other point leaves a list of the old length with a repeated colour |
| `Points.ColorReuseAfterOverflow` | app.js:138-141 | The 21st point gets `palette[0]`, which a live point already holds. Deleting some other point then leaves 20 live points that share a colour |
| `Points.RemoveAt` | app.js:190 | `splice(k, 1)`: one element shorter, the elements before k unchanged, the elements after k shifted down by one, order kept |
| `Points.RemoveKeepsColorsDistinct` | app.js:190 | Removing a point never makes two remaining colours equal |
| `Points.FindIndex` | app.js:186 | `findIndex` on ids: -1 exactly when no point has the id. Otherwise the index of a point with that id, and no earlier point has it |
| `Points.PointName` | app.js:142-144 | A name is `"A"` followed by the counter's digits |
| `Points.PointNameInjective` | app.js:143 | Different counter values give different names |
| `Points.NamesDistinct` | app.js:143 | Points named from strictly increasing counter values have pairwise distinct names |
| `Store.PointStore.NamesAreDistinct` | app.js:142-144 | In any valid store, the live names are pairwise distinct |
| `Store.PointStore.constructor` | script.js:47-48 | Starts with no points, the counter at 1 and `pointCount` 0 |
| `Store.PointStore.InitMapHandlers` | app.js:31-50 | With a map: the old points layer is removed (app.js:36-38), so every live marker is returned for removal. The list is emptied, the counter set to 1 and `pointCount` to 0. Without a map (app.js:33) nothing changes and no marker is removed. components/RtsAnalysis.js:74-75 is the unconditional case |
| `Store.PointStore.NextPointName` | app.js:142-144 | Returns `"A" + k` for the old counter k, leaves the counter at k+1, and changes nothing else |
| `Store.PointStore.AddAnalysedPoint` | app.js:88-123 | A failed or non-ok response changes nothing, not even the counter. A successful one appends exactly one point at the end, with the next name, the next colour, the given id, coordinates, marker and data, and sets `pointCount` to the new length. Distinct colours stay distinct while fewer than 20 were live. Same path at script.js:86-112 and components/RtsAnalysis.js:101-126 |
| `Store.PointStore.DeletePoint` | app.js:185-195 | For a present id: removes exactly the first point with that id, keeps the others in order, updates `pointCount` and returns the removed point's marker. For an absent id: nothing changes. Distinct colours stay distinct. Same code at script.js:163-174 and components/RtsAnalysis.js:183-191 |
| `Store.PointStore.ClearAllPoints` | app.js:196-205 | On a non-empty list: no points are left, `pointCount` is 0, every marker is returned for removal and the counter is kept. On an empty list: nothing changes |
| `Store.PointStore.BeforeUnmount` | app.js:272-300 | Every live marker is returned for removal, since the layer's source is cleared (app.js:279-281). The list is emptied and the counter set back to 1. `pointCount` is left as it was |
| `Store.ClearThenAdd` | app.js:196-205 | After a clear, the next point is named from the counter reached before the clear and gets `palette[0]` |
| `SeriesPlot.CountEvents` | app.js:219 | The number of points with a complete event is at most the number of points |
| `SeriesPlot.Years` | app.js:207 | `getYears(n)`: n years, starting at 1986, each one more than the one before |
| `SeriesPlot.TraceOf` | app.js:209-216 | A point's trace has its name, colour and NDVI samples as y, and one x-value 1986 + j per sample |
| `SeriesPlot.Traces` | app.js:209-216 | The `map` over the points: one trace per point, trace i being point i's name and samples |
| `SeriesPlot.HasCompleteEvent` | app.js:219 | The event test: it holds only with `has_event` set, and never when either index is null |
| `SeriesPlot.EventLine` | app.js:221-232 | The shape literal: a vertical line at the given year from y −2 to 2, in the given colour, width 2, dashed |
| `SeriesPlot.EventShapes` | app.js:219-245 | A point contributes two shapes exactly when `has_event` is set and both indices are non-null, otherwise none. Both are dashed vertical lines in the point's colour, the first at 1986 + dip index and the second at 1986 + trough index |
| `SeriesPlot.Shapes` | app.js:218-248 | The reduce yields exactly twice as many shapes as there are points with `has_event` and both indices non-null. Every shape is a dashed vertical line (x0 = x1) from y −2 to 2. Same code at script.js:189-219 and components/RtsAnalysis.js:204-234 |
| `SeriesPlot.UpdatePlot` | app.js:206-269 | The figure has one trace per point, twice the number of complete-event points as shapes, and a 5-year tick interval |
| `SeriesPlot.TraceMatchesPoint` | app.js:207-216 | Trace i carries point i's name, colour and samples. Its x-values are 1986 + j, one per sample. Same code at script.js:178-187 and components/RtsAnalysis.js:193-202 |
| `SeriesPlot.ShapesAppend` | app.js:218-248 | The shapes of a concatenated list are the shapes of each part, in order. So the reduce emits each point's lines in list order |
| `SeriesPlot.ShapeHasOrigin` | app.js:219-245 | Every shape comes from a point with a complete event, in that point's colour, at 1986 + its dip index or 1986 + its trough index |
| `SeriesPlot.ShapesSingleton` | app.js:219-246 | A one-point list yields exactly that point's event shapes |
| `SeriesPlot.EventPointContributes` | app.js:219-245 | Every point with a complete event contributes its dip line immediately followed by its trough line |
| `SeriesPlot.TracesFollowAppend` | app.js:122-125 | Appending a point appends its trace and leaves the other traces as they were |
| `SeriesPlot.TracesFollowRemove` | app.js:190-193 | Deleting point k deletes trace k, and the other traces keep their order |
| `SeriesPlot.EventExample` | app.js:223-235 | An event at indices 3 and 7 puts lines at 1989 and 1993 |
| `Detection.Handles` | app.js:436-437 | The held handle as a set: it contains v exactly when the option holds v |
| `Detection.PhaseOf` | app.js:313-334 | A four-state summary of the fields that drive the template, not a picture of what is rendered (the hint of app.js:313 still shows under the spinner of app.js:329). Detecting exactly when `loading`. ResultReady exactly when not loading and a result is held. PreviewPending exactly when not loading, no result and a screenshot is held. Idle exactly when none of these holds |
| `Detection.BoxFor` | components/YoloDetection.js:160-184 | The box's corners are the bbox corners scaled by (scaleX, scaleY). The label background top is `max(0, y − 22)`: 22 px above the box when y ≥ 22, and 0 otherwise. The text sits 4 px right of the box at `max(2, y − 20)` |
| `Detection.DrawDetections` | app.js:501-540 | Draws nothing without the canvas, the image or a result. Otherwise draws one box per detection, in order, each scaled by canvas size over natural image size. Same code at components/YoloDetection.js:146-185 |
| `Detection.BoxInsideCanvas` | components/YoloDetection.js:156-164 | A bbox inside the natural image is drawn inside the canvas, with non-negative width and height |
| `Detection.ScaledBelow` | components/YoloDetection.js:161-163 | Scaling keeps order and maps the natural extent onto the canvas extent |
| `Detection.DoubleSizeExample` | components/YoloDetection.js:156-164 | Bbox [10,10,50,50] on a 100×100 image drawn at 200×200 gives the box (20, 20, 80, 80) |
| `AppYoloDetection.YoloDetection.constructor` | app.js:370-379 | Starts with every field empty, `loading` false and nothing held or revoked |
| `AppYoloDetection.YoloDetection.HandleScreenshot` | app.js:433-446 | Revokes the previous `objectUrl` and takes ownership of the event's URL, which becomes `objectUrl`, preview and original image. Stores the blob and clears the result. Keeps `NoLeak` |
| `AppYoloDetection.YoloDetection.DetectObjectsStart` | app.js:447-464 | Without both a blob and a preview: returns with nothing changed and no request. Otherwise: sets `loading`, copies the preview to `originalImage` and sends the blob. `loading` is not checked, as at app.js:448 |
| `AppYoloDetection.YoloDetection.DetectObjectsFinish` | app.js:466-486 | `loading` is false afterwards whatever the outcome. Success stores the result and clears the preview and blob. Failure keeps every field |
| `AppYoloDetection.YoloDetection.ClearScreenshot` | app.js:542-555 | Preview, blob, original image and `objectUrl` are empty. The held handle is revoked, so every handle ever owned is revoked |
| `AppYoloDetection.YoloDetection.ClearResults` | app.js:556-568 | Result, original image and `objectUrl` are empty and the held handle is revoked. The preview and blob are unchanged |
| `AppYoloDetection.YoloDetection.Unmounted` | app.js:400-404 | Revokes the held handle, so nothing the component owned stays unrevoked |
| `YoloDetectionComponent.YoloDetection.constructor` | components/YoloDetection.js:71-80 | Starts with every field empty, `loading` false and nothing held or revoked |
| `YoloDetectionComponent.YoloDetection.HandleScreenshot` | components/YoloDetection.js:82-105 | Always revokes and forgets the previous handle first. With a blob: the blob is kept, and the preview is the newly created URL, or the event's URL when creation threw. Without a blob: the blob is empty and the preview is the event's URL or empty. In every case the original image equals the preview and the result is cleared |
| `YoloDetectionComponent.YoloDetection.DetectObjectsStart` | components/YoloDetection.js:106-120 | Without a blob: nothing changes. Otherwise: sets `loading` and sends the blob. `loading` is not checked |
| `YoloDetectionComponent.YoloDetection.DetectObjectsFinish` | components/YoloDetection.js:122-136 | `loading` ends false. Success stores the result and fills `originalImage` from the preview only if it was empty. Failure keeps the earlier result. The preview fields are kept in both cases |
| `YoloDetectionComponent.YoloDetection.ClearScreenshot` | components/YoloDetection.js:187-200 | Preview, blob, original image and `objectUrl` are empty, and every handle ever owned is revoked |
| `YoloDetectionComponent.YoloDetection.ClearResults` | components/YoloDetection.js:201-208 | Only `detectionResult` becomes empty; images and `objectUrl` are unchanged |
| `Events.HandlersOf` | eventBus.js:6 | `events[name]`, falling back to `[]`, for a name that is an own key or not inherited: the name's list when it has an entry, otherwise the empty list |
| `Events.AppEventNotInherited` | components/YoloDetection.js:5 | The components' event name `'screenshot-taken'` is not one of the names inherited from `Object.prototype` (`Events.InheritedNames`, e.g. `toString`), so `on`, `off` and `emit` on it never throw |
| `Events.Without` | eventBus.js:13 | `filter(f => f !== fn)`: `fn` no longer occurs, and every other handler keeps its number of registrations |
| `Events.WithoutAppend` | eventBus.js:13 | Filtering distributes over concatenation, so the remaining handlers keep their order |
| `Events.WithoutAbsent` | eventBus.js:13 | Filtering out a handler that is not registered leaves the list unchanged |
| `Events.OnThenOff` | eventBus.js:5-16 | Registering `fn` and then removing it gives the same list as only removing it |
| `Events.EventBus.constructor` | eventBus.js:3 | Starts with an empty table |
| `Events.EventBus.On` | eventBus.js:3-8 | Appends `fn` at the end of the name's list, creating the entry if absent. Earlier registrations, duplicates included, are kept. No other name changes. A name inherited from `Object.prototype` with no entry of its own makes `push` throw: `ok` is false and nothing changes |
| `Events.EventBus.Off` | eventBus.js:10-18 | With `fn`: the name's list becomes the filtered list. Without `fn`: the entry is deleted. A name without an entry changes nothing. No other name changes and no name is added. `filter` on an inherited name with `fn` given throws, the only case where `ok` is false |
| `Events.EventBus.Emit` | eventBus.js:20-24 | One call per registration under the name, with the given data, in registration order. None for an unregistered name. On an inherited name with no entry of its own, `forEach` throws before any call and `ok` is false |
| `LocationSearch.IsJsWhitespace` | app.js:1385 | The whitespace set of `trim` and `\s`: it includes space, tab, newline and carriage return, and excludes digits, signs, the decimal point and the comma |
| `LocationSearch.IsSeparator` | app.js:1394 | The character class `[,\s]`: comma and every whitespace character are separators; digits, signs and the decimal point are not, so a number is never split |
| `LocationSearch.TrimStart` | app.js:1385 | Drops only leading whitespace, up to the first non-whitespace character |
| `LocationSearch.TrimEnd` | app.js:1385 | Drops only trailing whitespace, back to the last non-whitespace character |
| `LocationSearch.Trim` | app.js:1385 | The result starts and ends with non-whitespace, and is empty exactly when the input is all whitespace |
| `LocationSearch.LeadingWord` | app.js:1394 | The longest prefix without a comma or whitespace |
| `LocationSearch.Tokens` | app.js:1394 | Split on runs of commas and whitespace with empty parts dropped: every part is non-empty and holds no separator. Where the split falls and how many parts there are are fixed by `TokensOfSpaced` and `SpacedTokensGaps` |
| `LocationSearch.TokensKeepEverythingElse` | app.js:1394 | The parts, joined, are exactly the input without its separators |
| `LocationSearch.TokensOfSpaced` | app.js:1394 | For words interleaved with separator runs, non-empty between two words: the split gives back exactly those words, in order. This fixes both the part count and the parts |
| `LocationSearch.Gaps` | app.js:1394 | The separator runs of an input, one more than its parts |
| `LocationSearch.GapsWellSpaced` | app.js:1394 | Those runs hold only separators, and each run between two parts is non-empty |
| `LocationSearch.SpacedTokensGaps` | app.js:1394 | Every input is its parts interleaved with its separator runs. With `TokensOfSpaced`, the split is the unique such decomposition |
| `LocationSearch.TwoPartExample` | app.js:1394-1395 | `"1, 2"` splits into the two parts `"1"` and `"2"`, so it passes the 2-part format check |
| `LocationSearch.OutsideRange` | app.js:1408 | `x < lo` or `x > hi` on a non-NaN number: true exactly when x is not a finite value in [lo, hi], so ±Infinity is out of range |
| `LocationSearch.Validate` | app.js:1404-1412 | Accepted exactly when both numbers are finite with lon in [−180, 180] and lat in [−90, 90], and then the result is those two numbers. Rejected as not-a-number exactly when either is NaN. ±Infinity is rejected by the range check |
| `LocationSearch.Search` | app.js:1385-1412 | A blank box gives the default site. Rejected for format exactly when the trimmed box is non-blank and does not split into 2 parts. Any accepted location is in range |
| `LocationSearch.BlankInputUsesDefault` | app.js:1389-1391 | An empty or all-whitespace box yields (92.74585837, 35.07621963) |
| `LocationSearch.AcceptedExactly` | app.js:1392-1412 | A non-blank box is accepted exactly when it splits into 2 parts, both parse to finite numbers, and they are in range. The location is then those two numbers |
| `LocationSearch.SearchView.SearchLocation` | app.js:1384-1425 | A rejected input changes no state. An accepted one re-centres the view on the located coordinates |
| `Selection.Normalize` | app.js:1107-1111 | min ≤ max along both axes. The bounds are the two corners' coordinates, and the width and height are the absolute drag distances |
| `Selection.NormalizeSymmetric` | app.js:1108-1111 | Dragging in either direction selects the same bounds |
| `Selection.CropOf` | app.js:1142-1150 | A crop is produced exactly when width and height are both at least 10. It starts at the min corner and ends at the max corner |
| `Selection.DragAccepted` | app.js:1105-1150 | Once a drag has created the overlay (app.js:1105), the first size check (app.js:1147) accepts it exactly when it moved at least 10 pixels along each axis. The later check after DPR scaling is not modelled |

### Colours are not unique with 20 or fewer live points

One would expect live colours to stay unique while at most 20 points are live, since the palette
has 20 colours. The code does not keep that. Here is the sequence:

1. Add 20 points. They get the palette colours in order.
2. Add a 21st point. It gets `palette[0]`, which point A1 already holds.
3. Delete any point other than A1 and A21.

Now 20 points are live and two of them share a colour. The model follows the code:
- `Points.ColorReuseAfterOverflow` proves this sequence.
- The colour invariant is stated only in the form that holds: `AddAnalysedPoint` keeps colours
  distinct while fewer than 20 points are live, and `DeletePoint` keeps them distinct.

## Left out

- Store.PointStore.NextPointName: the counter is an unbounded `nat`. In the source it is a
  JavaScript number, and `++` stops changing it at 2^53. From then on names would repeat, so
  `Points.PointNameInjective`, `Points.NamesDistinct` and `Store.PointStore.NamesAreDistinct` carry
  over to the source only while fewer than 2^53 names have been issued. Below 2^53 the counter is
  exact and printed as plain digits.
- Map library state: OpenLayers/Leaflet layers, features, `circleMarker`, `removeLayer`,
  `addFeature` and the click-handler registration are foreign calls. A marker is an opaque handle
  owned by its point. `DeletePoint`, `ClearAllPoints`, `InitMapHandlers` and `BeforeUnmount`
  return the handles the source removes.
- Plotly rendering: the `Plotly.newPlot` call and the layout's titles and legend placement. The
  model keeps the traces, the shapes and the tick interval.
- The card list (`updatePointCards`) and every `toFixed` rendering are DOM and float-to-string
  formatting.
- Network calls: `fetch` to `/api/analyze` and `/api/yolo/predict`, and the environment selection
  in config.js. Only their outcome is an input. A failed request, a non-ok status and a failed JSON
  parse are all `None`.
- Asynchrony:
  - `DetectObjectsStart` and `DetectObjectsFinish` model `detectObjects` on either side of its
    `await`. Any other method may run between them; the model allows that and does not add the
    stale-response guard the source lacks.
  - Neither copy of `detectObjects` has a `loading` guard (app.js:448,
    components/YoloDetection.js:107). Duplicate submission is prevented only by the template's
    disabled button, so neither `DetectObjectsStart` checks `loading`.
  - `$nextTick`, `ResizeObserver`, window `resize`, `syncCanvas` and timers are event-loop timing
    and canvas sizing.
- app.js sets the global `timeseriesLoading` flag around the analysis request (app.js:71-74,
  app.js:131-135). It shows a spinner and no modelled state depends on it.
- Detection.BoxInsideCanvas: the canvas bound is proved over exact reals. In IEEE doubles the
  scaled edge can round one unit in the last place past the canvas (natural width 7, canvas
  width 29 and x2 = 7 give 29.000000000000004), so the bound holds only up to rounding.
- Detection.DrawDetections: requires a positive natural image size. With an unloaded image
  (natural size 0), JavaScript divides by zero and draws at Infinity/NaN coordinates. The method
  also leaves out the label text, the font, colours, line width and the `measureText` label width.
- The canvas clearing in `clearScreenshot` and `clearResults` is a foreign call. The drawn overlay
  is `DrawDetections`' result, which is recomputed on every draw.
- Store.PointStore.InitMapHandlers: components/RtsAnalysis.js:74-75 does not remove the old
  markers from the map; the model returns them as removed, which is the app.js behaviour.
- components/YoloDetection.js does not revoke its `objectUrl` when it is unmounted; only the
  app.js copy does. The event-bus unregistration in its `mounted`/`unmounted` is an `On`/`Off`.
- The URLs shown when URL creation fails (the event's own `imageUrl`) belong to the emitter. The
  component never revokes them, so they are not part of `held`.
- `parseFloat` is abstract (a parameter of `Search`). JavaScript's exact prefix parsing is not
  modelled.
- Selection pixels are finite reals: `Math.min`/`Math.max` of NaN is not modelled.
  `captureAndDetect`'s DPR `Math.round` scaling and its second size check, `html2canvas` and
  `toBlob` are left out as float numerics over library results.
- Store.PointStore.AddAnalysedPoint: `dip_idx`/`tr_idx` are `null` or an integer. An `undefined`
  field, which `!== null` would let through, is assumed not to occur; responses are taken as
  well-formed.
- `pointCount` exists only in the app.js copy. The other two copies have no such field, and the
  model's updates to it do not affect them.
- Handles are opaque tokens, so JavaScript's falsy empty-string URL is not modelled.
- `Emit` returns the calls it makes; handlers' own effects are not modelled. Dispatch uses the list
  as it stood when `emit` was called. That matches `forEach`:
  - a handler that calls `off` replaces the array instead of mutating it;
  - handlers pushed by `on` during dispatch lie beyond the length `forEach` visits.
- Measurement tools, panel resize, gutter drag, search-box drag, the layer switcher and the
  location marker's DOM element are UI plumbing.
- components/MapDetection.js, router.js, components/Home.js and components/TimeSeriesAnalysis.js
  are not part of this model: they hold screenshot and routing plumbing, templates, and a stub.
