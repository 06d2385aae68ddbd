# Worksite map layer, modelled in Dafny

This project models the map utilities of the disaster-response front-end in
`src/utils/map.js` and proves properties of the model. The model covers:

- extracting the coordinates from a Google Maps URL (`getGoogleMapsLocation`);
- choosing the opacity bucket for a worksite's age (`getOpacity`);
- the worksite overlay built by `getWorksiteLayer`. This part covers:
  - the draw callback, with first-draw sprite creation, the style refresh on a view change and the scale bookkeeping;
  - the `animate` easing of sprite scales;
  - the per-zoom collision quadtree set-up;
  - the `findMarker` hit test;
  - the click handler.

The model is functional. The overlay's closure variables (`firstDraw`,
`prevZoom`, `prevCenter`, `markerSprites`, `frame`) become an immutable
`Overlay` record. The draw callback becomes a step function,
`WorksiteLayer.Draw`. One animation frame becomes `WorksiteLayer.Animate`, and
a map click becomes `WorksiteLayer.Click`. The effects on the outside world are
returned as a list of events, in the order the source performs them:
- `$emit('mapMoved')` and `$emit('onSelectmarker')`;
- `closePopup` and `enableInteractiveTooltip`;
- `requestAnimationFrame`, `cancelAnimationFrame` and `render`.

The collaborators outside `map.js` are parameters of the model:
- Leaflet's `latLngToLayerPoint`, `getScale(z)`, `getMaxZoom()` and `getBounds().contains`;
- `Worksite.getWorkType`, closed over the current filters and organisation;
- the `colors` and `templates` tables of the icon module;
- the leaf order of the quadtree's `visit`.

Modules:

| module | file | models |
|---|---|---|
| `Wrappers` | wrappers.dfy | `Option` and `Result` |
| `MapsUrl` | maps_url.dfy | `getGoogleMapsLocation` and the regular expression `@(.*),(.*),` under JavaScript semantics |
| `Opacity` | opacity.dfy | the bucket `reduce` of `getOpacity`, and its constant result |
| `JsString` | js_string.dfy | `String.prototype.replace` with a string pattern: the first occurrence only, with `$` expansion as in section 22.1.3.19.1 of ECMAScript 2022 |
| `MarkerStyle` | marker_style.dfy | the colour key, the template choice, the placeholder substitution and the missing-colour rule |
| `Easing` | easing.dfy | the `animate` curve, on exact reals |
| `WorksiteLayer` | worksite_layer.dfy | the overlay state, `Draw`, `Animate`, the quadtrees, `FindMarker` and `Click` |

Some behaviours of the code are worth knowing. The model keeps each of them, and
the table below has the lemmas that state them.
- On the first draw, the circle markup is built with the misspelt placeholder
  `{{multple}}`. Redraws use `{{multiple}}`. That first-draw markup is overwritten
  in the same draw, except on sprites outside the bounds at interactive zoom.
  `WorksiteLayer.FirstDrawTextures` says exactly which sprites keep it.
- `getOpacity` computes the closest bucket and then returns 1.
- The radius `z <= 7 ? 16 : 24` is computed only for zooms from 12 upward, so the
  value 16 is never used.
- A redraw with an unchanged view cancels a running zoom animation. The sprites
  keep the scale of the last frame that ran.
- When the zoom has no quadtree (above `getMaxZoom()`), destructuring
  `quadTrees[zoom]` throws. The model returns this as an error.
- The first draw sets each sprite's scale directly. It records no scales to
  animate between.
- All quadtrees are built eagerly on the first draw, one per zoom from 12 to
  `getMaxZoom()`.
- The hit test keeps the last leaf that passes, in visit order. It does not stop
  at the first match: the `visit` callback overwrites `marker` for every leaf it
  still reaches after a hit.
- Every draw cancels a pending frame, not only a draw that starts a new
  animation.

## Model

| member | source | states |
|---|---|---|
| MapsUrl.Match | src/utils/map.js:16-17 | The scan returns the match a backtracking engine selects (leftmost `@`, then the longest first group, then the longest second group), and returns nothing exactly when no match exists. |
| MapsUrl.GetGoogleMapsLocation | src/utils/map.js:15-25 | It fails exactly when the URL has no match of `@(.*),(.*),`. Whenever a match is the selected one, the result is that match's two captured groups. |
| MapsUrl.SelectedMatchUnique | src/utils/map.js:16-17 | The selected match is unique, so the URL determines the location. |
| MapsUrl.SelectedMatchIff | src/utils/map.js:16-17 | In both directions, the selected match is the leftmost `@` that can match. The latitude runs up to the second-to-last comma of the rest of its line, and the longitude contains no comma. |
| MapsUrl.LocationOfShaped | src/utils/map.js:15-25 | Any URL whose text has that shape yields the latitude and longitude text between those commas. |
| MapsUrl.BuildUrlRoundTrip | src/utils/map.js:15-25 | Round trip: `prefix@lat,lng,rest` gives back exactly `lat` and `lng`. This holds when the prefix has no `@`, neither field crosses a line terminator, and the longitude and the remainder hold no comma. The latitude may hold commas. |
| MapsUrl.LosAngelesExample | src/utils/map.js:15-25 | `maps/@34.0522,-118.2437,15z` gives "34.0522" and "-118.2437". |
| MapsUrl.OneCommaFails | src/utils/map.js:16-18 | The example URL `maps/@34.0522,-118.2437`, whose only `@` is followed by a single comma, has no match, so reading the match throws. |
| Opacity.ClosestBucket | src/utils/map.js:44-46 | The result is one of the six buckets, at minimal distance from the percentage, and at the first such index. |
| Opacity.ClosestBucketInIsFirstClosest | src/utils/map.js:44-46 | For any non-empty list, the `reduce` with a strict `<` returns the earliest element of minimal distance. |
| Opacity.FoldIndex | src/utils/map.js:44-46 | Folding the rest of the list from a prefix's first closest element ends on the whole list's first closest element. |
| Opacity.TieKeepsEarlierBucket | src/utils/map.js:44-46 | At 92.5, halfway between 100 and 85, the earlier bucket 100 is chosen. |
| Opacity.GetOpacity | src/utils/map.js:27-49 | Every age yields opacity 1. |
| JsString.IndexOf | src/utils/map.js:150-156 | The result is -1 exactly when the pattern does not occur. Otherwise it is the first occurrence. |
| JsString.ReplaceFirst | src/utils/map.js:150-156 | Without an occurrence the string is unchanged. Otherwise only the first occurrence is replaced, by the expanded replacement text. |
| JsString.Expand | src/utils/map.js:150-156 | An empty replacement expands to nothing. `JsString.ExpandPlain`, `JsString.ExpandSpecials`, `JsString.ExpandStep` and `JsString.ExpandOnlyCopies` state what GetSubstitution makes of the other replacement texts. |
| JsString.ExpandStep | src/utils/map.js:150-156 | Any replacement text, including one that mixes plain characters and specials, expands from the left one token at a time. `$$`, `$&`, `` $` `` and `$'` become a dollar sign, the match, the text before it or the text after it. Any other character is copied, including a `$` that starts none of these. The rest of the text then expands the same way. |
| JsString.ExpandOnlyCopies | src/utils/map.js:150-156 | Every character of an expansion comes from the replacement text, the match, or the text before or after the match. |
| JsString.ExpandPlain | src/utils/map.js:150-156 | Replacement text without `$` is inserted verbatim. |
| JsString.ExpandSpecials | src/utils/map.js:150-156 | `$$`, `$&`, `` $` `` and `$'` expand to a dollar sign, the match, the text before it and the text after it. |
| JsString.ReplaceFirstOnlyFirst | src/utils/map.js:150-156 | For any replacement text, only the first occurrence changes. The text before and after it is kept, and the expanded replacement takes its place. The length changes by the expansion's length minus the pattern's. |
| JsString.ReplaceFirstKeepsLater | src/utils/map.js:150-156 | For any replacement text, every occurrence that starts at or after the end of the first is still there after the replacement. An occurrence overlapping the first one is not kept: `"aaa".replace("aa", "X")` gives `"Xa"`. With `e` the expanded replacement, it moves by the length of `e` minus the length of `pat`. |
| JsString.OverlapLostExample | src/utils/map.js:150-156 | `"aa"` occurs in `"aaa"` at index 1 as well as at index 0, yet `"aaa".replace("aa", "X")` is `"Xa"`: an occurrence overlapping the first one does not survive. |
| JsString.TwoPlaceholdersExample | src/utils/map.js:275-281 | `"a{{x}}b{{x}}"` with `{{x}}` replaced by `1` gives `"a1b{{x}}"`. |
| MarkerStyle.ColorsKey | src/utils/map.js:143-145 | The key starts with the status. Its suffix is eight characters long exactly when `claimed_by` is truthy, and ten characters otherwise. `MarkerStyle.ColorsKeySuffix` states the text. |
| MarkerStyle.ColorsKeySuffix | src/utils/map.js:143-145 | The key is the status followed by `_claimed` when `claimed_by` is truthy, and by `_unclaimed` otherwise. |
| MarkerStyle.ColorsKeyInjective | src/utils/map.js:143-145 | Two work types share a colour key exactly when they have the same status and the same truthiness of `claimed_by`. |
| MarkerStyle.TypeTemplate | src/utils/map.js:273-274 | The result is the type's template when it exists and is non-empty, otherwise `templates.unknown`. |
| MarkerStyle.Restyle | src/utils/map.js:149-158 | Without a colour entry for the key, the texture is left as it was. With one, the old texture is never read: it becomes the template with the colour and badge placeholders substituted. |
| MarkerStyle.BadgeInsertedIffMultiple | src/utils/map.js:153-156 | When `templates.plus` holds no `$`, it is inserted at the placeholder exactly for multi-type worksites. Single-type worksites get the placeholder removed. A `plus` containing `$` would be expanded by GetSubstitution, which this lemma does not cover. |
| MarkerStyle.BadgeLostWithoutPlaceholder | src/utils/map.js:153-156 | When the coloured template lacks the targeted placeholder, single- and multi-type markup are the same. |
| Easing.Lambda | src/utils/map.js:317-318 | λ is at most 1, equals 1 once 250 ms have passed, is 0 at progress 0, and is non-negative for non-negative progress. |
| Easing.EaseMonotone | src/utils/map.js:319 | The eased value never decreases on [0, 1]. |
| Easing.EaseRange | src/utils/map.js:319 | The eased value stays in [0, 1], with eased(0) = 0 and eased(1) = 1. |
| Easing.AnimatedScale | src/utils/map.js:314-325 | The scale is `currentScale` at progress 0 and `targetScale` once progress ≥ 250. For non-negative progress it lies between the two. |
| Easing.AnimatedScaleMonotone | src/utils/map.js:314-325 | Later frames never move the scale back towards `currentScale`. |
| WorksiteLayer.RecordWorkTypes | src/utils/map.js:138-141 | A set `displayedWorkTypes` gains exactly the active work types. An unset one stays unset. |
| WorksiteLayer.Legend | src/utils/map.js:167 | The legend is the city when it is set and non-empty, and otherwise the label. It is never anything else. |
| WorksiteLayer.NewSprite | src/utils/map.js:125-173 | The new sprite has the worksite's id, location and work types. It sits at the projection of `[coords[1], coords[0]]`, which is also its resting position. It stores the active work type and its colour key, and has opacity 1 and no recorded scales. It has a texture exactly when the colour table has an entry for its key. |
| WorksiteLayer.BuildQuadTrees | src/utils/map.js:176-185 | Trees exist exactly for zooms 12 to `getMaxZoom()` on an interactive layer, and for none otherwise. Each has `r0 = 24 / getScale(z)`, so the 16 branch is unreachable. |
| WorksiteLayer.RefreshTexture | src/utils/map.js:250-301 | At interactive zoom, an out-of-bounds sprite keeps its texture. A missing colour entry for the key in use leaves the texture alone. A texture is never removed. Below interactive zoom, the texture becomes the circle with the stored colour key. |
| WorksiteLayer.RefreshSprite | src/utils/map.js:250-307 | Only the texture and the scales change. The first draw sets the scale to 0.75/scale. A later draw keeps the scale, recording it as the current scale and 0.75/scale as the target. |
| WorksiteLayer.DrawEvents | src/utils/map.js:113-338 | A frame is cancelled, `mapMoved` emitted and a frame requested exactly when asked. The list ends with a render and is in the callback's order, each effect at most once. |
| WorksiteLayer.DrawOrderUnique | src/utils/map.js:113-338 | Two lists in the callback's order with the same effects are equal. The ordering clause of `Draw` therefore fixes its event list exactly. |
| WorksiteLayer.Draw | src/utils/map.js:110-339 | A pending frame is cancelled first. `mapMoved` is emitted with the bounds exactly on the first draw or a view change. A frame is requested exactly on a zoom change after the first draw. These effects and the final render happen in the callback's order, each at most once, and nothing else happens. The first draw sets scale 0.75/scale, and later changed draws only record the current and target scales. An unchanged view leaves the sprites alone. Every draw ends with the flag cleared and the view remembered. |
| WorksiteLayer.Animate | src/utils/map.js:311-330 | Each sprite's scale follows the eased curve. It is the current scale on the first tick and the target once 250 ms have passed. The frame renders, and then requests the next frame only while progress < 250. The events are exactly `[Render]` or `[Render, RequestFrame]`. Nothing else changes. |
| WorksiteLayer.Hits | src/utils/map.js:199-203 | A sprite always covers its own position. A covered point lies within the square of half-side abs(scale·16) around the sprite. |
| WorksiteLayer.LastHit | src/utils/map.js:195-216 | A returned sprite was visited and satisfies dx² + dy² ≤ (scale·16)². Nothing is returned exactly when no visited leaf passes. Otherwise the result is the last visited leaf that passes. |
| WorksiteLayer.HitRadiusExample | src/utils/map.js:199-206 | A sprite at (100, 100) with scale 1 is hit from (105, 105) and not from (200, 200). |
| WorksiteLayer.FindMarker | src/utils/map.js:186-217 | Below zoom 12 or on a non-interactive layer the result is no marker. It throws exactly when the zoom has no tree. Otherwise the result is the last leaf of the traversal that passes the hit test. |
| WorksiteLayer.Click | src/utils/map.js:219-233 | Without handlers nothing happens. A found marker is emitted as `onSelectmarker`, and nothing else happens. Without a marker the popup is closed, followed by the tooltip hook exactly below zoom 12 when the hook exists. The click throws exactly when `findMarker` does. |
| WorksiteLayer.InitValid | src/utils/map.js:102-106 | The overlay before its first draw is in a reachable state. |
| WorksiteLayer.DrawPreservesValid | src/utils/map.js:110-339 | Draws keep the overlay reachable. Sprite i stands for worksite i, the first draw's trees and handlers stay in place, and a frame is pending only when every sprite has recorded its scales. |
| WorksiteLayer.AnimatePreservesValid | src/utils/map.js:314-330 | Animation frames keep the overlay reachable, and a pending frame always has recorded scales to read. |
| WorksiteLayer.FirstDrawSprites | src/utils/map.js:125-174 | The first draw creates one sprite per worksite, in order, with its projected position, id, legend (city, else label), work types, active work type, colour key and opacity 1. It records the displayed work types and builds the quadtrees. |
| WorksiteLayer.FirstDrawTextures | src/utils/map.js:146-300 | The `{{multple}}` markup of the first draw survives only on out-of-bounds sprites at interactive zoom. Every other sprite with a colour entry gets `{{multiple}}` markup, and a sprite without one keeps the empty texture. |
| WorksiteLayer.RedrawStyles | src/utils/map.js:250-308 | At interactive zoom, an in-bounds sprite gets its type template or `unknown`, and an out-of-bounds one is untouched. Otherwise every sprite gets the circle with the stored key. A missing colour leaves the texture alone. Only the texture and the recorded scales change. |
| WorksiteLayer.FindMarkerDefinedUpToMaxZoom | src/utils/map.js:176-196 | After a draw, the hit test never throws at zooms up to `getMaxZoom()`. |
| WorksiteLayer.RedrawSameViewIsQuiet | src/utils/map.js:113-116 | A draw with the remembered view only cancels a pending frame and renders. The sprites are untouched. |
| WorksiteLayer.ZoomAnimationEndpoints | src/utils/map.js:302-334 | A zoom change animates every sprite from its pre-draw scale, at the first frame, to 0.75/scale once 250 ms have passed. No frame follows. |

## Left out

- `averageGeolocation` (src/utils/map.js:58-90) is not modelled. It is trigonometry on IEEE doubles.
- The `Number(...)` conversion of the captured URL groups is not modelled. `MapsUrl.GetGoogleMapsLocation` returns the two strings.
- The `moment` date arithmetic of `getOpacity` is not modelled. The percentage of the 60-day window is an input.
- Pixi and Leaflet plumbing is not modelled: `Texture.from`, `addChild`, `anchor.set`, `PixiSettings`, the user-agent test for double buffering, and the container and renderer. A texture is the markup string it would be made from, and a render is an event.
- The throttled `mousemove` handler that toggles the pointer cursor is not modelled. It is a timing-based UI effect.
- `requestAnimationFrame` scheduling is not modelled. A requested frame is an event, and the caller decides when `Animate` runs and with which timestamp.
- `solveCollision` and the quadtree's internals live in a file that is not part of this model. A tree is recorded by its zoom, `r0` and size. The traversal order is the `visited` parameter. Sprite positions are those of the projection.
- WorksiteLayer.FindMarker: states soundness only, not completeness. Whether the traversal reaches every nearby sprite depends on the unseen quadtree code.
- WorksiteLayer.LastHit: states soundness only, not completeness, for the same reason.
- Zoom levels and `getMaxZoom()` are modelled as integers. With a fractional zoom of 12 or more (a `zoomSnap` below 1), `quadTrees[zoom]` is undefined and `findMarker` throws even below `getMaxZoom()`. The model does not cover that case. An infinite `getMaxZoom()` would keep the tree loop from ending.
- The icon module is assumed to define the `circle`, `unknown` and `plus` templates (`HasStandardTemplates`). Without `circle`, the `.replace` call throws. Without `plus`, the text "undefined" would be inserted.
- WorksiteLayer.FindMarkerDefinedUpToMaxZoom: holds for integer zooms only, for the reason above.
- `Easing`, `WorksiteLayer.Animate` and `WorksiteLayer.Hits` compute on exact reals, not IEEE doubles. The final frame reaches the target scale exactly only up to rounding. A point on the boundary of the hit test may fall on the other side in the browser.
- Strings are sequences of Unicode characters, not UTF-16 code units. No string that map.js builds or reads changes. But when a character outside the Basic Multilingual Plane comes before a match, the index `JsString.IndexOf` returns differs from `indexOf`. A lone surrogate cannot be represented.
- `prevCenter !== center` compares Leaflet objects by identity. The model compares centres by value.
- Overlay teardown is not modelled. The code has none.
- The build configuration, the end-to-end and snapshot test suites, the ORM models with their REST actions, and the jest mock of `Worksite` are not modelled. None of them holds logic of the map layer.
