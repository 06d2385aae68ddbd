/**
  The worksite overlay built by `getWorksiteLayer` (src/utils/map.js:97-347).

  The source keeps the overlay's state in closure variables (`firstDraw`,
  `prevZoom`, `prevCenter`, `markerSprites`, `frame`) and mutates sprites in
  place from Leaflet's draw callback and from animation frames. Here that state
  is an immutable `Overlay` value; the draw callback is the step function
  `Draw`, one animation frame is `Animate`, and a map click is `Click`. Side
  effects on the outside world (`$emit`, `closePopup`, `render`,
  `requestAnimationFrame`, `cancelAnimationFrame`) are returned as `Event`s in
  the order the source performs them.

  Collaborators that are not part of this model are parameters: the projection
  `latLngToLayerPoint` and `getScale(z)` of the overlay, `getMaxZoom()`, the
  current bounds' `contains`, `Worksite.getWorkType` (closed over the current
  filters and organisation), the icon module's `colors` and `templates`, and the
  order in which the collision quadtree's `visit` reaches its leaves.
*/
module WorksiteLayer {
  import opened Wrappers
  import opened MarkerStyle
  import Easing
  import Opacity
  import Reals

  /** `INTERACTIVE_ZOOM_LEVEL`: hit-testing and per-type styling start at this zoom. */
  const InteractiveZoomLevel: int := 12
  /** The numerator of `invScale = 0.75 / scale`. */
  const MarkerScale: real := 0.75
  /** The hit radius of a sprite at scale 1, in layer pixels. */
  const MarkerRadius: real := 16.0

  type PositiveReal = r: real | r > 0.0 witness 1.0

  datatype LatLng = LatLng(lat: real, lng: real)
  datatype Point = Point(x: real, y: real)
  datatype Bounds = Bounds(southWest: LatLng, northEast: LatLng)

  /** A GeoJSON point: `coordinates[0]` is the longitude and `coordinates[1]` the latitude. */
  datatype GeoPoint = GeoPoint(lng: real, lat: real)

  /** `[coordinates[1], coordinates[0]]`: the latitude-first pair Leaflet expects. */
  function ToLatLng(g: GeoPoint): LatLng {
    LatLng(g.lat, g.lng)
  }

  /** A worksite as the data source supplies it. `recency` stands for the percentage
      `getOpacity` derives from `updated_at` and the clock. */
  datatype Worksite = Worksite(
    id: int,
    location: GeoPoint,
    city: Option<string>,
    labelText: Option<string>,
    workTypes: seq<WorkType>,
    recency: real)

  /** A marker sprite: the Pixi sprite and the fields the source adds to it. `texture` is
      `None` for Pixi's empty texture; `currentScale` and `targetScale` are `None` until a
      redraw records them. */
  datatype Sprite = Sprite(
    id: int,
    x: real, y: real, x0: real, y0: real,
    legend: Option<string>,
    location: GeoPoint,
    workTypes: seq<WorkType>,
    activeWorkType: WorkType,
    colorsKey: string,
    alpha: real,
    texture: Option<string>,
    scale: real,
    currentScale: Option<real>,
    targetScale: Option<real>)

  /** The collision quadtree `solveCollision` builds for one zoom level over `size` sprites,
      with initial radius `r0`. Its internals are not part of this model. */
  datatype QuadTree = QuadTree(zoom: int, r0: real, size: nat)

  /** The `frame` variable: no handle, the handle of a scheduled frame of an animation
      that started at `start` (`null` before its first tick), or the handle of a frame
      that has already run and scheduled no successor. */
  datatype Frame = NoFrame | Pending(start: Option<real>) | Spent

  /** The closure state of one overlay. */
  datatype Overlay = Overlay(
    firstDraw: bool,
    prevZoom: Option<int>,
    prevCenter: Option<LatLng>,
    sprites: seq<Sprite>,
    frame: Frame,
    quadTrees: map<int, QuadTree>,
    listening: bool)

  /** What `getWorksiteLayer` is given, and what stays fixed for the overlay's lifetime. */
  datatype Layer = Layer(
    worksites: seq<Worksite>,
    interactive: bool,
    project: LatLng -> Point,
    maxZoom: int,
    scaleAt: int -> PositiveReal,
    colors: map<string, Colors>,
    templates: map<string, string>)

  /** What one call of the draw callback reads from the map and the context. */
  datatype View = View(
    zoom: int,
    center: LatLng,
    scale: PositiveReal,
    bounds: Bounds,
    contains: LatLng -> bool,
    getWorkType: seq<WorkType> -> WorkType)

  /** The observable effects, in the order the source performs them. */
  datatype Event =
    | MapMoved(bounds: Bounds)
    | CancelFrame
    | RequestFrame
    | Render
    | SelectMarker(marker: Sprite)
    | ClosePopup
    | EnableInteractiveTooltip

  datatype DrawResult = DrawResult(overlay: Overlay, displayed: Option<set<string>>, events: seq<Event>)

  datatype AnimateResult = AnimateResult(overlay: Overlay, events: seq<Event>)

  /** Destructuring `rMax` from `quadTrees[zoom]` throws when no tree was built for the zoom. */
  datatype HitError = MissingQuadTree

  /** The overlay before its first draw. */
  function Init(): Overlay {
    Overlay(true, None, None, [], NoFrame, map[], false)
  }

  // ---------------------------------------------------------------------------
  // First draw: sprite creation, displayed work types, quadtrees
  // ---------------------------------------------------------------------------

  /** `marker.city || marker.label`: a missing or empty city falls back to the label. */
  function Legend(m: Worksite): (legend: Option<string>)
    ensures legend == m.city || legend == m.labelText
    ensures m.city.Some? && m.city.value != "" ==> legend == m.city
    ensures legend != m.city ==> legend == m.labelText && (m.city.None? || m.city.value == "")
  {
    if m.city.Some? && m.city.value != "" then m.city else m.labelText
  }

  /** The sprite the first draw creates for one worksite. */
  function NewSprite(layer: Layer, v: View, m: Worksite): (s: Sprite)
    requires HasStandardTemplates(layer.templates)
    ensures s.id == m.id && s.location == m.location && s.workTypes == m.workTypes
    // It sits at the projection of `[coords[1], coords[0]]`, which is also its resting place.
    ensures s.x == layer.project(LatLng(m.location.lat, m.location.lng)).x && s.x0 == s.x
    ensures s.y == layer.project(LatLng(m.location.lat, m.location.lng)).y && s.y0 == s.y
    ensures s.activeWorkType == v.getWorkType(m.workTypes) && s.colorsKey == ColorsKey(s.activeWorkType)
    ensures s.alpha == 1.0
    // Pixi's empty texture stays unless the colour table has an entry for the key.
    ensures s.texture.Some? <==> s.colorsKey in layer.colors
    ensures s.currentScale.None? && s.targetScale.None?
  {
    var workType := v.getWorkType(m.workTypes);
    var key := ColorsKey(workType);
    var p := layer.project(ToLatLng(m.location));
    Sprite(
      id := m.id,
      x := p.x, y := p.y, x0 := p.x, y0 := p.y,
      legend := Legend(m),
      location := m.location,
      workTypes := m.workTypes,
      activeWorkType := workType,
      colorsKey := key,
      alpha := Opacity.GetOpacity(m.recency),
      texture := Restyle(None, layer.colors, key, layer.templates["circle"], layer.templates["plus"],
                         |m.workTypes| > 1, FirstDrawMultiplePlaceholder),
      scale := 1.0,
      currentScale := None,
      targetScale := None)
  }

  /** `worksites.forEach(...)` on the first draw: one new sprite per worksite, in order. */
  function CreateSprites(layer: Layer, v: View): (sprites: seq<Sprite>)
    requires HasStandardTemplates(layer.templates)
    ensures |sprites| == |layer.worksites|
    ensures forall i :: 0 <= i < |sprites| ==> sprites[i] == NewSprite(layer, v, layer.worksites[i])
  {
    seq(|layer.worksites|, i requires 0 <= i < |layer.worksites| => NewSprite(layer, v, layer.worksites[i]))
  }

  /** The active work type names of a list of worksites. */
  ghost function ActiveTypes(ws: seq<Worksite>, getWorkType: seq<WorkType> -> WorkType): set<string> {
    set i | 0 <= i < |ws| :: getWorkType(ws[i].workTypes).workType
  }

  /** `context.displayedWorkTypes[workType.work_type] = true`, marker by marker, only while
      `context.displayedWorkTypes` is set: afterwards it holds what it held plus every
      active work type, and an unset one stays unset. */
  function RecordWorkTypes(displayed: Option<set<string>>, ws: seq<Worksite>,
                           getWorkType: seq<WorkType> -> WorkType): (r: Option<set<string>>)
    ensures displayed.None? ==> r.None?
    ensures displayed.Some? ==> r == Some(displayed.value + ActiveTypes(ws, getWorkType))
    decreases |ws|
  {
    if ws == [] then
      assert ActiveTypes(ws, getWorkType) == {};
      assert displayed.Some? ==> displayed.value + {} == displayed.value;
      displayed
    else
      var next := if displayed.Some? then Some(displayed.value + {getWorkType(ws[0].workTypes).workType}) else None;
      assert ActiveTypes(ws, getWorkType)
          == {getWorkType(ws[0].workTypes).workType} + ActiveTypes(ws[1..], getWorkType) by {
        forall t | t in ActiveTypes(ws, getWorkType)
          ensures t in {getWorkType(ws[0].workTypes).workType} + ActiveTypes(ws[1..], getWorkType)
        {
          var i :| 0 <= i < |ws| && t == getWorkType(ws[i].workTypes).workType;
          if i > 0 {
            assert ws[1..][i - 1] == ws[i];
          }
        }
        forall t | t in ActiveTypes(ws[1..], getWorkType)
          ensures t in ActiveTypes(ws, getWorkType)
        {
          var i :| 0 <= i < |ws[1..]| && t == getWorkType(ws[1..][i].workTypes).workType;
          assert ws[1..][i] == ws[i + 1];
        }
      }
      assert displayed.Some? ==>
        next.value + ActiveTypes(ws[1..], getWorkType) == displayed.value + ActiveTypes(ws, getWorkType);
      RecordWorkTypes(next, ws[1..], getWorkType)
  }

  /** `(z <= 7 ? 16 : 24)`: the initial collision radius at zoom `z` before scaling. */
  function BaseRadius(z: int): real {
    if z <= 7 then 16.0 else 24.0
  }

  /** The trees of the `for` loop from zoom `z` up to `getMaxZoom()`. */
  function QuadTreesFrom(layer: Layer, z: int, n: nat): (trees: map<int, QuadTree>)
    ensures forall zz :: zz in trees <==> z <= zz <= layer.maxZoom
    ensures forall zz :: zz in trees ==> trees[zz] == QuadTree(zz, BaseRadius(zz) / layer.scaleAt(zz), n)
    decreases layer.maxZoom - z
  {
    if z > layer.maxZoom then map[]
    else QuadTreesFrom(layer, z + 1, n)[z := QuadTree(z, BaseRadius(z) / layer.scaleAt(z), n)]
  }

  /** The quadtrees of the first draw: one per zoom from the interactive level to the
      maximum zoom when the layer is interactive, none otherwise, each over all `n`
      sprites with `r0 = 24 / getScale(z)` (the radius 16 branch never applies). */
  function BuildQuadTrees(layer: Layer, n: nat): (trees: map<int, QuadTree>)
    ensures layer.interactive ==> forall z :: z in trees <==> InteractiveZoomLevel <= z <= layer.maxZoom
    ensures !layer.interactive ==> trees == map[]
    ensures forall z :: z in trees ==> trees[z] == QuadTree(z, 24.0 / layer.scaleAt(z), n)
  {
    if layer.interactive then QuadTreesFrom(layer, InteractiveZoomLevel, n) else map[]
  }

  // ---------------------------------------------------------------------------
  // Redraw on a view change: style refresh and scale bookkeeping
  // ---------------------------------------------------------------------------

  /** Per-type styling applies: the zoom is at least the interactive level and the layer
      is interactive. */
  predicate Detailed(layer: Layer, v: View) {
    v.zoom >= InteractiveZoomLevel && layer.interactive
  }

  /** The texture a sprite gets when the view has changed. */
  function RefreshTexture(layer: Layer, v: View, s: Sprite): (texture: Option<string>)
    requires HasStandardTemplates(layer.templates)
    // Out-of-bounds sprites at interactive zoom are left alone.
    ensures Detailed(layer, v) && !v.contains(ToLatLng(s.location)) ==> texture == s.texture
    // A missing colour entry for the key in use leaves the texture alone.
    ensures Detailed(layer, v) && ColorsKey(v.getWorkType(s.workTypes)) !in layer.colors ==> texture == s.texture
    ensures !Detailed(layer, v) && s.colorsKey !in layer.colors ==> texture == s.texture
    // Any new texture is markup built with the redraw placeholder, from the type's
    // template at interactive zoom and from the circle otherwise.
    ensures texture != s.texture ==> texture.Some?
    ensures !Detailed(layer, v) && s.colorsKey in layer.colors ==>
      texture == Some(Svg(layer.templates["circle"], layer.colors[s.colorsKey], layer.templates["plus"],
                          |s.workTypes| > 1, MultiplePlaceholder))
  {
    var multi := |s.workTypes| > 1;
    if Detailed(layer, v) then
      if v.contains(ToLatLng(s.location)) then
        var workType := v.getWorkType(s.workTypes);
        Restyle(s.texture, layer.colors, ColorsKey(workType), TypeTemplate(layer.templates, workType.workType),
                layer.templates["plus"], multi, MultiplePlaceholder)
      else s.texture
    else
      Restyle(s.texture, layer.colors, s.colorsKey, layer.templates["circle"],
              layer.templates["plus"], multi, MultiplePlaceholder)
  }

  /** One iteration of `markerSprites.forEach` on a view change: the first draw sets the
      scale, later draws record the scale to animate from and to. */
  function RefreshSprite(layer: Layer, v: View, first: bool, s: Sprite): (s': Sprite)
    requires HasStandardTemplates(layer.templates)
    ensures s'.texture == RefreshTexture(layer, v, s)
    // The first draw snaps the scale; later draws keep it and record both ends of the animation.
    ensures first ==> s' == s.(texture := s'.texture, scale := MarkerScale / v.scale)
    ensures !first ==> s' == s.(texture := s'.texture, currentScale := Some(s.scale),
                                targetScale := Some(MarkerScale / v.scale))
  {
    var texture := RefreshTexture(layer, v, s);
    var invScale := MarkerScale / v.scale;
    if first then s.(texture := texture, scale := invScale)
    else s.(texture := texture, currentScale := Some(s.scale), targetScale := Some(invScale))
  }

  function RefreshAll(layer: Layer, v: View, first: bool, sprites: seq<Sprite>): (r: seq<Sprite>)
    requires HasStandardTemplates(layer.templates)
    ensures |r| == |sprites|
    ensures forall i :: 0 <= i < |r| ==> r[i] == RefreshSprite(layer, v, first, sprites[i])
  {
    seq(|sprites|, i requires 0 <= i < |sprites| => RefreshSprite(layer, v, first, sprites[i]))
  }

  // ---------------------------------------------------------------------------
  // The draw callback
  // ---------------------------------------------------------------------------

  /** `firstDraw || prevZoom !== zoom || prevCenter !== center`. */
  predicate ViewChanged(o: Overlay, v: View) {
    o.firstDraw || o.prevZoom != Some(v.zoom) || o.prevCenter != Some(v.center)
  }

  /** `!firstDraw && prevZoom !== zoom`: the condition for starting an animation. */
  predicate ZoomChanged(o: Overlay, v: View) {
    !o.firstDraw && o.prevZoom != Some(v.zoom)
  }

  /** Every sprite has recorded the scales an animation interpolates between. */
  predicate ScalesRecorded(sprites: seq<Sprite>) {
    forall i :: 0 <= i < |sprites| ==> sprites[i].currentScale.Some? && sprites[i].targetScale.Some?
  }

  /** The sprites after a draw: created on the first draw and styled at once, refreshed
      on a later draw that sees a changed view, and otherwise left as they are. */
  function DrawSprites(layer: Layer, o: Overlay, v: View): (sprites: seq<Sprite>)
    requires HasStandardTemplates(layer.templates)
    ensures o.firstDraw ==> |sprites| == |layer.worksites|
    ensures o.firstDraw ==> forall i :: 0 <= i < |sprites| ==>
      sprites[i] == RefreshSprite(layer, v, true, NewSprite(layer, v, layer.worksites[i]))
    ensures !o.firstDraw ==> |sprites| == |o.sprites|
    ensures !o.firstDraw && ViewChanged(o, v) ==> forall i :: 0 <= i < |o.sprites| ==>
      sprites[i] == RefreshSprite(layer, v, false, o.sprites[i])
    ensures !ViewChanged(o, v) ==> sprites == o.sprites
    ensures o.firstDraw ==> forall i :: 0 <= i < |sprites| ==> sprites[i].scale == MarkerScale / v.scale
    ensures !o.firstDraw && ViewChanged(o, v) ==> forall i :: 0 <= i < |o.sprites| ==>
      && sprites[i].scale == o.sprites[i].scale
      && sprites[i].currentScale == Some(o.sprites[i].scale)
      && sprites[i].targetScale == Some(MarkerScale / v.scale)
  {
    if o.firstDraw then RefreshAll(layer, v, true, CreateSprites(layer, v))
    else if ViewChanged(o, v) then RefreshAll(layer, v, false, o.sprites)
    else o.sprites
  }

  /** Where an effect sits in the draw callback: cancelling the pending frame, emitting
      `mapMoved`, requesting an animation frame, rendering; a draw performs nothing else. */
  function DrawStep(e: Event): nat {
    match e
    case CancelFrame => 0
    case MapMoved(_) => 1
    case RequestFrame => 2
    case Render => 3
    case _ => 4
  }

  /** The effects are ones a draw performs, `mapMoved` carries the current bounds, and
      each effect comes strictly later in the callback than the one before it, so every
      effect occurs at most once and in the callback's order. */
  predicate InDrawOrder(events: seq<Event>, bounds: Bounds)
    decreases |events|
  {
    |events| == 0 ||
    (&& DrawStep(events[0]) < 4
     && (events[0].MapMoved? ==> events[0] == MapMoved(bounds))
     && (|events| > 1 ==> DrawStep(events[0]) < DrawStep(events[1]))
     && InDrawOrder(events[1..], bounds))
  }

  /** The effects of one draw, in the order the callback performs them: cancel the pending
      frame, emit `mapMoved`, request an animation frame, render. */
  function DrawEvents(cancel: bool, moved: bool, bounds: Bounds, request: bool): (events: seq<Event>)
    ensures CancelFrame in events <==> cancel
    ensures MapMoved(bounds) in events <==> moved
    ensures RequestFrame in events <==> request
    ensures cancel ==> events[0] == CancelFrame
    ensures |events| > 0 && events[|events| - 1] == Render
    ensures InDrawOrder(events, bounds)
  {
    var requested := if request then [RequestFrame, Render] else [Render];
    assert InDrawOrder(requested, bounds) by {
      assert requested[1..] == [] || requested[1..] == [Render];
      assert InDrawOrder([Render], bounds) by { assert [Render][1..] == []; }
    }
    var moved' := if moved then [MapMoved(bounds)] + requested else requested;
    assert moved' == [MapMoved(bounds)] + requested ==> moved'[1..] == requested;
    var events := if cancel then [CancelFrame] + moved' else moved';
    assert events == [CancelFrame] + moved' ==> events[1..] == moved';
    events
  }

  /** In a list in draw order no effect precedes the first one. */
  lemma {:induction false} FirstInDrawOrder(events: seq<Event>, bounds: Bounds, x: Event)
    requires InDrawOrder(events, bounds)
    ensures x in events ==> |events| > 0 && DrawStep(events[0]) <= DrawStep(x)
    decreases |events|
  {
    if |events| > 1 {
      FirstInDrawOrder(events[1..], bounds, x);
      assert x in events ==> x == events[0] || x in events[1..];
    }
  }

  /** Dropping the first effect of a list in draw order leaves a list in draw order that
      holds every other effect of the list and not the first one. */
  lemma DrawOrderTail(a: seq<Event>, bounds: Bounds)
    requires InDrawOrder(a, bounds) && |a| > 0
    ensures InDrawOrder(a[1..], bounds)
    ensures forall e :: e in a <==> e == a[0] || e in a[1..]
    ensures a[0] !in a[1..]
  {
    assert a == [a[0]] + a[1..];
    FirstInDrawOrder(a[1..], bounds, a[0]);
  }

  /** A list in draw order is determined by which effects it holds: the ordering clauses
      of `DrawEvents` and `Draw` leave room for exactly one list. */
  lemma {:induction false} DrawOrderUnique(a: seq<Event>, b: seq<Event>, bounds: Bounds)
    requires InDrawOrder(a, bounds) && InDrawOrder(b, bounds)
    requires forall e :: e in a <==> e in b
    ensures a == b
    decreases |a|
  {
    if a != [] || b != [] {
      // Whichever list has a first effect, the other list holds it too.
      var x := (a + b)[0];
      assert x in a || x in b;
      assert x in a && x in b;
      assert a[0] in b;
      assert b[0] in a;
      FirstInDrawOrder(a, bounds, b[0]);
      FirstInDrawOrder(b, bounds, a[0]);
      // The first effects have the same step, and a step names one effect.
      assert DrawStep(a[0]) == DrawStep(b[0]) < 4;
      DrawOrderTail(a, bounds);
      DrawOrderTail(b, bounds);
      DrawOrderUnique(a[1..], b[1..], bounds);
      assert a == [a[0]] + a[1..] && b == [b[0]] + b[1..];
    }
  }

  /** One call of the draw callback with the context's `displayedWorkTypes`. */
  function Draw(layer: Layer, o: Overlay, v: View, displayed: Option<set<string>>): (r: DrawResult)
    requires HasStandardTemplates(layer.templates)
    // A pending frame is cancelled before anything else happens.
    ensures CancelFrame in r.events <==> o.frame != NoFrame
    ensures CancelFrame in r.events ==> r.events[0] == CancelFrame
    // `mapMoved` is emitted, with the current bounds, exactly on the first draw or a view change.
    ensures MapMoved(v.bounds) in r.events <==> ViewChanged(o, v)
    // Nothing else happens, and each effect happens at most once, in the callback's order.
    ensures InDrawOrder(r.events, v.bounds)
    // An animation is requested exactly when the zoom changed after the first draw.
    ensures RequestFrame in r.events <==> ZoomChanged(o, v)
    ensures r.overlay.frame == (if ZoomChanged(o, v) then Pending(None) else NoFrame)
    // Every draw ends by rendering, with the first-draw flag cleared and the view remembered.
    ensures |r.events| > 0 && r.events[|r.events| - 1] == Render
    ensures !r.overlay.firstDraw
    ensures r.overlay.prevZoom == Some(v.zoom) && r.overlay.prevCenter == Some(v.center)
    // The first draw creates one sprite per worksite at scale 0.75 / scale.
    ensures o.firstDraw ==> |r.overlay.sprites| == |layer.worksites|
    ensures o.firstDraw ==> forall i :: 0 <= i < |r.overlay.sprites| ==>
      r.overlay.sprites[i].scale == MarkerScale / v.scale
    // Later changed draws keep the scale and only record where to animate from and to.
    ensures !o.firstDraw ==> |r.overlay.sprites| == |o.sprites|
    ensures !o.firstDraw && ViewChanged(o, v) ==> forall i :: 0 <= i < |o.sprites| ==>
      && r.overlay.sprites[i].scale == o.sprites[i].scale
      && r.overlay.sprites[i].currentScale == Some(o.sprites[i].scale)
      && r.overlay.sprites[i].targetScale == Some(MarkerScale / v.scale)
    // An unchanged view leaves every sprite alone.
    ensures !ViewChanged(o, v) ==> r.overlay.sprites == o.sprites
    // Only the first draw builds quadtrees, registers handlers and records work types.
    ensures o.firstDraw ==> r.overlay.listening == layer.interactive
    ensures !o.firstDraw ==> r.overlay.quadTrees == o.quadTrees && r.overlay.listening == o.listening
    ensures !o.firstDraw ==> r.displayed == displayed
  {
    var trees := if o.firstDraw then BuildQuadTrees(layer, |layer.worksites|) else o.quadTrees;
    var listening := if o.firstDraw then layer.interactive else o.listening;
    var displayed' := if o.firstDraw then RecordWorkTypes(displayed, layer.worksites, v.getWorkType) else displayed;
    // The first draw sets `prevZoom` and `prevCenter` before they are compared.
    var prevZoom := if o.firstDraw then Some(v.zoom) else o.prevZoom;
    var prevCenter := if o.firstDraw then Some(v.center) else o.prevCenter;
    var changed := o.firstDraw || prevZoom != Some(v.zoom) || prevCenter != Some(v.center);
    var sprites' := DrawSprites(layer, o, v);
    var animate := !o.firstDraw && prevZoom != Some(v.zoom);
    var events := DrawEvents(o.frame != NoFrame, changed, v.bounds, animate);
    DrawResult(
      Overlay(false, Some(v.zoom), Some(v.center), sprites', if animate then Pending(None) else NoFrame, trees, listening),
      displayed',
      events)
  }

  // ---------------------------------------------------------------------------
  // Animation frames
  // ---------------------------------------------------------------------------

  /** `if (start === null) start = timestamp`. */
  function FrameStart(o: Overlay, timestamp: real): real
    requires o.frame.Pending?
  {
    if o.frame.start.None? then timestamp else o.frame.start.value
  }

  /** `progress = timestamp - start`. */
  function Progress(o: Overlay, timestamp: real): real
    requires o.frame.Pending?
  {
    timestamp - FrameStart(o, timestamp)
  }

  /** One run of `animate`: every sprite moves along the eased curve from its recorded
      current scale to its target, the frame is rendered, and another frame is requested
      while the duration has not elapsed. */
  function Animate(o: Overlay, timestamp: real): (r: AnimateResult)
    requires o.frame.Pending?
    requires ScalesRecorded(o.sprites)
    ensures |r.overlay.sprites| == |o.sprites|
    ensures forall i :: 0 <= i < |o.sprites| ==>
      r.overlay.sprites[i] == o.sprites[i].(scale := r.overlay.sprites[i].scale)
    ensures forall i :: 0 <= i < |o.sprites| ==>
      r.overlay.sprites[i].scale == Easing.AnimatedScale(
        o.sprites[i].currentScale.value, o.sprites[i].targetScale.value, Progress(o, timestamp))
    // The first tick starts at the recorded current scale.
    ensures o.frame.start.None? ==> forall i :: 0 <= i < |o.sprites| ==>
      r.overlay.sprites[i].scale == o.sprites[i].currentScale.value
    // Once the duration has elapsed every sprite is at its target and no frame follows.
    ensures Easing.Duration <= Progress(o, timestamp) ==> forall i :: 0 <= i < |o.sprites| ==>
      r.overlay.sprites[i].scale == o.sprites[i].targetScale.value
    // The frame renders, then requests its successor while the duration has not elapsed.
    ensures r.events == [Render] || r.events == [Render, RequestFrame]
    ensures RequestFrame in r.events <==> Progress(o, timestamp) < Easing.Duration
    ensures r.overlay.frame ==
      (if Progress(o, timestamp) < Easing.Duration then Pending(Some(FrameStart(o, timestamp))) else Spent)
    ensures r.overlay.(sprites := o.sprites, frame := o.frame) == o
  {
    var start := FrameStart(o, timestamp);
    var progress := timestamp - start;
    var sprites := seq(|o.sprites|, i requires 0 <= i < |o.sprites| =>
      o.sprites[i].(scale := Easing.AnimatedScale(o.sprites[i].currentScale.value,
                                                  o.sprites[i].targetScale.value, progress)));
    var more := progress < Easing.Duration;
    AnimateResult(
      o.(sprites := sprites, frame := if more then Pending(Some(start)) else Spent),
      [Render] + (if more then [RequestFrame] else []))
  }

  // ---------------------------------------------------------------------------
  // Hit-testing and the click handler
  // ---------------------------------------------------------------------------

  /** The leaf test of the `visit` callback: the point lies within `scale.x * 16` of the
      sprite. A sprite always covers its own position, and a point it covers lies in the
      square of half-side `|scale.x| * 16` around it, the box the traversal prunes by. */
  predicate Hits(s: Sprite, p: Point)
    ensures s.x == p.x && s.y == p.y ==> Hits(s, p)
    ensures Hits(s, p) ==> var r := Reals.Abs(s.scale * MarkerRadius);
      -r <= s.x - p.x <= r && -r <= s.y - p.y <= r
  {
    var dx := s.x - p.x;
    var dy := s.y - p.y;
    var r := s.scale * MarkerRadius;
    var hit := dx * dx + dy * dy <= r * r;
    if hit then
      assert dx * dx <= r * r && dy * dy <= r * r;
      assert Reals.Abs(r) * Reals.Abs(r) == r * r;
      Reals.SquareBound(dx, Reals.Abs(r));
      Reals.SquareBound(dy, Reals.Abs(r));
      hit
    else hit
  }

  /** The leaves the traversal reaches, checked in order; a later hit overwrites `marker`. */
  function LastHit(sprites: seq<Sprite>, p: Point, visited: seq<nat>): (r: Option<nat>)
    requires forall j :: 0 <= j < |visited| ==> visited[j] < |sprites|
    ensures r.Some? ==> r.value in visited && r.value < |sprites| && Hits(sprites[r.value], p)
    ensures r.None? <==> forall j :: 0 <= j < |visited| ==> !Hits(sprites[visited[j]], p)
    // Of all the visited leaves that pass, the last one wins.
    ensures forall j :: (0 <= j < |visited| && Hits(sprites[visited[j]], p)
                         && forall j' :: j < j' < |visited| ==> !Hits(sprites[visited[j']], p))
                        ==> r == Some(visited[j])
    decreases |visited|
  {
    if visited == [] then None
    else
      var k := visited[|visited| - 1];
      if Hits(sprites[k], p) then Some(k)
      else
        var rest := LastHit(sprites, p, visited[..|visited| - 1]);
        assert forall j :: 0 <= j < |visited| - 1 ==> visited[..|visited| - 1][j] == visited[j];
        rest
  }

  /** A sprite drawn at (100, 100) with scale 1 has a hit radius of 16 pixels: a point at
      (105, 105) hits it and one at (200, 200) does not. */
  lemma HitRadiusExample(s: Sprite)
    requires s.x == 100.0 && s.y == 100.0 && s.scale == 1.0
    ensures LastHit([s], Point(105.0, 105.0), [0]) == Some(0)
    ensures LastHit([s], Point(200.0, 200.0), [0]) == None
  {
    assert Hits(s, Point(105.0, 105.0));
    assert !Hits(s, Point(200.0, 200.0));
  }

  /** `findMarker`: no marker below the interactive zoom or on a non-interactive layer;
      otherwise the sprite the quadtree traversal last found under the point. `visited`
      is the order in which the traversal reaches its leaves (sprite indices). */
  function FindMarker(layer: Layer, o: Overlay, zoom: int, ll: LatLng, visited: seq<nat>): (r: Result<Option<nat>, HitError>)
    requires forall j :: 0 <= j < |visited| ==> visited[j] < |o.sprites|
    ensures zoom < InteractiveZoomLevel || !layer.interactive ==> r == Success(None)
    ensures r.Failure? <==> zoom >= InteractiveZoomLevel && layer.interactive && zoom !in o.quadTrees
    ensures r.Success? && r.value.Some? ==>
      && zoom >= InteractiveZoomLevel && layer.interactive
      && r.value.value < |o.sprites|
      && Hits(o.sprites[r.value.value], layer.project(ll))
    // With a tree for the zoom, the result is the traversal's last hit.
    ensures zoom >= InteractiveZoomLevel && layer.interactive && zoom in o.quadTrees ==>
      r == Success(LastHit(o.sprites, layer.project(ll), visited))
  {
    if zoom < InteractiveZoomLevel || !layer.interactive then Success(None)
    else if zoom !in o.quadTrees then Failure(MissingQuadTree)
    else Success(LastHit(o.sprites, layer.project(ll), visited))
  }

  /** The click handler, registered on the first draw of an interactive layer: select the
      marker under the pointer or close the popup, then, below the interactive zoom, call
      the context's `enableInteractiveTooltip` when it has one. */
  function Click(layer: Layer, o: Overlay, zoom: int, ll: LatLng, visited: seq<nat>, hasTooltipHook: bool)
    : (r: Result<seq<Event>, HitError>)
    requires forall j :: 0 <= j < |visited| ==> visited[j] < |o.sprites|
    ensures !o.listening ==> r == Success([])
    ensures o.listening ==> (r.Failure? <==> FindMarker(layer, o, zoom, ll, visited).Failure?)
    ensures o.listening && r.Success? ==> |r.value| > 0
    ensures o.listening && r.Success? ==>
      (r.value[0] == ClosePopup <==> FindMarker(layer, o, zoom, ll, visited) == Success(None))
    ensures r.Success? ==> forall e :: e in r.value && e.SelectMarker? ==>
      e == r.value[0] && e.marker in o.sprites && Hits(e.marker, layer.project(ll))
    ensures r.Success? ==>
      (EnableInteractiveTooltip in r.value <==> o.listening && zoom < InteractiveZoomLevel && hasTooltipHook)
    // A found marker is emitted as `onSelectmarker`, and nothing else happens: a marker is
    // only ever found at or above the interactive zoom, where the tooltip hook is not called.
    ensures (o.listening && FindMarker(layer, o, zoom, ll, visited).Success?
             && FindMarker(layer, o, zoom, ll, visited).value.Some?)
            ==> r == Success([SelectMarker(o.sprites[FindMarker(layer, o, zoom, ll, visited).value.value])])
    // Without a marker the popup is closed, followed by the tooltip hook below the interactive zoom.
    ensures o.listening && FindMarker(layer, o, zoom, ll, visited) == Success(None) ==>
      r == Success(if zoom < InteractiveZoomLevel && hasTooltipHook then [ClosePopup, EnableInteractiveTooltip]
                   else [ClosePopup])
  {
    if !o.listening then Success([])
    else
      var found :- FindMarker(layer, o, zoom, ll, visited);
      var first := if found.Some? then SelectMarker(o.sprites[found.value]) else ClosePopup;
      var tooltip := if zoom < InteractiveZoomLevel && hasTooltipHook then [EnableInteractiveTooltip] else [];
      assert [first] + [] == [first];
      assert [first] + [EnableInteractiveTooltip] == [first, EnableInteractiveTooltip];
      Success([first] + tooltip)
  }

  // ---------------------------------------------------------------------------
  // The state machine's invariant
  // ---------------------------------------------------------------------------

  /** The states `Init`, `Draw` and `Animate` can reach: before the first draw nothing
      exists; afterwards sprite `i` stands for worksite `i`, the view has been remembered,
      the quadtrees and handlers of the first draw are in place, and an animation frame is
      only ever pending once every sprite has recorded its scales. */
  ghost predicate Valid(layer: Layer, o: Overlay) {
    && (o.firstDraw ==> o == Init())
    && (!o.firstDraw ==>
          && |o.sprites| == |layer.worksites|
          && (forall i :: 0 <= i < |o.sprites| ==> o.sprites[i].id == layer.worksites[i].id)
          && o.prevZoom.Some? && o.prevCenter.Some?
          && o.listening == layer.interactive
          && o.quadTrees == BuildQuadTrees(layer, |o.sprites|))
    && (o.frame.Pending? ==> ScalesRecorded(o.sprites))
  }

  lemma InitValid(layer: Layer)
    ensures Valid(layer, Init())
    ensures Init().firstDraw && Init().sprites == [] && Init().frame == NoFrame
  {
  }

  /** The draw callback keeps the overlay in a reachable state. */
  lemma DrawPreservesValid(layer: Layer, o: Overlay, v: View, displayed: Option<set<string>>)
    requires HasStandardTemplates(layer.templates)
    requires Valid(layer, o)
    ensures Valid(layer, Draw(layer, o, v, displayed).overlay)
  {
    var r := Draw(layer, o, v, displayed).overlay;
    if o.firstDraw {
      FirstDrawSprites(layer, v, displayed);
    } else {
      forall i | 0 <= i < |r.sprites|
        ensures r.sprites[i].id == o.sprites[i].id
      {
        if ViewChanged(o, v) {
          RedrawStyles(layer, o, v, displayed, i);
        }
      }
    }
  }

  /** An animation frame keeps the overlay in a reachable state. */
  lemma AnimatePreservesValid(layer: Layer, o: Overlay, timestamp: real)
    requires Valid(layer, o)
    requires o.frame.Pending?
    ensures ScalesRecorded(o.sprites)
    ensures Valid(layer, Animate(o, timestamp).overlay)
  {
    var r := Animate(o, timestamp).overlay;
    assert forall i :: 0 <= i < |r.sprites| ==>
      && r.sprites[i].id == o.sprites[i].id
      && r.sprites[i].currentScale == o.sprites[i].currentScale
      && r.sprites[i].targetScale == o.sprites[i].targetScale;
  }

  // ---------------------------------------------------------------------------
  // What a draw does to each sprite
  // ---------------------------------------------------------------------------

  /** The first draw creates exactly one sprite per worksite, in order: at the projection
      of the worksite's latitude and longitude, with its id, legend, work types, active work
      type and colour key, fully opaque; it records each active work type in the context
      and builds the quadtrees. */
  lemma FirstDrawSprites(layer: Layer, v: View, displayed: Option<set<string>>)
    requires HasStandardTemplates(layer.templates)
    ensures var r := Draw(layer, Init(), v, displayed);
      && |r.overlay.sprites| == |layer.worksites|
      && r.overlay.quadTrees == BuildQuadTrees(layer, |layer.worksites|)
      && (displayed.Some? ==> r.displayed == Some(displayed.value + ActiveTypes(layer.worksites, v.getWorkType)))
      && (displayed.None? ==> r.displayed.None?)
      && forall i :: 0 <= i < |layer.worksites| ==>
           var s, m := r.overlay.sprites[i], layer.worksites[i];
           var p := layer.project(LatLng(m.location.lat, m.location.lng));
           && s.id == m.id
           && s.x == p.x && s.y == p.y && s.x0 == p.x && s.y0 == p.y
           && (m.city.Some? && m.city.value != "" ==> s.legend == m.city)
           && (m.city.None? || m.city.value == "" ==> s.legend == m.labelText)
           && s.location == m.location
           && s.workTypes == m.workTypes
           && s.activeWorkType == v.getWorkType(m.workTypes)
           && s.colorsKey == ColorsKey(v.getWorkType(m.workTypes))
           && s.alpha == 1.0
           && s.currentScale.None? && s.targetScale.None?
  {
    var sprites := CreateSprites(layer, v);
    var r := Draw(layer, Init(), v, displayed);
    assert forall i :: 0 <= i < |sprites| ==> r.overlay.sprites[i] == RefreshSprite(layer, v, true, sprites[i]);
  }

  /** The textures after the first draw. Its own circle markup, built with the misspelt
      `{{multple}}`, survives only on sprites outside the bounds at interactive zoom; every
      other sprite with a colour entry is restyled in the same draw with `{{multiple}}`.
      A sprite without a colour entry keeps Pixi's empty texture. */
  lemma FirstDrawTextures(layer: Layer, v: View, displayed: Option<set<string>>, i: int)
    requires HasStandardTemplates(layer.templates)
    requires 0 <= i < |layer.worksites|
    ensures var s, m := Draw(layer, Init(), v, displayed).overlay.sprites[i], layer.worksites[i];
      var workType := v.getWorkType(m.workTypes);
      var key := ColorsKey(workType);
      var multi := |m.workTypes| > 1;
      var plus := layer.templates["plus"];
      && (key !in layer.colors ==> s.texture.None?)
      && (key in layer.colors && !Detailed(layer, v) ==>
            s.texture == Some(Svg(layer.templates["circle"], layer.colors[key], plus, multi, MultiplePlaceholder)))
      && (key in layer.colors && Detailed(layer, v) && v.contains(ToLatLng(m.location)) ==>
            s.texture == Some(Svg(TypeTemplate(layer.templates, workType.workType), layer.colors[key], plus, multi,
                                  MultiplePlaceholder)))
      && (key in layer.colors && Detailed(layer, v) && !v.contains(ToLatLng(m.location)) ==>
            s.texture == Some(Svg(layer.templates["circle"], layer.colors[key], plus, multi,
                                  FirstDrawMultiplePlaceholder)))
  {
    var sprites := CreateSprites(layer, v);
    var r := Draw(layer, Init(), v, displayed);
    assert r.overlay.sprites[i] == RefreshSprite(layer, v, true, sprites[i]);
  }

  /** A later draw after a view change restyles sprite `i`: at interactive zoom an
      in-bounds sprite gets the template of its current work type (or `unknown`) and an
      out-of-bounds one is left alone; below it, or on a non-interactive layer, every sprite
      gets the circle with the colour key stored at the first draw. A missing colour entry
      leaves the texture unchanged, and nothing but the texture and the recorded scales
      changes; in particular the stored colour key and active work type are never
      overwritten. */
  lemma RedrawStyles(layer: Layer, o: Overlay, v: View, displayed: Option<set<string>>, i: int)
    requires HasStandardTemplates(layer.templates)
    requires !o.firstDraw && ViewChanged(o, v)
    requires 0 <= i < |o.sprites|
    ensures var s, s' := o.sprites[i], Draw(layer, o, v, displayed).overlay.sprites[i];
      var workType := v.getWorkType(s.workTypes);
      var key := ColorsKey(workType);
      var multi := |s.workTypes| > 1;
      var plus := layer.templates["plus"];
      && (Detailed(layer, v) && v.contains(ToLatLng(s.location)) && key in layer.colors ==>
            s'.texture == Some(Svg(TypeTemplate(layer.templates, workType.workType), layer.colors[key], plus, multi,
                                   MultiplePlaceholder)))
      && (Detailed(layer, v) && v.contains(ToLatLng(s.location)) && key !in layer.colors ==>
            s'.texture == s.texture)
      && (Detailed(layer, v) && !v.contains(ToLatLng(s.location)) ==> s'.texture == s.texture)
      && (!Detailed(layer, v) && s.colorsKey in layer.colors ==>
            s'.texture == Some(Svg(layer.templates["circle"], layer.colors[s.colorsKey], plus, multi,
                                   MultiplePlaceholder)))
      && (!Detailed(layer, v) && s.colorsKey !in layer.colors ==> s'.texture == s.texture)
      && s'.(texture := s.texture, currentScale := s.currentScale, targetScale := s.targetScale) == s
  {
    var r := Draw(layer, o, v, displayed);
    assert r.overlay.sprites[i] == RefreshSprite(layer, v, false, o.sprites[i]);
  }

  /** After a draw of a reachable state, a click at any zoom the map supports never hits a
      missing quadtree. */
  lemma FindMarkerDefinedUpToMaxZoom(layer: Layer, o: Overlay, zoom: int, ll: LatLng, visited: seq<nat>)
    requires Valid(layer, o) && !o.firstDraw
    requires zoom <= layer.maxZoom
    requires forall j :: 0 <= j < |visited| ==> visited[j] < |o.sprites|
    ensures FindMarker(layer, o, zoom, ll, visited).Success?
  {
  }

  /** A draw that sees the view it saw last time emits no `mapMoved`, requests no frame
      and leaves every sprite alone; a frame still pending from a zoom animation is
      cancelled, so sprites stay at whatever scale the last frame gave them. */
  lemma RedrawSameViewIsQuiet(layer: Layer, o: Overlay, v: View, displayed: Option<set<string>>)
    requires HasStandardTemplates(layer.templates)
    requires Valid(layer, o) && !o.firstDraw
    requires o.prevZoom == Some(v.zoom) && o.prevCenter == Some(v.center)
    ensures var r := Draw(layer, o, v, displayed);
      && r.overlay == o.(frame := NoFrame)
      && (o.frame == NoFrame ==> r.events == [Render])
      && (o.frame != NoFrame ==> r.events == [CancelFrame, Render])
  {
    var r := Draw(layer, o, v, displayed);
    assert !ViewChanged(o, v) && !ZoomChanged(o, v);
    assert forall e :: e in r.events ==> e == CancelFrame || e == Render;
  }

  /** A zoom change animates every sprite from the scale it had before the draw, at the
      first frame, to `0.75 / scale` of the new view, once the duration has elapsed, after
      which no further frame is requested. */
  lemma ZoomAnimationEndpoints(layer: Layer, o: Overlay, v: View, displayed: Option<set<string>>,
                               t0: real, t1: real)
    requires HasStandardTemplates(layer.templates)
    requires Valid(layer, o) && !o.firstDraw
    requires o.prevZoom != Some(v.zoom)
    requires t0 + Easing.Duration <= t1
    ensures var d := Draw(layer, o, v, displayed).overlay;
      && d.frame == Pending(None)
      && ScalesRecorded(d.sprites)
      && var first := Animate(d, t0);
         && first.overlay.frame == Pending(Some(t0))
         && RequestFrame in first.events
         && |first.overlay.sprites| == |o.sprites|
         && (forall i :: 0 <= i < |o.sprites| ==> first.overlay.sprites[i].scale == o.sprites[i].scale)
         && var last := Animate(first.overlay, t1);
            && last.overlay.frame == Spent
            && RequestFrame !in last.events
            && |last.overlay.sprites| == |o.sprites|
            && forall i :: 0 <= i < |o.sprites| ==> last.overlay.sprites[i].scale == MarkerScale / v.scale
  {
    var d := Draw(layer, o, v, displayed).overlay;
    assert ViewChanged(o, v) && ZoomChanged(o, v);
    var first := Animate(d, t0);
    assert Progress(d, t0) == 0.0;
    assert Valid(layer, first.overlay) by {
      DrawPreservesValid(layer, o, v, displayed);
      AnimatePreservesValid(layer, d, t0);
    }
    assert Progress(first.overlay, t1) == t1 - t0;
  }
}
