/**
 * The station map controller: one map surface at a time, the station source
 * and marker layer it builds, the popup opened by a marker click or an
 * outside selection and closed by the next map click, the per-station battery
 * report behind each popup with its cache, and the route line.
 *
 * Popups are numbered handles; `attached` is the set shown on the map and
 * `armed` the popups whose one-time map click handler is still waiting.
 * Events that the browser delivers asynchronously (style load, marker image
 * load, the report reply) are explicit events or parameters.
 */
module StationMap {
  import opened JsValues
  import opened Lists
  import opened StationFeatures
  import BatteryReport

  const StationsSource: string := "stations-source"
  const StationsLayer: string := "stations-layer"
  const RouteId: string := "route"
  const MarkerImage: string := "gogoro-marker"

  datatype LayerKind = Symbol | Circle | Line
  datatype Layer = Layer(kind: LayerKind, source: string)
  datatype Source = StationPoints(features: seq<Feature>) | RouteLine(data: Obj)

  /** A station render deferred until the style has loaded. */
  datatype RenderJob = RenderJob(list: seq<Station>, showPopup: bool)

  datatype Surface = Surface(
    loaded: bool,
    sources: map<string, Source>,
    layers: map<string, Layer>,
    images: set<string>,
    imagePending: bool,
    clickBound: bool,
    attached: set<nat>,
    armed: seq<nat>,
    pendingRoutes: seq<Option<Obj>>,
    pendingRenders: seq<RenderJob>)

  /** A map just constructed: style not loaded, nothing added. */
  const Fresh: Surface := Surface(false, map[], map[], {}, false, false, {}, [], [], [])

  /** What a popup's body shows. */
  datatype Body = Hint | Report(table: BatteryReport.Table) | LoadFailed

  /**
   * The battery report reply: a failed request, or the JSON body's `data`
   * when it is an array, each element a record or `null` (`None`).
   */
  datatype ReportReply = ReportFailed | ReportJson(data: Option<seq<Option<Obj>>>)

  /**
   * How the marker image settles: `onload`, where `registered` says whether
   * `addImage` succeeded; or `onerror`.
   */
  datatype ImageResult = ImageLoaded(registered: bool) | ImageError

  /**
   * When the library reads its list of one-time click handlers.
   * `ArmedBefore`: only the handlers registered before the click run.
   * `AfterLayer`: the list is read after the layer's click handlers ran, as
   * mapbox-gl's event dispatch does, so a handler armed by a marker click runs
   * in that same click.
   */
  datatype Dispatch = ArmedBefore | AfterLayer

  /**
   * The component's state. Everything but `surface` is held in refs and
   * survives the map being torn down and rebuilt.
   */
  datatype Controller = Controller(
    surface: Option<Surface>,
    registry: map<string, Entry>,
    open: Option<nat>,
    cache: map<string, seq<Obj>>,
    bodies: map<nat, Body>,
    nextHandle: nat,
    requests: seq<Value>,
    selections: seq<Value>)

  const Mounted: Controller := Controller(None, map[], None, map[], map[], 0, [], [])

  /** A popup nobody has loaded shows the click hint. */
  function BodyOf(c: Controller, h: nat): Body {
    if h in c.bodies then c.bodies[h] else Hint
  }

  // ---------------------------------------------------------------- the station list

  /** A non-empty `stations` array, else the fallback list when it is an array, else nothing. */
  function StationsToUse(props: Option<seq<Station>>, internal: Option<seq<Station>>): (r: Option<seq<Station>>)
    ensures r.Some? <==> (props.Some? && |props.value| > 0) || internal.Some?
    ensures props.Some? && |props.value| > 0 ==> r == props
    ensures r.Some? && r != props ==> r == internal
  {
    if props.Some? && |props.value| > 0 then props
    else internal
  }

  // ---------------------------------------------------------------- battery report

  /** `String(station.id ?? station.stationId ?? station.name)` */
  function CacheKey(st: Station): string {
    ToStr(Coalesce(Coalesce(Get(st.fields, "id"), Get(st.fields, "stationId")), Name(st)))
  }

  /** `station.id ?? station.stationId ?? station.Station_ID ?? station.StationId ?? null` */
  function ReportId(st: Station): (sid: Value)
    ensures sid != Undefined
    ensures Nullish(sid) <==> (Nullish(Get(st.fields, "id")) && Nullish(Get(st.fields, "stationId"))
      && Nullish(Get(st.fields, "Station_ID")) && Nullish(Get(st.fields, "StationId")))
  {
    var f := st.fields;
    Coalesce(Coalesce(Coalesce(Coalesce(Get(f, "id"), Get(f, "stationId")), Get(f, "Station_ID")), Get(f, "StationId")), Null)
  }

  /** `Array.isArray(json?.data) ? json.data : []` as records; `None` when an element is `null`. */
  function ReplyRows(data: Option<seq<Option<Obj>>>): (r: Option<seq<Obj>>)
    ensures data.None? ==> r == Some([])
    ensures data.Some? ==> r == Records(data.value)
  {
    if data.None? then Some([]) else Records(data.value)
  }

  /**
   * The station's rows in the reply: by id when one is known, otherwise by
   * trimmed name; `None` when the filter throws, on a `null` row or a name
   * that cannot be trimmed.
   */
  function StationRows(data: Option<seq<Option<Obj>>>, st: Station): (r: Option<seq<Obj>>)
    ensures ReplyRows(data).None? ==> r.None?
    ensures ReplyRows(data).Some? && !Nullish(ReportId(st)) ==>
      var all := ReplyRows(data).value;
      r.Some? && IsSublist(r.value, all)
      && (forall x :: x in r.value <==> x in all && ToStr(Get(x, "stationId")) == ToStr(ReportId(st)))
      && forall x :: multiset(r.value)[x] == if ToStr(Get(x, "stationId")) == ToStr(ReportId(st)) then multiset(all)[x] else 0
    ensures ReplyRows(data).Some? && Nullish(ReportId(st)) ==> r == BatteryReport.RowsByName(ReplyRows(data).value, Name(st))
    ensures data.None? ==> r == Some([])
  {
    match ReplyRows(data)
    case None => None
    case Some(all) =>
      var sid := ReportId(st);
      if !Nullish(sid) then Some(BatteryReport.RowsById(all, sid))
      else BatteryReport.RowsByName(all, Name(st))
  }

  /**
   * `loadBattery` for popup `e`, with the request and its reply taken as one
   * step: a cached station renders from the cache without a request; otherwise
   * the report is requested, and a usable reply is cached and rendered while a
   * failure leaves the cache alone and shows the error text.
   */
  function LoadBattery(c: Controller, e: Entry, reply: ReportReply): (r: Controller)
    ensures r.surface == c.surface && r.registry == c.registry && r.open == c.open
    ensures r.nextHandle == c.nextHandle && r.selections == c.selections
    ensures CacheKey(e.station) in c.cache ==>
      r.requests == c.requests && r.cache == c.cache
      && BodyOf(r, e.popup) == Report(BatteryReport.RenderTable(c.cache[CacheKey(e.station)]))
    ensures CacheKey(e.station) !in c.cache ==> r.requests == c.requests + [ReportId(e.station)]
    ensures reply.ReportFailed? ==> r.cache == c.cache
    ensures CacheKey(e.station) !in c.cache && (reply.ReportFailed? || StationRows(reply.data, e.station).None?) ==>
      r.cache == c.cache && BodyOf(r, e.popup) == LoadFailed
    ensures CacheKey(e.station) !in c.cache && reply.ReportJson? && StationRows(reply.data, e.station).Some? ==>
      var rows := StationRows(reply.data, e.station).value;
      r.cache == c.cache[CacheKey(e.station) := rows]
      && BodyOf(r, e.popup) == Report(BatteryReport.RenderTable(rows))
    ensures forall k :: k in c.cache ==> k in r.cache && r.cache[k] == c.cache[k]
    ensures forall h :: h != e.popup ==> BodyOf(r, h) == BodyOf(c, h)
    ensures forall h :: h in r.bodies ==> h in c.bodies || h == e.popup
  {
    var key := CacheKey(e.station);
    if key in c.cache then
      c.(bodies := c.bodies[e.popup := Report(BatteryReport.RenderTable(c.cache[key]))])
    else
      var c1 := c.(requests := c.requests + [ReportId(e.station)]);
      match reply
      case ReportFailed => c1.(bodies := c.bodies[e.popup := LoadFailed])
      case ReportJson(data) =>
        match StationRows(data, e.station)
        case None => c1.(bodies := c.bodies[e.popup := LoadFailed])
        case Some(rows) =>
          c1.(cache := c.cache[key := rows], bodies := c.bodies[e.popup := Report(BatteryReport.RenderTable(rows))])
  }

  /** Opening the same popup twice: a usable first reply means the second open requests nothing. */
  lemma SecondLoadIsCached(c: Controller, e: Entry, first: ReportReply, second: ReportReply)
    requires CacheKey(e.station) in c.cache || (first.ReportJson? && StationRows(first.data, e.station).Some?)
    ensures var c1 := LoadBattery(c, e, first);
      var c2 := LoadBattery(c1, e, second);
      c2.requests == c1.requests && BodyOf(c2, e.popup) == BodyOf(c1, e.popup)
  {
  }

  /** A station with a known id caches exactly its own rows of the reply. */
  lemma CachedRowsBelongToStation(c: Controller, e: Entry, data: Option<seq<Option<Obj>>>)
    requires CacheKey(e.station) !in c.cache && !Nullish(ReportId(e.station))
    requires ReplyRows(data).Some?
    ensures var r := LoadBattery(c, e, ReportJson(data));
      var all := ReplyRows(data).value;
      CacheKey(e.station) in r.cache
      && IsSublist(r.cache[CacheKey(e.station)], all)
      && (forall x :: x in r.cache[CacheKey(e.station)] <==>
        x in all && ToStr(Get(x, "stationId")) == ToStr(ReportId(e.station)))
      && forall x :: multiset(r.cache[CacheKey(e.station)])[x]
                    == if ToStr(Get(x, "stationId")) == ToStr(ReportId(e.station)) then multiset(all)[x] else 0
  {
  }

  /**
   * A station without an id caches exactly the rows whose trimmed
   * `stationName` equals its trimmed name, in order, when no name in the
   * reply is truthy but not a string.
   */
  lemma CachedRowsByName(c: Controller, e: Entry, data: Option<seq<Option<Obj>>>)
    requires CacheKey(e.station) !in c.cache && Nullish(ReportId(e.station))
    requires ReplyRows(data).Some? && TrimOr(Name(e.station)).Some?
    requires forall i :: 0 <= i < |ReplyRows(data).value| ==> !BatteryReport.BadName(ReplyRows(data).value[i])
    ensures var r := LoadBattery(c, e, ReportJson(data));
      var all := ReplyRows(data).value;
      CacheKey(e.station) in r.cache
      && IsSublist(r.cache[CacheKey(e.station)], all)
      && (forall x :: x in r.cache[CacheKey(e.station)] <==>
        x in all && TrimOr(Get(x, "stationName")) == TrimOr(Name(e.station)))
      && forall x :: multiset(r.cache[CacheKey(e.station)])[x]
                    == if TrimOr(Get(x, "stationName")) == TrimOr(Name(e.station)) then multiset(all)[x] else 0
  {
    BatteryReport.RowsByNameKeeps(ReplyRows(data).value, Name(e.station));
  }

  /**
   * A reply with a `null` row, or a name lookup that throws, shows the error
   * text and caches nothing, so the next open requests again.
   */
  lemma ThrowingFilterCachesNothing(c: Controller, e: Entry, data: Option<seq<Option<Obj>>>)
    requires CacheKey(e.station) !in c.cache
    requires (data.Some? && exists i :: 0 <= i < |data.value| && data.value[i].None?)
      || (Nullish(ReportId(e.station)) && ReplyRows(data).Some? && |ReplyRows(data).value| > 0
          && (TrimOr(Name(e.station)).None? || exists i :: 0 <= i < |ReplyRows(data).value| && BatteryReport.BadName(ReplyRows(data).value[i])))
    ensures var r := LoadBattery(c, e, ReportJson(data));
      && r.cache == c.cache
      && BodyOf(r, e.popup) == LoadFailed
      && CacheKey(e.station) !in r.cache
  {
    if Nullish(ReportId(e.station)) && ReplyRows(data).Some? {
      BatteryReport.RowsByNameFails(ReplyRows(data).value, Name(e.station));
    }
  }

  // ---------------------------------------------------------------- popups

  /** `openPopupRef.current.remove()` when a popup is open and is not the one about to be shown. */
  function DetachOther(s: Surface, open: Option<nat>, next: Option<nat>): (r: set<nat>)
    ensures r <= s.attached
    ensures forall h :: h in s.attached && open != Some(h) ==> h in r
  {
    if open.Some? && (next.None? || open.value != next.value) then s.attached - {open.value}
    else s.attached
  }

  /** Shows popup `e`, makes it the open one, arms its one-time close on the next map click, and loads its report. */
  function ShowPopup(c: Controller, s: Surface, e: Entry, reply: ReportReply): (r: Controller)
    ensures r.surface.Some? && r.open == Some(e.popup) && r.registry == c.registry && r.nextHandle == c.nextHandle
    ensures r.surface.value.armed == s.armed + [e.popup]
    ensures r.surface.value.attached == DetachOther(s, c.open, Some(e.popup)) + {e.popup}
    ensures r.selections == c.selections
  {
    var s1 := s.(attached := DetachOther(s, c.open, Some(e.popup)) + {e.popup}, armed := s.armed + [e.popup]);
    LoadBattery(c.(surface := Some(s1), open := Some(e.popup)), e, reply)
  }

  /** The marker layer's click handler for a feature named `v` (already known to be truthy). */
  function MarkerClick(c: Controller, s: Surface, v: Value, reply: ReportReply): (r: Controller)
    ensures r.surface.Some? && s.armed <= r.surface.value.armed
    ensures r.registry == c.registry && r.nextHandle == c.nextHandle
    ensures ToStr(v) in c.registry ==>
      var p := c.registry[ToStr(v)].popup;
      && r.open == Some(p)
      && r.surface.value.attached == DetachOther(s, c.open, Some(p)) + {p}
      && r.surface.value.armed == s.armed + [p]
      && r.selections == c.selections + [v]
    ensures ToStr(v) !in c.registry ==>
      r == c.(surface := Some(s.(attached := DetachOther(s, c.open, None))))
  {
    var key := ToStr(v);
    if key in c.registry then
      ShowPopup(c.(selections := c.selections + [v]), s, c.registry[key], reply)
    else
      c.(surface := Some(s.(attached := DetachOther(s, c.open, None))))
  }

  /** The popups whose one-time handlers a click fires. */
  function Fired(armed: seq<nat>): (r: set<nat>)
    ensures forall h :: h in r <==> h in armed
  {
    set h | h in armed
  }

  /**
   * The one-time handlers armed before the click run after the marker
   * handler: each removes its popup and clears the open-popup reference if it
   * pointed there.
   */
  function FireArmed(c: Controller, armed: seq<nat>): (r: Controller)
    requires c.surface.Some? && armed <= c.surface.value.armed
    ensures r.surface.Some? && r.registry == c.registry && r.nextHandle == c.nextHandle
    ensures r.cache == c.cache && r.requests == c.requests && r.selections == c.selections && r.bodies == c.bodies
    ensures r.surface.value.attached == c.surface.value.attached - Fired(armed)
    ensures r.surface.value.armed == c.surface.value.armed[|armed|..]
    ensures r.open == if c.open.Some? && c.open.value in armed then None else c.open
  {
    var s := c.surface.value;
    c.(surface := Some(s.(attached := s.attached - Fired(armed), armed := s.armed[|armed|..])),
       open := if c.open.Some? && c.open.value in armed then None else c.open)
  }

  /**
   * A click on the map: the marker layer's handler runs first when the click
   * hit a marker, then the one-time handlers, those armed before the click
   * or, with `AfterLayer`, also the one the marker handler just armed.
   */
  function Click(c: Controller, hit: Option<Value>, reply: ReportReply, order: Dispatch): (r: Controller)
    requires c.surface.Some?
    ensures r.surface.Some? && r.registry == c.registry && r.nextHandle == c.nextHandle
  {
    var s := c.surface.value;
    var c1 := if s.clickBound && hit.Some? && Truthy(hit.value) then MarkerClick(c, s, hit.value, reply) else c;
    FireArmed(c1, if order.ArmedBefore? then s.armed else c1.surface.value.armed)
  }

  lemma ApplyClick(c: Controller, hit: Option<Value>, reply: ReportReply, order: Dispatch)
    requires c.surface.Some?
    ensures Apply(c, MapClick(hit, reply, order)) == Click(c, hit, reply, order)
  {
  }

  // ---------------------------------------------------------------- stations, image, route

  /**
   * `renderStations`: the registry is rebuilt from scratch (left empty
   * without popups), and the station source is created or, when it exists,
   * only given the new features. Creating it starts loading the marker image.
   */
  function RenderStations(c: Controller, s: Surface, job: RenderJob): (r: Controller)
    ensures r.surface.Some? && r.open == c.open && r.cache == c.cache && r.bodies == c.bodies
    ensures r.requests == c.requests && r.selections == c.selections && r.nextHandle >= c.nextHandle
    ensures r.surface.value.loaded == s.loaded
  {
    var n := if job.showPopup then |Filter(job.list, Placeable)| else 0;
    var reg := if job.showPopup then Registry(job.list, c.nextHandle) else map[];
    var s1 := s.(sources := s.sources[StationsSource := StationPoints(Features(job.list))],
                 imagePending := s.imagePending || StationsSource !in s.sources);
    c.(surface := Some(s1), registry := reg, nextHandle := c.nextHandle + n)
  }

  /** The deferred renders, in the order they were queued. */
  function RenderAll(c: Controller, jobs: seq<RenderJob>): (r: Controller)
    requires c.surface.Some?
    ensures r.surface.Some? && r.open == c.open && r.cache == c.cache && r.bodies == c.bodies
    ensures r.requests == c.requests && r.selections == c.selections && r.nextHandle >= c.nextHandle
    ensures r.surface.value.loaded == c.surface.value.loaded
    decreases |jobs|
  {
    if |jobs| == 0 then c
    else RenderAll(RenderStations(c, c.surface.value, jobs[0]), jobs[1..])
  }

  /** `addLayer` of an id already present throws and is swallowed. */
  function AddLayerOnce(layers: map<string, Layer>, id: string, l: Layer): (r: map<string, Layer>)
    ensures id in r && (id !in layers ==> r[id] == l)
    ensures forall k :: k != id ==> (k in r <==> k in layers) && (k in layers ==> r[k] == layers[k])
  {
    if id in layers then layers else layers[id := l]
  }

  /**
   * The marker image settles. On `onload` the image is registered unless
   * `addImage` throws, the marker layer is a symbol layer when the image is
   * there and a circle layer otherwise, and the click handler is bound either
   * way. On `onerror` only a circle layer is added, with no click handler.
   */
  function SettleImage(s: Surface, res: ImageResult): Surface {
    match res
    case ImageLoaded(registered) =>
      var images := if registered then s.images + {MarkerImage} else s.images;
      var kind := if MarkerImage in images then Symbol else Circle;
      s.(images := images, layers := AddLayerOnce(s.layers, StationsLayer, Layer(kind, StationsSource)),
         clickBound := true, imagePending := false)
    case ImageError =>
      s.(layers := AddLayerOnce(s.layers, StationsLayer, Layer(Circle, StationsSource)), imagePending := false)
  }

  /** `drawRoute`: any existing route is removed, then the new one is added when there is one. */
  function DrawRouteOn(s: Surface, route: Option<Obj>): (r: Surface)
    ensures RouteId in r.sources <==> route.Some?
    ensures route.Some? ==> RouteId in r.layers && r.sources[RouteId] == RouteLine(route.value) && r.layers[RouteId] == Layer(Line, RouteId)
    ensures r.sources - {RouteId} == s.sources - {RouteId}
    ensures r.layers - {RouteId} == s.layers - {RouteId}
    ensures r.(sources := s.sources, layers := s.layers) == s
  {
    var s1 := if RouteId in s.sources then s.(layers := s.layers - {RouteId}, sources := s.sources - {RouteId}) else s;
    if route.Some? then
      s1.(sources := s1.sources[RouteId := RouteLine(route.value)], layers := s1.layers[RouteId := Layer(Line, RouteId)])
    else s1
  }

  /** The deferred route draws, in order. */
  function RouteAll(s: Surface, routes: seq<Option<Obj>>): (r: Surface)
    ensures r.(sources := s.sources, layers := s.layers) == s
    decreases |routes|
  {
    if |routes| == 0 then s
    else RouteAll(DrawRouteOn(s, routes[0]), routes[1..])
  }

  /** The style's `load` event: the map is marked loaded, then the queued route draws and station renders run. */
  function StyleLoaded(c: Controller, s: Surface): (r: Controller)
    ensures r.surface.Some? && r.surface.value.loaded
  {
    var s1 := RouteAll(s.(loaded := true, pendingRoutes := [], pendingRenders := []), s.pendingRoutes);
    RenderAll(c.(surface := Some(s1)), s.pendingRenders)
  }

  // ---------------------------------------------------------------- events

  datatype Event =
    | Init(token: Value)
    | Teardown
    | Render(props: Option<seq<Station>>, internal: Option<seq<Station>>, showPopup: bool)
    | StyleLoad
    | ImageSettled(result: ImageResult)
    | MapClick(hit: Option<Value>, reply: ReportReply, order: Dispatch)
    | ClosePopup(popup: nat)
    | SelectStation(name: Value, reply: ReportReply)
    | DrawRoute(route: Option<Obj>)

  function Apply(c: Controller, ev: Event): (r: Controller)
    ensures r.nextHandle >= c.nextHandle
  {
    match ev
    case Init(token) =>
      if Truthy(token) && c.surface.None? then c.(surface := Some(Fresh)) else c
    case Teardown =>
      c.(surface := None)
    case Render(props, internal, showPopup) =>
      var use := StationsToUse(props, internal);
      if use.None? || c.surface.None? then c
      else
        var s := c.surface.value;
        if !s.loaded then c.(surface := Some(s.(pendingRenders := s.pendingRenders + [RenderJob(use.value, showPopup)])))
        else RenderStations(c, s, RenderJob(use.value, showPopup))
    case StyleLoad =>
      if c.surface.Some? && !c.surface.value.loaded then StyleLoaded(c, c.surface.value) else c
    case ImageSettled(res) =>
      if c.surface.Some? && c.surface.value.imagePending then c.(surface := Some(SettleImage(c.surface.value, res))) else c
    case MapClick(hit, reply, order) =>
      if c.surface.Some? then Click(c, hit, reply, order) else c
    case ClosePopup(h) =>
      if c.surface.Some? then c.(surface := Some(c.surface.value.(attached := c.surface.value.attached - {h}))) else c
    case SelectStation(name, reply) =>
      if c.surface.Some? && Truthy(name) && ToStr(name) in c.registry then
        ShowPopup(c, c.surface.value, c.registry[ToStr(name)], reply)
      else c
    case DrawRoute(route) =>
      if c.surface.None? then c
      else
        var s := c.surface.value;
        if !s.loaded then c.(surface := Some(s.(pendingRoutes := s.pendingRoutes + [route])))
        else c.(surface := Some(DrawRouteOn(s, route)))
  }

  function Run(c: Controller, evs: seq<Event>): Controller
    decreases |evs|
  {
    if |evs| == 0 then c else Run(Apply(c, evs[0]), evs[1..])
  }

  // ---------------------------------------------------------------- invariant

  /**
   * A shown popup is the open one and is still armed; the route and marker
   * layers have their sources; a bound click handler means the marker layer
   * exists, and a symbol marker layer means the handler is bound; a pending
   * image means the source exists and the marker layer does not yet.
   */
  predicate SurfaceOk(s: Surface, open: Option<nat>) {
    && (forall h :: h in s.attached ==> open == Some(h) && h in s.armed)
    && (RouteId in s.layers ==> RouteId in s.sources)
    && (StationsLayer in s.layers ==> StationsSource in s.sources)
    && (s.imagePending ==> StationsSource in s.sources && StationsLayer !in s.layers)
    && (s.clickBound ==> StationsLayer in s.layers)
    && (StationsLayer in s.layers && s.layers[StationsLayer].kind.Symbol? ==> s.clickBound)
  }

  /** Besides the surface: every registered or loaded popup was created before `nextHandle`. */
  predicate Inv(c: Controller) {
    && (c.surface.Some? ==> SurfaceOk(c.surface.value, c.open))
    && (forall k :: k in c.registry ==> c.registry[k].popup < c.nextHandle)
    && (forall h :: h in c.bodies ==> h < c.nextHandle)
  }

  lemma MountedOk()
    ensures Inv(Mounted)
    ensures Inv(Apply(Mounted, Init(Str("token"))))
  {
  }

  lemma NamesDiffer()
    ensures RouteId != StationsSource && RouteId != StationsLayer
  {
    assert |RouteId| == 5 && |StationsSource| == 15 && |StationsLayer| == 14;
  }

  lemma DrawRouteOk(s: Surface, open: Option<nat>, route: Option<Obj>)
    requires SurfaceOk(s, open)
    ensures SurfaceOk(DrawRouteOn(s, route), open)
  {
    NamesDiffer();
    var r := DrawRouteOn(s, route);
    assert StationsLayer in r.layers <==> StationsLayer in s.layers;
    assert StationsSource in r.sources <==> StationsSource in s.sources;
    if StationsLayer in s.layers {
      assert r.layers[StationsLayer] == s.layers[StationsLayer];
    }
  }

  lemma {:induction false} RouteAllOk(s: Surface, open: Option<nat>, routes: seq<Option<Obj>>)
    requires SurfaceOk(s, open)
    ensures SurfaceOk(RouteAll(s, routes), open)
    decreases |routes|
  {
    if |routes| > 0 {
      DrawRouteOk(s, open, routes[0]);
      RouteAllOk(DrawRouteOn(s, routes[0]), open, routes[1..]);
    }
  }

  lemma RenderStationsOk(c: Controller, s: Surface, job: RenderJob)
    requires Inv(c) && c.surface == Some(s)
    ensures Inv(RenderStations(c, s, job))
  {
    NamesDiffer();
    RegistryHandles(job.list, c.nextHandle);
  }

  lemma {:induction false} RenderAllOk(c: Controller, jobs: seq<RenderJob>)
    requires Inv(c) && c.surface.Some?
    ensures Inv(RenderAll(c, jobs))
    decreases |jobs|
  {
    if |jobs| > 0 {
      RenderStationsOk(c, c.surface.value, jobs[0]);
      RenderAllOk(RenderStations(c, c.surface.value, jobs[0]), jobs[1..]);
    }
  }

  lemma StyleLoadedOk(c: Controller)
    requires Inv(c) && c.surface.Some?
    ensures Inv(StyleLoaded(c, c.surface.value))
  {
    var s := c.surface.value;
    var s0 := s.(loaded := true, pendingRoutes := [], pendingRenders := []);
    RouteAllOk(s0, c.open, s.pendingRoutes);
    RenderAllOk(c.(surface := Some(RouteAll(s0, s.pendingRoutes))), s.pendingRenders);
  }

  lemma SettleImageOk(s: Surface, open: Option<nat>, res: ImageResult)
    requires SurfaceOk(s, open) && s.imagePending
    ensures SurfaceOk(SettleImage(s, res), open)
  {
    NamesDiffer();
  }

  lemma ShowPopupOk(c: Controller, s: Surface, e: Entry, reply: ReportReply)
    requires Inv(c) && c.surface == Some(s) && e in c.registry.Values
    ensures Inv(ShowPopup(c, s, e, reply))
  {
    var r := ShowPopup(c, s, e, reply);
    var s1 := r.surface.value;
    forall h | h in s1.attached
      ensures r.open == Some(h) && h in s1.armed
    {
    }
    var k :| k in c.registry && c.registry[k] == e;
  }

  lemma MarkerClickOk(c: Controller, s: Surface, v: Value, reply: ReportReply)
    requires Inv(c) && c.surface == Some(s)
    ensures Inv(MarkerClick(c, s, v, reply))
  {
    if ToStr(v) in c.registry {
      var c0 := c.(selections := c.selections + [v]);
      ShowPopupOk(c0, s, c.registry[ToStr(v)], reply);
    }
  }

  /** Running the one-time handlers of a prefix of the armed list keeps the invariant. */
  lemma FireArmedOk(c: Controller, armed: seq<nat>)
    requires Inv(c) && c.surface.Some? && armed <= c.surface.value.armed
    ensures Inv(FireArmed(c, armed))
  {
    var s := c.surface.value;
    var r := FireArmed(c, armed);
    var s1 := r.surface.value;
    forall h | h in s1.attached
      ensures r.open == Some(h) && h in s1.armed
    {
      assert h in s.attached && h !in armed;
      var i :| 0 <= i < |s.armed| && s.armed[i] == h;
      assert i >= |armed|;
      assert s1.armed[i - |armed|] == h;
    }
  }

  lemma ClickOk(c: Controller, hit: Option<Value>, reply: ReportReply, order: Dispatch)
    requires Inv(c) && c.surface.Some?
    ensures Inv(Click(c, hit, reply, order))
  {
    var s := c.surface.value;
    var c1 := if s.clickBound && hit.Some? && Truthy(hit.value) then MarkerClick(c, s, hit.value, reply) else c;
    if s.clickBound && hit.Some? && Truthy(hit.value) {
      MarkerClickOk(c, s, hit.value, reply);
    }
    FireArmedOk(c1, if order.ArmedBefore? then s.armed else c1.surface.value.armed);
  }

  lemma RenderOk(c: Controller, props: Option<seq<Station>>, internal: Option<seq<Station>>, showPopup: bool)
    requires Inv(c)
    ensures Inv(Apply(c, Render(props, internal, showPopup)))
  {
    var use := StationsToUse(props, internal);
    if use.Some? && c.surface.Some? && c.surface.value.loaded {
      RenderStationsOk(c, c.surface.value, RenderJob(use.value, showPopup));
    }
  }

  lemma StyleLoadOk(c: Controller)
    requires Inv(c)
    ensures Inv(Apply(c, StyleLoad))
  {
    if c.surface.Some? && !c.surface.value.loaded {
      StyleLoadedOk(c);
    }
  }

  lemma ImageSettledOk(c: Controller, res: ImageResult)
    requires Inv(c)
    ensures Inv(Apply(c, ImageSettled(res)))
  {
    if c.surface.Some? && c.surface.value.imagePending {
      SettleImageOk(c.surface.value, c.open, res);
    }
  }

  lemma MapClickOk(c: Controller, hit: Option<Value>, reply: ReportReply, order: Dispatch)
    requires Inv(c)
    ensures Inv(Apply(c, MapClick(hit, reply, order)))
  {
    if c.surface.Some? {
      ClickOk(c, hit, reply, order);
      ApplyClick(c, hit, reply, order);
    }
  }

  lemma SelectStationOk(c: Controller, name: Value, reply: ReportReply)
    requires Inv(c)
    ensures Inv(Apply(c, SelectStation(name, reply)))
  {
    if c.surface.Some? && Truthy(name) && ToStr(name) in c.registry {
      ShowPopupOk(c, c.surface.value, c.registry[ToStr(name)], reply);
    }
  }

  lemma DrawRouteEventOk(c: Controller, route: Option<Obj>)
    requires Inv(c)
    ensures Inv(Apply(c, DrawRoute(route)))
  {
    if c.surface.Some? && c.surface.value.loaded {
      DrawRouteOk(c.surface.value, c.open, route);
    }
  }

  lemma ClosePopupOk(c: Controller, h: nat)
    requires Inv(c)
    ensures Inv(Apply(c, ClosePopup(h)))
  {
  }

  lemma InitOk(c: Controller, token: Value)
    requires Inv(c)
    ensures Inv(Apply(c, Init(token)))
  {
  }

  lemma ApplyOk(c: Controller, ev: Event)
    requires Inv(c)
    ensures Inv(Apply(c, ev))
  {
    match ev
    case Init(token) => InitOk(c, token);
    case Teardown =>
    case Render(props, internal, showPopup) => RenderOk(c, props, internal, showPopup);
    case StyleLoad => StyleLoadOk(c);
    case ImageSettled(res) => ImageSettledOk(c, res);
    case MapClick(hit, reply, order) => MapClickOk(c, hit, reply, order);
    case ClosePopup(h) => ClosePopupOk(c, h);
    case SelectStation(name, reply) => SelectStationOk(c, name, reply);
    case DrawRoute(route) => DrawRouteEventOk(c, route);
  }

  /** Every reachable state keeps the invariant. */
  lemma {:induction false} RunOk(c: Controller, evs: seq<Event>)
    requires Inv(c)
    ensures Inv(Run(c, evs))
    decreases |evs|
  {
    if |evs| > 0 {
      ApplyOk(c, evs[0]);
      RunOk(Apply(c, evs[0]), evs[1..]);
    }
  }

  // ---------------------------------------------------------------- popup behaviour

  /**
   * With `ArmedBefore`: clicking a marker whose popup is not armed shows that
   * popup alone and makes it the open one.
   */
  lemma ClickOpensMarker(c: Controller, v: Value, reply: ReportReply)
    requires Inv(c) && c.surface.Some? && c.surface.value.clickBound
    requires Truthy(v) && ToStr(v) in c.registry
    requires c.registry[ToStr(v)].popup !in c.surface.value.armed
    ensures var r := Apply(c, MapClick(Some(v), reply, ArmedBefore));
      var p := c.registry[ToStr(v)].popup;
      && r.surface.Some?
      && r.surface.value.attached == {p}
      && r.open == Some(p)
      && r.surface.value.armed == [p]
      && r.selections == c.selections + [v]
  {
    var s := c.surface.value;
    var c1 := MarkerClick(c, s, v, reply);
    ApplyClick(c, Some(v), reply, ArmedBefore);
    assert Click(c, Some(v), reply, ArmedBefore) == FireArmed(c1, s.armed);
  }

  /**
   * With `ArmedBefore`: clicking the marker of the popup that is armed closes
   * it again: the handler re-shows it, then the earlier one-time handler
   * removes it.
   */
  lemma ClickOnArmedMarkerCloses(c: Controller, v: Value, reply: ReportReply)
    requires Inv(c) && c.surface.Some? && c.surface.value.clickBound
    requires Truthy(v) && ToStr(v) in c.registry
    requires c.registry[ToStr(v)].popup in c.surface.value.armed
    ensures var r := Apply(c, MapClick(Some(v), reply, ArmedBefore));
      var p := c.registry[ToStr(v)].popup;
      && r.surface.Some?
      && r.surface.value.attached == {}
      && r.open == None
      && r.surface.value.armed == [p]
  {
    var s := c.surface.value;
    var c1 := MarkerClick(c, s, v, reply);
    ApplyClick(c, Some(v), reply, ArmedBefore);
    assert Click(c, Some(v), reply, ArmedBefore) == FireArmed(c1, s.armed);
  }

  /**
   * With `AfterLayer`: the one-time handler a marker click arms runs in the
   * same click, so the popup is shown and removed at once; the name still
   * reaches the selection callback and the report is still loaded.
   */
  lemma MarkerClickClosesAtOnce(c: Controller, v: Value, reply: ReportReply)
    requires Inv(c) && c.surface.Some? && c.surface.value.clickBound
    requires Truthy(v) && ToStr(v) in c.registry
    ensures var r := Apply(c, MapClick(Some(v), reply, AfterLayer));
      && r.surface.Some?
      && r.surface.value.attached == {}
      && r.open == None
      && r.surface.value.armed == []
      && r.selections == c.selections + [v]
      && r.bodies == MarkerClick(c, c.surface.value, v, reply).bodies
  {
    var s := c.surface.value;
    var c1 := MarkerClick(c, s, v, reply);
    ApplyClick(c, Some(v), reply, AfterLayer);
    assert Click(c, Some(v), reply, AfterLayer) == FireArmed(c1, c1.surface.value.armed);
  }

  /**
   * With `AfterLayer`, the popup of a clicked marker stays on the map only
   * through the selection effect: once the reported name is selected, that
   * popup is shown alone, recorded as open and armed.
   */
  lemma MarkerClickThenSelection(c: Controller, v: Value, reply: ReportReply, reply2: ReportReply)
    requires Inv(c) && c.surface.Some? && c.surface.value.clickBound
    requires Truthy(v) && ToStr(v) in c.registry
    ensures var r1 := Apply(c, MapClick(Some(v), reply, AfterLayer));
      var r := Apply(r1, SelectStation(v, reply2));
      var p := c.registry[ToStr(v)].popup;
      && r.surface.Some?
      && r.surface.value.attached == {p}
      && r.open == Some(p)
      && r.surface.value.armed == [p]
  {
    var ev := MapClick(Some(v), reply, AfterLayer);
    MarkerClickClosesAtOnce(c, v, reply);
    ApplyClick(c, Some(v), reply, AfterLayer);
    ApplyOk(c, ev);
    SelectShowsPopup(Apply(c, ev), v, reply2);
  }

  /** What a click that reaches no marker handler leaves: no popup shown, none armed, the open record cleared if it was armed. */
  function ClosedAll(c: Controller): (r: Controller)
    requires c.surface.Some?
  {
    var s := c.surface.value;
    c.(surface := Some(s.(attached := {}, armed := [])),
       open := if c.open.Some? && c.open.value in s.armed then None else c.open)
  }

  /**
   * A click that reaches no marker handler (off the markers, an unnamed
   * feature, or no handler bound) closes every popup and disarms every
   * one-time handler, in either dispatch order, and changes nothing else.
   */
  lemma ClickElsewhereClosesAll(c: Controller, hit: Option<Value>, reply: ReportReply, order: Dispatch)
    requires Inv(c) && c.surface.Some?
    requires !c.surface.value.clickBound || hit.None? || !Truthy(hit.value)
    ensures Apply(c, MapClick(hit, reply, order)) == ClosedAll(c)
  {
    var s := c.surface.value;
    var r := Apply(c, MapClick(hit, reply, order));
    assert r.surface.value.attached == {};
    assert r.surface.value.armed == [];
  }

  /**
   * A click on a named marker that has no popup (popups disabled, or a name
   * missing from the registry) acts like a click elsewhere, in either order:
   * every popup closes and the open record is cleared when its popup was
   * armed. A record left over from a map that was torn down is not armed, and
   * stays.
   */
  lemma ClickOnMarkerWithoutPopup(c: Controller, v: Value, reply: ReportReply, order: Dispatch)
    requires Inv(c) && c.surface.Some? && c.surface.value.clickBound
    requires Truthy(v) && ToStr(v) !in c.registry
    ensures Apply(c, MapClick(Some(v), reply, order)) == ClosedAll(c)
    ensures c.open.Some? && c.open.value in c.surface.value.armed ==> Apply(c, MapClick(Some(v), reply, order)).open == None
  {
    var s := c.surface.value;
    var r := Apply(c, MapClick(Some(v), reply, order));
    assert MarkerClick(c, s, v, reply) == c.(surface := Some(s.(attached := DetachOther(s, c.open, None))));
    assert r.surface.value.attached == {};
    assert r.surface.value.armed == [];
  }

  /** After the map is torn down and rebuilt, the open record may name a popup that is not armed. */
  lemma StaleOpenRecord()
    ensures var c := Controller(None, map[], Some(0), map[], map[], 1, [], []);
      var r := Apply(c, Init(Str("token")));
      && Inv(r) && r.open == Some(0) && r.surface.Some? && 0 !in r.surface.value.armed
  {
  }

  /** Selecting a registered station from outside shows its popup alone and arms its close. */
  lemma SelectShowsPopup(c: Controller, v: Value, reply: ReportReply)
    requires Inv(c) && c.surface.Some? && Truthy(v) && ToStr(v) in c.registry
    ensures var r := Apply(c, SelectStation(v, reply));
      var p := c.registry[ToStr(v)].popup;
      && r.surface.Some?
      && r.surface.value.attached == {p}
      && r.open == Some(p)
      && r.surface.value.armed == c.surface.value.armed + [p]
      && r.selections == c.selections
  {
  }

  // ---------------------------------------------------------------- rendering

  /**
   * On a loaded map a render replaces the station features, starts the marker
   * image only when the source is new, and rebuilds the registry from the
   * placeable stations, each with a fresh popup showing the hint.
   */
  lemma RenderOnLoadedMap(c: Controller, props: Option<seq<Station>>, internal: Option<seq<Station>>, show: bool)
    requires Inv(c) && c.surface.Some? && c.surface.value.loaded
    requires StationsToUse(props, internal).Some?
    ensures var list := StationsToUse(props, internal).value;
      var s := c.surface.value;
      var r := Apply(c, Render(props, internal, show));
      && r.surface.Some?
      && r.surface.value.sources[StationsSource] == StationPoints(FeaturesOf(Filter(list, Placeable)))
      && r.surface.value.imagePending == (s.imagePending || StationsSource !in s.sources)
      && r.surface.value.layers == s.layers
      && (forall k :: k in r.registry <==>
            show && exists i :: 0 <= i < |list| && Placeable(list[i]) && NameKey(list[i]) == k)
      && (forall k :: k in r.registry ==> BodyOf(r, r.registry[k].popup) == Hint)
  {
    var list := StationsToUse(props, internal).value;
    FeaturesAreFilterMap(list);
    RegistryKeys(list, c.nextHandle);
    RegistryHandles(list, c.nextHandle);
  }

  /** Before the style loads a render is only queued. */
  lemma RenderBeforeLoadIsQueued(c: Controller, props: Option<seq<Station>>, internal: Option<seq<Station>>, show: bool)
    requires c.surface.Some? && !c.surface.value.loaded
    requires StationsToUse(props, internal).Some?
    ensures var r := Apply(c, Render(props, internal, show));
      && r.surface == Some(c.surface.value.(pendingRenders := c.surface.value.pendingRenders + [RenderJob(StationsToUse(props, internal).value, show)]))
      && r.registry == c.registry
  {
  }

  /** Without a usable station list the render changes nothing. */
  lemma RenderWithoutStations(c: Controller, props: Option<seq<Station>>, internal: Option<seq<Station>>, show: bool)
    requires (props.None? || |props.value| == 0) && internal.None?
    ensures Apply(c, Render(props, internal, show)) == c
  {
  }

  /** The last deferred render decides the station features once the style loads. */
  lemma {:induction false} LastRenderWins(c: Controller, jobs: seq<RenderJob>)
    requires c.surface.Some? && |jobs| > 0
    ensures var r := RenderAll(c, jobs);
      StationsSource in r.surface.value.sources && r.surface.value.sources[StationsSource] == StationPoints(Features(jobs[|jobs| - 1].list))
    decreases |jobs|
  {
    if |jobs| > 1 {
      LastRenderWins(RenderStations(c, c.surface.value, jobs[0]), jobs[1..]);
    }
  }

  // ---------------------------------------------------------------- marker image

  /**
   * A loaded and registered image gives the symbol layer; a loaded image that
   * `addImage` rejected gives circles that still open popups; a failed load
   * gives circles that ignore clicks.
   */
  lemma ImageOutcome(c: Controller, res: ImageResult)
    requires Inv(c) && c.surface.Some? && c.surface.value.imagePending
    ensures var s := c.surface.value;
      var r := Apply(c, ImageSettled(res));
      && r.surface.Some?
      && StationsLayer in r.surface.value.layers
      && !r.surface.value.imagePending
      && (res == ImageLoaded(true) ==>
            r.surface.value.layers[StationsLayer] == Layer(Symbol, StationsSource)
            && MarkerImage in r.surface.value.images && r.surface.value.clickBound)
      && (res == ImageLoaded(false) && MarkerImage !in s.images ==>
            r.surface.value.layers[StationsLayer] == Layer(Circle, StationsSource)
            && r.surface.value.images == s.images && r.surface.value.clickBound)
      && (res == ImageError ==>
            r.surface.value.layers[StationsLayer] == Layer(Circle, StationsSource)
            && r.surface.value.images == s.images && !r.surface.value.clickBound)
  {
  }

  // ---------------------------------------------------------------- route

  /** With the invariant, the route layer is present exactly when a route was given. */
  lemma RouteLayerIff(s: Surface, route: Option<Obj>)
    requires RouteId in s.layers ==> RouteId in s.sources
    ensures RouteId in DrawRouteOn(s, route).layers <==> route.Some?
  {
  }

  /** The surface without the route's source and layer. */
  function Unrouted(s: Surface): Surface {
    s.(sources := s.sources - {RouteId}, layers := s.layers - {RouteId})
  }

  /** A draw depends only on the surface without its old route, and leaves that part as it was. */
  lemma DrawFromUnrouted(s: Surface, route: Option<Obj>)
    requires RouteId in s.layers ==> RouteId in s.sources
    ensures DrawRouteOn(s, route) == DrawRouteOn(Unrouted(s), route)
    ensures Unrouted(DrawRouteOn(s, route)) == Unrouted(s)
    ensures RouteId in DrawRouteOn(s, route).layers ==> RouteId in DrawRouteOn(s, route).sources
  {
    if RouteId !in s.sources {
      assert s.sources - {RouteId} == s.sources;
      assert s.layers - {RouteId} == s.layers;
    }
    var r := DrawRouteOn(s, route);
    assert r.sources - {RouteId} == s.sources - {RouteId};
    assert r.layers - {RouteId} == s.layers - {RouteId};
  }

  /** Drawing twice is drawing the second route. */
  lemma RedrawIsLastDraw(s: Surface, a: Option<Obj>, b: Option<Obj>)
    requires RouteId in s.layers ==> RouteId in s.sources
    ensures DrawRouteOn(DrawRouteOn(s, a), b) == DrawRouteOn(s, b)
  {
    DrawFromUnrouted(s, a);
    DrawFromUnrouted(DrawRouteOn(s, a), b);
    DrawFromUnrouted(s, b);
  }

  /** The last queued route decides the route once the style loads. */
  lemma {:induction false} LastRouteWins(s: Surface, routes: seq<Option<Obj>>)
    requires RouteId in s.layers ==> RouteId in s.sources
    requires |routes| > 0
    ensures RouteAll(s, routes) == DrawRouteOn(s, routes[|routes| - 1])
    decreases |routes|
  {
    if |routes| > 1 {
      var s1 := DrawRouteOn(s, routes[0]);
      RouteLayerIff(s, routes[0]);
      LastRouteWins(s1, routes[1..]);
      RedrawIsLastDraw(s, routes[0], routes[|routes| - 1]);
    }
  }

  // ---------------------------------------------------------------- cache

  /** A map click keeps every cached report. */
  lemma ClickKeepsCache(c: Controller, hit: Option<Value>, reply: ReportReply, order: Dispatch)
    ensures var r := Apply(c, MapClick(hit, reply, order));
      forall k :: k in c.cache ==> k in r.cache && r.cache[k] == c.cache[k]
  {
    if c.surface.Some? {
      var s := c.surface.value;
      ApplyClick(c, hit, reply, order);
      if s.clickBound && hit.Some? && Truthy(hit.value) && ToStr(hit.value) in c.registry {
        var e := c.registry[ToStr(hit.value)];
        var c0 := c.(selections := c.selections + [hit.value]);
        var s1 := s.(attached := DetachOther(s, c0.open, Some(e.popup)) + {e.popup}, armed := s.armed + [e.popup]);
        assert MarkerClick(c, s, hit.value, reply) == LoadBattery(c0.(surface := Some(s1), open := Some(e.popup)), e, reply);
      }
    }
  }

  /** No event removes or replaces a cached report. */
  lemma CacheOnlyGrows(c: Controller, ev: Event)
    ensures var r := Apply(c, ev);
      forall k :: k in c.cache ==> k in r.cache && r.cache[k] == c.cache[k]
  {
    match ev
    case MapClick(hit, reply, order) => ClickKeepsCache(c, hit, reply, order);
    case _ =>
  }

  lemma {:induction false} CacheOnlyGrowsRun(c: Controller, evs: seq<Event>)
    ensures var r := Run(c, evs);
      forall k :: k in c.cache ==> k in r.cache && r.cache[k] == c.cache[k]
    decreases |evs|
  {
    if |evs| > 0 {
      CacheOnlyGrows(c, evs[0]);
      CacheOnlyGrowsRun(Apply(c, evs[0]), evs[1..]);
    }
  }
}
