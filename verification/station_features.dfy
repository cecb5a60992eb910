/**
 * What one render of the station list produces: a point feature for every
 * station whose coordinates resolve to numbers, and, when popups are enabled,
 * a registry from station name to that station's popup.
 */
module StationFeatures {
  import opened JsValues
  import opened Lists

  /** A station record; `coords` is `Some` exactly when `station.coords` is an array. */
  datatype Station = Station(fields: Obj, coords: Option<seq<Value>>)

  function Name(s: Station): Value {
    Get(s.fields, "name")
  }

  /** The registry key: a property name is the string form of `station.name`. */
  function NameKey(s: Station): string {
    ToStr(Name(s))
  }

  /** `arr[i]`: `undefined` past the end. */
  function At(vs: seq<Value>, i: nat): (r: Value)
    ensures i >= |vs| ==> r == Undefined
  {
    if i < |vs| then vs[i] else Undefined
  }

  datatype LngLat = LngLat(lng: Value, lat: Value)

  /**
   * `lat ?? latitude` and `lng ?? longitude`; when either comes out
   * `undefined` and `coords` is an array, both are taken from `coords[1]` and
   * `coords[0]` instead.
   */
  function Resolve(s: Station): (p: LngLat)
    ensures var lat := Coalesce(Get(s.fields, "lat"), Get(s.fields, "latitude"));
      var lng := Coalesce(Get(s.fields, "lng"), Get(s.fields, "longitude"));
      && (lat != Undefined && lng != Undefined ==> p == LngLat(lng, lat))
      && (s.coords.None? ==> p == LngLat(lng, lat))
      && ((lat == Undefined || lng == Undefined) && s.coords.Some? ==> p == LngLat(At(s.coords.value, 0), At(s.coords.value, 1)))
  {
    var lat := Coalesce(Get(s.fields, "lat"), Get(s.fields, "latitude"));
    var lng := Coalesce(Get(s.fields, "lng"), Get(s.fields, "longitude"));
    if (lat == Undefined || lng == Undefined) && s.coords.Some? then
      LngLat(At(s.coords.value, 0), At(s.coords.value, 1))
    else LngLat(lng, lat)
  }

  /** `typeof n === 'number' && !Number.isNaN(n)` */
  predicate IsCoordinate(v: Value) {
    v.Num?
  }

  /** The station gets a marker: both resolved coordinates are numbers. */
  predicate Placeable(s: Station) {
    IsCoordinate(Resolve(s).lat) && IsCoordinate(Resolve(s).lng)
  }

  /** A GeoJSON point feature; its only property is the station's name. */
  datatype Feature = Feature(at: LngLat, name: Value)

  function FeatureOf(s: Station): Feature {
    Feature(Resolve(s), Name(s))
  }

  /** The `forEach` that fills `features`, skipping stations without coordinates. */
  function Features(list: seq<Station>): (r: seq<Feature>)
    ensures |r| <= |list|
    ensures forall i :: 0 <= i < |r| ==> IsCoordinate(r[i].at.lat) && IsCoordinate(r[i].at.lng)
    decreases |list|
  {
    if |list| == 0 then []
    else if Placeable(list[0]) then [FeatureOf(list[0])] + Features(list[1..])
    else Features(list[1..])
  }

  function FeaturesOf(list: seq<Station>): (r: seq<Feature>)
    ensures |r| == |list|
    ensures forall i :: 0 <= i < |list| ==> r[i] == FeatureOf(list[i])
  {
    seq(|list|, i requires 0 <= i < |list| => FeatureOf(list[i]))
  }

  lemma FeaturesOfCons(s: Station, rest: seq<Station>)
    ensures FeaturesOf([s] + rest) == [FeatureOf(s)] + FeaturesOf(rest)
  {
  }

  /** The features are the placeable stations, in input order, each turned into its feature. */
  lemma {:induction false} FeaturesAreFilterMap(list: seq<Station>)
    ensures Features(list) == FeaturesOf(Filter(list, Placeable))
    decreases |list|
  {
    if |list| > 0 {
      FeaturesAreFilterMap(list[1..]);
      if Placeable(list[0]) {
        FeaturesOfCons(list[0], Filter(list[1..], Placeable));
      }
    }
  }

  /** A station with numeric `lat` and `lng` is placed there, whatever its other fields. */
  lemma DirectCoordinatesWin(s: Station)
    requires IsCoordinate(Get(s.fields, "lat")) && IsCoordinate(Get(s.fields, "lng"))
    ensures Placeable(s) && Resolve(s) == LngLat(Get(s.fields, "lng"), Get(s.fields, "lat"))
  {
  }

  /** A station with neither `lat` nor `latitude` falls back to its `coords` pair, longitude first. */
  lemma CoordsFallback(s: Station, cs: seq<Value>)
    requires s.coords == Some(cs)
    requires "lat" !in s.fields && "latitude" !in s.fields
    ensures Resolve(s) == LngLat(At(cs, 0), At(cs, 1))
    ensures Placeable(s) <==> |cs| >= 2 && IsCoordinate(cs[0]) && IsCoordinate(cs[1])
  {
  }

  /**
   * `lat: null, latitude: null` resolves to `null`, not `undefined`: with a
   * defined longitude it blocks the `coords` fallback and the station is
   * skipped even when `coords` holds a usable pair.
   */
  lemma NullLatitudeSkips(s: Station)
    requires Get(s.fields, "lat") == Null && Get(s.fields, "latitude") == Null
    requires Coalesce(Get(s.fields, "lng"), Get(s.fields, "longitude")) != Undefined
    ensures !Placeable(s)
  {
  }

  // ---------------------------------------------------------------- the popup registry

  /** A registered popup: its handle, its station and where it is anchored. */
  datatype Entry = Entry(popup: nat, station: Station, at: LngLat)

  /**
   * `popupRefs.current` after one render with popups enabled: emptied first,
   * then one entry per placeable station under its name, a later station
   * replacing an earlier one of the same name. Popup handles are numbered
   * from `base` in the order the popups are created.
   */
  function Registry(list: seq<Station>, base: nat): (reg: map<string, Entry>)
    decreases |list|
  {
    if |list| == 0 then map[]
    else
      var p := list[..|list| - 1];
      var s := list[|list| - 1];
      if Placeable(s) then Registry(p, base)[NameKey(s) := Entry(base + |Filter(p, Placeable)|, s, Resolve(s))]
      else Registry(p, base)
  }

  /** The registry holds exactly the names of the placeable stations. */
  lemma {:induction false} RegistryKeys(list: seq<Station>, base: nat)
    ensures forall k :: k in Registry(list, base) <==>
      exists i :: 0 <= i < |list| && Placeable(list[i]) && NameKey(list[i]) == k
    decreases |list|
  {
    if |list| > 0 {
      var p := list[..|list| - 1];
      RegistryKeys(p, base);
      forall k
        ensures k in Registry(list, base) <==> exists i :: 0 <= i < |list| && Placeable(list[i]) && NameKey(list[i]) == k
      {
        if exists i :: 0 <= i < |list| && Placeable(list[i]) && NameKey(list[i]) == k {
          var i :| 0 <= i < |list| && Placeable(list[i]) && NameKey(list[i]) == k;
          if i < |p| {
            assert p[i] == list[i];
          }
        }
        if k in Registry(p, base) {
          var i :| 0 <= i < |p| && Placeable(p[i]) && NameKey(p[i]) == k;
          assert list[i] == p[i];
        }
      }
    }
  }

  /** For a duplicated name, the last placeable station with that name owns the entry. */
  lemma {:induction false} LastStationWins(list: seq<Station>, base: nat, j: nat)
    requires j < |list| && Placeable(list[j])
    requires forall i :: j < i < |list| && Placeable(list[i]) ==> NameKey(list[i]) != NameKey(list[j])
    ensures NameKey(list[j]) in Registry(list, base)
    ensures Registry(list, base)[NameKey(list[j])].station == list[j]
    decreases |list|
  {
    var p := list[..|list| - 1];
    if j < |list| - 1 {
      forall i | j < i < |p| && Placeable(p[i])
        ensures NameKey(p[i]) != NameKey(p[j])
      {
        assert p[i] == list[i];
      }
      LastStationWins(p, base, j);
      assert p[j] == list[j];
    }
  }

  /** The handles created by one render lie in `[base, base + number of placeable stations)`. */
  lemma {:induction false} RegistryHandles(list: seq<Station>, base: nat)
    ensures forall k :: k in Registry(list, base) ==>
      base <= Registry(list, base)[k].popup < base + |Filter(list, Placeable)|
    decreases |list|
  {
    if |list| > 0 {
      var p := list[..|list| - 1];
      var s := list[|list| - 1];
      RegistryHandles(p, base);
      assert list == p + [s];
      FilterSnoc(p, s, Placeable);
    }
  }
}
