/**
 * Battery-slot inventory rules of the staff dashboard: normalising the slot
 * records the backend returns, the 30-cell slot grid, the colour of a cell,
 * the battery-type label, chemistry inference, the Li-ion and LFP stand
 * lists, the "ready for driver" counts and the KPI summary.
 */
module Inventory {
  import opened JsValues
  import opened Lists

  /** A slot record after normalisation; string-typed fields went through `String(...)`. */
  datatype Slot = Slot(
    slotId: Value,
    code: Value,
    state: string,
    condition: string,
    door: string,
    batteryId: Value,
    soh: Value,
    serial: Value,
    stationId: Value,
    chargingStationId: Value,
    chargingSlotType: Value,
    chargingStationName: Value,
    lastUpdate: Value,
    batteryTypeId: Value,
    batteryChemistry: string,
    batteryType: Value)

  // ---------------------------------------------------------------- loading

  /** `firstDefined(x.k1, x.k2, ..., fallback)` */
  function Pick(x: Obj, keys: seq<string>, fallback: Value): Value {
    FirstDefined(Fields(x, keys) + [fallback])
  }

  function Fields(x: Obj, keys: seq<string>): (r: seq<Value>)
    ensures |r| == |keys|
    ensures forall j :: 0 <= j < |keys| ==> r[j] == Get(x, keys[j])
  {
    if |keys| == 0 then [] else [Get(x, keys[0])] + Fields(x, keys[1..])
  }

  const SlotIdKeys: seq<string> := ["Slot_ID", "slot_ID", "slotId"]
  const CodeKeys: seq<string> := ["Slot_Code", "slot_Code", "slotCode"]

  /** The record at position `i` of the payload, normalised. */
  function NormalizeSlot(x: Obj, i: nat): Slot {
    Slot(
      slotId := Pick(x, SlotIdKeys, Num(i + 1)),
      code := Pick(x, CodeKeys, Str("S" + Decimal(i + 1))),
      state := Trim(ToStr(Pick(x, ["State", "state"], Str("")))),
      condition := Trim(ToStr(Pick(x, ["Condition", "condition"], Str("")))),
      door := Trim(ToStr(Pick(x, ["Door_State", "door_State", "doorState"], Str("")))),
      batteryId := Pick(x, ["Battery_ID", "battery_ID", "batteryId"], Null),
      soh := Pick(x, ["BatterySoH", "batterySoH", "soh"], Num(0)),
      serial := Pick(x, ["BatterySerial", "batterySerial", "serial"], Null),
      stationId := Pick(x, ["Station_ID", "station_ID", "stationId"], Null),
      chargingStationId := Pick(x, ["ChargingStation_ID", "chargingStation_ID", "chargingStationId"], Null),
      chargingSlotType := Pick(x, ["ChargingSlotType", "chargingSlotType", "slot_Type"], Str("")),
      chargingStationName := Pick(x, ["ChargingStationName", "chargingStationName"], Str("Station")),
      lastUpdate := Pick(x, ["Last_Update", "last_Update", "lastUpdate"], Str("")),
      batteryTypeId := Pick(x, ["BatteryTypeId", "batteryTypeId", "Type_ID", "type_ID", "typeId"], Null),
      batteryChemistry := Lower(ToStr(Pick(x, ["BatteryChemistry", "batteryChemistry", "Chemistry"], Str("")))),
      batteryType := Pick(x, ["BatteryType", "batteryType", "TypeName", "typeName", "Model", "model"], Null))
  }

  /** `data.map((x, i) => ...)` */
  function NormalizeSlots(data: seq<Obj>): (r: seq<Slot>)
    ensures |r| == |data|
    ensures forall i :: 0 <= i < |r| ==> r[i] == NormalizeSlot(data[i], i)
  {
    seq(|data|, i requires 0 <= i < |data| => NormalizeSlot(data[i], i))
  }

  /** The first candidate key that is neither null nor undefined wins; 0 and "" are kept. */
  lemma {:induction false} PickFirstKey(x: Obj, keys: seq<string>, fallback: Value, k: nat)
    requires k < |keys| && !Nullish(Get(x, keys[k]))
    requires forall j :: 0 <= j < k ==> Nullish(Get(x, keys[j]))
    ensures Pick(x, keys, fallback) == Get(x, keys[k])
  {
    var vals := Fields(x, keys) + [fallback];
    FirstDefinedIsFirst(vals, k);
  }

  /** With every candidate key missing or null, the fallback is used. */
  lemma {:induction false} PickFallback(x: Obj, keys: seq<string>, fallback: Value)
    requires forall j :: 0 <= j < |keys| ==> Nullish(Get(x, keys[j]))
    requires !Nullish(fallback)
    ensures Pick(x, keys, fallback) == fallback
  {
    var vals := Fields(x, keys) + [fallback];
    FirstDefinedIsFirst(vals, |keys|);
  }

  predicate AllNullish(x: Obj, keys: seq<string>) {
    forall j :: 0 <= j < |keys| ==> Nullish(Get(x, keys[j]))
  }

  /** A slot without an id (every id key missing or null) gets its position plus one. */
  lemma NormalizedIdDefault(data: seq<Obj>, i: nat)
    requires i < |data| && AllNullish(data[i], SlotIdKeys)
    ensures NormalizeSlots(data)[i].slotId == Num(i + 1)
  {
    PickFallback(data[i], SlotIdKeys, Num(i + 1));
  }

  /** A slot without a code gets "S" followed by its position plus one. */
  lemma NormalizedCodeDefault(data: seq<Obj>, i: nat)
    requires i < |data| && AllNullish(data[i], CodeKeys)
    ensures NormalizeSlots(data)[i].code == Str("S" + Decimal(i + 1))
  {
    PickFallback(data[i], CodeKeys, Str("S" + Decimal(i + 1)));
  }

  /**
   * An id under the first defined key is kept as it is, even 0 or "": only null
   * and undefined are skipped.
   */
  lemma NormalizedIdKept(data: seq<Obj>, i: nat, k: nat)
    requires i < |data| && k < |SlotIdKeys|
    requires !Nullish(Get(data[i], SlotIdKeys[k]))
    requires forall j :: 0 <= j < k ==> Nullish(Get(data[i], SlotIdKeys[j]))
    ensures NormalizeSlots(data)[i].slotId == Get(data[i], SlotIdKeys[k])
  {
    PickFirstKey(data[i], SlotIdKeys, Num(i + 1), k);
  }

  /** Normalised state, condition and door strings carry no surrounding white space. */
  lemma NormalizedTrimmed(data: seq<Obj>, i: nat)
    requires i < |data|
    ensures var r := NormalizeSlots(data)[i];
      Trim(r.state) == r.state && Trim(r.condition) == r.condition && Trim(r.door) == r.door
  {
    var x := data[i];
    TrimIdempotent(ToStr(Pick(x, ["State", "state"], Str(""))));
    TrimIdempotent(ToStr(Pick(x, ["Condition", "condition"], Str(""))));
    TrimIdempotent(ToStr(Pick(x, ["Door_State", "door_State", "doorState"], Str(""))));
  }

  /** What the slot-status endpoint can answer. */
  datatype SlotsReply =
    | NetworkError(message: string)
    | HttpError(status: int, text: string)
    | Payload(data: Option<seq<Option<Obj>>>)  // None: the body is not a JSON array; a None element is `null`

  datatype Loaded = Loaded(slots: seq<Slot>, err: Option<string>)

  /** The TypeError message (V8's wording) for `x.Slot_ID` on a `null` element, the first property the map reads. */
  const NullRecordError := "Cannot read properties of null (reading 'Slot_ID')"

  /** `loadSlots`: the normalised list on success; an empty list and a message otherwise. */
  function LoadSlots(reply: SlotsReply): (r: Loaded)
    ensures r.err.None? <==> reply.Payload? && reply.data.Some? && forall i :: 0 <= i < |reply.data.value| ==> reply.data.value[i].Some?
    ensures r.err.None? ==> r.slots == NormalizeSlots(Records(reply.data.value).value)
    ensures r.err.Some? ==> r.slots == [] && r.err.value != ""
    ensures reply.Payload? && reply.data.None? ==> r.err == Some("Unexpected payload")
    ensures reply.Payload? && reply.data.Some? && (exists i :: 0 <= i < |reply.data.value| && reply.data.value[i].None?) ==>
      r.err == Some(NullRecordError)
  {
    match reply
    case NetworkError(m) => Loaded([], Some(if m != "" then m else "Failed to load slots"))
    case HttpError(status, text) => Loaded([], Some("HTTP " + Decimal(status) + " - " + text))
    case Payload(None) => Loaded([], Some("Unexpected payload"))
    case Payload(Some(data)) =>
      match Records(data)
      case None => Loaded([], Some(NullRecordError))
      case Some(records) => Loaded(NormalizeSlots(records), None)
  }

  // ---------------------------------------------------------------- the grid

  const GridSize: nat := 30

  /** A cell of the stand's grid: a real slot, or the placeholder pushed as the `ordinal`-th entry. */
  datatype Cell = Real(slot: Slot) | Placeholder(ordinal: nat)

  function CellCode(c: Cell): Value {
    match c
    case Real(s) => s.code
    case Placeholder(k) => Str("EMPTY" + Decimal(k))
  }

  function CellBatteryId(c: Cell): Value {
    match c
    case Real(s) => s.batteryId
    case Placeholder(_) => Null
  }

  function CellState(c: Cell): string {
    match c
    case Real(s) => s.state
    case Placeholder(_) => "Empty"
  }

  function CellCondition(c: Cell): string {
    match c
    case Real(s) => s.condition
    case Placeholder(_) => "-"
  }

  /** `gridSlots`: pad with placeholders up to 30 cells, then cut to 30. */
  method GridSlots(slots: seq<Slot>) returns (grid: seq<Cell>)
    ensures |grid| == GridSize
    ensures forall i :: 0 <= i < GridSize && i < |slots| ==> grid[i] == Real(slots[i])
    ensures forall i :: |slots| <= i < GridSize ==> grid[i] == Placeholder(i + 1)
    ensures forall i :: |slots| <= i < GridSize ==> CellBatteryId(grid[i]) == Null && CellState(grid[i]) == "Empty"
  {
    var list := seq(|slots|, i requires 0 <= i < |slots| => Real(slots[i]));
    while |list| < GridSize
      invariant |slots| <= |list| <= if |slots| < GridSize then GridSize else |slots|
      invariant forall i :: 0 <= i < |slots| ==> list[i] == Real(slots[i])
      invariant forall i :: |slots| <= i < |list| ==> list[i] == Placeholder(i + 1)
    {
      list := list + [Placeholder(|list| + 1)];
    }
    grid := list[..GridSize];
  }

  // ---------------------------------------------------------------- colour

  const NoBatteryGrey := "#e5e7eb"
  const DamagedBlack := "#000000"
  const ChargingRed := "#ef4444"
  const ReservedAmber := "#fbbf24"
  const ReadyGreen := "#22c55e"
  const OtherGrey := "#d1d5db"

  predicate HasBattery(s: Slot) {
    Truthy(s.batteryId)
  }

  /** The four colour conditions, on lower-cased state `st` and condition `cd`. */
  predicate IsDamaged(cd: string) { cd == "damage" || cd == "damaged" }
  predicate IsHot(st: string, cd: string) { cd == "weak" || cd == "charging" || st == "charging" }
  predicate IsHeld(st: string) { st == "reserved" || st == "reversed" }
  predicate IsGood(st: string, cd: string) { st == "occupied" && cd == "good" }

  /** The colour rule on lower-cased state `st` and condition `cd` of a slot holding a battery. */
  function StatusColor(st: string, cd: string): string {
    if IsDamaged(cd) then DamagedBlack
    else if IsHot(st, cd) then ChargingRed
    else if IsHeld(st) then ReservedAmber
    else if IsGood(st, cd) then ReadyGreen
    else OtherGrey
  }

  /** `colorOf` */
  function ColorOf(c: Cell): (r: string)
    ensures r in {NoBatteryGrey, DamagedBlack, ChargingRed, ReservedAmber, ReadyGreen, OtherGrey}
    ensures r == NoBatteryGrey <==> c.Placeholder? || !HasBattery(c.slot)
  {
    match c
    case Placeholder(_) => NoBatteryGrey
    case Real(s) =>
      if !HasBattery(s) then NoBatteryGrey
      else StatusColor(Lower(ToStr(Or(Str(s.state), Str("")))), Lower(ToStr(Or(Str(s.condition), Str("")))))
  }

  // ---------------------------------------------------------------- type label

  /** `selected.batteryType ?? ... ?? null`; a placeholder has none of those fields. */
  function CellTypeRaw(c: Cell): Value {
    match c
    case Real(s) => Coalesce(s.batteryType, Null)
    case Placeholder(_) => Null
  }

  /** `Number(selected.batteryTypeId ?? ... ?? 0)` */
  function CellTypeId(c: Cell): NumValue {
    match c
    case Real(s) => ToNumber(Coalesce(s.batteryTypeId, Num(0)))
    case Placeholder(_) => Num(0)
  }

  function CellChemistry(c: Cell): string {
    match c
    case Real(s) => Lower(s.batteryChemistry)
    case Placeholder(_) => ""
  }

  /** `selectedTypeLabel`: the explicit type name, else the type id, else the chemistry string. */
  function SelectedTypeLabel(selected: Option<Cell>): (r: string)
    ensures selected.None? ==> r == "—"
    ensures selected.Some? && Truthy(CellTypeRaw(selected.value)) ==> r == Trim(ToStr(CellTypeRaw(selected.value)))
    ensures selected.Some? && !Truthy(CellTypeRaw(selected.value)) ==> r in {"Lithium", "LFP", "—"}
    ensures selected.Some? && !Truthy(CellTypeRaw(selected.value)) && CellTypeId(selected.value) == Num(1) ==> r == "Lithium"
    ensures selected.Some? && !Truthy(CellTypeRaw(selected.value)) && CellTypeId(selected.value) == Num(2) ==> r == "LFP"
    // without a name or a known id the label is the chemistry string's verdict, the one `inferChemFromSlot` ends with
    ensures selected.Some? && !Truthy(CellTypeRaw(selected.value))
         && CellTypeId(selected.value) != Num(1) && CellTypeId(selected.value) != Num(2)
        ==> r == ChemLabel(ChemistryFallback(CellChemistry(selected.value), Null))
  {
    match selected
    case None => "—"
    case Some(c) =>
      var raw := CellTypeRaw(c);
      if Truthy(raw) then Trim(ToStr(raw))
      else
        var tId := CellTypeId(c);
        if tId == Num(1) then "Lithium"
        else if tId == Num(2) then "LFP"
        else
          var bc := CellChemistry(c);
          if Contains(bc, "lfp") then "LFP"
          else if Contains(bc, "lithium") || bc == "li" then "Lithium"
          else "—"
  }

  // ---------------------------------------------------------------- chemistry

  datatype Chem = Li | Lfp | Unknown

  /** `inferChemFromSlot` */
  function InferChem(s: Slot): Chem {
    var t := Lower(ToStr(Or(s.chargingSlotType, Str(""))));
    if Contains(t, "lfp") then Lfp
    else if Contains(t, "li") then Li
    else
      var id := ToNumber(Or(s.chargingStationId, Num(0)));
      if id == Num(11) then Lfp
      else if id == Num(12) then Li
      // JavaScript's `%` truncates, but only the comparison with 0 matters, where both agree
      else if Truthy(id) then (if id.n % 2 == 0 then Lfp else Li)
      else ChemistryFallback(Lower(ToStr(Or(Str(s.batteryChemistry), Str("")))), s.batteryTypeId)
  }

  /** The name the stand shows for a chemistry. */
  function ChemLabel(c: Chem): string {
    match c
    case Li => "Lithium"
    case Lfp => "LFP"
    case Unknown => "—"
  }

  /** The last resort of `inferChemFromSlot`: the chemistry string, then the strict type id. */
  function ChemistryFallback(bc: string, typeId: Value): Chem {
    if Contains(bc, "lfp") then Lfp
    else if Contains(bc, "lithium") || bc == "li" then Li
    else if typeId == Num(2) then Lfp
    else if typeId == Num(1) then Li
    else Unknown
  }

  /** A slot type naming a chemistry decides it: station id, chemistry and type id are then ignored. */
  lemma InferChemSlotTypeWins(s: Slot, stationId: Value, chemistry: string, typeId: Value)
    requires Contains(Lower(ToStr(Or(s.chargingSlotType, Str("")))), "lfp")
          || Contains(Lower(ToStr(Or(s.chargingSlotType, Str("")))), "li")
    ensures InferChem(s.(chargingStationId := stationId, batteryChemistry := chemistry, batteryTypeId := typeId))
         == InferChem(s)
    ensures InferChem(s) != Unknown
    ensures Contains(Lower(ToStr(Or(s.chargingSlotType, Str("")))), "lfp") ==> InferChem(s) == Lfp
  {
  }

  /**
   * Without a telling slot type, a numeric station id decides: 11 is LFP, 12 is
   * Li-ion, and every other non-zero id goes by parity (even is LFP).
   */
  lemma InferChemByParity(s: Slot, n: int)
    requires !Contains(Lower(ToStr(Or(s.chargingSlotType, Str("")))), "lfp")
    requires !Contains(Lower(ToStr(Or(s.chargingSlotType, Str("")))), "li")
    requires n != 0 && n != 11 && n != 12
    ensures InferChem(s.(chargingStationId := Num(11))) == Lfp
    ensures InferChem(s.(chargingStationId := Num(12))) == Li
    ensures InferChem(s.(chargingStationId := Num(n))) == (if n % 2 == 0 then Lfp else Li)
  {
  }

  /**
   * Station ids two apart agree, except across 0, 11 and 12: there 9 and 11, and
   * 10 and 12, disagree.
   */
  lemma InferChemByStationId(s: Slot, n: int)
    requires !Contains(Lower(ToStr(Or(s.chargingSlotType, Str("")))), "lfp")
    requires !Contains(Lower(ToStr(Or(s.chargingSlotType, Str("")))), "li")
    requires n != 0 && n != -2 && n !in {9, 10, 11, 12}
    ensures InferChem(s.(chargingStationId := Num(n))) == InferChem(s.(chargingStationId := Num(n + 2)))
    ensures InferChem(s.(chargingStationId := Num(9))) != InferChem(s.(chargingStationId := Num(11)))
    ensures InferChem(s.(chargingStationId := Num(10))) != InferChem(s.(chargingStationId := Num(12)))
  {
  }

  // ---------------------------------------------------------------- stand lists

  const StandStates: seq<string> := ["occupied", "reserved", "reversed", "empty", "charging"]

  /** A slot the stand mock-up may show: door closed, a code, and a listed state. */
  predicate OnStand(s: Slot) {
    Norm(Str(s.door)) == "closed" && Truthy(s.code) && Norm(Str(s.state)) in StandStates
  }

  predicate IsLithiumDisplay(s: Slot) {
    OnStand(s)
    && ((HasBattery(s) && ToNumber(s.batteryTypeId) == Num(1)) || (!HasBattery(s) && InferChem(s) == Li))
  }

  predicate IsLfpDisplay(s: Slot) {
    OnStand(s)
    && ((HasBattery(s) && ToNumber(s.batteryTypeId) == Num(2)) || (!HasBattery(s) && InferChem(s) == Lfp))
  }

  /** `lithiumDisplaySlots` */
  function LithiumDisplaySlots(slots: seq<Slot>): seq<Slot> {
    Filter(slots, IsLithiumDisplay)
  }

  /** `lfpDisplaySlots` */
  function LfpDisplaySlots(slots: seq<Slot>): seq<Slot> {
    Filter(slots, IsLfpDisplay)
  }

  /**
   * Both stand lists are order-preserving sub-lists of the slots, keep exactly the
   * slots their rule admits (every copy of each), hold only closed, coded slots in a listed state, and
   * share no slot.
   */
  lemma StandLists(slots: seq<Slot>)
    ensures IsSublist(LithiumDisplaySlots(slots), slots) && IsSublist(LfpDisplaySlots(slots), slots)
    ensures forall s :: s in LithiumDisplaySlots(slots) <==> s in slots && IsLithiumDisplay(s)
    ensures forall s :: s in LfpDisplaySlots(slots) <==> s in slots && IsLfpDisplay(s)
    ensures forall s :: s in LithiumDisplaySlots(slots) || s in LfpDisplaySlots(slots) ==>
      Norm(Str(s.door)) == "closed" && Truthy(s.code) && Norm(Str(s.state)) in StandStates
    ensures forall s :: s in LithiumDisplaySlots(slots) ==> s !in LfpDisplaySlots(slots)
    ensures forall s :: multiset(LithiumDisplaySlots(slots))[s] == if IsLithiumDisplay(s) then multiset(slots)[s] else 0
    ensures forall s :: multiset(LfpDisplaySlots(slots))[s] == if IsLfpDisplay(s) then multiset(slots)[s] else 0
  {
    StandMembership(slots);
    StandCounts(slots);
    forall s | s in LithiumDisplaySlots(slots) || s in LfpDisplaySlots(slots)
      ensures Norm(Str(s.door)) == "closed" && Truthy(s.code) && Norm(Str(s.state)) in StandStates
      ensures s in LithiumDisplaySlots(slots) ==> s !in LfpDisplaySlots(slots)
    {
      DisplayRules(s);
    }
  }

  /** A slot on either stand is on the stand, and no slot is on both. */
  lemma DisplayRules(s: Slot)
    ensures IsLithiumDisplay(s) || IsLfpDisplay(s) ==> OnStand(s)
    ensures !(IsLithiumDisplay(s) && IsLfpDisplay(s))
  {
  }

  lemma StandMembership(slots: seq<Slot>)
    ensures IsSublist(LithiumDisplaySlots(slots), slots) && IsSublist(LfpDisplaySlots(slots), slots)
    ensures forall s :: s in LithiumDisplaySlots(slots) <==> s in slots && IsLithiumDisplay(s)
    ensures forall s :: s in LfpDisplaySlots(slots) <==> s in slots && IsLfpDisplay(s)
  {
    FilterIsSublist(slots, IsLithiumDisplay);
    FilterIsSublist(slots, IsLfpDisplay);
  }

  lemma StandCounts(slots: seq<Slot>)
    ensures forall s :: multiset(LithiumDisplaySlots(slots))[s] == if IsLithiumDisplay(s) then multiset(slots)[s] else 0
    ensures forall s :: multiset(LfpDisplaySlots(slots))[s] == if IsLfpDisplay(s) then multiset(slots)[s] else 0
  {
    FilterCounts(slots, IsLithiumDisplay);
    FilterCounts(slots, IsLfpDisplay);
  }

  /**
   * For a battery on the Li-ion (LFP) stand without a type name, the detail panel's
   * label reads "Lithium" ("LFP"): the label and the stand agree.
   */
  lemma StandAgreesWithLabel(slots: seq<Slot>, s: Slot)
    requires HasBattery(s) && !Truthy(s.batteryType)
    ensures s in LithiumDisplaySlots(slots) ==> SelectedTypeLabel(Some(Real(s))) == "Lithium"
    ensures s in LfpDisplaySlots(slots) ==> SelectedTypeLabel(Some(Real(s))) == "LFP"
  {
    StandLists(slots);
    if s in LithiumDisplaySlots(slots) {
      LabelOfTypedBattery(s);
    }
    if s in LfpDisplaySlots(slots) {
      LabelOfTypedBattery(s);
    }
  }

  /** Without a type name, a numeric type id 1 or 2 decides the label. */
  lemma LabelOfTypedBattery(s: Slot)
    requires !Truthy(s.batteryType)
    ensures TypedLi(s) ==> SelectedTypeLabel(Some(Real(s))) == "Lithium"
    ensures TypedLfp(s) ==> SelectedTypeLabel(Some(Real(s))) == "LFP"
  {
    assert !Truthy(CellTypeRaw(Real(s)));
    if TypedLi(s) || TypedLfp(s) {
      assert !Nullish(s.batteryTypeId);
      assert CellTypeId(Real(s)) == ToNumber(s.batteryTypeId);
    }
  }

  /** A battery typed LFP (type id 2) whose chemistry string says "lithium". */
  const MixedSignals: Slot := Slot(Num(1), Str("S1"), "occupied", "good", "closed", Num(7), Num(90), Null, Null, Null,
                                   Str(""), Str("Station"), Str(""), Num(2), "lithium", Null)

  lemma MixedSignalsChem()
    ensures InferChem(MixedSignals) == Li
  {
    var s := MixedSignals;
    var t := Lower(ToStr(Or(s.chargingSlotType, Str(""))));
    assert t == "";
    assert !Contains(t, "lfp") && !Contains(t, "li");
    var id := ToNumber(Or(s.chargingStationId, Num(0)));
    assert id == Num(0);
    var bc := Lower(ToStr(Or(Str(s.batteryChemistry), Str(""))));
    assert bc == Lower("lithium");
    LithiumFallback();
  }

  /** "lithium" with type id 2 falls back to Li-ion: the chemistry string wins over the type id. */
  lemma LithiumFallback()
    ensures ChemistryFallback(Lower("lithium"), Num(2)) == Li
  {
    LithiumIsLithium();
  }

  lemma LithiumIsLithium()
    ensures Lower("lithium") == "lithium"
    ensures Contains("lithium", "lithium") && !Contains("lithium", "lfp")
  {
    ContainsAt("lithium", "lithium", 0);
    if Contains("lithium", "lfp") {
      ContainedChars("lithium", "lfp", 1);
      assert false;
    }
  }

  lemma MixedSignalsLabel()
    ensures SelectedTypeLabel(Some(Real(MixedSignals))) == "LFP"
  {
  }

  /** The label prefers the type id and chemistry inference prefers the chemistry string, so they can disagree. */
  lemma LabelAndChemistryCanDisagree()
    ensures exists s: Slot :: HasBattery(s) && InferChem(s) == Li && SelectedTypeLabel(Some(Real(s))) == "LFP"
  {
    MixedSignalsChem();
    MixedSignalsLabel();
    assert HasBattery(MixedSignals);
  }

  // ---------------------------------------------------------------- ready counts

  /** A slot a driver could swap into right now. */
  predicate ReadyForDriver(s: Slot) {
    Norm(Str(s.state)) == "occupied" && Norm(Str(s.door)) == "closed" && HasBattery(s)
    && Norm(Str(s.condition)) != "weak" && Truthy(s.code)
  }

  predicate TypedLi(s: Slot) { ToNumber(s.batteryTypeId) == Num(1) }
  predicate TypedLfp(s: Slot) { ToNumber(s.batteryTypeId) == Num(2) }
  predicate ReadyLi(s: Slot) { ReadyForDriver(s) && TypedLi(s) }
  predicate ReadyLfp(s: Slot) { ReadyForDriver(s) && TypedLfp(s) }

  datatype Readiness = Readiness(liionReady: nat, lfpReady: nat, totalReady: nat)

  /** `liionReady`, `lfpReady`, `totalReady`: sub-counts of the eligible slots. */
  function ReadyCounts(slots: seq<Slot>): (r: Readiness)
    ensures r.totalReady == |Filter(slots, ReadyForDriver)|
    ensures r.liionReady == |Filter(slots, ReadyLi)|
    ensures r.lfpReady == |Filter(slots, ReadyLfp)|
    ensures r.liionReady + r.lfpReady <= r.totalReady <= |slots|
  {
    var eligible := Filter(slots, ReadyForDriver);
    FilterFilter(slots, ReadyForDriver, TypedLi, ReadyLi);
    FilterFilter(slots, ReadyForDriver, TypedLfp, ReadyLfp);
    FilterDisjointCounts(eligible, TypedLi, TypedLfp, _ => true);
    assert Filter(eligible, _ => true) == eligible by { FilterAll(eligible); }
    Readiness(|Filter(eligible, TypedLi)|, |Filter(eligible, TypedLfp)|, |eligible|)
  }

  lemma {:induction false} FilterAll(s: seq<Slot>)
    ensures Filter(s, _ => true) == s
    decreases |s|
  {
    if |s| > 0 {
      FilterAll(s[1..]);
    }
  }

  /** Every counted slot is occupied, closed, holds a battery that is not weak, and has a code. */
  lemma ReadyMeansSwappable(slots: seq<Slot>, s: Slot)
    requires s in Filter(slots, ReadyForDriver)
    ensures s in slots
    ensures Norm(Str(s.state)) == "occupied" && Norm(Str(s.door)) == "closed"
    ensures Truthy(s.batteryId) && Norm(Str(s.condition)) != "weak" && Truthy(s.code)
  {
    FilterIsSublist(slots, ReadyForDriver);
  }

  // ---------------------------------------------------------------- KPI summary

  datatype Bucket = Reserved | Maintenance | Charging | Full | Uncounted

  /** The bucket rule on normalised state `st` and condition `cd`. */
  function StatusBucket(st: string, cd: string): Bucket {
    if st == "reserved" || st == "reversed" then Reserved
    else if cd == "damage" || cd == "damaged" then Maintenance
    else if st == "charging" || cd == "weak" || cd == "charging" then Charging
    else if st == "occupied" && cd == "good" then Full
    else Uncounted
  }

  /** The one KPI bucket a slot counts in: reserved, then maintenance, then charging, then full. */
  function BucketOf(s: Slot): Bucket {
    StatusBucket(Norm(Str(s.state)), Norm(Str(s.condition)))
  }

  predicate IsReservedSlot(s: Slot) { BucketOf(s) == Reserved }
  predicate IsMaintenanceSlot(s: Slot) { BucketOf(s) == Maintenance }
  predicate IsChargingSlot(s: Slot) { BucketOf(s) == Charging }
  predicate IsFullSlot(s: Slot) { BucketOf(s) == Full }
  predicate IsCountedSlot(s: Slot) { BucketOf(s) != Uncounted }

  datatype Summary = Summary(full: nat, charging: nat, maintenance: nat, reserved: nat)

  /** The bucket counts a summary over `slots` must hold. */
  predicate Tallies(sum: Summary, slots: seq<Slot>) {
    && sum.reserved == |Filter(slots, IsReservedSlot)|
    && sum.maintenance == |Filter(slots, IsMaintenanceSlot)|
    && sum.charging == |Filter(slots, IsChargingSlot)|
    && sum.full == |Filter(slots, IsFullSlot)|
    && sum.full + sum.charging + sum.maintenance + sum.reserved == |Filter(slots, IsCountedSlot)|
  }

  /** Adds one to the count of bucket `b`. */
  function Bump(sum: Summary, b: Bucket): Summary {
    match b
    case Reserved => sum.(reserved := sum.reserved + 1)
    case Maintenance => sum.(maintenance := sum.maintenance + 1)
    case Charging => sum.(charging := sum.charging + 1)
    case Full => sum.(full := sum.full + 1)
    case Uncounted => sum
  }

  function Tally(sum: Summary, s: Slot): Summary {
    Bump(sum, BucketOf(s))
  }

  /**
   * The counting step for any classification: when the predicates agree with
   * bucket `b` on the new element, bumping `b` keeps the counts equal to the
   * filter sizes.
   */
  lemma BumpStep<T>(sum: Summary, prefix: seq<T>, x: T, b: Bucket, pr: T -> bool, pm: T -> bool, pc: T -> bool, pf: T -> bool, pn: T -> bool)
    requires pr(x) == (b == Reserved) && pm(x) == (b == Maintenance)
    requires pc(x) == (b == Charging) && pf(x) == (b == Full) && pn(x) == (b != Uncounted)
    requires sum.reserved == |Filter(prefix, pr)| && sum.maintenance == |Filter(prefix, pm)|
    requires sum.charging == |Filter(prefix, pc)| && sum.full == |Filter(prefix, pf)|
    requires sum.full + sum.charging + sum.maintenance + sum.reserved == |Filter(prefix, pn)|
    ensures var t := Bump(sum, b);
      && t.reserved == |Filter(prefix + [x], pr)| && t.maintenance == |Filter(prefix + [x], pm)|
      && t.charging == |Filter(prefix + [x], pc)| && t.full == |Filter(prefix + [x], pf)|
      && t.full + t.charging + t.maintenance + t.reserved == |Filter(prefix + [x], pn)|
  {
    FilterSnoc(prefix, x, pr);
    FilterSnoc(prefix, x, pm);
    FilterSnoc(prefix, x, pc);
    FilterSnoc(prefix, x, pf);
    FilterSnoc(prefix, x, pn);
  }

  lemma TallyStep(sum: Summary, prefix: seq<Slot>, s: Slot)
    requires Tallies(sum, prefix)
    ensures Tallies(Tally(sum, s), prefix + [s])
  {
    var b := BucketOf(s);
    assert IsReservedSlot(s) == (b == Reserved) && IsMaintenanceSlot(s) == (b == Maintenance);
    assert IsChargingSlot(s) == (b == Charging) && IsFullSlot(s) == (b == Full) && IsCountedSlot(s) == (b != Uncounted);
    BumpStep(sum, prefix, s, b, IsReservedSlot, IsMaintenanceSlot, IsChargingSlot, IsFullSlot, IsCountedSlot);
  }

  /** `summary`: one pass over the slots, each slot counted in at most one bucket. */
  method Summarize(slots: seq<Slot>) returns (sum: Summary)
    ensures Tallies(sum, slots)
    ensures sum.full + sum.charging + sum.maintenance + sum.reserved <= |slots|
  {
    sum := Summary(0, 0, 0, 0);
    var i := 0;
    while i < |slots|
      invariant 0 <= i <= |slots|
      invariant Tallies(sum, slots[..i])
    {
      TakeSnoc(slots, i);
      TallyStep(sum, slots[..i], slots[i]);
      sum := Tally(sum, slots[i]);
      i := i + 1;
    }
    assert slots[..i] == slots;
  }

  /**
   * The grid colour and the KPI bucket of a slot holding a battery agree (for
   * normalised, already trimmed fields): maintenance shows black, charging red,
   * full green, uncounted the default grey, and only a reserved slot shows amber.
   */
  lemma ColorAgreesWithBucket(s: Slot)
    requires HasBattery(s)
    requires Trim(s.state) == s.state && Trim(s.condition) == s.condition
    ensures BucketOf(s) == Maintenance ==> ColorOf(Real(s)) == DamagedBlack
    ensures BucketOf(s) == Charging ==> ColorOf(Real(s)) == ChargingRed
    ensures BucketOf(s) == Full ==> ColorOf(Real(s)) == ReadyGreen
    ensures BucketOf(s) == Uncounted ==> ColorOf(Real(s)) == OtherGrey
    ensures BucketOf(s) == Reserved ==> ColorOf(Real(s)) in {DamagedBlack, ChargingRed, ReservedAmber}
    ensures ColorOf(Real(s)) == ReservedAmber ==> BucketOf(s) == Reserved
  {
    ColorOfTrimmed(s);
    BucketOfTrimmed(s);
    StatusColorAgreesWithBucket(Lower(s.state), Lower(s.condition));
  }

  /**
   * The colour rule's precedence on the lower-cased state and condition of a
   * slot holding a battery: damaged beats weak or charging, which beats
   * reserved, which beats occupied-and-good; anything else is the default grey.
   */
  lemma ColorPrecedence(s: Slot)
    requires HasBattery(s)
    ensures var st, cd := Lower(s.state), Lower(s.condition);
      && (IsDamaged(cd) ==> ColorOf(Real(s)) == DamagedBlack)
      && ((!IsDamaged(cd) && IsHot(st, cd)) ==> ColorOf(Real(s)) == ChargingRed)
      && ((!IsDamaged(cd) && !IsHot(st, cd) && IsHeld(st)) ==> ColorOf(Real(s)) == ReservedAmber)
      && ((!IsDamaged(cd) && !IsHot(st, cd) && !IsHeld(st) && IsGood(st, cd)) ==> ColorOf(Real(s)) == ReadyGreen)
      && ((!IsDamaged(cd) && !IsHot(st, cd) && !IsHeld(st) && !IsGood(st, cd)) ==> ColorOf(Real(s)) == OtherGrey)
  {
    ColorOfTrimmed(s);
  }

  /** A reserved slot whose battery is damaged counts as reserved in the KPIs but shows black on the grid. */
  lemma ReservedDamagedIsBlack(s: Slot)
    requires HasBattery(s) && Trim(s.state) == s.state && Trim(s.condition) == s.condition
    requires Lower(s.state) == "reserved" && Lower(s.condition) == "damaged"
    ensures BucketOf(s) == Reserved && ColorOf(Real(s)) == DamagedBlack
  {
    ColorPrecedence(s);
    BucketOfTrimmed(s);
  }

  lemma ColorOfTrimmed(s: Slot)
    requires HasBattery(s)
    ensures ColorOf(Real(s)) == StatusColor(Lower(s.state), Lower(s.condition))
  {
    StrOrEmpty(s.state);
    StrOrEmpty(s.condition);
  }

  lemma BucketOfTrimmed(s: Slot)
    requires Trim(s.state) == s.state && Trim(s.condition) == s.condition
    ensures BucketOf(s) == StatusBucket(Lower(s.state), Lower(s.condition))
  {
    NormOfTrimmed(s.state);
    NormOfTrimmed(s.condition);
  }

  lemma StatusColorAgreesWithBucket(st: string, cd: string)
    ensures StatusBucket(st, cd) == Maintenance ==> StatusColor(st, cd) == DamagedBlack
    ensures StatusBucket(st, cd) == Charging ==> StatusColor(st, cd) == ChargingRed
    ensures StatusBucket(st, cd) == Full ==> StatusColor(st, cd) == ReadyGreen
    ensures StatusBucket(st, cd) == Uncounted ==> StatusColor(st, cd) == OtherGrey
    ensures StatusBucket(st, cd) == Reserved ==> StatusColor(st, cd) in {DamagedBlack, ChargingRed, ReservedAmber}
    ensures StatusColor(st, cd) == ReservedAmber ==> StatusBucket(st, cd) == Reserved
  {
  }

}
