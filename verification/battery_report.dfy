/**
 * The battery report shown in a station popup: the rows the report endpoint
 * returns for one station, grouped by battery type with their SoH band counts
 * summed, and rendered as one section per type or a "no data" placeholder.
 */
module BatteryReport {
  import opened JsValues
  import opened Lists
  import Html

  // ---------------------------------------------------------------- selecting a station's rows

  /** `String(r.stationId) === String(stationId)` */
  function IdMatches(sid: Value): Obj -> bool {
    (r: Obj) => ToStr(Get(r, "stationId")) == ToStr(sid)
  }

  /** The rows of the station whose id is known. */
  function RowsById(rows: seq<Obj>, sid: Value): (r: seq<Obj>)
    ensures IsSublist(r, rows)
    ensures forall x :: x in r <==> x in rows && ToStr(Get(x, "stationId")) == ToStr(sid)
    ensures forall x :: multiset(r)[x] == if ToStr(Get(x, "stationId")) == ToStr(sid) then multiset(rows)[x] else 0
  {
    FilterIsSublist(rows, IdMatches(sid));
    FilterCounts(rows, IdMatches(sid));
    Filter(rows, IdMatches(sid))
  }

  /** `(r.stationName || '').trim() === (station.name || '').trim()` when neither side throws. */
  function NameMatches(name: Value): Obj -> bool {
    (r: Obj) => TrimOr(Get(r, "stationName")).Some? && TrimOr(Get(r, "stationName")) == TrimOr(name)
  }

  /** A row whose `stationName` is truthy but not a string: trimming it throws. */
  predicate BadName(r: Obj) {
    TrimOr(Get(r, "stationName")).None?
  }

  /** Some row's name cannot be trimmed. */
  predicate AnyBadName(rows: seq<Obj>)
    decreases |rows|
  {
    |rows| > 0 && (BadName(rows[0]) || AnyBadName(rows[1..]))
  }

  lemma {:induction false} AnyBadNameIff(rows: seq<Obj>)
    ensures AnyBadName(rows) <==> exists i :: 0 <= i < |rows| && BadName(rows[i])
    decreases |rows|
  {
    if |rows| > 0 {
      AnyBadNameIff(rows[1..]);
      if AnyBadName(rows[1..]) {
        var i :| 0 <= i < |rows[1..]| && BadName(rows[1..][i]);
        assert BadName(rows[i + 1]);
      }
      if exists i :: 0 <= i < |rows| && BadName(rows[i]) {
        var i :| 0 <= i < |rows| && BadName(rows[i]);
        if i > 0 {
          assert rows[1..][i - 1] == rows[i];
        }
      }
    }
  }

  /**
   * The rows of a station known only by name. The comparison trims both sides;
   * it throws (None) on the first row where either side is truthy but not a
   * string, and with no rows it compares nothing.
   */
  function RowsByName(rows: seq<Obj>, name: Value): (r: Option<seq<Obj>>)
    ensures r.None? <==> |rows| > 0 && (TrimOr(name).None? || AnyBadName(rows))
    ensures r.Some? ==> r.value == Filter(rows, NameMatches(name))
    decreases |rows|
  {
    if |rows| == 0 then Some([])
    else
      match TrimOr(Get(rows[0], "stationName"))
      case None => None
      case Some(a) =>
        match TrimOr(name)
        case None => None
        case Some(b) =>
          match RowsByName(rows[1..], name)
          case None => None
          case Some(rest) => if a == b then Some([rows[0]] + rest) else Some(rest)
  }

  /** The name lookup fails exactly when there are rows and some row's name, or the station's, is truthy but not a string. */
  lemma RowsByNameFails(rows: seq<Obj>, name: Value)
    ensures RowsByName(rows, name).None? <==>
      |rows| > 0 && (TrimOr(name).None? || exists i :: 0 <= i < |rows| && BadName(rows[i]))
  {
    AnyBadNameIff(rows);
  }

  /**
   * When nothing throws, the name lookup keeps, in order, every copy of each
   * row whose trimmed name equals the station's and nothing else.
   */
  lemma RowsByNameKeeps(rows: seq<Obj>, name: Value)
    requires TrimOr(name).Some?
    requires forall i :: 0 <= i < |rows| ==> !BadName(rows[i])
    ensures var r := RowsByName(rows, name);
      && r.Some? && IsSublist(r.value, rows)
      && (forall x :: x in r.value <==> x in rows && TrimOr(Get(x, "stationName")) == TrimOr(name))
      && forall x :: multiset(r.value)[x] == if TrimOr(Get(x, "stationName")) == TrimOr(name) then multiset(rows)[x] else 0
  {
    RowsByNameFails(rows, name);
    FilterIsSublist(rows, NameMatches(name));
    FilterCounts(rows, NameMatches(name));
  }

  // ---------------------------------------------------------------- grouping

  /** `String(r.batteryType || 'Unknown')` */
  function GroupKey(r: Obj): string {
    ToStr(Or(Get(r, "batteryType"), Str("Unknown")))
  }

  /** `Number(r[f] || 0)` */
  function FieldNumber(r: Obj, f: string): NumValue {
    ToNumber(Or(Get(r, f), Num(0)))
  }

  /** The five SoH band counters of one battery type. */
  datatype Counts = Counts(good: NumValue, average: NumValue, weak: NumValue, below75: NumValue, total: NumValue)

  const Zero := Counts(Num(0), Num(0), Num(0), Num(0), Num(0))

  /** `acc[key].Good += Number(r.Good || 0)` and likewise for the other four. */
  function AddRow(c: Counts, r: Obj): Counts {
    Counts(NumAdd(c.good, FieldNumber(r, "Good")), NumAdd(c.average, FieldNumber(r, "Average")),
           NumAdd(c.weak, FieldNumber(r, "Weak")), NumAdd(c.below75, FieldNumber(r, "Below75")),
           NumAdd(c.total, FieldNumber(r, "Total")))
  }

  datatype Group = Group(key: string, counts: Counts)

  function Keys(groups: seq<Group>): (r: seq<string>)
    ensures |r| == |groups|
    ensures forall i :: 0 <= i < |groups| ==> r[i] == groups[i].key
  {
    seq(|groups|, i requires 0 <= i < |groups| => groups[i].key)
  }

  function IndexOf(keys: seq<string>, k: string): (r: Option<nat>)
    ensures r.Some? ==> r.value < |keys| && keys[r.value] == k && forall j :: 0 <= j < r.value ==> keys[j] != k
    ensures r.None? <==> k !in keys
  {
    if |keys| == 0 then None
    else if keys[0] == k then Some(0)
    else match IndexOf(keys[1..], k)
      case None => None
      case Some(i) => Some(i + 1)
  }

  /** One step of the `reduce`: add the row to its type's group, opening the group if it is new. */
  function Accumulate(groups: seq<Group>, r: Obj): seq<Group> {
    var k := GroupKey(r);
    match IndexOf(Keys(groups), k)
    case Some(i) => groups[i := Group(k, AddRow(groups[i].counts, r))]
    case None => groups + [Group(k, AddRow(Zero, r))]
  }

  /** The `reduce` over the rows, left to right. */
  function Grouped(rows: seq<Obj>): seq<Group>
    decreases |rows|
  {
    if |rows| == 0 then [] else Accumulate(Grouped(rows[..|rows| - 1]), rows[|rows| - 1])
  }

  // ---------------------------------------------------------------- the reference definition

  /** The types of the rows, each once, in order of first appearance. */
  function Distinct(keys: seq<string>): (r: seq<string>)
    decreases |keys|
  {
    if |keys| == 0 then []
    else
      var d := Distinct(keys[..|keys| - 1]);
      if keys[|keys| - 1] in d then d else d + [keys[|keys| - 1]]
  }

  function RowKeys(rows: seq<Obj>): (r: seq<string>)
    ensures |r| == |rows|
    ensures forall i :: 0 <= i < |rows| ==> r[i] == GroupKey(rows[i])
  {
    seq(|rows|, i requires 0 <= i < |rows| => GroupKey(rows[i]))
  }

  lemma {:induction false} DistinctFacts(keys: seq<string>)
    ensures forall i, j :: 0 <= i < j < |Distinct(keys)| ==> Distinct(keys)[i] != Distinct(keys)[j]
    ensures forall k :: k in Distinct(keys) <==> k in keys
    ensures |Distinct(keys)| == 0 <==> |keys| == 0
    decreases |keys|
  {
    if |keys| > 0 {
      var p := keys[..|keys| - 1];
      DistinctFacts(p);
      assert keys == p + [keys[|keys| - 1]];
    }
  }

  function KeyIs(k: string): Obj -> bool {
    (r: Obj) => GroupKey(r) == k
  }

  /** The counters of a list of rows, added up left to right from zero. */
  function CountsOf(rows: seq<Obj>): Counts
    decreases |rows|
  {
    if |rows| == 0 then Zero else AddRow(CountsOf(rows[..|rows| - 1]), rows[|rows| - 1])
  }

  /** `Number(r[f] || 0)` summed over the rows; NaN once any row's field is not numeric. */
  function Sum(rows: seq<Obj>, f: string): (r: NumValue)
    ensures r.Num? <==> forall i :: 0 <= i < |rows| ==> FieldNumber(rows[i], f).Num?
    decreases |rows|
  {
    if |rows| == 0 then Num(0)
    else
      var p := rows[..|rows| - 1];
      var s := Sum(p, f);
      assert forall i :: 0 <= i < |p| ==> p[i] == rows[i];
      NumAdd(s, FieldNumber(rows[|rows| - 1], f))
  }

  /** Each counter is the sum of its field over the rows. */
  lemma {:induction false} CountsAreSums(rows: seq<Obj>)
    ensures CountsOf(rows) == Counts(Sum(rows, "Good"), Sum(rows, "Average"), Sum(rows, "Weak"),
                                     Sum(rows, "Below75"), Sum(rows, "Total"))
    decreases |rows|
  {
    if |rows| > 0 {
      CountsAreSums(rows[..|rows| - 1]);
    }
  }

  /** The grouping matches its reference: one group per type in first-appearance order, each holding the sums of that type's rows. */
  predicate GroupsOf(groups: seq<Group>, rows: seq<Obj>) {
    && Keys(groups) == Distinct(RowKeys(rows))
    && forall i :: 0 <= i < |groups| ==> groups[i].counts == CountsOf(Filter(rows, KeyIs(groups[i].key)))
  }

  lemma FilterSnocKey(p: seq<Obj>, x: Obj, k: string)
    ensures Filter(p + [x], KeyIs(k)) == Filter(p, KeyIs(k)) + (if GroupKey(x) == k then [x] else [])
  {
    FilterAppend(p, [x], KeyIs(k));
    FilterSingleton(x, KeyIs(k));
  }

  lemma RowKeysSnoc(p: seq<Obj>, x: Obj)
    ensures RowKeys(p + [x]) == RowKeys(p) + [GroupKey(x)]
  {
  }

  lemma NoRowsOfNewKey(p: seq<Obj>, k: string)
    requires k !in RowKeys(p)
    ensures Filter(p, KeyIs(k)) == []
  {
    FilterIsSublist(p, KeyIs(k));
  }

  lemma CountsOfSnoc(f: seq<Obj>, x: Obj)
    ensures CountsOf(f + [x]) == AddRow(CountsOf(f), x)
  {
    assert (f + [x])[..|f|] == f;
  }

  /** A row of another type leaves a group's counters as they were. */
  lemma OtherGroupUnchanged(p: seq<Obj>, x: Obj, key: string, c: Counts)
    requires GroupKey(x) != key && c == CountsOf(Filter(p, KeyIs(key)))
    ensures c == CountsOf(Filter(p + [x], KeyIs(key)))
  {
    FilterSnocKey(p, x, key);
    assert Filter(p, KeyIs(key)) + [] == Filter(p, KeyIs(key));
  }

  /** A row of the group's own type is added to its counters. */
  lemma SameGroupGrows(p: seq<Obj>, x: Obj, c: Counts)
    requires c == CountsOf(Filter(p, KeyIs(GroupKey(x))))
    ensures AddRow(c, x) == CountsOf(Filter(p + [x], KeyIs(GroupKey(x))))
  {
    FilterSnocKey(p, x, GroupKey(x));
    CountsOfSnoc(Filter(p, KeyIs(GroupKey(x))), x);
  }

  lemma AccumulateExisting(groups: seq<Group>, p: seq<Obj>, x: Obj, i: nat)
    requires GroupsOf(groups, p)
    requires IndexOf(Keys(groups), GroupKey(x)) == Some(i)
    ensures forall j :: 0 <= j < |groups| ==>
      Accumulate(groups, x)[j].counts == CountsOf(Filter(p + [x], KeyIs(Accumulate(groups, x)[j].key)))
  {
    var k := GroupKey(x);
    var g := Accumulate(groups, x);
    assert g == groups[i := Group(k, AddRow(groups[i].counts, x))];
    DistinctFacts(RowKeys(p));
    forall j | 0 <= j < |groups|
      ensures g[j].counts == CountsOf(Filter(p + [x], KeyIs(g[j].key)))
    {
      if j == i {
        SameGroupGrows(p, x, groups[i].counts);
      } else {
        assert Keys(groups)[j] != Keys(groups)[i];
        OtherGroupUnchanged(p, x, groups[j].key, groups[j].counts);
      }
    }
  }

  lemma AccumulateNew(groups: seq<Group>, p: seq<Obj>, x: Obj)
    requires GroupsOf(groups, p)
    requires IndexOf(Keys(groups), GroupKey(x)) == None
    ensures forall j :: 0 <= j < |groups| + 1 ==>
      Accumulate(groups, x)[j].counts == CountsOf(Filter(p + [x], KeyIs(Accumulate(groups, x)[j].key)))
  {
    var k := GroupKey(x);
    var g := Accumulate(groups, x);
    assert g == groups + [Group(k, AddRow(Zero, x))];
    DistinctFacts(RowKeys(p));
    assert k !in RowKeys(p);
    forall j | 0 <= j < |g|
      ensures g[j].counts == CountsOf(Filter(p + [x], KeyIs(g[j].key)))
    {
      if j == |groups| {
        NoRowsOfNewKey(p, k);
        SameGroupGrows(p, x, Zero);
      } else {
        assert g[j] == groups[j] && Keys(groups)[j] == groups[j].key;
        OtherGroupUnchanged(p, x, groups[j].key, groups[j].counts);
      }
    }
  }

  lemma DistinctSnoc(keys: seq<string>, k: string)
    ensures Distinct(keys + [k]) == if k in Distinct(keys) then Distinct(keys) else Distinct(keys) + [k]
  {
    assert (keys + [k])[..|keys|] == keys;
  }

  /** One step adds the row's type to the keys when it is new, and leaves them otherwise. */
  lemma KeysAccumulate(groups: seq<Group>, x: Obj)
    ensures var k := GroupKey(x);
      Keys(Accumulate(groups, x)) == if k in Keys(groups) then Keys(groups) else Keys(groups) + [k]
  {
    var k := GroupKey(x);
    var g := Accumulate(groups, x);
    match IndexOf(Keys(groups), k)
    case Some(i) =>
      KeysUpdate(groups, i, Group(k, AddRow(groups[i].counts, x)));
    case None =>
      KeysAppend(groups, Group(k, AddRow(Zero, x)));
  }

  lemma KeysUpdate(groups: seq<Group>, i: nat, g: Group)
    requires i < |groups| && g.key == groups[i].key
    ensures Keys(groups[i := g]) == Keys(groups)
  {
  }

  lemma KeysAppend(groups: seq<Group>, g: Group)
    ensures Keys(groups + [g]) == Keys(groups) + [g.key]
  {
  }

  /** One step keeps the group keys equal to the distinct row types. */
  lemma AccumulateKeys(groups: seq<Group>, p: seq<Obj>, x: Obj)
    requires Keys(groups) == Distinct(RowKeys(p))
    ensures Keys(Accumulate(groups, x)) == Distinct(RowKeys(p + [x]))
  {
    RowKeysSnoc(p, x);
    DistinctSnoc(RowKeys(p), GroupKey(x));
    KeysAccumulate(groups, x);
  }

  lemma AccumulateStep(groups: seq<Group>, p: seq<Obj>, x: Obj)
    requires GroupsOf(groups, p)
    ensures GroupsOf(Accumulate(groups, x), p + [x])
  {
    AccumulateKeys(groups, p, x);
    match IndexOf(Keys(groups), GroupKey(x))
    case Some(i) =>
      AccumulateExisting(groups, p, x, i);
    case None =>
      AccumulateNew(groups, p, x);
  }

  /** The `reduce` builds exactly the reference grouping. */
  lemma {:induction false} GroupedIsReference(rows: seq<Obj>)
    ensures GroupsOf(Grouped(rows), rows)
    decreases |rows|, 1
  {
    if |rows| > 0 {
      var p, x := rows[..|rows| - 1], rows[|rows| - 1];
      assert rows == p + [x];
      GroupedSnocIsReference(p, x);
    }
  }

  lemma {:induction false} GroupedSnocIsReference(p: seq<Obj>, x: Obj)
    ensures GroupsOf(Grouped(p + [x]), p + [x])
    decreases |p| + 1, 0
  {
    GroupedIsReference(p);
    assert (p + [x])[..|p|] == p;
    assert Grouped(p + [x]) == Accumulate(Grouped(p), x);
    AccumulateStep(Grouped(p), p, x);
  }

  /** Every type present has exactly one group, and every group is a type present. */
  lemma GroupKeysAreRowTypes(rows: seq<Obj>)
    ensures forall i, j :: 0 <= i < j < |Grouped(rows)| ==> Grouped(rows)[i].key != Grouped(rows)[j].key
    ensures forall r :: r in rows ==> GroupKey(r) in Keys(Grouped(rows))
    ensures forall k :: k in Keys(Grouped(rows)) ==> k in RowKeys(rows)
    ensures |Grouped(rows)| == 0 <==> |rows| == 0
  {
    GroupedIsReference(rows);
    DistinctFacts(RowKeys(rows));
    var g := Grouped(rows);
    forall i, j | 0 <= i < j < |g|
      ensures g[i].key != g[j].key
    {
      assert Keys(g)[i] == g[i].key && Keys(g)[j] == g[j].key;
    }
    forall r | r in rows
      ensures GroupKey(r) in Keys(g)
    {
      var i :| 0 <= i < |rows| && rows[i] == r;
      assert RowKeys(rows)[i] == GroupKey(r);
    }
  }

  /** Each group's five counters are the sums of that type's rows, with missing fields counting as 0. */
  lemma GroupCountsAreSums(rows: seq<Obj>, i: nat)
    requires i < |Grouped(rows)|
    ensures var g := Grouped(rows)[i]; var mine := Filter(rows, KeyIs(g.key));
      g.counts == Counts(Sum(mine, "Good"), Sum(mine, "Average"), Sum(mine, "Weak"),
                         Sum(mine, "Below75"), Sum(mine, "Total"))
  {
    GroupedIsReference(rows);
    CountsAreSums(Filter(rows, KeyIs(Grouped(rows)[i].key)));
  }

  // ---------------------------------------------------------------- rendering

  /** One type's section: every inserted text passes through `escapeHtml`. */
  datatype Section = Section(title: string, good: string, average: string, weak: string, below75: string, total: string)

  /** The popup's report: the "Không có dữ liệu" placeholder, or the sections in group order. */
  datatype Table = NoData | Sections(sections: seq<Section>)

  function RenderSection(g: Group): (s: Section)
    ensures Html.Unescape(s.title) == g.key
    ensures Html.SafeText(s.title)
  {
    Section(Html.EscapeHtml(Str(g.key)),
            Html.EscapeHtml(Str(ToStr(g.counts.good))), Html.EscapeHtml(Str(ToStr(g.counts.average))),
            Html.EscapeHtml(Str(ToStr(g.counts.weak))), Html.EscapeHtml(Str(ToStr(g.counts.below75))),
            Html.EscapeHtml(Str(ToStr(g.counts.total))))
  }

  /** `renderBatteryTable(name, rows)`: the sections joined, or the placeholder when there are none. */
  function RenderTable(rows: seq<Obj>): (t: Table)
    ensures t.Sections? ==> |t.sections| == |Grouped(rows)|
    ensures t.Sections? ==> forall i :: 0 <= i < |t.sections| ==> Html.Unescape(t.sections[i].title) == Grouped(rows)[i].key
  {
    var groups := Grouped(rows);
    if |groups| == 0 then NoData
    else Sections(seq(|groups|, i requires 0 <= i < |groups| => RenderSection(groups[i])))
  }

  /** The placeholder appears exactly for an empty row list. */
  lemma NoDataIffEmpty(rows: seq<Obj>)
    ensures RenderTable(rows).NoData? <==> |rows| == 0
  {
    GroupKeysAreRowTypes(rows);
  }
}
