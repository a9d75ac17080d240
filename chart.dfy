/**
  The data shaping behind `VisualizationChart`: a pie chart counts the rows
  per x-value; the other charts plot one point per row, with the y-value read
  by `parseFloat` and `0` for anything that does not parse. Pie slices take
  their colours from a fixed palette, cyclically.
 */
module Chart {
  import opened Common
  import opened JsNumber
  import opened DataModel

  datatype ChartType = Bar | Line | Pie | Scatter

  /**
    `String(v)`. `numText` is the engine's conversion of a number to its
    shortest round-tripping decimal text, which this model takes as given.
   */
  function CellText(v: Value, numText: real -> string): string
  {
    match v
    case Str(s) => s
    case Bool(b) => if b then "true" else "false"
    case Num(x) => numText(x)
    case NaN => "NaN"
    case Null => "null"
    case Undefined => "undefined"
  }

  /** `String(item[xAxisKey] || 'Unknown')`: the slice a row is counted under. */
  function SliceKey(row: Row, xKey: string, numText: real -> string): string
  {
    var v := Lookup(row, xKey);
    if Truthy(v) then CellText(v, numText) else "Unknown"
  }

  /** A falsy x-value (a missing key, `null`, `NaN`, `0`, `false`, `''`) lands in the `Unknown` slice. */
  lemma FalsyIsUnknown(row: Row, xKey: string, numText: real -> string)
    requires !Truthy(Lookup(row, xKey))
    ensures SliceKey(row, xKey, numText) == "Unknown"
  {
  }

  /** A non-empty text x-value is its own slice name, so the text `Unknown` shares that slice. */
  lemma TextIsOwnSlice(row: Row, xKey: string, numText: real -> string)
    requires Lookup(row, xKey).Str? && Lookup(row, xKey).s != []
    ensures SliceKey(row, xKey, numText) == Lookup(row, xKey).s
  {
  }

  /** The number of rows of `data` whose slice is `k`. */
  function CountKey(data: seq<Row>, xKey: string, numText: real -> string, k: string): (n: nat)
    ensures n <= |data|
  {
    if data == [] then 0
    else
      CountKey(data[..|data| - 1], xKey, numText, k)
      + (if SliceKey(data[|data| - 1], xKey, numText) == k then 1 else 0)
  }

  lemma CountKeySnoc(data: seq<Row>, i: nat, xKey: string, numText: real -> string)
    requires i < |data|
    ensures forall k :: CountKey(data[..i + 1], xKey, numText, k) ==
                        CountKey(data[..i], xKey, numText, k) + (if SliceKey(data[i], xKey, numText) == k then 1 else 0)
  {
    assert data[..i + 1][..i] == data[..i];
  }

  /** A slice is counted at least once exactly when some row falls in it. */
  lemma {:induction false} CountKeyPositive(data: seq<Row>, xKey: string, numText: real -> string, k: string)
    ensures CountKey(data, xKey, numText, k) >= 1 <==>
            exists r :: 0 <= r < |data| && SliceKey(data[r], xKey, numText) == k
  {
    if data != [] {
      var init := data[..|data| - 1];
      CountKeyPositive(init, xKey, numText, k);
      assert forall r :: 0 <= r < |init| ==> init[r] == data[r];
    }
  }

  /** One pie slice: `{ name, value }` from `Object.entries`. */
  datatype PieEntry = PieEntry(name: string, value: nat)

  function Total(entries: seq<PieEntry>): nat
  {
    if entries == [] then 0 else Total(entries[..|entries| - 1]) + entries[|entries| - 1].value
  }

  /**
    What the pie aggregation yields, in any order: one slice per distinct
    slice name, each carrying the number of rows in it, and a slice for every
    row.
   */
  ghost predicate IsPieAggregation(entries: seq<PieEntry>, data: seq<Row>, xKey: string, numText: real -> string)
  {
    (forall i, j :: 0 <= i < j < |entries| ==> entries[i].name != entries[j].name) &&
    (forall i :: 0 <= i < |entries| ==> entries[i].value == CountKey(data, xKey, numText, entries[i].name)) &&
    (forall i :: 0 <= i < |entries| ==> entries[i].value >= 1) &&
    (forall r :: 0 <= r < |data| ==> exists i :: 0 <= i < |entries| && entries[i].name == SliceKey(data[r], xKey, numText))
  }

  /** The counts of the keys `keys`, added up. */
  function SumCounts(data: seq<Row>, xKey: string, numText: real -> string, keys: seq<string>): nat
  {
    if keys == [] then 0
    else SumCounts(data, xKey, numText, keys[..|keys| - 1]) + CountKey(data, xKey, numText, keys[|keys| - 1])
  }

  /** One more row adds one to the summed counts of distinct keys that include its slice, and nothing otherwise. */
  lemma {:induction false} SumCountsSnoc(data: seq<Row>, row: Row, xKey: string, numText: real -> string, keys: seq<string>)
    requires forall i, j :: 0 <= i < j < |keys| ==> keys[i] != keys[j]
    ensures SumCounts(data + [row], xKey, numText, keys) ==
            SumCounts(data, xKey, numText, keys) + (if SliceKey(row, xKey, numText) in keys then 1 else 0)
  {
    var more := data + [row];
    assert more[..|more| - 1] == data;
    if keys != [] {
      var init := keys[..|keys| - 1];
      SumCountsSnoc(data, row, xKey, numText, init);
      assert forall k :: k in keys <==> k in init || k == keys[|keys| - 1];
      assert keys[|keys| - 1] !in init;
    }
  }

  /** Distinct keys that cover every row's slice have counts adding up to the number of rows. */
  lemma {:induction false} SumCountsCovering(data: seq<Row>, xKey: string, numText: real -> string, keys: seq<string>)
    requires forall i, j :: 0 <= i < j < |keys| ==> keys[i] != keys[j]
    requires forall r :: 0 <= r < |data| ==> SliceKey(data[r], xKey, numText) in keys
    ensures SumCounts(data, xKey, numText, keys) == |data|
  {
    if data == [] {
      SumCountsEmpty(xKey, numText, keys);
    } else {
      var init := data[..|data| - 1];
      SumCountsCovering(init, xKey, numText, keys);
      assert init + [data[|data| - 1]] == data;
      SumCountsSnoc(init, data[|data| - 1], xKey, numText, keys);
    }
  }

  lemma {:induction false} SumCountsEmpty(xKey: string, numText: real -> string, keys: seq<string>)
    ensures SumCounts([], xKey, numText, keys) == 0
  {
    if keys != [] {
      SumCountsEmpty(xKey, numText, keys[..|keys| - 1]);
    }
  }

  function SliceNames(entries: seq<PieEntry>): (r: seq<string>)
    ensures |r| == |entries|
    ensures forall i :: 0 <= i < |entries| ==> r[i] == entries[i].name
  {
    Map(entries, (e: PieEntry) => e.name)
  }

  lemma {:induction false} TotalIsSumCounts(entries: seq<PieEntry>, data: seq<Row>, xKey: string, numText: real -> string)
    requires forall i :: 0 <= i < |entries| ==> entries[i].value == CountKey(data, xKey, numText, entries[i].name)
    ensures Total(entries) == SumCounts(data, xKey, numText, SliceNames(entries))
  {
    if entries != [] {
      var init := entries[..|entries| - 1];
      TotalIsSumCounts(init, data, xKey, numText);
      assert SliceNames(entries)[..|entries| - 1] == SliceNames(init);
    }
  }

  /** The slice counts of a pie aggregation add up to the number of rows. */
  lemma PieTotal(entries: seq<PieEntry>, data: seq<Row>, xKey: string, numText: real -> string)
    requires IsPieAggregation(entries, data, xKey, numText)
    ensures Total(entries) == |data|
  {
    var names := SliceNames(entries);
    TotalIsSumCounts(entries, data, xKey, numText);
    forall r | 0 <= r < |data| ensures SliceKey(data[r], xKey, numText) in names {
      var i :| 0 <= i < |entries| && entries[i].name == SliceKey(data[r], xKey, numText);
      assert names[i] == entries[i].name;
    }
    SumCountsCovering(data, xKey, numText, names);
  }

  /** Two pie aggregations of the same rows have the same slices with the same counts: only the order may differ. */
  lemma PieAggregationUnique(e1: seq<PieEntry>, e2: seq<PieEntry>, data: seq<Row>, xKey: string, numText: real -> string)
    requires IsPieAggregation(e1, data, xKey, numText)
    requires IsPieAggregation(e2, data, xKey, numText)
    ensures |e1| == |e2|
    ensures forall e :: e in e1 <==> e in e2
  {
    forall e | e in e1 ensures e in e2 {
      SliceInOther(e, e1, e2, data, xKey, numText);
    }
    forall e | e in e2 ensures e in e1 {
      SliceInOther(e, e2, e1, data, xKey, numText);
    }
    DistinctSameSet(e1, e2);
  }

  lemma SliceInOther(e: PieEntry, e1: seq<PieEntry>, e2: seq<PieEntry>, data: seq<Row>, xKey: string, numText: real -> string)
    requires IsPieAggregation(e1, data, xKey, numText)
    requires IsPieAggregation(e2, data, xKey, numText)
    requires e in e1
    ensures e in e2
  {
    var i :| 0 <= i < |e1| && e1[i] == e;
    CountKeyPositive(data, xKey, numText, e.name);
    var r :| 0 <= r < |data| && SliceKey(data[r], xKey, numText) == e.name;
    var j :| 0 <= j < |e2| && e2[j].name == e.name;
    assert e2[j] == e;
  }

  /** Sequences without repeated elements that hold the same elements have the same length. */
  lemma DistinctSameSet(a: seq<PieEntry>, b: seq<PieEntry>)
    requires forall i, j :: 0 <= i < j < |a| ==> a[i].name != a[j].name
    requires forall i, j :: 0 <= i < j < |b| ==> b[i].name != b[j].name
    requires forall e :: e in a <==> e in b
    ensures |a| == |b|
  {
    DistinctCardinality(a);
    DistinctCardinality(b);
    assert (set e | e in a) == (set e | e in b);
  }

  lemma {:induction false} DistinctCardinality(a: seq<PieEntry>)
    requires forall i, j :: 0 <= i < j < |a| ==> a[i].name != a[j].name
    ensures |set e | e in a| == |a|
  {
    if a != [] {
      var init := a[..|a| - 1];
      DistinctCardinality(init);
      assert (set e | e in a) == (set e | e in init) + {a[|a| - 1]};
      assert a[|a| - 1] !in init;
    }
  }

  /**
    The dictionary after the rows `seen`: `keys` lists its keys once each, in
    insertion order, and every key holds the count of its slice in `seen`.
   */
  ghost predicate Tally(counts: map<string, nat>, keys: seq<string>, seen: seq<Row>, xKey: string, numText: real -> string)
  {
    (forall a, b :: 0 <= a < b < |keys| ==> keys[a] != keys[b]) &&
    (forall k :: k in counts <==> k in keys) &&
    (forall k :: k in counts ==> counts[k] == CountKey(seen, xKey, numText, k) && counts[k] >= 1) &&
    (forall r :: 0 <= r < |seen| ==> SliceKey(seen[r], xKey, numText) in counts)
  }

  /** One step of the `forEach` loop on a slice already in the dictionary keeps it a tally. */
  lemma TallyCounted(counts: map<string, nat>, keys: seq<string>, data: seq<Row>, i: nat, xKey: string, numText: real -> string,
                     key: string)
    requires i < |data| && Tally(counts, keys, data[..i], xKey, numText)
    requires key == SliceKey(data[i], xKey, numText) && key in counts
    ensures Tally(counts[key := counts[key] + 1], keys, data[..i + 1], xKey, numText)
  {
    CountKeySnoc(data, i, xKey, numText);
    var c := counts[key := counts[key] + 1];
    var seen := data[..i + 1];
    assert forall k :: k in c ==> c[k] == CountKey(seen, xKey, numText, k) && c[k] >= 1;
    forall r | 0 <= r < |seen| ensures SliceKey(seen[r], xKey, numText) in c {
      if r < i {
        assert seen[r] == data[..i][r];
      }
    }
  }

  /** One step of the `forEach` loop on a new slice keeps the dictionary a tally. */
  lemma TallyAdded(counts: map<string, nat>, keys: seq<string>, data: seq<Row>, i: nat, xKey: string, numText: real -> string,
                   key: string)
    requires i < |data| && Tally(counts, keys, data[..i], xKey, numText)
    requires key == SliceKey(data[i], xKey, numText) && key !in counts
    ensures Tally(counts[key := 1], keys + [key], data[..i + 1], xKey, numText)
  {
    CountKeySnoc(data, i, xKey, numText);
    CountKeyPositive(data[..i], xKey, numText, key);
    var seen := data[..i + 1];
    forall r | 0 <= r < |seen| ensures SliceKey(seen[r], xKey, numText) in counts[key := 1] {
      if r < i {
        assert seen[r] == data[..i][r];
      }
    }
    var more := keys + [key];
    assert forall k :: k in more <==> k in keys || k == key;
    assert forall a :: 0 <= a < |keys| ==> more[a] == keys[a] && keys[a] in counts;
  }

  /** Listing the entries of a tally of all rows yields a pie aggregation. */
  lemma TallyEntries(counts: map<string, nat>, keys: seq<string>, data: seq<Row>, xKey: string, numText: real -> string,
                     entries: seq<PieEntry>)
    requires Tally(counts, keys, data, xKey, numText)
    requires |entries| == |keys|
    requires forall n :: 0 <= n < |keys| ==> entries[n] == PieEntry(keys[n], counts[keys[n]])
    ensures IsPieAggregation(entries, data, xKey, numText)
  {
    forall r | 0 <= r < |data|
      ensures exists n :: 0 <= n < |entries| && entries[n].name == SliceKey(data[r], xKey, numText)
    {
      var key := SliceKey(data[r], xKey, numText);
      var n :| 0 <= n < |keys| && keys[n] == key;
      assert entries[n].name == key;
    }
  }

  /**
    The pie branch of `processedData`: count the rows per slice name in a
    dictionary, then list its entries. The dictionary is a `map` with no
    inherited keys, which is what the code means (see `AggregateAsWritten`).
   */
  method AggregatePie(data: seq<Row>, xKey: string, numText: real -> string) returns (entries: seq<PieEntry>)
    ensures IsPieAggregation(entries, data, xKey, numText)
    ensures Total(entries) == |data|
  {
    var counts: map<string, nat> := map[];
    var keys: seq<string> := [];
    for i := 0 to |data|
      invariant Tally(counts, keys, data[..i], xKey, numText)
    {
      var key := SliceKey(data[i], xKey, numText);
      if key in counts {
        TallyCounted(counts, keys, data, i, xKey, numText, key);
        counts := counts[key := counts[key] + 1];
      } else {
        TallyAdded(counts, keys, data, i, xKey, numText, key);
        counts := counts[key := 1];
        keys := keys + [key];
      }
    }
    assert data[..|data|] == data;
    entries := seq(|keys|, n requires 0 <= n < |keys| => PieEntry(keys[n], counts[keys[n]]));
    TallyEntries(counts, keys, data, xKey, numText, entries);
    PieTotal(entries, data, xKey, numText);
  }

  /** `parseFloat(v) || 0`: `NaN` becomes `0`. */
  function PlotNumber(v: Value): (y: real)
    ensures ParseFloat(v).None? ==> y == 0.0
    ensures ParseFloat(v).Some? ==> y == ParseFloat(v).value
  {
    match ParseFloat(v)
    case Some(x) => x
    case None => 0.0
  }

  /**
    One point of a cartesian chart: the object literal with keys `xAxisKey`,
    `yAxisKey`, `name` and `value`, where a later key overrides an earlier
    equal one.
   */
  function Point(row: Row, xKey: string, yKey: string): (p: Row)
    ensures p.Keys == {xKey, yKey, "name", "value"}
    ensures p["name"] == Lookup(row, xKey)
    ensures p["value"] == Num(PlotNumber(Lookup(row, yKey)))
    ensures xKey != yKey && xKey != "value" ==> p[xKey] == Lookup(row, xKey)
    ensures yKey != "name" ==> p[yKey] == Num(PlotNumber(Lookup(row, yKey)))
  {
    var x := Lookup(row, xKey);
    var y := Num(PlotNumber(Lookup(row, yKey)));
    map[][xKey := x][yKey := y]["name" := x]["value" := y]
  }

  /** The cartesian branch: one point per row, in the rows' order, named by the row's x-value. */
  function Points(data: seq<Row>, xKey: string, yKey: string): (r: seq<Row>)
    ensures |r| == |data|
    ensures forall i :: 0 <= i < |data| ==> r[i] == Point(data[i], xKey, yKey)
    ensures forall i :: 0 <= i < |data| ==> "name" in r[i] && r[i]["name"] == Lookup(data[i], xKey)
  {
    Map(data, (row: Row) => Point(row, xKey, yKey))
  }

  /** A pie slice as the chart receives it. */
  function SliceRow(e: PieEntry): (p: Row)
    ensures p.Keys == {"name", "value"}
    ensures p["name"] == Str(e.name) && p["value"] == Num(e.value as real)
  {
    map["name" := Str(e.name), "value" := Num(e.value as real)]
  }

  /** `processedData`: nothing without an x-axis, the slices of a pie chart, or one point per row. */
  method ProcessedData(data: seq<Row>, chartType: ChartType, xKey: string, yKey: string, numText: real -> string)
    returns (r: seq<Row>)
    ensures xKey == "" ==> r == []
    ensures xKey != "" && chartType != Pie ==> r == Points(data, xKey, yKey)
    ensures xKey != "" && chartType == Pie ==>
      exists entries :: IsPieAggregation(entries, data, xKey, numText) && r == Map(entries, SliceRow)
  {
    if xKey == "" {
      r := [];
    } else if chartType == Pie {
      var entries := AggregatePie(data, xKey, numText);
      r := Map(entries, SliceRow);
    } else {
      r := Points(data, xKey, yKey);
    }
  }

  /** A y-value `parseFloat` cannot read (a boolean, `null`, a missing key, text without a leading number) is plotted as 0. */
  lemma UnparsedIsZero(row: Row, xKey: string, yKey: string)
    requires ParseFloat(Lookup(row, yKey)).None?
    ensures Point(row, xKey, yKey)["value"] == Num(0.0)
  {
  }

  /** The pie palette. */
  const Colors: seq<string> := [
    "#8884d8", "#82ca9d", "#ffc658", "#ff8042", "#0088FE", "#00C49F",
    "#FFBB28", "#FF8042", "#8B5CF6", "#D946EF", "#F97316"
  ]

  /** `COLORS[index % COLORS.length]`: the fill of the slice at `index`. */
  function SliceColor(index: nat): (c: string)
    ensures c in Colors
    ensures index < |Colors| ==> c == Colors[index]
  {
    Colors[index % |Colors|]
  }

  /** The colours repeat with period eleven. */
  lemma {:induction false} ColorsCycle(index: nat)
    ensures |Colors| == 11
    ensures SliceColor(index + 11) == SliceColor(index)
  {
    assert (index + 11) % 11 == index % 11;
  }

  // The code as written: `aggregatedData` is a plain object literal, so it
  // inherits the members of `Object.prototype`.

  /** An own property of `aggregatedData`: a count, or the text `+ 1` makes of an inherited function. */
  datatype Prop = Count(n: nat) | Text(s: string)

  /** The names every plain object inherits from `Object.prototype` (ECMAScript section 20.1.3 and annex B.2.2). */
  const InheritedNames: set<string> := {
    "constructor", "hasOwnProperty", "isPrototypeOf", "propertyIsEnumerable",
    "toLocaleString", "toString", "valueOf", "__defineGetter__", "__defineSetter__",
    "__lookupGetter__", "__lookupSetter__", "__proto__"
  }

  /** The source text of the inherited function `key`, as `Function.prototype.toString` renders a built-in. */
  function NativeText(key: string): string
  {
    "function " + (if key == "constructor" then "Object" else key) + "() { [native code] }"
  }

  /**
    `aggregatedData[key] = (aggregatedData[key] || 0) + 1` on a plain object
    whose own properties are `own`. An inherited function is truthy and `+ 1`
    concatenates its text; assigning a string to `__proto__` is ignored.
   */
  function StoreAsWritten(own: map<string, Prop>, key: string): (r: map<string, Prop>)
    ensures key !in InheritedNames ==> key in r
  {
    if key in own then
      own[key := match own[key] case Count(n) => Count(n + 1) case Text(s) => Text(s + "1")]
    else if key == "__proto__" then own
    else if key in InheritedNames then own[key := Text(NativeText(key) + "1")]
    else own[key := Count(1)]
  }

  /** The own properties of `aggregatedData` after the `forEach` loop, as the code is written. */
  function AggregateAsWritten(data: seq<Row>, xKey: string, numText: real -> string): map<string, Prop>
  {
    if data == [] then map[]
    else StoreAsWritten(AggregateAsWritten(data[..|data| - 1], xKey, numText), SliceKey(data[|data| - 1], xKey, numText))
  }

  /** Away from the inherited names, the code as written counts exactly like `AggregatePie`. */
  lemma {:induction false} AsWrittenCountsOrdinaryKeys(data: seq<Row>, xKey: string, numText: real -> string)
    requires forall r :: 0 <= r < |data| ==> SliceKey(data[r], xKey, numText) !in InheritedNames
    ensures forall k :: k in AggregateAsWritten(data, xKey, numText) <==> CountKey(data, xKey, numText, k) >= 1
    ensures forall k :: k in AggregateAsWritten(data, xKey, numText) ==>
      AggregateAsWritten(data, xKey, numText)[k] == Count(CountKey(data, xKey, numText, k))
  {
    if data != [] {
      var init := data[..|data| - 1];
      assert forall r :: 0 <= r < |init| ==> init[r] == data[r];
      AsWrittenCountsOrdinaryKeys(init, xKey, numText);
    }
  }

  /** A row whose x-value is the text `__proto__` is lost: no slice, though one row was counted. */
  lemma ProtoRowIsLost(numText: real -> string)
    ensures var data := [map["category" := Str("__proto__")]];
      AggregateAsWritten(data, "category", numText) == map[] &&
      CountKey(data, "category", numText, "__proto__") == 1
  {
    var data := [map["category" := Str("__proto__")]];
    assert data[..0] == [];
    assert SliceKey(data[0], "category", numText) == "__proto__";
  }

  /** A row whose x-value is the text `constructor` gets a slice whose value is text, not a count. */
  lemma ConstructorRowIsText(numText: real -> string)
    ensures var data := [map["category" := Str("constructor")]];
      AggregateAsWritten(data, "category", numText) ==
        map["constructor" := Text("function Object() { [native code] }1")]
  {
    var data := [map["category" := Str("constructor")]];
    assert data[..0] == [];
    assert SliceKey(data[0], "category", numText) == "constructor";
    var own := AggregateAsWritten(data[..0], "category", numText);
    assert own == map[];
    assert "constructor" !in own && "constructor" in InheritedNames;
    assert NativeText("constructor") + "1" == "function Object() { [native code] }1";
  }
}
