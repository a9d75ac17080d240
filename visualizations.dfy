/**
  The Visualizations page: which columns it offers for each axis, when it
  draws a chart, and how choosing a chart type or a dataset resets the axes.
 */
module Visualizations {
  import opened Common
  import opened DataModel
  import opened DatasetStore
  import opened Chart

  /**
    `getColumnOptions(type)`: the names of the current dataset's columns of
    that type, one per column and in schema order.
   */
  function ColumnOptions(current: Option<Dataset>, kind: Option<ColumnType>): (r: seq<string>)
    ensures current.None? ==> r == []
    ensures current.Some? ==> forall n :: n in r <==>
      exists c :: c in current.value.columns && c.name == n && Admits(kind, c)
    ensures current.Some? && kind.None? ==> r == Names(current.value.columns)
  {
    match current
    case None => []
    case Some(d) => ColumnNames(d.columns, kind)
  }

  /** The options keep the schema's order, one name per admitted column. */
  lemma ColumnOptionsOrder(current: Option<Dataset>, kind: Option<ColumnType>)
    ensures current.Some? ==> exists idx :: (IsPositions(idx, current.value.columns, AdmitsKind(kind)) &&
      |idx| == |ColumnOptions(current, kind)| &&
      forall k :: 0 <= k < |idx| ==> ColumnOptions(current, kind)[k] == current.value.columns[idx[k]].name)
  {
    if current.Some? {
      ColumnNamesOrder(current.value.columns, kind);
    }
  }

  function NumericOptions(current: Option<Dataset>): seq<string>
  {
    ColumnOptions(current, Some(NumberType))
  }

  /** The string columns followed by the boolean columns. */
  function CategoricalOptions(current: Option<Dataset>): seq<string>
  {
    ColumnOptions(current, Some(StringType)) + ColumnOptions(current, Some(BooleanType))
  }

  function DateOptions(current: Option<Dataset>): seq<string>
  {
    ColumnOptions(current, Some(DateType))
  }

  /** The column types the x-axis of a chart admits; a line chart prefers dates when there are any. */
  function XKinds(chartType: ChartType, current: Option<Dataset>): set<ColumnType>
  {
    match chartType
    case Bar => {StringType, BooleanType}
    case Pie => {StringType, BooleanType}
    case Line => if DateOptions(current) != [] then {DateType} else {StringType, BooleanType}
    case Scatter => {NumberType}
  }

  /** The x-axis choices offered for a chart type. */
  function XCandidates(chartType: ChartType, current: Option<Dataset>): seq<string>
  {
    if chartType == Bar || chartType == Pie then CategoricalOptions(current)
    else if chartType == Line then
      if DateOptions(current) != [] then DateOptions(current) else CategoricalOptions(current)
    else NumericOptions(current)
  }

  /** The x-axis offers exactly the current dataset's columns whose type suits the chart. */
  lemma XCandidatesMeaning(chartType: ChartType, current: Option<Dataset>)
    ensures current.None? ==> XCandidates(chartType, current) == []
    ensures current.Some? ==> forall n :: n in XCandidates(chartType, current) <==>
      exists c :: c in current.value.columns && c.name == n && c.kind in XKinds(chartType, current)
  {
    if current.Some? {
      if chartType == Bar || chartType == Pie || (chartType == Line && DateOptions(current) == []) {
        CategoricalMembership(chartType, current);
      } else {
        SingleKindMembership(chartType, current);
      }
    }
  }

  /**
    The order of the x-axis choices: for the categorical charts the string
    columns in schema order followed by the boolean columns in schema order;
    for a line chart the date columns when there are any; for a scatter chart
    the number columns.
   */
  lemma XCandidatesOrder(chartType: ChartType, current: Option<Dataset>)
    ensures chartType == Bar || chartType == Pie || (chartType == Line && DateOptions(current) == []) ==>
      XCandidates(chartType, current) ==
        ColumnOptions(current, Some(StringType)) + ColumnOptions(current, Some(BooleanType))
    ensures chartType == Line && DateOptions(current) != [] ==>
      XCandidates(chartType, current) == ColumnOptions(current, Some(DateType))
    ensures chartType == Scatter ==>
      XCandidates(chartType, current) == ColumnOptions(current, Some(NumberType))
  {
  }

  lemma SingleKindMembership(chartType: ChartType, current: Option<Dataset>)
    requires current.Some?
    requires chartType == Scatter || (chartType == Line && DateOptions(current) != [])
    ensures forall n :: n in XCandidates(chartType, current) <==>
      exists c :: c in current.value.columns && c.name == n && c.kind in XKinds(chartType, current)
  {
    var kind := if chartType == Scatter then NumberType else DateType;
    OptionsMembership(current, kind, XCandidates(chartType, current), XKinds(chartType, current));
  }

  /** `xs`, the options of one column type, holds exactly the names of the columns of a type in `kinds`. */
  lemma OptionsMembership(current: Option<Dataset>, kind: ColumnType, xs: seq<string>, kinds: set<ColumnType>)
    requires current.Some?
    requires xs == ColumnOptions(current, Some(kind)) && kinds == {kind}
    ensures forall n :: n in xs <==> exists c :: c in current.value.columns && c.name == n && c.kind in kinds
  {
    forall n ensures n in xs <==> exists c :: c in current.value.columns && c.name == n && c.kind in kinds
    {
      assert forall c :: Admits(Some(kind), c) <==> c.kind in kinds;
    }
  }

  lemma CategoricalMembership(chartType: ChartType, current: Option<Dataset>)
    requires current.Some?
    requires chartType == Bar || chartType == Pie || (chartType == Line && DateOptions(current) == [])
    ensures forall n :: n in XCandidates(chartType, current) <==>
      exists c :: c in current.value.columns && c.name == n && c.kind in XKinds(chartType, current)
  {
    CategoricalOptionsMembership(current, XCandidates(chartType, current), XKinds(chartType, current));
  }

  /** `xs`, the categorical options, holds exactly the names of the columns of a type in `kinds`. */
  lemma CategoricalOptionsMembership(current: Option<Dataset>, xs: seq<string>, kinds: set<ColumnType>)
    requires current.Some?
    requires xs == CategoricalOptions(current) && kinds == {StringType, BooleanType}
    ensures forall n :: n in xs <==> exists c :: c in current.value.columns && c.name == n && c.kind in kinds
  {
    forall n ensures n in xs <==> exists c :: c in current.value.columns && c.name == n && c.kind in kinds
    {
      var s := ColumnOptions(current, Some(StringType));
      var b := ColumnOptions(current, Some(BooleanType));
      assert n in s + b <==> n in s || n in b;
    }
  }

  /** The y-axis choices: the numeric columns, offered for every chart type but pie. */
  function YCandidates(chartType: ChartType, current: Option<Dataset>): (r: seq<string>)
    ensures chartType == Pie ==> r == []
    ensures chartType != Pie && current.Some? ==> forall n :: n in r <==>
      exists c :: c in current.value.columns && c.name == n && c.kind == NumberType
  {
    if chartType == Pie then [] else NumericOptions(current)
  }

  /** `xAxis && (chartType === 'pie' || yAxis)`: the axes the chart needs are chosen. */
  predicate RendersChart(chartType: ChartType, xAxis: string, yAxis: string)
  {
    xAxis != "" && (chartType == Pie || yAxis != "")
  }

  /** `!xAxis || (!yAxis && chartType !== 'pie')`: the "Select columns" hint shows exactly when no chart is drawn. */
  lemma HintIffNoChart(chartType: ChartType, xAxis: string, yAxis: string)
    ensures (xAxis == "" || (yAxis == "" && chartType != Pie)) <==> !RendersChart(chartType, xAxis, yAxis)
  {
  }

  class VisualizationsPage {
    var chartType: ChartType
    var xAxis: string
    var yAxis: string

    /** The initial state: a bar chart with no axes chosen. */
    constructor ()
      ensures chartType == Bar && xAxis == "" && yAxis == ""
    {
      chartType := Bar;
      xAxis := "";
      yAxis := "";
    }

    /** `handleChartTypeChange`: a new chart type clears both axes. */
    method HandleChartTypeChange(value: ChartType)
      modifies this
      ensures chartType == value && xAxis == "" && yAxis == ""
      ensures !RendersChart(chartType, xAxis, yAxis)
    {
      chartType := value;
      xAxis := "";
      yAxis := "";
    }

    /** `handleDatasetChange`: select the dataset in the store and clear both axes. */
    method HandleDatasetChange(store: Store, id: string)
      requires store.Valid()
      modifies this, store
      ensures store.Valid()
      ensures store.datasets == old(store.datasets)
      ensures FindById(store.datasets, id).Some? ==> store.currentDataset == FindById(store.datasets, id)
      ensures FindById(store.datasets, id).None? ==> store.currentDataset == old(store.currentDataset)
      ensures chartType == old(chartType) && xAxis == "" && yAxis == ""
      ensures !RendersChart(chartType, xAxis, yAxis)
    {
      store.SetCurrentDataset(id);
      xAxis := "";
      yAxis := "";
    }

    method SetXAxis(value: string)
      modifies this`xAxis
      ensures xAxis == value
    {
      xAxis := value;
    }

    method SetYAxis(value: string)
      modifies this`yAxis
      ensures yAxis == value
    {
      yAxis := value;
    }

    /**
      What the chart area receives: the current dataset's preview shaped for
      the chart, or nothing when no dataset is current or an axis is missing.
     */
    method ChartData(store: Store, numText: real -> string) returns (r: Option<seq<Row>>)
      ensures r.Some? <==> store.currentDataset.Some? && RendersChart(chartType, xAxis, yAxis)
      ensures r.Some? && chartType != Pie ==>
        r.value == Points(store.currentDataset.value.previewData, xAxis, yAxis)
      ensures r.Some? && chartType == Pie ==>
        exists entries :: IsPieAggregation(entries, store.currentDataset.value.previewData, xAxis, numText) &&
                          r.value == Map(entries, SliceRow)
    {
      if store.currentDataset.Some? && RendersChart(chartType, xAxis, yAxis) {
        var shaped := ProcessedData(store.currentDataset.value.previewData, chartType, xAxis, yAxis, numText);
        r := Some(shaped);
      } else {
        r := None;
      }
    }
  }
}
