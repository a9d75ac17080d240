/**
  The records the store keeps: a column with its inferred type, a dataset
  with its schema and bounded preview, and the JavaScript values a preview
  cell can hold after import.
 */
module DataModel {
  import opened Common
  import opened JsNumber

  datatype ColumnType = StringType | NumberType | DateType | BooleanType

  /** A column of the schema; the source's field `type` is called `kind` here. */
  datatype Column = Column(name: string, kind: ColumnType)

  /**
    A value stored in a typed row: `undefined` (a missing key), `null` (an
    empty number cell), `NaN`, a finite number, a boolean or a string.
   */
  datatype Value = Undefined | Null | NaN | Num(x: real) | Bool(b: bool) | Str(s: string)

  /** One row object of `previewData`: column name to value. */
  type Row = map<string, Value>

  datatype Dataset = Dataset(
    id: string,
    name: string,
    description: Option<string>,
    rowCount: nat,
    columns: seq<Column>,
    previewData: seq<Row>)

  /** What `addDataset` receives: a dataset without its id. */
  datatype DatasetDraft = DatasetDraft(
    name: string,
    description: Option<string>,
    rowCount: nat,
    columns: seq<Column>,
    previewData: seq<Row>)

  function WithId(d: DatasetDraft, id: string): (r: Dataset)
    ensures r.id == id && r.name == d.name && r.description == d.description
    ensures r.rowCount == d.rowCount && r.columns == d.columns && r.previewData == d.previewData
  {
    Dataset(id, d.name, d.description, d.rowCount, d.columns, d.previewData)
  }

  /** `row[key]`: a key the row does not hold reads as `undefined`. */
  function Lookup(row: Row, key: string): Value
  {
    if key in row then row[key] else Undefined
  }

  /** JavaScript truthiness of a cell value. */
  predicate Truthy(v: Value)
  {
    match v
    case Undefined => false
    case Null => false
    case NaN => false
    case Num(x) => x != 0.0
    case Bool(b) => b
    case Str(s) => s != []
  }

  /** `parseFloat(v)`: a number converts to its own text and back; every other non-string reads as `NaN`. */
  function ParseFloat(v: Value): Option<real>
  {
    match v
    case Num(x) => Some(x)
    case Str(s) => ParseFloatText(s)
    case _ => None
  }

  function Names(columns: seq<Column>): (r: seq<string>)
    ensures |r| == |columns|
    ensures forall i :: 0 <= i < |columns| ==> r[i] == columns[i].name
  {
    Map(columns, (c: Column) => c.name)
  }

  /** `type === null || col.type === type`. */
  predicate Admits(kind: Option<ColumnType>, c: Column)
  {
    kind.None? || c.kind == kind.value
  }

  /** The names of the columns `p` keeps, each once and in schema order. */
  lemma NamesOfFilter(columns: seq<Column>, p: Column -> bool)
    ensures exists idx :: (IsPositions(idx, columns, p) && |idx| == |Names(Filter(columns, p))| &&
      forall k :: 0 <= k < |idx| ==> Names(Filter(columns, p))[k] == columns[idx[k]].name)
  {
    var kept := Filter(columns, p);
    FilterPositions(columns, p);
    var idx :| IsPositions(idx, columns, p) && |idx| == |kept| &&
      forall k :: 0 <= k < |idx| ==> kept[k] == columns[idx[k]];
    assert forall k :: 0 <= k < |idx| ==> Names(kept)[k] == kept[k].name;
  }

  /** The `filter` callback for a type. */
  function AdmitsKind(kind: Option<ColumnType>): Column -> bool
  {
    (c: Column) => Admits(kind, c)
  }

  /**
    `columns.filter(col => type === null || col.type === type).map(col => col.name)`:
    the name of every column of that type, once per column and in schema
    order, and no other name.
   */
  function ColumnNames(columns: seq<Column>, kind: Option<ColumnType>): (r: seq<string>)
    ensures |r| <= |columns|
    ensures forall n :: n in r <==> exists c :: c in columns && c.name == n && Admits(kind, c)
    ensures kind.None? ==> r == Names(columns)
  {
    var kept := Filter(columns, AdmitsKind(kind));
    var r := Names(kept);
    assert forall n :: n in r <==> exists c :: c in columns && c.name == n && Admits(kind, c) by {
      forall n ensures n in r <==> exists c :: c in columns && c.name == n && Admits(kind, c) {
        if n in r {
          var i :| 0 <= i < |r| && r[i] == n;
          assert kept[i] in kept;
        }
        if exists c :: c in columns && c.name == n && Admits(kind, c) {
          var c :| c in columns && c.name == n && Admits(kind, c);
          assert c in kept;
          var i :| 0 <= i < |kept| && kept[i] == c;
          assert r[i] == n;
        }
      }
    }
    r
  }

  /**
    `ColumnNames` keeps the order and the multiplicity of the schema: its
    k-th name is the name of the k-th admitted column, and every admitted
    column contributes exactly one name.
   */
  lemma ColumnNamesOrder(columns: seq<Column>, kind: Option<ColumnType>)
    ensures exists idx :: (IsPositions(idx, columns, AdmitsKind(kind)) && |idx| == |ColumnNames(columns, kind)| &&
      forall k :: 0 <= k < |idx| ==> ColumnNames(columns, kind)[k] == columns[idx[k]].name)
  {
    NamesOfFilter(columns, AdmitsKind(kind));
  }
}
