/** csv_exporter.py: flattening records into the rows and columns of the exported table. */
module CsvExport {
  import opened Wrappers
  import opened PyDict
  import opened Schema

  // ---- Columns ----

  /** A column of the table: the two address columns, or a `Property` field of the same name. */
  datatype Column = AddressCol | NeighbourhoodCol | Attr(field: Field)

  /** `_CATEGORICAL_COLS` */
  const CategoricalCols: seq<Column> := [
    Attr(Category), Attr(PropertyType), Attr(OwnershipType), Attr(EnergyLabel), Attr(StatusField)]

  /** `_NUMERIC_COLS` */
  const NumericCols: seq<Column> := [
    Attr(AskingPrice), Attr(TotalPrice), Attr(TransactionCosts), Attr(CommunalFees),
    Attr(AssessedWealthValue), Attr(SharedDebt), Attr(SharedEquity), Attr(Bedrooms),
    Attr(Rooms), Attr(Floor), Attr(YearBuilt), Attr(AreaBraI), Attr(AreaBra), Attr(PlotArea)]

  /** `_ADDRESS_COLS` */
  const AddressCols: seq<Column> := [AddressCol, NeighbourhoodCol]

  /** `_EXPORT_COL_ORDER` */
  const ExportColOrder: seq<Column> := AddressCols + CategoricalCols + NumericCols

  /** The place of each exported column in the export order; 21 for every other column. */
  function ColumnRank(c: Column): nat {
    match c
    case AddressCol => 0
    case NeighbourhoodCol => 1
    case Attr(f) =>
      match f
      case Category => 2
      case PropertyType => 3
      case OwnershipType => 4
      case EnergyLabel => 5
      case StatusField => 6
      case AskingPrice => 7
      case TotalPrice => 8
      case TransactionCosts => 9
      case CommunalFees => 10
      case AssessedWealthValue => 11
      case SharedDebt => 12
      case SharedEquity => 13
      case Bedrooms => 14
      case Rooms => 15
      case Floor => 16
      case YearBuilt => 17
      case AreaBraI => 18
      case AreaBra => 19
      case PlotArea => 20
      case _ => 21
  }

  /** The categorical columns take places 2 to 6. */
  lemma {:induction false} CategoricalRanks()
    ensures forall j :: 0 <= j < |CategoricalCols| ==> ColumnRank(CategoricalCols[j]) == 2 + j
  {
  }

  /** The numeric columns take places 7 to 20. */
  lemma {:induction false} NumericRanks()
    ensures forall j :: 0 <= j < |NumericCols| ==> ColumnRank(NumericCols[j]) == 7 + j
  {
  }

  /** The export order lists 21 columns, each at the place its rank says. */
  lemma {:induction false} ExportColOrderRanks()
    ensures |ExportColOrder| == 21
    ensures forall j :: 0 <= j < 21 ==> ColumnRank(ExportColOrder[j]) == j
  {
    CategoricalRanks();
    NumericRanks();
    forall j | 0 <= j < 21
      ensures ColumnRank(ExportColOrder[j]) == j
    {
      if j >= 7 {
        assert ExportColOrder[j] == NumericCols[j - 7];
      } else if j >= 2 {
        assert ExportColOrder[j] == CategoricalCols[j - 2];
      }
    }
  }

  /** The 21 exported columns are distinct. */
  lemma {:induction false} ExportColOrderDistinct()
    ensures |ExportColOrder| == 21
    ensures forall i, j :: 0 <= i < j < 21 ==> ExportColOrder[i] != ExportColOrder[j]
  {
    ExportColOrderRanks();
    forall i, j | 0 <= i < j < 21
      ensures ExportColOrder[i] != ExportColOrder[j]
    {
      assert ColumnRank(ExportColOrder[i]) != ColumnRank(ExportColOrder[j]);
    }
  }

  // ---- Cells and rows ----

  /** One cell: None (missing), a text, an integer, or a decimal as its digit strings. */
  datatype Cell = Missing | Text(text: string) | Int(number: int) | Dec(decimal: Decimal)

  function TextCell(o: Option<string>): Cell {
    if o.Some? then Text(o.value) else Missing
  }

  function IntCell(o: Option<int>): Cell {
    if o.Some? then Int(o.value) else Missing
  }

  function DecCell(o: Option<Decimal>): Cell {
    if o.Some? then Dec(o.value) else Missing
  }

  /** `getattr(p, k, None)` for the scalar fields of `Property`. The address, facilities,
      `scraped_at` and `raw_meta` are never exported and read as missing here. */
  function Attribute(p: Property, f: Field): Cell {
    match f
    case Title => TextCell(p.title)
    case Subtitle => TextCell(p.subtitle)
    case DescriptionRaw => TextCell(p.descriptionRaw)
    case Category => TextCell(p.category)
    case AskingPrice => IntCell(p.askingPrice)
    case TotalPrice => IntCell(p.totalPrice)
    case TransactionCosts => IntCell(p.transactionCosts)
    case CommunalFees => IntCell(p.communalFees)
    case AssessedWealthValue => IntCell(p.assessedWealthValue)
    case SharedDebt => IntCell(p.sharedDebt)
    case SharedEquity => IntCell(p.sharedEquity)
    case PropertyType => TextCell(p.propertyType)
    case OwnershipType => TextCell(p.ownershipType)
    case Bedrooms => IntCell(p.bedrooms)
    case Rooms => IntCell(p.rooms)
    case Floor => IntCell(p.floor)
    case YearBuilt => IntCell(p.yearBuilt)
    case EnergyLabel => TextCell(p.energyLabel)
    case AreaBraI => DecCell(p.areaBraI)
    case AreaBra => DecCell(p.areaBra)
    case PlotArea => DecCell(p.plotArea)
    case FinnCode => TextCell(p.finnCode)
    case Url => TextCell(p.url)
    case StatusField => TextCell(p.status)
    case _ => Missing
  }

  /** What a record shows in one column: the address line and neighbourhood (None without
      an address), otherwise the field of the same name. */
  function ColumnValue(p: Property, c: Column): Cell {
    match c
    case AddressCol => if p.address.Some? then TextCell(p.address.value.line) else Missing
    case NeighbourhoodCol => if p.address.Some? then TextCell(p.address.value.neighbourhood) else Missing
    case Attr(f) => Attribute(p, f)
  }

  /** A row: column names to cells, in insertion order. */
  type Row = Dict<Column, Cell>

  /** The row holding the record's value under each of `cols`, in that order. */
  function RowOver(p: Property, cols: seq<Column>): (row: Row)
    ensures |row| == |cols|
    ensures forall j :: 0 <= j < |cols| ==> row[j] == (cols[j], ColumnValue(p, cols[j]))
  {
    if cols == [] then [] else [(cols[0], ColumnValue(p, cols[0]))] + RowOver(p, cols[1..])
  }

  /** The flattened row `_flatten_property` builds. */
  function FlattenedRow(p: Property): Row {
    RowOver(p, ExportColOrder)
  }

  /** A row's keys are the columns it was built over. */
  lemma {:induction false} RowOverKeys(p: Property, cols: seq<Column>)
    ensures Keys(RowOver(p, cols)) == cols
  {
    if cols != [] {
      RowOverKeys(p, cols[1..]);
      assert RowOver(p, cols)[1..] == RowOver(p, cols[1..]);
    }
  }

  /** A row over distinct columns holds the record's value under each of them, and nothing
      under any other column. */
  lemma {:induction false} RowOverLookup(p: Property, cols: seq<Column>, c: Column)
    requires forall i, j :: 0 <= i < j < |cols| ==> cols[i] != cols[j]
    ensures Get(RowOver(p, cols), c) == if c in cols then Some(ColumnValue(p, c)) else None
  {
    if cols != [] {
      RowOverLookup(p, cols[1..], c);
      RowOverKeys(p, cols);
      assert RowOver(p, cols)[1..] == RowOver(p, cols[1..]);
      if c != cols[0] && c in cols {
        var j :| 0 <= j < |cols| && cols[j] == c;
        assert cols[1..][j - 1] == c;
      }
    }
  }

  /** The flattened row has exactly the 21 exported columns, in export order; the address
      column is the address line alone, the neighbourhood column the address's
      neighbourhood, and every other column the same-named field unchanged. */
  lemma {:induction false} FlattenedRowShape(p: Property, c: Column)
    ensures Keys(FlattenedRow(p)) == ExportColOrder
    ensures Get(FlattenedRow(p), AddressCol) == Some(if p.address.Some? then TextCell(p.address.value.line) else Missing)
    ensures Get(FlattenedRow(p), NeighbourhoodCol) == Some(if p.address.Some? then TextCell(p.address.value.neighbourhood) else Missing)
    ensures c.Attr? && c in ExportColOrder ==> Get(FlattenedRow(p), c) == Some(Attribute(p, c.field))
    ensures c !in ExportColOrder ==> Get(FlattenedRow(p), c) == None
  {
    ExportColOrderDistinct();
    RowOverKeys(p, ExportColOrder);
    RowOverLookup(p, ExportColOrder, AddressCol);
    RowOverLookup(p, ExportColOrder, NeighbourhoodCol);
    RowOverLookup(p, ExportColOrder, c);
    assert ExportColOrder[0] == AddressCol && ExportColOrder[1] == NeighbourhoodCol;
  }

  /** Adding one more column at the end of a row. */
  lemma {:induction false} RowOverSnoc(p: Property, cols: seq<Column>, c: Column)
    ensures RowOver(p, cols + [c]) == RowOver(p, cols) + [(c, ColumnValue(p, c))]
  {
    assert |RowOver(p, cols + [c])| == |cols| + 1;
  }

  /** `_flatten_property`: the two address cells first, then the categorical fields, then the
      numeric fields, each assigned with `row[k] = getattr(p, k, None)`. */
  method FlattenProperty(p: Property) returns (row: Row)
    ensures row == FlattenedRow(p)
  {
    ExportColOrderDistinct();
    var addrLine: Cell := Missing;
    var neighbourhood: Cell := Missing;
    if p.address.Some? {
      addrLine := TextCell(p.address.value.line);
      neighbourhood := TextCell(p.address.value.neighbourhood);
    }
    row := [(AddressCol, addrLine), (NeighbourhoodCol, neighbourhood)];
    assert row == RowOver(p, ExportColOrder[..2]);

    for i := 0 to |CategoricalCols|
      invariant row == RowOver(p, ExportColOrder[..2 + i])
    {
      var k := CategoricalCols[i];
      assert ExportColOrder[2 + i] == k;
      NotBefore(ExportColOrder, 2 + i);
      AddNext(p, ExportColOrder, row, 2 + i);
      row := Set(row, k, Attribute(p, k.field));
    }

    for i := 0 to |NumericCols|
      invariant row == RowOver(p, ExportColOrder[..7 + i])
    {
      var k := NumericCols[i];
      assert ExportColOrder[7 + i] == k;
      NotBefore(ExportColOrder, 7 + i);
      AddNext(p, ExportColOrder, row, 7 + i);
      row := Set(row, k, Attribute(p, k.field));
    }
    assert ExportColOrder[..21] == ExportColOrder;
  }

  /** Assigning a column not yet in a row over a list's first `n` columns, the list's next
      one, extends that row by one column. */
  lemma {:induction false} AddNext(p: Property, order: seq<Column>, row: Row, n: nat)
    requires n < |order| && order[n].Attr? && order[n] !in order[..n]
    requires row == RowOver(p, order[..n])
    ensures Set(row, order[n], Attribute(p, order[n].field)) == RowOver(p, order[..n + 1])
  {
    var before, c := order[..n], order[n];
    RowOverKeys(p, before);
    SetNewKey(row, c, Attribute(p, c.field));
    TakeOneMore(order, n);
    RowOverSnoc(p, before, c);
  }

  /** In a list of distinct columns, no column comes before itself. */
  lemma {:induction false} NotBefore(order: seq<Column>, n: nat)
    requires forall i, j :: 0 <= i < j < |order| ==> order[i] != order[j]
    requires n < |order|
    ensures order[n] !in order[..n]
  {
    forall k | 0 <= k < n
      ensures order[..n][k] != order[n]
    {
      assert order[..n][k] == order[k];
    }
  }

  lemma TakeOneMore<T>(s: seq<T>, n: nat)
    requires n < |s|
    ensures s[..n + 1] == s[..n] + [s[n]]
  {
  }

  // ---- The data frame ----

  /** A table: its column names and, per row, one cell for each column. */
  datatype Frame = Frame(columns: seq<Column>, rows: seq<seq<Cell>>)

  /** The frame shows the records: one row per record, in order, each cell the record's value
      in the cell's column. */
  ghost predicate Shows(df: Frame, props: seq<Property>) {
    && |df.rows| == |props|
    && (forall r :: 0 <= r < |props| ==> |df.rows[r]| == |df.columns|)
    && (forall r, j :: 0 <= r < |props| && 0 <= j < |df.columns| ==> df.rows[r][j] == ColumnValue(props[r], df.columns[j]))
  }

  /** The cell a row dictionary gives a column, NaN (missing) when it lacks the key. */
  function Lookup(row: Row, c: Column): Cell {
    Get(row, c).GetOr(Missing)
  }

  /** No name occurs twice. */
  predicate Distinct(cols: seq<Column>) {
    forall i, j :: 0 <= i < j < |cols| ==> cols[i] != cols[j]
  }

  /** `b`'s members not already in `a`, in `b`'s order. */
  function NewColumns(a: seq<Column>, b: seq<Column>): (r: seq<Column>)
    ensures forall c :: c in r <==> c in b && c !in a
  {
    if b == [] then [] else (if b[0] in a then [] else [b[0]]) + NewColumns(a, b[1..])
  }

  /** Picking from a list without repeats gives a list without repeats. */
  lemma {:induction false} NewColumnsDistinct(a: seq<Column>, b: seq<Column>)
    requires Distinct(b)
    ensures Distinct(NewColumns(a, b))
  {
    if b != [] {
      NewColumnsDistinct(a, b[1..]);
      var rest := NewColumns(a, b[1..]);
      assert b[0] !in b[1..] by {
        forall k | 0 <= k < |b[1..]| ensures b[1..][k] != b[0] {
          assert b[1..][k] == b[k + 1];
        }
      }
      assert b[0] !in rest;
    }
  }

  /** Two lists without repeats and without a common member join into one without
      repeats. */
  lemma {:induction false} DistinctJoin(a: seq<Column>, b: seq<Column>)
    requires Distinct(a) && Distinct(b)
    requires forall c :: c in b ==> c !in a
    ensures Distinct(a + b)
  {
    forall i, j | 0 <= i < j < |a + b|
      ensures (a + b)[i] != (a + b)[j]
    {
      if j >= |a| && i < |a| {
        assert (a + b)[j] == b[j - |a|];
        assert (a + b)[j] in b;
      }
    }
  }

  /** The columns `pd.DataFrame(rows)` gives a list of dicts: every key, in order of first
      appearance. */
  function ColumnsOf(records: seq<Row>): (cols: seq<Column>)
    ensures forall c :: c in cols ==> exists r :: 0 <= r < |records| && c in Keys(records[r])
    ensures forall r, c :: 0 <= r < |records| && c in Keys(records[r]) ==> c in cols
  {
    if records == [] then []
    else
      var rest := ColumnsOf(records[1..]);
      var cols := Keys(records[0]) + NewColumns(Keys(records[0]), rest);
      assert forall r, c :: 1 <= r < |records| && c in Keys(records[r]) ==> c in rest by {
        forall r, c | 1 <= r < |records| && c in Keys(records[r])
          ensures c in rest
        {
          assert records[1..][r - 1] == records[r];
        }
      }
      assert forall c :: c in rest ==> exists r :: 1 <= r < |records| && c in Keys(records[r]) by {
        forall c | c in rest
          ensures exists r :: 1 <= r < |records| && c in Keys(records[r])
        {
          var r :| 0 <= r < |records[1..]| && c in Keys(records[1..][r]);
          assert records[1..][r] == records[r + 1];
        }
      }
      cols
  }

  /** With each record's keys free of repeats (as a dict's are), the frame names no column
      twice. */
  lemma {:induction false} ColumnsOfDistinct(records: seq<Row>)
    requires forall r :: 0 <= r < |records| ==> Distinct(Keys(records[r]))
    ensures Distinct(ColumnsOf(records))
  {
    if records != [] {
      var rest := ColumnsOf(records[1..]);
      assert forall r :: 0 <= r < |records[1..]| ==> records[1..][r] == records[r + 1];
      ColumnsOfDistinct(records[1..]);
      NewColumnsDistinct(Keys(records[0]), rest);
      DistinctJoin(Keys(records[0]), NewColumns(Keys(records[0]), rest));
    }
  }

  /** `pd.DataFrame(rows)` for a list of dicts. */
  function FromRecords(records: seq<Row>): (df: Frame)
    ensures df.columns == ColumnsOf(records) && |df.rows| == |records|
    ensures forall r :: 0 <= r < |records| ==> |df.rows[r]| == |df.columns|
    ensures forall r, j :: 0 <= r < |records| && 0 <= j < |df.columns| ==> df.rows[r][j] == Lookup(records[r], df.columns[j])
  {
    var cols := ColumnsOf(records);
    Frame(cols, seq(|records|, r requires 0 <= r < |records| => seq(|cols|, j requires 0 <= j < |cols| => Lookup(records[r], cols[j]))))
  }

  /** `df[col] = pd.Series(dtype=...)` for a column the frame lacks: every row gets NaN. */
  function AddEmptyColumn(df: Frame, c: Column): Frame {
    Frame(df.columns + [c], seq(|df.rows|, r requires 0 <= r < |df.rows| => df.rows[r] + [Missing]))
  }

  /** A column added to a frame without rows keeps it showing no records. */
  lemma {:induction false} AddEmptyColumnShows(df: Frame, props: seq<Property>, c: Column)
    requires Shows(df, props) && props == []
    ensures Shows(AddEmptyColumn(df, c), props)
    ensures AddEmptyColumn(df, c).columns == df.columns + [c]
  {
  }

  /** The first position of `c` in `cols`. */
  function IndexOf(cols: seq<Column>, c: Column): (k: nat)
    requires c in cols
    ensures k < |cols| && cols[k] == c
  {
    if cols[0] == c then 0 else 1 + IndexOf(cols[1..], c)
  }

  /** `df[order]`: the columns of `order`, in that order, each taken from the frame. */
  function Select(df: Frame, order: seq<Column>): (out: Frame)
    requires forall c :: c in order ==> c in df.columns
    requires forall r :: 0 <= r < |df.rows| ==> |df.rows[r]| == |df.columns|
    ensures out.columns == order && |out.rows| == |df.rows|
    ensures forall r :: 0 <= r < |df.rows| ==> |out.rows[r]| == |order|
    ensures forall r, j :: 0 <= r < |df.rows| && 0 <= j < |order| ==> out.rows[r][j] == df.rows[r][IndexOf(df.columns, order[j])]
  {
    Frame(order, seq(|df.rows|, r requires 0 <= r < |df.rows| =>
      seq(|order|, j requires 0 <= j < |order| => df.rows[r][IndexOf(df.columns, order[j])])))
  }

  /** Selecting columns of a frame that shows the records still shows them. */
  lemma {:induction false} SelectShows(df: Frame, order: seq<Column>, props: seq<Property>)
    requires forall c :: c in order ==> c in df.columns
    requires Shows(df, props)
    ensures Shows(Select(df, order), props)
  {
  }

  /** The frame built from the flattened rows shows the records, and has the 21 exported
      columns when there is at least one record. */
  lemma {:induction false} FromRecordsShows(props: seq<Property>, records: seq<Row>)
    requires |records| == |props|
    requires forall r :: 0 <= r < |props| ==> records[r] == FlattenedRow(props[r])
    ensures Shows(FromRecords(records), props)
    ensures props != [] ==> FromRecords(records).columns == ExportColOrder
  {
    var df := FromRecords(records);
    forall r, j | 0 <= r < |props| && 0 <= j < |df.columns|
      ensures df.rows[r][j] == ColumnValue(props[r], df.columns[j])
    {
      var c := df.columns[j];
      var k :| 0 <= k < |records| && c in Keys(records[k]);
      FlattenedRowShape(props[k], c);
      FlattenedRowShape(props[r], c);
      ExportColOrderDistinct();
      RowOverLookup(props[r], ExportColOrder, c);
    }
    if props != [] {
      ColumnsOfUniform(records);
    }
  }

  /** When every record has the export columns as its keys, so does the frame. */
  lemma {:induction false} ColumnsOfUniform(records: seq<Row>)
    requires records != []
    requires forall r :: 0 <= r < |records| ==> Keys(records[r]) == ExportColOrder
    ensures ColumnsOf(records) == ExportColOrder
  {
    var rest := ColumnsOf(records[1..]);
    if |records| > 1 {
      ColumnsOfUniform(records[1..]);
    }
    NoNewColumns(ExportColOrder, rest);
  }

  /** Nothing is new when every candidate is already present. */
  lemma {:induction false} NoNewColumns(a: seq<Column>, b: seq<Column>)
    requires forall c :: c in b ==> c in a
    ensures NewColumns(a, b) == []
  {
    if b != [] {
      NoNewColumns(a, b[1..]);
    }
  }

  /** `[_flatten_property(p) for p in properties]` */
  method FlattenAll(props: seq<Property>) returns (records: seq<Row>)
    ensures |records| == |props|
    ensures forall r :: 0 <= r < |props| ==> records[r] == FlattenedRow(props[r])
  {
    records := [];
    for i := 0 to |props|
      invariant |records| == i
      invariant forall r :: 0 <= r < i ==> records[r] == FlattenedRow(props[r])
    {
      var row := FlattenProperty(props[i]);
      records := records + [row];
    }
  }

  /** `properties_to_dataframe` without the dtype coercion: one row per record in input
      order, then every missing export column added empty, then the columns put in export
      order. The result has exactly the export columns, even for no records, and each row
      holds its record's values. */
  method PropertiesToDataFrame(props: seq<Property>) returns (df: Frame)
    ensures df.columns == ExportColOrder
    ensures Shows(df, props)
  {
    var records := FlattenAll(props);
    df := FromRecords(records);
    FromRecordsShows(props, records);

    for i := 0 to |ExportColOrder|
      invariant Shows(df, props)
      invariant forall k :: 0 <= k < i ==> ExportColOrder[k] in df.columns
      invariant props != [] ==> df.columns == ExportColOrder
    {
      var col := ExportColOrder[i];
      if col !in df.columns {
        // with a record the frame already holds every export column, so this adds to an
        // empty frame
        AddEmptyColumnShows(df, props, col);
        df := AddEmptyColumn(df, col);
      }
    }
    SelectShows(df, ExportColOrder, props);
    df := Select(df, ExportColOrder);
  }
}
