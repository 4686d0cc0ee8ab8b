/** The read operations of the SQL connector's transaction, from the point where
    the database has answered: each takes the query's outcome (the rows, or the
    error the query layer reported) and decodes it into connector records. */
module ReadOperations {
  import opened Wrappers
  import opened PrismaModels
  import opened ScalarLists

  // ---------------------------------------------------------------------------
  // get_single_record

  /** A lookup that found no row is not an error: it answers `None`. Every other
      lookup error is passed on as it is; a found row becomes a record with no
      parent id, labelled with the selected fields' names. */
  function GetSingleRecord(lookup: Result<Row, ConnectorError>, selected: SelectedFields)
    : (r: Result<Option<SingleRecord>, ConnectorError>)
    ensures r == Ok(None) <==> lookup.Err? && lookup.error.RecordNotFoundForWhere?
    ensures r.Err? <==> lookup.Err? && !lookup.error.RecordNotFoundForWhere?
    ensures r.Err? ==> r.error == lookup.error
    ensures lookup.Ok? ==> r.Ok? && r.value.Some?
    ensures r.Ok? && r.value.Some? ==>
      && lookup.Ok?
      && r.value.value.record.values == lookup.value.values
      && r.value.value.record.parentId == None
      && r.value.value.fieldNames == selected.Names()
  {
    match lookup
    case Ok(row) => Ok(Some(SingleRecord(FromRow(row), selected.Names())))
    case Err(RecordNotFoundForWhere(_)) => Ok(None)
    case Err(e) => Err(e)
  }

  // ---------------------------------------------------------------------------
  // get_many_records

  /** `rows.into_iter().map(Record::from).collect()`. */
  function RecordsFromRows(rows: seq<Row>): (records: seq<Record>)
    ensures |records| == |rows|
    ensures forall i :: 0 <= i < |rows| ==>
      records[i].values == rows[i].values && records[i].parentId == None
  {
    if rows == [] then [] else [FromRow(rows[0])] + RecordsFromRows(rows[1..])
  }

  function GetManyRecords(rows: Result<seq<Row>, ConnectorError>, selected: SelectedFields)
    : (r: Result<ManyRecords, ConnectorError>)
    ensures r.Err? <==> rows.Err?
    ensures r.Err? ==> r.error == rows.error
    ensures r.Ok? ==>
      && |r.value.records| == |rows.value|
      && (forall i :: 0 <= i < |rows.value| ==>
            r.value.records[i].values == rows.value[i].values && r.value.records[i].parentId == None)
      && r.value.fieldNames == selected.Names()
  {
    match rows
    case Err(e) => Err(e)
    case Ok(rs) => Ok(ManyRecords(RecordsFromRows(rs), selected.Names()))
  }

  /** A found single record is the record the same row gives in a many-record
      read: both decode a row the same way. */
  lemma SingleAgreesWithMany(row: Row, selected: SelectedFields)
    ensures GetSingleRecord(Ok(row), selected).value.value.record
         == GetManyRecords(Ok([row]), selected).value.records[0]
  {
  }

  // ---------------------------------------------------------------------------
  // get_related_records

  /** `Vec::pop`: the last element, if any, and what remains before it. */
  method Pop<T>(values: seq<T>) returns (last: Option<T>, rest: seq<T>)
    ensures values == [] ==> last == None && rest == []
    ensures values != [] ==> last == Some(values[|values| - 1]) && rest + [last.value] == values
  {
    if values == [] {
      last, rest := None, [];
    } else {
      last, rest := Some(values[|values| - 1]), values[..|values| - 1];
    }
  }

  /** How one row of a related-records query becomes a record. The last value
      is the parent id and the one before it the relation id: the record keeps
      neither. A row without values has no parent id column. */
  function RelatedRecord(row: Row, toId: IdConversion): (r: Result<Record, ConnectorError>)
    ensures row.values == [] ==> r == Err(ColumnDoesNotExist)
    ensures row.values != [] ==>
      var parent := row.values[|row.values| - 1];
      && (r.Ok? <==> toId(parent).Ok?)
      && (r.Err? ==> Err(r.error) == toId(parent))
      && (r.Ok? ==> r.value.parentId == Some(toId(parent).value))
    ensures r.Ok? ==>
      && r.value.values <= row.values
      && |r.value.values| == if |row.values| >= 2 then |row.values| - 2 else 0
  {
    var n := |row.values|;
    if n == 0 then Err(ColumnDoesNotExist)
    else
      var kept := if n >= 2 then row.values[..n - 2] else [];
      match toId(row.values[n - 1])
      case Err(e) => Err(e)
      case Ok(id) => Ok(AddParentId(FromRow(Row(kept)), id))
  }

  /** The closure of `get_related_records`: pop the parent id (failing on an
      empty row), pop and discard the relation id, make a record of the rest and
      attach the converted parent id. */
  method DecodeRelatedRow(row: Row, toId: IdConversion) returns (r: Result<Record, ConnectorError>)
    ensures r == RelatedRecord(row, toId)
  {
    var values := row.values;
    var parentId;
    parentId, values := Pop(values);
    if parentId.None? {
      return Err(ColumnDoesNotExist);
    }
    assert values == row.values[..|row.values| - 1];
    var _, rest := Pop(values);
    values := rest;
    assert |row.values| >= 2 ==> values == row.values[..|row.values| - 2];
    var record := FromRow(Row(values));
    match toId(parentId.value) {
      case Err(e) =>
        r := Err(e);
      case Ok(id) =>
        r := Ok(AddParentId(record, id));
    }
  }

  /** The decoded related records, or the first row's error. */
  function RelatedRecords(rows: Result<seq<Row>, ConnectorError>, selected: SelectedFields, toId: IdConversion)
    : Result<ManyRecords, ConnectorError>
  {
    match rows
    case Err(e) => Err(e)
    case Ok(rs) =>
      match Collect(rs, row => RelatedRecord(row, toId))
      case Err(e) => Err(e)
      case Ok(records) => Ok(ManyRecords(records, selected.Names()))
  }

  method GetRelatedRecords(rows: Result<seq<Row>, ConnectorError>, selected: SelectedFields, toId: IdConversion)
    returns (r: Result<ManyRecords, ConnectorError>)
    ensures r == RelatedRecords(rows, selected, toId)
  {
    if rows.Err? {
      return Err(rows.error);
    }
    var rs := rows.value;
    ghost var decode := row => RelatedRecord(row, toId);
    var records: seq<Record> := [];
    var i := 0;
    while i < |rs|
      invariant 0 <= i <= |rs|
      invariant |records| == i
      invariant forall j :: 0 <= j < i ==> RelatedRecord(rs[j], toId) == Ok(records[j])
    {
      var record := DecodeRelatedRow(rs[i], toId);
      if record.Err? {
        CollectFirstFailure(rs, decode, i);
        return Err(record.error);
      }
      records := records + [record.value];
      i := i + 1;
    }
    var all := Collect(rs, decode);
    assert all.Ok? && all.value == records;
    r := Ok(ManyRecords(records, selected.Names()));
  }

  /** What a successful related-records read holds: one record per row, in row
      order, each with the row's last value as parent id and the row without
      its last two values as values. It fails exactly when some row is empty or
      has a parent id that does not convert, and then with the first such row's
      error and no records at all. */
  lemma RelatedRecordsShape(rows: seq<Row>, selected: SelectedFields, toId: IdConversion)
    ensures
      var r := RelatedRecords(Ok(rows), selected, toId);
      && (r.Ok? <==> forall i :: 0 <= i < |rows| ==>
            rows[i].values != [] && toId(rows[i].values[|rows[i].values| - 1]).Ok?)
      && (r.Ok? ==>
            && |r.value.records| == |rows|
            && r.value.fieldNames == selected.Names()
            && forall i :: 0 <= i < |rows| ==>
                 var v := rows[i].values;
                 && r.value.records[i].parentId == Some(toId(v[|v| - 1]).value)
                 && r.value.records[i].values == v[..|v| - Min(2, |v|)])
      && (r.Err? ==> exists k :: 0 <= k < |rows| && RelatedRecord(rows[k], toId) == Err(r.error)
                                && forall j :: 0 <= j < k ==> RelatedRecord(rows[j], toId).Ok?)
  {
  }

  function Min(a: int, b: int): int {
    if a <= b then a else b
  }

  // ---------------------------------------------------------------------------
  // get_scalar_list_values

  /** One row of a scalar-list query: the first value is the record id, the
      second the list element; anything further is ignored. The row must have
      both columns before the id is converted. */
  function DecodeScalarListRow(row: Row, toId: IdConversion): (r: Result<ScalarListElement, ConnectorError>)
    ensures |row.values| < 2 ==> r == Err(ColumnDoesNotExist)
    ensures |row.values| >= 2 ==>
      && (r.Ok? <==> toId(row.values[0]).Ok?)
      && (r.Err? ==> Err(r.error) == toId(row.values[0]))
      && (r.Ok? ==> Ok(r.value.recordId) == toId(row.values[0]) && r.value.value == row.values[1])
  {
    if |row.values| == 0 then Err(ColumnDoesNotExist)
    else if |row.values| == 1 then Err(ColumnDoesNotExist)
    else
      match toId(row.values[0])
      case Err(e) => Err(e)
      case Ok(id) => Ok(ScalarListElement(id, row.values[1]))
  }

  /** All rows decoded, or the first failing row's error. */
  function DecodeScalarListRows(rows: seq<Row>, toId: IdConversion): Result<seq<ScalarListElement>, ConnectorError> {
    Collect(rows, row => DecodeScalarListRow(row, toId))
  }

  /** The rows decode exactly when every row has at least two values and an id
      that converts; the elements are then the rows' first two values, in row
      order. */
  lemma ScalarListRowsDecode(rows: seq<Row>, toId: IdConversion)
    ensures
      var d := DecodeScalarListRows(rows, toId);
      && (d.Ok? <==> forall i :: 0 <= i < |rows| ==> |rows[i].values| >= 2 && toId(rows[i].values[0]).Ok?)
      && (d.Ok? ==> |d.value| == |rows| && forall i :: 0 <= i < |rows| ==>
            Ok(d.value[i].recordId) == toId(rows[i].values[0]) && d.value[i].value == rows[i].values[1])
  {
  }

  method GetScalarListValues(rows: Result<seq<Row>, ConnectorError>, toId: IdConversion)
    returns (r: Result<seq<ScalarListValues>, ConnectorError>)
    ensures rows.Err? ==> r == Err(rows.error)
    ensures rows.Ok? && DecodeScalarListRows(rows.value, toId).Err? ==>
      r == Err(DecodeScalarListRows(rows.value, toId).error)
    ensures rows.Ok? && DecodeScalarListRows(rows.value, toId).Ok? ==>
      var elements := DecodeScalarListRows(rows.value, toId).value;
      && r.Ok?
      && IsRunGrouping(r.value, elements)
      && ValuesOf(r.value) == ElementValues(elements)
  {
    if rows.Err? {
      return Err(rows.error);
    }
    var results := DecodeScalarListRows(rows.value, toId);
    if results.Err? {
      return Err(results.error);
    }
    var listValues := GroupByRecordId(results.value);
    r := Ok(listValues);
  }

  // ---------------------------------------------------------------------------
  // count_by_model

  const USIZE_MODULUS: int := 0x1_0000_0000_0000_0000

  predicate IsI64(n: int) {
    -0x8000_0000_0000_0000 <= n < 0x8000_0000_0000_0000
  }

  /** `n as usize` for an `i64` on a 64-bit target: the usize with the same bit
      pattern, so equal to `n` modulo 2^64. */
  function AsUsize(n: int): (u: nat)
    requires IsI64(n)
    ensures u < USIZE_MODULUS
    ensures (u - n) % USIZE_MODULUS == 0
  {
    if n >= 0 then n else n + USIZE_MODULUS
  }

  /** `u as i64`: the reverse reinterpretation. */
  function AsI64(u: nat): (n: int)
    requires u < USIZE_MODULUS
    ensures IsI64(n)
    ensures (u - n) % USIZE_MODULUS == 0
  {
    if u < 0x8000_0000_0000_0000 then u else u - USIZE_MODULUS
  }

  /** The cast loses nothing: it is undone by the reverse cast, and it keeps
      every count that the database can report, which is never negative. */
  lemma UsizeCastRoundTrip(n: int)
    requires IsI64(n)
    ensures AsI64(AsUsize(n)) == n
    ensures n >= 0 <==> AsUsize(n) == n
  {
  }

  function CountByModel(count: Result<int, ConnectorError>): (r: Result<nat, ConnectorError>)
    requires count.Ok? ==> IsI64(count.value)
    ensures r.Err? <==> count.Err?
    ensures r.Err? ==> r.error == count.error
    ensures r.Ok? ==> r.value < USIZE_MODULUS && (r.value - count.value) % USIZE_MODULUS == 0
    ensures r.Ok? && count.value >= 0 ==> r.value == count.value
  {
    match count
    case Err(e) => Err(e)
    case Ok(n) => Ok(AsUsize(n))
  }
}
