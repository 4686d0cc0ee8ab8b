/** The value types the read path works with: the values a database row holds,
    record identifiers, rows, records and the connector's errors. */
module PrismaModels {
  import opened Wrappers

  /** The identifier of a record. */
  datatype GraphqlId = IdString(s: string) | IdInt(n: nat) | IdUuid(uuid: string)

  /** One value of a row, as the database driver decoded it. Only the kinds the
      read path can meet as identifiers are told apart; the read path passes all
      others through untouched. */
  datatype PrismaValue =
    | String(s: string)
    | Int(i: int)
    | Boolean(b: bool)
    | Enum(name: string)
    | Uuid(uuid: string)
    | Id(id: GraphqlId)
    | Null

  /** Errors of the connector. The query layer's own error enum and the
      conversion from it into this one are folded into a single type. */
  datatype ConnectorError =
    | RecordNotFoundForWhere(condition: string)
    | ColumnDoesNotExist
    | ConversionFailure(from: string, to: string)
    | QueryError(message: string)

  /** Turning a row value into a record identifier may fail; which values convert
      is decided outside the read path, so the conversion is a parameter. */
  type IdConversion = PrismaValue -> Result<GraphqlId, ConnectorError>

  /** One row as the database returned it: its values in the order selected. */
  datatype Row = Row(values: seq<PrismaValue>)

  /** A connector record: the row's values and, for related records, the id of
      the parent record they were reached from. */
  datatype Record = Record(values: seq<PrismaValue>, parentId: Option<GraphqlId>)

  /** `Record::from(row)`: all of the row's values, no parent yet. */
  function FromRow(row: Row): Record {
    Record(row.values, None)
  }

  /** `record.add_parent_id(id)`. */
  function AddParentId(record: Record, id: GraphqlId): Record {
    record.(parentId := Some(id))
  }

  datatype SingleRecord = SingleRecord(record: Record, fieldNames: seq<string>)

  datatype ManyRecords = ManyRecords(records: seq<Record>, fieldNames: seq<string>)

  /** The values of one scalar-list field of one record. */
  datatype ScalarListValues = ScalarListValues(recordId: GraphqlId, values: seq<PrismaValue>)

  datatype SelectedField = SelectedField(name: string)

  /** The fields a read selects, in selection order. */
  datatype SelectedFields = SelectedFields(fields: seq<SelectedField>) {
    function Names(): seq<string> {
      seq(|fields|, i requires 0 <= i < |fields| => fields[i].name)
    }
  }
}
