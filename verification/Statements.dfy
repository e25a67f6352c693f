/** The parsed statements of src/parser.h and the limits of src/utils.h. */
module Statements {
  import opened Wrappers

  const MAX_COLUMNS: nat := 32
  const MAX_IDENTIFIER_LEN: nat := 64
  const MAX_VALUE_LEN: nat := 256

  datatype ValueKind = IntKind | StringKind

  datatype InsertStatement = InsertStatement(
    tableName: string, columns: seq<string>, values: seq<string>, kinds: seq<ValueKind>)
  {
    /** column_count counts all three arrays. */
    predicate Even() {
      |values| == |columns| == |kinds|
    }
  }

  datatype WhereClause = WhereClause(column: string, op: string, value: string, kind: ValueKind)

  /** No columns stand for SELECT *. */
  datatype SelectStatement = SelectStatement(
    tableName: string, columns: seq<string>, where: Option<WhereClause>)

  datatype DeleteStatement = DeleteStatement(tableName: string, where: Option<WhereClause>)

  datatype Statement =
    | Insert(insert: InsertStatement)
    | Select(select: SelectStatement)
    | Delete(delete: DeleteStatement)
}
