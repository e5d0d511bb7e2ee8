/** The record types of model.go. They carry no behaviour of their own. */
module Model {

  /** Go's uint64 */
  newtype uint64 = x: int | 0 <= x < 0x1_0000_0000_0000_0000

  /** One row of `SHOW TABLE STATUS LIKE '<table>'`. */
  datatype TableStatus = TableStatus(
    Name: string,
    Rows: uint64,
    Collation: string,
    Comment: string)

  /** One row of `SHOW FULL COLUMNS FROM <table>`. main.go calls the same
      record, with the same fields in the same order, `DDLM`. */
  datatype ColumnsStatement = ColumnsStatement(
    Field: string,
    Type: string,
    Null: string,
    Key: string,
    Comment: string,
    Default: string,
    Extra: string)

  /** One member of the generated Java class. */
  datatype JavaField = JavaField(
    JavaType: string,
    Field: string,
    Comment: string,
    PackageName: string,
    IsPri: bool)
}
