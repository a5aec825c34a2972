/**
 The change-feed envelope as the consumer holds it once a line has been decoded: JSON values, row
 images, writers, column declarations and events.
 */
module Feed {

  datatype Option<+T> = None | Some(value: T)

  /** A 64-bit unsigned position, as the envelope carries it. */
  type uint64 = x: int | 0 <= x < 0x1_0000_0000_0000_0000

  /** The conversion to a signed 64-bit column: positions from 2^63 up come out negative. */
  function Signed(x: uint64): int {
    if x < 0x8000_0000_0000_0000 then x else x - 0x1_0000_0000_0000_0000
  }

  /** A decoded JSON value. Numbers keep their digits; a nested value is held by its printed form. */
  datatype Value =
    | Null
    | Bool(b: bool)
    | Number(digits: string)
    | Text(text: string)
    | Nested(printed: string)

  /** The default printing of a decoded value, which is what rows are indexed by. */
  function Print(v: Value): string {
    match v
    case Null => "<nil>"
    case Bool(b) => if b then "true" else "false"
    case Number(digits) => digits
    case Text(text) => text
    case Nested(printed) => printed
  }

  type Row = map<string, Value>

  datatype Writer = Writer(
    provId: uint64, agent: string, run: string, model: string, modelVersion: string, promptSha256: string)

  datatype ColumnSpec = ColumnSpec(name: string, typ: string)

  function Names(columns: seq<ColumnSpec>): (names: seq<string>)
    ensures |names| == |columns|
    ensures forall i :: 0 <= i < |columns| ==> names[i] == columns[i].name
  {
    seq(|columns|, i requires 0 <= i < |columns| => columns[i].name)
  }

  predicate Distinct(names: seq<string>) {
    forall i, j :: 0 <= i < j < |names| ==> names[i] != names[j]
  }

  /** What an event says happened. The images follow from the operation alone. */
  datatype Change =
    | Read(after: Row)
    | Insert(after: Row)
    | Update(before: Row, after: Row)
    | Delete(before: Row)
    | CreateTable(columns: seq<ColumnSpec>)
    | DropTable
    | AddColumn(columns: seq<ColumnSpec>, column: string)
    | RenameColumn(columns: seq<ColumnSpec>, from: string, to: string)
    | AlterColumnType(columns: seq<ColumnSpec>, column: string, fromType: string, toType: string)
  {
    /** Operations about a row rather than about the table's shape. */
    predicate IsRow() {
      Read? || Insert? || Update? || Delete?
    }

    /** The image that identifies the row: the last one it had. */
    function Image(): Row
      requires IsRow()
    {
      if Delete? then before else after
    }

    /** Whole-table declarations, which are re-emitted rather than delivered once. */
    predicate IsDeclaration() {
      CreateTable? || DropTable?
    }

    /** Operations whose idempotence cannot come from the resume cursor. */
    predicate BypassesCursor() {
      IsDeclaration() || Read?
    }
  }

  datatype Event = Event(
    table: string, change: Change, lsn: uint64, commitLsn: uint64, commitEndLsn: uint64, writer: Option<Writer>)
}
