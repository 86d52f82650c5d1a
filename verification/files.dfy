/**
 * The data file `data.csv` as the operating system and encoding/csv show it
 * to the CSV backend: whether the file is present and the records it holds, in
 * order. Quoting and escaping are below this level of detail.
 *
 * Every call into the operating system may fail for reasons outside the
 * program (permissions, a full disk, a malformed record); the methods below
 * choose that outcome nondeterministically and say what holds either way.
 */
module Files {
  import opened Errors
  import opened Todos

  /** One csvReader.Read(): the next record, end of data, or a failure. */
  datatype ReadStep = Record(fields: Row) | Eof | Fault(error: Error)

  class DataFile {
    var present: bool
    var rows: seq<Row>

    /** An absent file holds nothing. */
    ghost predicate Valid()
      reads this
    {
      present || rows == []
    }

    constructor (present: bool, rows: seq<Row>)
      requires present || rows == []
      ensures Valid() && this.present == present && this.rows == rows
    {
      this.present := present;
      this.rows := rows;
    }

    /** os.Stat followed by os.IsNotExist: whether the file is there. */
    method Stat() returns (found: bool)
      ensures found == present
    {
      found := present;
    }

    /** os.Create on an absent path: a new empty file, or a failure. */
    method Create() returns (err: Option<Error>)
      requires Valid()
      modifies this
      ensures Valid()
      ensures err.None? ==> present && rows == []
      ensures err.Some? ==> err.value == Io(IoOp.Create) && present == old(present) && rows == old(rows)
    {
      var fault: bool :| true;
      if fault {
        err := Some(Io(IoOp.Create));
      } else {
        present, rows, err := true, [], None;
      }
    }

    /** os.Open for reading: an absent file cannot be opened. */
    method OpenRead() returns (err: Option<Error>)
      ensures !present ==> err.Some?
      ensures err.Some? ==> err.value == Io(Open)
    {
      var fault: bool :| true;
      err := if fault || !present then Some(Io(Open)) else None;
    }

    /** csvReader.Read() with the reader positioned before record pos. */
    method ReadRecord(pos: nat) returns (step: ReadStep)
      requires pos <= |rows|
      ensures step.Record? ==> pos < |rows| && step.fields == rows[pos]
      ensures step.Eof? ==> pos == |rows|
      ensures step.Fault? ==> step.error == Io(Read)
    {
      var fault: bool :| true;
      if fault {
        step := Fault(Io(Read));
      } else if pos < |rows| {
        step := Record(rows[pos]);
      } else {
        step := Eof;
      }
    }

    /** os.OpenFile with O_APPEND|O_CREATE|O_WRONLY: creates the file when absent. */
    method OpenAppend() returns (err: Option<Error>)
      requires Valid()
      modifies this
      ensures Valid()
      ensures err.None? ==> present && rows == old(rows)
      ensures err.Some? ==> err.value == Io(IoOp.OpenAppend) && present == old(present) && rows == old(rows)
    {
      var fault: bool :| true;
      if fault {
        err := Some(Io(IoOp.OpenAppend));
      } else {
        present, err := true, None;
      }
    }

    /** csv.Writer.Write of one record at the end of the open file. */
    method Append(fields: Row) returns (err: Option<Error>)
      requires Valid() && present
      modifies this
      ensures Valid() && present
      ensures err.None? ==> rows == old(rows) + [fields]
      ensures err.Some? ==> err.value == Io(Write) && rows == old(rows)
    {
      var fault: bool :| true;
      if fault {
        err := Some(Io(Write));
      } else {
        rows, err := rows + [fields], None;
      }
    }

    /** os.Truncate(FileName, 0): fails when the file is absent. */
    method Truncate() returns (err: Option<Error>)
      requires Valid()
      modifies this
      ensures Valid()
      ensures !old(present) ==> err.Some?
      ensures err.None? ==> present && rows == []
      ensures err.Some? ==> err.value == Io(IoOp.Truncate) && present == old(present) && rows == old(rows)
    {
      var fault: bool :| true;
      if fault || !present {
        err := Some(Io(IoOp.Truncate));
      } else {
        rows, err := [], None;
      }
    }
  }
}
