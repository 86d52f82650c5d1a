/**
 * models/utils/utils.go: the conversions and the file helpers the CSV
 * backend uses. FileExists, FileIsEmpty and ClearFile are operating-system
 * calls and appear as DataFile.Stat and DataFile.Truncate.
 */
module Utils {
  import opened Errors
  import opened Strconv
  import opened Files

  /**
   * ToBool: strconv.ParseBool with its error discarded. True exactly for
   * Go's true spellings; every other text, even one ParseBool rejects,
   * reads as false without an error.
   */
  function ToBool(info: string): (b: bool)
    ensures b <==> info in TrueSpellings
    ensures info !in TrueSpellings && info !in FalseSpellings ==> !b
  {
    ParseBool(info).value
  }

  lemma ToBoolFormatBool(b: bool)
    ensures ToBool(FormatBool(b)) == b
  {
  }

  /** IntToString: the decimal rendering of info, which Atoi reads back. */
  function IntToString(info: int): (s: string)
    ensures MinInt64 <= info <= MaxInt64 ==> Atoi(s) == Parsed(info, None)
    ensures |s| > 0 && (s[0] == '-' <==> info < 0)
  {
    if MinInt64 <= info <= MaxInt64 then (AtoiItoa(info); Itoa(info)) else Itoa(info)
  }

  /**
   * CloseFileAndHandleError, the deferred close: a close error is recorded
   * only when no error was recorded before; a successful close or an
   * earlier error leaves err as it was (the first error wins).
   */
  function CloseFileAndHandleError(err: Option<Error>, closeErr: Option<Error>): (r: Option<Error>)
    ensures err.Some? ==> r == err
    ensures closeErr.None? ==> r == err
    ensures err.None? ==> r == closeErr
  {
    if closeErr.Some? && err.None? then closeErr else err
  }

  /**
   * GetLineCount: the number of records in the file, 0 for an absent file;
   * an open or read failure gives an error instead of a count.
   */
  method GetLineCount(file: DataFile) returns (r: Result<nat>)
    requires file.Valid()
    ensures !file.present ==> r == Ok(0)
    ensures r.Ok? ==> r.value == |file.rows|
    ensures r.Err? ==> r.error == Io(Open) || r.error == Io(Read)
  {
    var found := file.Stat();
    if !found {
      return Ok(0);
    }
    var openErr := file.OpenRead();
    if openErr.Some? {
      return Err(openErr.value);
    }
    var rowCount := 0;
    while true
      invariant rowCount <= |file.rows|
      decreases |file.rows| - rowCount
    {
      var step := file.ReadRecord(rowCount);
      match step {
        case Eof =>
          return Ok(rowCount);
        case Fault(e) =>
          return Err(e);
        case Record(_) =>
          rowCount := rowCount + 1;
      }
    }
  }
}
