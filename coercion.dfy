/** `convertValue`: turns one raw cell of a query result into the value that
    the bulk load sends for a column of the given SQL Server type. */
module Coercion {
  import opened Wrappers
  import opened JsText

  /** The `mssql` type objects the column mappings use. */
  datatype SqlType =
    | Date
    | DateTime
    | Bit
    | Int
    | BigInt
    | Float
    | NVarChar(maxLength: Option<nat>)  // None stands for sql.MAX

  /** The JavaScript values a cell can hold. Numbers are real numbers (IEEE
      rounding is not modelled) and NaN is kept apart; a `Date` object is its
      time value in milliseconds since the epoch. */
  datatype Value =
    | Undefined
    | Null
    | Str(s: string)
    | Bool(b: bool)
    | Number(x: real)
    | NaN
    | Timestamp(ms: int)

  /** The in-memory `sql.Table` handed to the bulk call: its name, the
      declared columns with their types, and the rows added to it. */
  datatype BulkTable = BulkTable(name: string, columns: seq<(string, SqlType)>, rows: seq<seq<Value>>)

  /** The parts of the runtime the model does not define: the JavaScript
      `Date` constructor on a string (its time value, or None for an Invalid
      Date), `parseFloat` (None for NaN), `String(x)` for numbers and `Date`
      objects, and whether the driver and SQL Server accept a bulk insert of
      a given table (`request.bulk` resolves rather than throws). */
  datatype Runtime = Runtime(
    parseDate: string -> Option<int>,
    parseFloat: string -> Option<real>,
    numberText: real -> string,
    dateText: int -> string,
    bulkAccepts: BulkTable -> bool)

  const PlaceholderDate := "1/1/1900"

  /** `String(v)`. */
  function ToText(rt: Runtime, v: Value): string {
    match v
    case Undefined => "undefined"
    case Null => "null"
    case Str(s) => s
    case Bool(b) => if b then "true" else "false"
    case Number(x) => rt.numberText(x)
    case NaN => "NaN"
    case Timestamp(ms) => rt.dateText(ms)
  }

  /** `Boolean(v)`. */
  predicate Truthy(v: Value) {
    match v
    case Undefined => false
    case Null => false
    case Str(s) => s != ""
    case Bool(b) => b
    case Number(x) => x != 0.0
    case NaN => false
    case Timestamp(_) => true
  }

  /** The values `convertValue` maps to null before looking at the type. */
  predicate IsBlank(v: Value) {
    v.Undefined? || v.Null? || v == Str("") || v == Str(PlaceholderDate)
  }

  predicate IsDateType(t: Option<SqlType>) {
    t == Some(Date) || t == Some(DateTime)
  }

  predicate IsIntegerType(t: Option<SqlType>) {
    t == Some(BigInt) || t == Some(Int)
  }

  /** The lower-cased texts a Bit column reads as true. */
  predicate IsTrueWord(w: string) {
    w == "true" || w == "1" || w == "yes"
  }

  predicate IsInteger(x: real) {
    x.Floor as real == x
  }

  function DateFrom(rt: Runtime, s: string): Value {
    match rt.parseDate(ReplaceFirst(s, ' ', 'T'))
    case None => Null
    case Some(ms) => Timestamp(ms)
  }

  /** `convertValue(value, columnName, columnType)`; `t` is None when the
      column has no type mapping. The column name only labels a warning and
      is left out. */
  function ConvertValue(rt: Runtime, v: Value, t: Option<SqlType>): (r: Value)
    ensures IsBlank(v) ==> r == Null
    ensures IsDateType(t) && v.Str? ==> r.Null? || r.Timestamp?
    ensures t == Some(Bit) ==> r.Null? || r.Bool?
    ensures IsIntegerType(t) ==> r.Null? || (r.Number? && IsInteger(r.x))
    ensures t == Some(Float) ==> r.Null? || r.Number?
    ensures !IsBlank(v) && IsDateType(t) && !v.Str? ==> r == v
    ensures !IsBlank(v) && !IsDateType(t) && t != Some(Bit) && !IsIntegerType(t) && t != Some(Float)
      ==> r == v
  {
    if IsBlank(v) then Null
    else if IsDateType(t) && v.Str? then DateFrom(rt, v.s)
    else if t == Some(Bit) then
      match v
      case Bool(_) => v
      case Str(s) => Bool(IsTrueWord(Lower(s)))
      case _ => Bool(Truthy(v))
    else if IsIntegerType(t) then
      match ParseInt(ToText(rt, v))
      case None => Null
      case Some(n) => Number(n as real)
    else if t == Some(Float) then
      match rt.parseFloat(ToText(rt, v))
      case None => Null
      case Some(x) => Number(x)
    else v
  }

  /** A date column reads `d + " " + t` as the ISO text `d + "T" + t` when
      `d` holds no space, and an unparseable date becomes null rather than
      an error. */
  lemma DateColumnReadsIsoText(rt: Runtime, d: string, time: string, t: Option<SqlType>)
    requires IsDateType(t)
    requires ' ' !in d
    ensures ConvertValue(rt, Str(d + " " + time), t) ==
      match rt.parseDate(d + "T" + time)
      case None => Null
      case Some(ms) => Timestamp(ms)
  {
    var s := d + " " + time;
    assert s[|d|] == ' ';
    SpacedTextNotBlank(s);
    DateColumnParses(rt, s, t);
    ReplaceFirstSplitsAtSeparator(d, time, ' ', 'T');
  }

  lemma SpacedTextNotBlank(s: string)
    requires ' ' in s
    ensures !IsBlank(Str(s))
  {
    assert forall i :: 0 <= i < |PlaceholderDate| ==> PlaceholderDate[i] != ' ';
  }

  lemma DateColumnParses(rt: Runtime, s: string, t: Option<SqlType>)
    requires IsDateType(t) && !IsBlank(Str(s))
    ensures ConvertValue(rt, Str(s), t) == DateFrom(rt, s)
  {
  }

  /** A Bit column reads text as true exactly when its lower-cased form is
      one of "true", "1" and "yes"; every other non-blank text is false, and
      a boolean passes through. */
  lemma BitColumnReadsTrueWords(rt: Runtime, v: Value)
    requires !IsBlank(v)
    ensures v.Str? ==> (ConvertValue(rt, v, Some(Bit)) == Bool(true) <==> IsTrueWord(Lower(v.s)))
    ensures v.Str? ==> (ConvertValue(rt, v, Some(Bit)) == Bool(false) <==> !IsTrueWord(Lower(v.s)))
    ensures v.Bool? ==> ConvertValue(rt, v, Some(Bit)) == v
  {
  }

  lemma IntegerColumnParses(rt: Runtime, s: string, t: Option<SqlType>)
    requires IsIntegerType(t) && !IsBlank(Str(s))
    ensures ConvertValue(rt, Str(s), t) ==
      match ParseInt(s)
      case None => Null
      case Some(n) => Number(n as real)
  {
  }

  /** A Float column passes the cell's text to `parseFloat`; NaN becomes
      null, any number is kept. */
  lemma FloatColumnParses(rt: Runtime, v: Value)
    requires !IsBlank(v)
    ensures ConvertValue(rt, v, Some(Float)) ==
      match rt.parseFloat(ToText(rt, v))
      case None => Null
      case Some(x) => Number(x)
  {
  }

  /** An integer column gives back the number that a decimal numeral
      denotes, whatever the runtime's oracles are. */
  lemma {:induction false} IntegerColumnReadsNumerals(rt: Runtime, n: int, t: Option<SqlType>)
    requires IsIntegerType(t)
    ensures ConvertValue(rt, Str(IntText(n)), t) == Number(n as real)
  {
    var s := IntText(n);
    NumeralNotBlank(s);
    ParseIntOfIntText(n, []);
    assert s + [] == s;
    IntegerColumnParses(rt, s, t);
  }

  lemma NumeralNotBlank(s: string)
    requires |s| >= 1 && forall c :: c in s ==> c == '-' || '0' <= c <= '9'
    ensures !IsBlank(Str(s))
  {
    assert PlaceholderDate[1] == '/' && PlaceholderDate[1] in PlaceholderDate;
  }

  /** An integer column keeps the leading numeral of a text and drops what
      follows it, as `parseInt` does: "12.50" gives 12. */
  lemma {:induction false} IntegerColumnTruncatesDecimals(rt: Runtime, n: int, frac: string, t: Option<SqlType>)
    requires IsIntegerType(t)
    ensures ConvertValue(rt, Str(IntText(n) + "." + frac), t) == Number(n as real)
  {
    var s := IntText(n) + "." + frac;
    assert s == IntText(n) + ("." + frac);
    assert s[|IntText(n)|] == '.';
    assert '.' !in PlaceholderDate;
    ParseIntOfIntText(n, "." + frac);
    IntegerColumnParses(rt, s, t);
  }

  /** Text that does not start with white space, a sign or a digit becomes
      null in an integer column: `parseInt` finds no digit. */
  lemma IntegerColumnRejectsWords(rt: Runtime, s: string, t: Option<SqlType>)
    requires IsIntegerType(t)
    requires |s| > 0 && !IsJsSpace(s[0]) && s[0] != '-' && s[0] != '+' && !IsDigit(s[0], 10)
    ensures ConvertValue(rt, Str(s), t) == Null
  {
    assert s[0] != PlaceholderDate[0];
    assert !HasHexPrefix(s);
    assert DigitRun(s, 10) == 0;
    ParseIntUnsigned(s);
    IntegerColumnParses(rt, s, t);
  }

  /** A boolean becomes null in an integer column: its text is a word. */
  lemma IntegerColumnRejectsBooleans(rt: Runtime, b: bool, t: Option<SqlType>)
    requires IsIntegerType(t)
    ensures ConvertValue(rt, Bool(b), t) == Null
  {
    var s := ToText(rt, Bool(b));
    assert s[0] == 't' || s[0] == 'f';
    assert !HasHexPrefix(s);
    assert DigitRun(s, 10) == 0;
    ParseIntUnsigned(s);
  }
}
