/** The JavaScript string and number built-ins the snapshot service relies on:
    `toLowerCase`, `trim`, `split`, `replace` with a one-character pattern,
    and `parseInt` without a radix. */
module JsText {
  import opened Wrappers
  import opened Seqs

  /** StrWhiteSpaceChar of ECMAScript: the WhiteSpace and LineTerminator code
      points that `trim` and `parseInt` skip. */
  predicate IsJsSpace(c: char) {
    var n := c as int;
    n == 0x09 || n == 0x0A || n == 0x0B || n == 0x0C || n == 0x0D || n == 0x20
    || n == 0xA0 || n == 0x1680 || (0x2000 <= n <= 0x200A) || n == 0x2028
    || n == 0x2029 || n == 0x202F || n == 0x205F || n == 0x3000 || n == 0xFEFF
  }

  function LowerChar(c: char): char {
    if 'A' <= c <= 'Z' then (c as int + 32) as char else c
  }

  /** `String.prototype.toLowerCase`, restricted to the ASCII letters. */
  function Lower(s: string): (r: string)
    ensures |r| == |s|
    ensures forall i :: 0 <= i < |r| ==> !('A' <= r[i] <= 'Z')
    ensures forall i :: 0 <= i < |s| && !('A' <= s[i] <= 'Z') ==> r[i] == s[i]
    ensures forall i :: 0 <= i < |s| && 'A' <= s[i] <= 'Z' ==> r[i] as int == s[i] as int + 32
  {
    seq(|s|, i requires 0 <= i < |s| => LowerChar(s[i]))
  }

  /* ---------- trim ---------- */

  function TrimStart(s: string): (r: string)
    ensures |r| <= |s| && r == s[|s| - |r|..]
    ensures forall k :: 0 <= k < |s| - |r| ==> IsJsSpace(s[k])
    ensures r == [] || !IsJsSpace(r[0])
    decreases |s|
  {
    if |s| > 0 && IsJsSpace(s[0]) then
      var r := TrimStart(s[1..]);
      assert s[1..][|s| - 1 - |r|..] == s[|s| - |r|..];
      r
    else s
  }

  function TrimEnd(s: string): (r: string)
    ensures |r| <= |s| && r == s[..|r|]
    ensures forall k :: |r| <= k < |s| ==> IsJsSpace(s[k])
    ensures r == [] || !IsJsSpace(r[|r| - 1])
    decreases |s|
  {
    if |s| > 0 && IsJsSpace(s[|s| - 1]) then
      var r := TrimEnd(s[..|s| - 1]);
      assert s[..|s| - 1][..|r|] == s[..|r|];
      r
    else s
  }

  /** `String.prototype.trim`: drops leading and trailing white space. */
  function Trim(s: string): (r: string)
    ensures r == [] || (!IsJsSpace(r[0]) && !IsJsSpace(r[|r| - 1]))
  {
    TrimEnd(TrimStart(s))
  }

  /** Trimming keeps no character that was not there. */
  lemma TrimKeepsOut(s: string, c: char)
    requires c !in s
    ensures c !in Trim(s)
  {
    var t := TrimStart(s);
    SliceOmits(s, |s| - |t|, |s|, c);
    SliceOmits(t, 0, |TrimEnd(t)|, c);
  }

  lemma SliceOmits(s: string, i: int, j: int, c: char)
    requires 0 <= i <= j <= |s| && c !in s
    ensures c !in s[i..j]
  {
  }

  lemma {:induction false} TrimUntouched(s: string)
    requires s == [] || (!IsJsSpace(s[0]) && !IsJsSpace(s[|s| - 1]))
    ensures Trim(s) == s
  {
  }

  /* ---------- split ---------- */

  /** `String.prototype.split` with a one-character separator: the pieces
      between separators, empty pieces included; never an empty list. */
  function Split(s: string, sep: char): (parts: seq<string>)
    ensures |parts| >= 1
    ensures forall p :: p in parts ==> sep !in p
  {
    if s == [] then [""]
    else
      var rest := Split(s[1..], sep);
      if s[0] == sep then [""] + rest
      else [[s[0]] + rest[0]] + rest[1..]
  }

  /** `Array.prototype.join` with a one-character separator. */
  function Join(parts: seq<string>, sep: char): string
    requires |parts| >= 1
  {
    if |parts| == 1 then parts[0] else parts[0] + [sep] + Join(parts[1..], sep)
  }

  lemma {:induction false} SplitPrefix(p: string, t: string, sep: char)
    requires sep !in p
    ensures Split(p + t, sep) == [p + Split(t, sep)[0]] + Split(t, sep)[1..]
    decreases |p|
  {
    if p != [] {
      assert (p + t)[1..] == p[1..] + t;
      SplitPrefix(p[1..], t, sep);
      assert [p[0]] + (p[1..] + Split(t, sep)[0]) == p + Split(t, sep)[0];
    } else {
      assert p + t == t;
      var parts := Split(t, sep);
      assert parts == [parts[0]] + parts[1..];
      assert p + parts[0] == parts[0];
    }
  }

  /** Splitting undoes joining when no piece holds the separator. */
  lemma {:induction false} SplitJoin(parts: seq<string>, sep: char)
    requires |parts| >= 1
    requires forall p :: p in parts ==> sep !in p
    ensures Split(Join(parts, sep), sep) == parts
    decreases |parts|
  {
    if |parts| == 1 {
      SplitPrefix(parts[0], [], sep);
      assert parts[0] + [] == parts[0];
    } else {
      var tail := Join(parts[1..], sep);
      assert Join(parts, sep) == parts[0] + ([sep] + tail);
      SplitPrefix(parts[0], [sep] + tail, sep);
      SplitJoin(parts[1..], sep);
      assert ([sep] + tail)[1..] == tail;
      assert Split([sep] + tail, sep) == [""] + parts[1..];
      assert parts[0] + "" == parts[0];
    }
  }

  /* ---------- replace with a one-character pattern ---------- */

  /** `s.replace(from, to)` with a one-character string pattern: only the
      first occurrence is replaced. */
  function ReplaceFirst(s: string, from: char, to: char): string {
    if s == [] then []
    else if s[0] == from then [to] + s[1..]
    else [s[0]] + ReplaceFirst(s[1..], from, to)
  }

  /** Position by position, the replacement touches exactly the first
      occurrence of `from`. */
  lemma {:induction false} ReplaceFirstAt(s: string, from: char, to: char)
    ensures |ReplaceFirst(s, from, to)| == |s|
    ensures forall i :: 0 <= i < |s| ==>
      ReplaceFirst(s, from, to)[i] == (if s[i] == from && from !in s[..i] then to else s[i])
  {
    if s != [] && s[0] != from {
      ReplaceFirstAt(s[1..], from, to);
      forall i | 0 < i < |s|
        ensures (from in s[..i]) == (from in s[1..][..i - 1])
      {
        assert s[..i] == [s[0]] + s[1..][..i - 1];
      }
    }
  }

  /** Replacing the first space of `d + " " + t`, where `d` has no space. */
  lemma {:induction false} ReplaceFirstSplitsAtSeparator(d: string, t: string, from: char, to: char)
    requires from !in d
    ensures ReplaceFirst(d + [from] + t, from, to) == d + [to] + t
    decreases |d|
  {
    if d == [] {
      assert d + [from] + t == [from] + t;
    } else {
      assert (d + [from] + t)[1..] == d[1..] + [from] + t;
      ReplaceFirstSplitsAtSeparator(d[1..], t, from, to);
    }
  }

  /* ---------- parseInt ---------- */

  predicate IsDigit(c: char, radix: nat) {
    ('0' <= c <= '9') || (radix == 16 && (('a' <= c <= 'f') || ('A' <= c <= 'F')))
  }

  function DigitValue(c: char): nat {
    if '0' <= c <= '9' then c as int - '0' as int
    else if 'a' <= c <= 'f' then c as int - 'a' as int + 10
    else if 'A' <= c <= 'F' then c as int - 'A' as int + 10
    else 0
  }

  /** Length of the longest prefix of `s` made of digits of `radix`. */
  function DigitRun(s: string, radix: nat): (k: nat)
    ensures k <= |s|
    ensures forall i :: 0 <= i < k ==> IsDigit(s[i], radix)
    ensures k < |s| ==> !IsDigit(s[k], radix)
  {
    if |s| > 0 && IsDigit(s[0], radix) then 1 + DigitRun(s[1..], radix) else 0
  }

  /** The number that a string of digits denotes in `radix`. */
  function DigitsValue(s: string, radix: nat): nat {
    if s == [] then 0 else DigitsValue(s[..|s| - 1], radix) * radix + DigitValue(s[|s| - 1])
  }

  predicate HasHexPrefix(u: string) {
    |u| >= 2 && u[0] == '0' && (u[1] == 'x' || u[1] == 'X')
  }

  /** The digits after the sign: a `0x`/`0X` prefix selects radix 16 (radix
      10 otherwise), then the longest run of digits is read; no digit at all
      gives NaN (here `None`). */
  function ParseDigits(u: string): Option<nat> {
    var radix := if HasHexPrefix(u) then 16 else 10;
    var w := if HasHexPrefix(u) then u[2..] else u;
    var k := DigitRun(w, radix);
    if k == 0 then None else Some(DigitsValue(w[..k], radix))
  }

  /** `parseInt(s)` with no radix: skip leading white space, read one sign,
      then the digits as `ParseDigits` does. */
  function ParseInt(s: string): (r: Option<int>)
    ensures r.Some? ==> exists i :: 0 <= i < |s| && '0' <= s[i] <= '9'
    ensures r.Some? && r.value < 0 ==> '-' in s
  {
    var t := TrimStart(s);
    var i := |s| - |t|;
    assert forall k :: 0 <= k < |t| ==> t[k] == s[i + k];
    ParseSigned(t)
  }

  /** What `parseInt` reads once the leading white space is skipped: an
      optional sign, then the digits. */
  function ParseSigned(t: string): (r: Option<int>)
    ensures r.Some? ==> exists i :: 0 <= i < |t| && '0' <= t[i] <= '9'
    ensures r.Some? && r.value < 0 ==> |t| > 0 && t[0] == '-'
  {
    ParseDigitsStartsWithDigit(t);
    ParseDigitsStartsWithDigit(if |t| > 0 then t[1..] else t);
    if |t| > 0 && t[0] == '-' then
      match ParseDigits(t[1..])
      case None => None
      case Some(v) => Some(-(v as int))
    else if |t| > 0 && t[0] == '+' then
      match ParseDigits(t[1..])
      case None => None
      case Some(v) => Some(v)
    else
      match ParseDigits(t)
      case None => None
      case Some(v) => Some(v)
  }

  /** Digits are read only from a text that starts with a decimal digit
      (`0` of a `0x` prefix included). */
  lemma ParseDigitsStartsWithDigit(u: string)
    ensures ParseDigits(u).Some? ==> |u| > 0 && '0' <= u[0] <= '9'
  {
  }

  function DigitChar(d: nat): char
    requires d < 10
  {
    ('0' as int + d) as char
  }

  /** The decimal numeral of a natural number, without leading zeros. */
  function DecimalText(n: nat): (r: string)
    ensures |r| >= 1
    ensures forall c :: c in r ==> '0' <= c <= '9'
    ensures n > 0 ==> r[0] != '0'
  {
    if n < 10 then [DigitChar(n)] else DecimalText(n / 10) + [DigitChar(n % 10)]
  }

  /** The decimal numeral of an integer, with a `-` sign when negative. */
  function IntText(n: int): (r: string)
    ensures |r| >= 1
    ensures forall c :: c in r ==> c == '-' || '0' <= c <= '9'
  {
    if n < 0 then "-" + DecimalText(-n) else DecimalText(n)
  }

  lemma {:induction false} DecimalTextValue(n: nat)
    ensures DigitsValue(DecimalText(n), 10) == n
  {
    if n >= 10 {
      var p := DecimalText(n / 10);
      var s := p + [DigitChar(n % 10)];
      assert s[..|s| - 1] == p;
      DecimalTextValue(n / 10);
    }
  }

  lemma {:induction false} DigitRunAfterDigits(p: string, t: string, radix: nat)
    requires forall c :: c in p ==> IsDigit(c, radix)
    ensures DigitRun(p + t, radix) == |p| + DigitRun(t, radix)
    decreases |p|
  {
    if p != [] {
      assert (p + t)[0] == p[0];
      assert (p + t)[1..] == p[1..] + t;
      DigitRunAfterDigits(p[1..], t, radix);
    } else {
      assert p + t == t;
    }
  }

  lemma {:induction false} ParseDigitsOfDecimal(m: nat, rest: string)
    requires rest == [] || !IsDigit(rest[0], 10)
    requires !(m == 0 && |rest| > 0 && (rest[0] == 'x' || rest[0] == 'X'))
    ensures ParseDigits(DecimalText(m) + rest) == Some(m)
  {
    var d := DecimalText(m);
    var u := d + rest;
    assert u[0] == d[0];
    assert !HasHexPrefix(u) by {
      if m == 0 {
        assert d == "0";
      }
    }
    DigitRunAfterDigits(d, rest, 10);
    assert u[..|d|] == d;
    DecimalTextValue(m);
  }

  lemma ParseIntUnsigned(s: string)
    requires |s| > 0 && !IsJsSpace(s[0]) && s[0] != '-' && s[0] != '+'
    ensures ParseInt(s) == ParseDigits(s)
  {
    assert TrimStart(s) == s;
  }

  /** Leading white space is skipped before anything else is read. */
  lemma {:induction false} TrimStartSkipsSpace(w: string, s: string)
    requires forall k :: 0 <= k < |w| ==> IsJsSpace(w[k])
    ensures TrimStart(w + s) == TrimStart(s)
    decreases |w|
  {
    if w == [] {
      assert w + s == s;
    } else {
      assert (w + s)[0] == w[0] && (w + s)[1..] == w[1..] + s;
      TrimStartSkipsSpace(w[1..], s);
    }
  }

  /** `parseInt` reads the same number with any white space in front. */
  lemma ParseIntSkipsSpace(w: string, s: string)
    requires forall k :: 0 <= k < |w| ==> IsJsSpace(w[k])
    ensures ParseInt(w + s) == ParseInt(s)
  {
    TrimStartSkipsSpace(w, s);
  }

  /** A `+` sign in front of an unsigned numeral changes nothing. */
  lemma ParseIntPlus(s: string)
    requires s == [] || (!IsJsSpace(s[0]) && s[0] != '-' && s[0] != '+')
    ensures ParseInt(['+'] + s) == ParseInt(s)
  {
    var p := ['+'] + s;
    assert !IsJsSpace(p[0]);
    assert TrimStart(p) == p && p[1..] == s;
    if s != [] {
      ParseIntUnsigned(s);
    } else {
      assert TrimStart(s) == s;
    }
  }

  lemma ParseIntMinus(s: string)
    requires |s| > 0 && s[0] == '-'
    ensures ParseInt(s) == match ParseDigits(s[1..]) case None => None case Some(v) => Some(-(v as int))
  {
    assert !IsJsSpace(s[0]);
    assert TrimStart(s) == s;
  }

  /** A minus sign negates what the digits after it denote. */
  lemma ParseIntNegates(d: string, rest: string, m: nat)
    requires ParseDigits(d + rest) == Some(m)
    ensures ParseInt("-" + d + rest) == Some(-(m as int))
  {
    var s := "-" + d + rest;
    assert s[0] == '-';
    assert s[1..] == d + rest;
    ParseIntMinus(s);
  }

  lemma {:induction false} ParseIntOfNegativeText(n: int, rest: string)
    requires n < 0
    requires rest == [] || !IsDigit(rest[0], 10)
    ensures ParseInt(IntText(n) + rest) == Some(n)
  {
    var m: nat := -n;
    assert IntText(n) == "-" + DecimalText(m);
    ParseDigitsOfDecimal(m, rest);
    ParseIntNegates(DecimalText(m), rest, m);
  }

  lemma {:induction false} ParseIntOfNaturalText(n: nat, rest: string)
    requires rest == [] || !IsDigit(rest[0], 10)
    requires !(n == 0 && |rest| > 0 && (rest[0] == 'x' || rest[0] == 'X'))
    ensures ParseInt(IntText(n) + rest) == Some(n)
  {
    var s := IntText(n) + rest;
    var d := DecimalText(n);
    assert s == d + rest;
    assert s[0] == d[0] && d[0] in d;
    ParseDigitsOfDecimal(n, rest);
    ParseIntUnsigned(s);
  }

  /** `parseInt` reads back the decimal numeral of any integer, and stops at
      the first character that is not a digit; the one exception is `0`
      followed by `x`, which `parseInt` takes for a hexadecimal prefix. */
  lemma {:induction false} ParseIntOfIntText(n: int, rest: string)
    requires rest == [] || !IsDigit(rest[0], 10)
    requires !(n == 0 && |rest| > 0 && (rest[0] == 'x' || rest[0] == 'X'))
    ensures ParseInt(IntText(n) + rest) == Some(n)
  {
    if n < 0 {
      ParseIntOfNegativeText(n, rest);
    } else {
      ParseIntOfNaturalText(n, rest);
    }
  }

  /** The hexadecimal quirk: `0x` followed by a hexadecimal digit is read in
      radix 16, so the text `0x1F` gives 31 rather than 0. */
  lemma HexPrefixExample()
    ensures ParseInt("0x1F") == Some(31)
  {
    assert HasHexPrefix("0x1F");
    assert "0x1F"[2..] == "1F";
    assert DigitRun("1F", 16) == 2;
    assert "1F"[..2] == "1F";
    assert DigitsValue("1F", 16) == 31 by {
      assert "1F"[..1] == "1";
      assert DigitsValue("1", 16) == 1 by { assert "1"[..0] == ""; }
    }
    ParseIntUnsigned("0x1F");
  }
}
