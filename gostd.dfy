/**
 * Models of the library behaviour the relay core leans on: Go's strconv.Itoa
 * and strconv.Atoi on a 64-bit int, strings.Split on one separator, a
 * separator join (Go's strings.Join and Python's str.join agree), Go's
 * byte-wise string order, and the record reader of Go's encoding/csv package
 * with its default settings, on unquoted fields.
 */
module GoStd {

  datatype Option<+T> = None | Some(value: T)

  datatype Result<+T, +E> = Ok(value: T) | Err(error: E)

  const MIN_INT64: int := -0x8000_0000_0000_0000
  const MAX_INT64: int := 0x7FFF_FFFF_FFFF_FFFF
  const MAX_UINT64: int := 0xFFFF_FFFF_FFFF_FFFF

  predicate InInt64(n: int) {
    MIN_INT64 <= n <= MAX_INT64
  }

  /** Go's x++ on an int64: one more, except that MaxInt64 wraps to MinInt64. */
  function Inc64(x: int): (y: int)
    requires InInt64(x)
    ensures InInt64(y)
    ensures x < MAX_INT64 ==> y == x + 1
    ensures x == MAX_INT64 ==> y == MIN_INT64
  {
    if x == MAX_INT64 then MIN_INT64 else x + 1
  }

  /** A set of keys is empty or has a member (what a range over a map picks from). */
  lemma EmptyOrMember(s: set<int>)
    ensures s == {} || exists x :: x in s
  {
    if !(exists x :: x in s) {
      assert s == {};
    }
  }

  // ---------------------------------------------------------------------
  // Decimal numerals (strconv)
  // ---------------------------------------------------------------------

  predicate IsDigit(c: char) {
    '0' <= c <= '9'
  }

  predicate AllDigits(s: string) {
    forall i :: 0 <= i < |s| ==> IsDigit(s[i])
  }

  function DigitValue(c: char): nat
    requires IsDigit(c)
  {
    c as int - '0' as int
  }

  function DigitChar(d: nat): (c: char)
    requires d < 10
    ensures IsDigit(c) && DigitValue(c) == d
  {
    (d + '0' as int) as char
  }

  /** The decimal digits of n, most significant first, without leading zeros. */
  function NatToString(n: nat): string
    decreases n
  {
    if n < 10 then [DigitChar(n)] else NatToString(n / 10) + [DigitChar(n % 10)]
  }

  /** The numeral of a natural number is a non-empty run of digits. */
  lemma {:induction false} NatToStringDigits(n: nat)
    ensures |NatToString(n)| > 0 && AllDigits(NatToString(n))
    decreases n
  {
    if n >= 10 {
      NatToStringDigits(n / 10);
    }
  }

  /** strconv.Itoa; also what fmt's %v verb prints for an int. */
  function Itoa(n: int): string {
    if n < 0 then "-" + NatToString(-n) else NatToString(n)
  }

  /** The number a non-empty run of decimal digits denotes. */
  function DigitsValue(s: string): nat
    requires AllDigits(s)
  {
    if |s| == 0 then 0 else DigitsValue(s[..|s| - 1]) * 10 + DigitValue(s[|s| - 1])
  }

  /** s without the one leading '+' or '-' that strconv.ParseInt takes as its sign. */
  function Unsigned(s: string): (body: string)
    ensures |s| > 0 && (s[0] == '+' || s[0] == '-') ==> body == s[1..]
    ensures !(|s| > 0 && (s[0] == '+' || s[0] == '-')) ==> body == s
  {
    if |s| > 0 && (s[0] == '+' || s[0] == '-') then s[1..] else s
  }

  /** The run of decimal digits s starts with. */
  function LeadingDigits(s: string): (run: string)
    ensures |run| <= |s| && run == s[..|run|] && AllDigits(run)
    ensures |run| < |s| ==> !IsDigit(s[|run|])
    decreases |s|
  {
    if s == [] || !IsDigit(s[0]) then [] else [s[0]] + LeadingDigits(s[1..])
  }

  /** A numeral is its own leading run. */
  lemma LeadingDigitsOfNumeral(s: string)
    ensures AllDigits(s) ==> LeadingDigits(s) == s
  {
  }

  /** A run of digits followed by more text leads that text's own leading run. */
  lemma {:induction false} LeadingDigitsAppend(digits: string, rest: string)
    requires AllDigits(digits)
    ensures LeadingDigits(digits + rest) == digits + LeadingDigits(rest)
    decreases |digits|
  {
    if digits != [] {
      assert (digits + rest)[1..] == digits[1..] + rest;
      LeadingDigitsAppend(digits[1..], rest);
      assert digits == [digits[0]] + digits[1..];
    } else {
      assert digits + rest == rest;
    }
  }

  /** Appending digits never makes a numeral smaller. */
  lemma {:induction false} DigitsValueGrows(digits: string, more: string)
    requires AllDigits(digits) && AllDigits(more)
    ensures AllDigits(digits + more) && DigitsValue(digits + more) >= DigitsValue(digits)
    decreases |more|
  {
    if more == [] {
      assert digits + more == digits;
    } else {
      var shorter := more[..|more| - 1];
      DigitsValueGrows(digits, shorter);
      assert (digits + more)[..|digits + more| - 1] == digits + shorter;
    }
  }

  /**
   * The syntax strconv.ParseInt accepts in base 10: an optional '+' or '-'
   * followed by at least one decimal digit, and nothing else.  The value is
   * the mathematical one; the range check is Atoi's.
   */
  function ParseDecimal(s: string): Option<int> {
    var signed := |s| > 0 && (s[0] == '+' || s[0] == '-');
    var body := Unsigned(s);
    if |body| == 0 || !AllDigits(body) then None
    else
      var magnitude: int := DigitsValue(body);
      Some(if signed && s[0] == '-' then -magnitude else magnitude)
  }

  /** strconv.Atoi on a 64-bit platform: None is a syntax or a range error. */
  function Atoi(s: string): (r: Option<int>)
    ensures r.Some? ==> InInt64(r.value)
    ensures r.Some? <==> ParseDecimal(s).Some? && InInt64(ParseDecimal(s).value)
  {
    match ParseDecimal(s)
    case None => None
    case Some(n) => if InInt64(n) then Some(n) else None
  }

  /**
   * The int that strconv.Atoi returns next to its error, for callers that
   * drop the error.  strconv.ParseUint reads the digits after the sign from
   * the left and stops with a range error as soon as the digits read so far
   * exceed 2^64 - 1, without looking further; ParseInt then returns the
   * 64-bit bound on the sign's side.  Short of that, text that is not a
   * signed numeral is a syntax error and gives 0, and a numeral outside
   * the int64 range gives the nearest bound.
   */
  function AtoiValue(s: string): (n: int)
    ensures InInt64(n)
    ensures Atoi(s).Some? ==> n == Atoi(s).value
    ensures ParseDecimal(s).None? && DigitsValue(LeadingDigits(Unsigned(s))) <= MAX_UINT64 ==> n == 0
    ensures ParseDecimal(s).Some? && ParseDecimal(s).value > MAX_INT64 ==> n == MAX_INT64
    ensures ParseDecimal(s).Some? && ParseDecimal(s).value < MIN_INT64 ==> n == MIN_INT64
  {
    var run := LeadingDigits(Unsigned(s));
    LeadingDigitsOfNumeral(Unsigned(s));
    if DigitsValue(run) > MAX_UINT64 then
      if |s| > 0 && s[0] == '-' then MIN_INT64 else MAX_INT64
    else
      match ParseDecimal(s)
      case None => 0
      case Some(v) => if v < MIN_INT64 then MIN_INT64 else if v > MAX_INT64 then MAX_INT64 else v
  }

  /** A numeral at or past MaxInt64 reads as MaxInt64. */
  lemma AtoiValueMax(s: string)
    requires |s| > 0 && AllDigits(s) && DigitsValue(s) >= MAX_INT64
    ensures AtoiValue(s) == MAX_INT64
  {
    assert IsDigit(s[0]);
    assert Unsigned(s) == s;
    LeadingDigitsOfNumeral(s);
    assert ParseDecimal(s) == Some(DigitsValue(s));
  }

  /**
   * Atoi's value once the digits after the sign pass 2^64 - 1: the bound on
   * the sign's side, whatever text follows those digits.
   */
  lemma AtoiValueOverflow(sign: string, digits: string, rest: string)
    requires sign == "" || sign == "+" || sign == "-"
    requires AllDigits(digits) && DigitsValue(digits) > MAX_UINT64
    ensures AtoiValue(sign + digits + rest) == if sign == "-" then MIN_INT64 else MAX_INT64
  {
    var s := sign + digits + rest;
    var body := digits + rest;
    assert s == sign + body;
    assert IsDigit(body[0]);
    SignSplit(sign, body);
    var run := LeadingDigits(body);
    LeadingDigitsAppend(digits, rest);
    DigitsValueGrows(digits, LeadingDigits(rest));
    assert DigitsValue(run) > MAX_UINT64;
    AtoiValueOfLongRun(s);
  }

  /** Once the leading digits overflow 2^64 - 1, only the sign decides the result. */
  lemma AtoiValueOfLongRun(s: string)
    requires DigitsValue(LeadingDigits(Unsigned(s))) > MAX_UINT64
    ensures AtoiValue(s) == if |s| > 0 && s[0] == '-' then MIN_INT64 else MAX_INT64
  {
  }

  /** A sign in front of text that starts with a digit is what ParseInt takes as the sign. */
  lemma SignSplit(sign: string, body: string)
    requires sign == "" || sign == "+" || sign == "-"
    requires |body| > 0 && IsDigit(body[0])
    ensures Unsigned(sign + body) == body
    ensures (|sign + body| > 0 && (sign + body)[0] == '-') <==> sign == "-"
  {
    if sign == "" {
      assert sign + body == body;
    } else {
      assert (sign + body)[0] == sign[0];
      assert (sign + body)[1..] == body;
    }
  }

  lemma {:induction false} NatToStringValue(n: nat)
    ensures AllDigits(NatToString(n)) && DigitsValue(NatToString(n)) == n
    decreases n
  {
    NatToStringDigits(n);
    if n >= 10 {
      var s := NatToString(n);
      assert s[..|s| - 1] == NatToString(n / 10);
      NatToStringValue(n / 10);
    }
  }

  /** Reading back what Itoa prints gives the number again. */
  lemma AtoiItoa(n: int)
    requires InInt64(n)
    ensures Atoi(Itoa(n)) == Some(n)
  {
    var digits := NatToString(if n < 0 then -n else n);
    NatToStringDigits(if n < 0 then -n else n);
    NatToStringValue(if n < 0 then -n else n);
    if n < 0 {
      assert ("-" + digits)[1..] == digits;
    } else {
      assert IsDigit(digits[0]);
    }
  }

  /** Itoa never prints a separator the record formats use. */
  lemma ItoaPlain(n: int)
    ensures ',' !in Itoa(n) && '"' !in Itoa(n) && '\n' !in Itoa(n)
    ensures n >= 0 ==> '-' !in Itoa(n)
    ensures n >= 0 ==> AllDigits(Itoa(n))
    ensures |Itoa(n)| > 0
  {
    var digits := NatToString(if n < 0 then -n else n);
    NatToStringDigits(if n < 0 then -n else n);
    assert forall i :: 0 <= i < |digits| ==> IsDigit(digits[i]);
  }

  // ---------------------------------------------------------------------
  // Splitting and joining
  // ---------------------------------------------------------------------

  /** strings.Split(s, string(sep)): every occurrence of sep ends a part. */
  function Split(s: string, sep: char): (parts: seq<string>)
    ensures |parts| >= 1
    decreases |s|
  {
    if s == [] then [""]
    else
      var rest := Split(s[1..], sep);
      if s[0] == sep then [""] + rest else [[s[0]] + rest[0]] + rest[1..]
  }

  /** Go's strings.Join(parts, string(sep)) and Python's sep.join(parts). */
  function Join(parts: seq<string>, sep: char): string {
    if |parts| == 0 then ""
    else if |parts| == 1 then parts[0]
    else parts[0] + [sep] + Join(parts[1..], sep)
  }

  lemma {:induction false} SplitWithoutSep(s: string, sep: char)
    requires sep !in s
    ensures Split(s, sep) == [s]
    decreases |s|
  {
    if s != [] {
      SplitWithoutSep(s[1..], sep);
      assert [s[0]] + s[1..] == s;
    }
  }

  /** A separator-free part followed by the separator splits off as one part. */
  lemma {:induction false} SplitAfterPart(a: string, sep: char, b: string)
    requires sep !in a
    ensures Split(a + [sep] + b, sep) == [a] + Split(b, sep)
    decreases |a|
  {
    var s := a + [sep] + b;
    if a == [] {
      assert s[1..] == b;
    } else {
      assert s[1..] == a[1..] + [sep] + b;
      SplitAfterPart(a[1..], sep, b);
      assert [a[0]] + a[1..] == a;
    }
  }

  lemma SplitTwo(a: string, sep: char, b: string)
    requires sep !in a && sep !in b
    ensures Split(a + [sep] + b, sep) == [a, b]
  {
    SplitWithoutSep(b, sep);
    SplitAfterPart(a, sep, b);
  }

  lemma SplitThree(a: string, sep: char, b: string, c: string)
    requires sep !in a && sep !in b && sep !in c
    ensures Split(a + [sep] + b + [sep] + c, sep) == [a, b, c]
  {
    SplitTwo(b, sep, c);
    assert a + [sep] + b + [sep] + c == a + [sep] + (b + [sep] + c);
    SplitAfterPart(a, sep, b + [sep] + c);
  }

  /** Splitting a join returns the parts when no part holds the separator. */
  lemma {:induction false} SplitJoin(parts: seq<string>, sep: char)
    requires |parts| >= 1
    requires forall i :: 0 <= i < |parts| ==> sep !in parts[i]
    ensures Split(Join(parts, sep), sep) == parts
    decreases |parts|
  {
    if |parts| == 1 {
      SplitWithoutSep(parts[0], sep);
    } else {
      SplitJoin(parts[1..], sep);
      SplitAfterPart(parts[0], sep, Join(parts[1..], sep));
      assert [parts[0]] + parts[1..] == parts;
    }
  }

  // ---------------------------------------------------------------------
  // String order
  // ---------------------------------------------------------------------

  /**
   * Go's `<` on strings: byte-wise lexicographic order.  UTF-8 keeps code
   * point order, so comparing characters by value gives the same answer.
   */
  predicate StringLess(a: string, b: string) {
    if a == [] then b != []
    else if b == [] then false
    else if a[0] != b[0] then a[0] < b[0]
    else StringLess(a[1..], b[1..])
  }

  lemma {:induction false} StringLessIrreflexive(a: string)
    ensures !StringLess(a, a)
    decreases |a|
  {
    if a != [] {
      StringLessIrreflexive(a[1..]);
    }
  }

  lemma {:induction false} StringLessTransitive(a: string, b: string, c: string)
    requires StringLess(a, b) && StringLess(b, c)
    ensures StringLess(a, c)
    decreases |a|
  {
    if a != [] && b != [] && c != [] && a[0] == b[0] && b[0] == c[0] {
      StringLessTransitive(a[1..], b[1..], c[1..]);
    }
  }

  lemma {:induction false} StringLessTotal(a: string, b: string)
    requires a != b
    ensures StringLess(a, b) || StringLess(b, a)
    decreases |a|
  {
    if a != [] && b != [] && a[0] == b[0] {
      assert a == [a[0]] + a[1..] && b == [b[0]] + b[1..];
      StringLessTotal(a[1..], b[1..]);
    }
  }

  // ---------------------------------------------------------------------
  // encoding/csv, default settings
  // ---------------------------------------------------------------------

  /** What a csv.Reader delivers before it stops: the records, and whether it stopped at end of input. */
  datatype CsvRead = CsvRead(records: seq<seq<string>>, ok: bool)

  /**
   * The text of a line as the reader's readLine leaves it, without its
   * terminator: "\r\n" counts as "\n", and a '\r' that ends the input
   * (the one line without a newline) is dropped too.
   */
  function Chomp(line: string): string {
    if |line| >= 2 && line[|line| - 2] == '\r' && line[|line| - 1] == '\n' then line[..|line| - 2]
    else if |line| > 0 && (line[|line| - 1] == '\n' || line[|line| - 1] == '\r') then line[..|line| - 1]
    else line
  }

  /** A line's text comes back whether the line ends in "\n", in "\r\n", in a final '\r' or at end of input. */
  lemma ChompLineEndings(text: string)
    requires text == [] || (text[|text| - 1] != '\r' && text[|text| - 1] != '\n')
    ensures Chomp(text) == text
    ensures Chomp(text + "\n") == text && Chomp(text + "\r\n") == text && Chomp(text + "\r") == text
  {
    assert (text + "\n")[..|text|] == text;
    assert (text + "\r")[..|text|] == text;
    assert (text + "\r\n")[..|text|] == text;
  }

  /**
   * csv.NewReader(f).Read() until it stops, over the input's lines (each but
   * the last ends in '\n').  Empty lines, "\r\n" ones included, are skipped; each
   * other line is one record, split at commas.  With the default
   * FieldsPerRecord of 0 the first record fixes the field count, and a later
   * record with another count is an error (ErrFieldCount): reading stops
   * there and ok is false.
   */
  function ReadCsv(lines: seq<string>): CsvRead {
    ReadCsvFrom(lines, None)
  }

  function ReadCsvFrom(lines: seq<string>, fields: Option<nat>): (r: CsvRead)
    ensures |r.records| <= |lines|
    ensures forall i :: 0 <= i < |r.records| ==> |r.records[i]| >= 1
    decreases |lines|
  {
    if lines == [] then CsvRead([], true)
    else
      var text := Chomp(lines[0]);
      if text == "" then ReadCsvFrom(lines[1..], fields)
      else
        var record := Split(text, ',');
        if fields.Some? && |record| != fields.value then CsvRead([], false)
        else
          var rest := ReadCsvFrom(lines[1..], Some(|record|));
          CsvRead([record] + rest.records, rest.ok)
  }
}
