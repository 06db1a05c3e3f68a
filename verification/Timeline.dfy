/**
  The printed form of a timeline in weeks and its parser (internal/data/timeline.go).
  What the string unquoting of the Go library makes of escape sequences is the parameter
  `unescape`.
 */
module Timeline {
  import opened Common

  const MIN_INT32: int := -0x8000_0000
  const MAX_INT32: int := 0x7fff_ffff

  // ---------------------------------------------------------------------
  // Decimal numerals.
  // ---------------------------------------------------------------------

  predicate IsDigit(c: char) { '0' <= c <= '9' }

  function DigitChar(d: int): char
    requires 0 <= d < 10
  {
    '0' + d as char
  }

  function DigitValue(c: char): int {
    c as int - '0' as int
  }

  function Digits(n: nat): string {
    if n < 10 then [DigitChar(n)] else Digits(n / 10) + [DigitChar(n % 10)]
  }

  /** The decimal form of `%d`. */
  function Decimal(n: int): string {
    if n < 0 then "-" + Digits(-n) else Digits(n)
  }

  predicate AllDigits(s: string) {
    forall i :: 0 <= i < |s| ==> IsDigit(s[i])
  }

  function Value(s: string): int {
    if s == "" then 0 else 10 * Value(s[..|s| - 1]) + DigitValue(s[|s| - 1])
  }

  /** Base ten, 32 bits: an optional sign, at least one digit, nothing else, in range. */
  function ParseInt32(s: string): Option<int> {
    var negative := s != "" && s[0] == '-';
    var digits := if s != "" && (s[0] == '-' || s[0] == '+') then s[1..] else s;
    if digits == "" || !AllDigits(digits) then None
    else
      var v := if negative then -Value(digits) else Value(digits);
      if MIN_INT32 <= v <= MAX_INT32 then Some(v) else None
  }

  lemma {:induction false} DigitsParse(n: nat)
    ensures Digits(n) != "" && AllDigits(Digits(n)) && Value(Digits(n)) == n
    decreases n
  {
    if n >= 10 {
      DigitsParse(n / 10);
      var s := Digits(n / 10) + [DigitChar(n % 10)];
      assert s[..|s| - 1] == Digits(n / 10);
    } else {
      assert Digits(n)[..0] == "";
    }
  }

  lemma DecimalParses(n: int)
    ensures ParseInt32(Decimal(n)) == if MIN_INT32 <= n <= MAX_INT32 then Some(n) else None
    ensures forall i :: 0 <= i < |Decimal(n)| ==> Decimal(n)[i] == '-' || IsDigit(Decimal(n)[i])
  {
    if n < 0 {
      DigitsParse(-n);
      assert Decimal(n)[1..] == Digits(-n);
    } else {
      DigitsParse(n);
      assert IsDigit(Digits(n)[0]);
    }
  }

  // ---------------------------------------------------------------------
  // Quoting and splitting.
  // ---------------------------------------------------------------------

  function Split(s: string, sep: char): (parts: seq<string>)
    ensures parts != []
  {
    if s == "" then [""]
    else if s[0] == sep then [""] + Split(s[1..], sep)
    else
      var rest := Split(s[1..], sep);
      [[s[0]] + rest[0]] + rest[1..]
  }

  lemma {:induction false} SplitOnce(a: string, b: string, sep: char)
    requires sep !in a && sep !in b
    ensures Split(b, sep) == [b]
    ensures Split(a + [sep] + b, sep) == [a, b]
    decreases |a| + |b|
  {
    if b != "" {
      SplitOnce("", b[1..], sep);
      assert [b[0]] + b[1..] == b;
    }
    if a == "" {
      assert (a + [sep] + b)[1..] == b;
    } else {
      SplitOnce(a[1..], b, sep);
      assert (a + [sep] + b)[1..] == a[1..] + [sep] + b;
      assert [a[0]] + a[1..] == a;
    }
  }

  predicate Plain(s: string) {
    forall i :: 0 <= i < |s| ==> s[i] != '"' && s[i] != '\\' && s[i] != '\n'
  }

  /** A double-quoted string without escapes stands for what is between the quotes. */
  function Unquote(s: string, unescape: string -> Option<string>): Option<string> {
    if |s| >= 2 && s[0] == '"' && s[|s| - 1] == '"' && Plain(s[1..|s| - 1]) then Some(s[1..|s| - 1])
    else unescape(s)
  }

  // ---------------------------------------------------------------------
  // The two directions.
  // ---------------------------------------------------------------------

  /** The unit, a plain string, needs no escapes when quoted. */
  function MarshalJson(weeks: int): string {
    "\"" + Decimal(weeks) + " weeks" + "\""
  }

  function ParseWeeks(text: string): Option<int> {
    var parts := Split(text, ' ');
    if |parts| != 2 || parts[1] != "weeks" then None else ParseInt32(parts[0])
  }

  function UnmarshalJson(json: string, unescape: string -> Option<string>): Option<int> {
    var text := Unquote(json, unescape);
    if text.None? then None else ParseWeeks(text.value)
  }

  class Cell {
    var weeks: int

    constructor (weeks: int)
      ensures this.weeks == weeks
    {
      this.weeks := weeks;
    }

    /** A rejected input leaves the value as it was. */
    method UnmarshalJSON(json: string, unescape: string -> Option<string>) returns (ok: bool)
      modifies this
      ensures ok <==> UnmarshalJson(json, unescape).Some?
      ensures weeks == if ok then UnmarshalJson(json, unescape).value else old(weeks)
    {
      var text := Unquote(json, unescape);
      if text.None? {
        return false;
      }
      var parts := Split(text.value, ' ');
      if |parts| != 2 || parts[1] != "weeks" {
        return false;
      }
      var i := ParseInt32(parts[0]);
      if i.None? {
        return false;
      }
      weeks := i.value;
      return true;
    }
  }

  lemma PrintedIsPlain(weeks: int)
    ensures Plain(Decimal(weeks) + " weeks") && ' ' !in Decimal(weeks)
  {
    DecimalParses(weeks);
    var number := Decimal(weeks);
    var text := number + " weeks";
    forall i | 0 <= i < |text| ensures text[i] != '"' && text[i] != '\\' && text[i] != '\n' {
      if i < |number| {
        assert text[i] == number[i];
      }
    }
  }

  /** Two printed timelines, letter by letter. */
  lemma PrintedExamples()
    ensures MarshalJson(12) == "\"12 weeks\""
    ensures MarshalJson(-305) == "\"-305 weeks\""
  {
    assert Digits(1) == "1" && Digits(12) == Digits(1) + "2";
    assert Digits(3) == "3" && Digits(30) == Digits(3) + "0" && Digits(305) == Digits(30) + "5";
  }

  lemma {:induction false} SplitJoins(s: string, sep: char)
    ensures |Split(s, sep)| == 1 ==> Split(s, sep)[0] == s && sep !in s
    ensures |Split(s, sep)| == 2 ==> Split(s, sep)[0] + [sep] + Split(s, sep)[1] == s && sep !in Split(s, sep)[0]
    decreases |s|
  {
    if s != "" {
      SplitJoins(s[1..], sep);
      assert s == [s[0]] + s[1..];
    }
  }

  /** Whatever is accepted is a 32-bit numeral, one space and the word "weeks". */
  lemma AcceptedExactly(text: string, v: int)
    ensures ParseWeeks(text) == Some(v) <==>
      exists numeral :: text == numeral + " weeks" && ' ' !in numeral && ParseInt32(numeral) == Some(v)
  {
    if ParseWeeks(text) == Some(v) {
      AcceptedNumeral(text, v);
    }
    if numeral :| text == numeral + " weeks" && ' ' !in numeral && ParseInt32(numeral) == Some(v) {
      NumeralAccepted(numeral);
    }
  }

  lemma AcceptedNumeral(text: string, v: int)
    requires ParseWeeks(text) == Some(v)
    ensures var numeral := Split(text, ' ')[0];
            text == numeral + " weeks" && ' ' !in numeral && ParseInt32(numeral) == Some(v)
  {
    SplitJoins(text, ' ');
    assert " weeks" == [' '] + "weeks";
  }

  lemma NumeralAccepted(numeral: string)
    requires ' ' !in numeral
    ensures ParseWeeks(numeral + " weeks") == ParseInt32(numeral)
  {
    SplitOnce(numeral, "weeks", ' ');
    assert numeral + " weeks" == numeral + [' '] + "weeks";
  }

  lemma WeeksParse(weeks: int)
    ensures ParseWeeks(Decimal(weeks) + " weeks") == if MIN_INT32 <= weeks <= MAX_INT32 then Some(weeks) else None
  {
    DecimalParses(weeks);
    PrintedIsPlain(weeks);
    NumeralAccepted(Decimal(weeks));
  }

  /** Printing and parsing give the number back exactly for 32-bit timelines; others are rejected. */
  lemma RoundTrip(weeks: int, unescape: string -> Option<string>)
    ensures UnmarshalJson(MarshalJson(weeks), unescape)
         == if MIN_INT32 <= weeks <= MAX_INT32 then Some(weeks) else None
  {
    var text, json := Decimal(weeks) + " weeks", MarshalJson(weeks);
    PrintedIsPlain(weeks);
    WeeksParse(weeks);
    assert json[1..|json| - 1] == text;
  }
}
