/**
 * The std::string and <cctype> operations the parsers use: isspace, isxdigit,
 * std::stoi (with its prefix semantics), removal of spaces, find, and the comma
 * splitter shared by the CSS parsers.
 */
module Text {
  import opened Results

  /** What std::stoi and std::stod throw. */
  datatype NumError = InvalidArgument | OutOfRange

  /** What the string constructors throw, one case per message. */
  datatype ParseError =
    | EmptyString
    | InvalidHex
    | InvalidHsl
    | InvalidCssFormat
    | InvalidComponentCount
    | BadNumber(cause: NumError)

  /** std::stod, which the model takes as a parameter: its decimal rounding is not modelled. */
  type Stod = string -> Result<real, NumError>

  /** isspace in the "C" locale: space, \t, \n, \v, \f and \r. */
  predicate IsSpace(c: char) {
    c == ' ' || 9 <= c as int <= 13
  }

  predicate IsDecimalDigit(c: char) {
    '0' <= c <= '9'
  }

  /** isxdigit. */
  predicate IsHexDigit(c: char) {
    '0' <= c <= '9' || 'a' <= c <= 'f' || 'A' <= c <= 'F'
  }

  predicate IsDigitIn(c: char, base: int) {
    if base == 16 then IsHexDigit(c) else IsDecimalDigit(c)
  }

  /** The value of a hexadecimal digit; 0 for any other character. */
  function DigitValue(c: char): (d: int)
    ensures 0 <= d < 16
    ensures IsDecimalDigit(c) ==> d < 10
  {
    if '0' <= c <= '9' then c as int - '0' as int
    else if 'a' <= c <= 'f' then c as int - 'a' as int + 10
    else if 'A' <= c <= 'F' then c as int - 'A' as int + 10
    else 0
  }

  /** The lower-case hexadecimal digit of a value in [0, 16). */
  function HexDigitChar(d: int): (c: char)
    requires 0 <= d < 16
    ensures IsHexDigit(c) && DigitValue(c) == d
    ensures !('A' <= c <= 'Z')
  {
    if d < 10 then ('0' as int + d) as char else ('a' as int + d - 10) as char
  }

  predicate AllHexDigits(s: string) {
    forall i :: 0 <= i < |s| ==> IsHexDigit(s[i])
  }

  /** Length of the leading run of isspace characters. */
  function SpaceRun(s: string): (n: nat)
    ensures n <= |s|
  {
    if |s| > 0 && IsSpace(s[0]) then 1 + SpaceRun(s[1..]) else 0
  }

  /** Length of the leading run of digits of the given base. */
  function DigitRun(s: string, base: int): (n: nat)
    ensures n <= |s|
  {
    if |s| > 0 && IsDigitIn(s[0], base) then 1 + DigitRun(s[1..], base) else 0
  }

  /** The value of a string of digits, most significant first. */
  function DigitsValue(ds: string, base: nat): nat {
    if |ds| == 0 then 0
    else DigitsValue(ds[..|ds| - 1], base) * base + DigitValue(ds[|ds| - 1])
  }

  /**
   * The characters strtol skips for a base-16 "0x"/"0X" prefix: two, but only
   * when a hexadecimal digit follows, else the leading '0' is the number.
   */
  function HexPrefixLength(s: string, base: int): (n: nat)
    ensures n == 0 || n == 2
    ensures n <= |s|
  {
    if base == 16 && |s| >= 3 && s[0] == '0' && (s[1] == 'x' || s[1] == 'X') && IsHexDigit(s[2])
    then 2 else 0
  }

  const INT_MIN: int := -0x8000_0000
  const INT_MAX: int := 0x7FFF_FFFF

  /**
   * std::stoi(s, nullptr, base) for base 10 or 16: leading white space, an optional
   * sign, the longest run of digits; trailing characters are ignored. No digit
   * throws invalid_argument, a value outside int throws out_of_range.
   */
  function Stoi(s: string, base: int): (r: Result<int, NumError>)
    requires base == 10 || base == 16
    ensures r.Ok? ==> INT_MIN <= r.value <= INT_MAX
  {
    var afterSpace := s[SpaceRun(s)..];
    var negative := |afterSpace| > 0 && afterSpace[0] == '-';
    var afterSign :=
      if |afterSpace| > 0 && (afterSpace[0] == '-' || afterSpace[0] == '+') then afterSpace[1..]
      else afterSpace;
    var body := afterSign[HexPrefixLength(afterSign, base)..];
    var n := DigitRun(body, base);
    if n == 0 then Err(InvalidArgument)
    else
      var magnitude: int := DigitsValue(body[..n], base);
      var v := if negative then -magnitude else magnitude;
      if v < INT_MIN || INT_MAX < v then Err(OutOfRange) else Ok(v)
  }

  /** Two hexadecimal digits read by Stoi give the byte they spell. */
  lemma StoiHexPair(c0: char, c1: char)
    requires IsHexDigit(c0) && IsHexDigit(c1)
    ensures Stoi([c0, c1], 16) == Ok(DigitValue(c0) * 16 + DigitValue(c1))
  {
    var s := [c0, c1];
    assert !IsSpace(c0);
    assert SpaceRun(s) == 0;
    assert s[0..] == s;
    assert HexPrefixLength(s, 16) == 0;
    assert s[1..] == [c1];
    assert [c1][1..] == [];
    assert DigitRun(s, 16) == 2;
    assert s[..2] == s;
    assert s[..1] == [c0];
    assert [c0][..0] == [];
    assert DigitsValue([c0], 16) == DigitValue(c0);
    assert DigitsValue(s, 16) == DigitValue(c0) * 16 + DigitValue(c1);
  }

  function StartsWith(s: string, prefix: string): bool {
    |prefix| <= |s| && s[..|prefix|] == prefix
  }

  /** string::find returns the first occurrence: nothing before it matches. */
  lemma {:induction false} IndexOfFirst(s: string, c: char)
    ensures c !in s[..IndexOf(s, c)]
  {
    if |s| > 0 && s[0] != c {
      IndexOfFirst(s[1..], c);
      assert s[..IndexOf(s, c)] == [s[0]] + s[1..][..IndexOf(s[1..], c)];
    }
  }

  /** std::remove of one character followed by erase. */
  function RemoveChar(s: string, c: char): (t: string)
    ensures c !in t
    ensures |t| <= |s|
    ensures c !in s ==> t == s
  {
    if |s| == 0 then []
    else if s[0] == c then RemoveChar(s[1..], c)
    else [s[0]] + RemoveChar(s[1..], c)
  }

  /** string::find of one character; |s| stands for npos. */
  function IndexOf(s: string, c: char): (i: nat)
    ensures i <= |s|
    ensures i < |s| ==> s[i] == c
  {
    if |s| == 0 then 0
    else if s[0] == c then 0
    else 1 + IndexOf(s[1..], c)
  }

  /**
   * The argument text of a CSS functional notation: spaces removed, then the text
   * between the first '(' and the first ')' after it, or None when either is missing.
   */
  function CssArguments(css: string): (r: Option<string>)
    ensures r.Some? ==> ' ' !in r.value && ')' !in r.value
    ensures r.Some? <==> '(' in RemoveChar(css, ' ') &&
                         ')' in RemoveChar(css, ' ')[IndexOf(RemoveChar(css, ' '), '(')..]
  {
    var clean := RemoveChar(css, ' ');
    var start := IndexOf(clean, '(');
    IndexOfFirst(clean, '(');
    assert clean[..|clean|] == clean;
    if start == |clean| then None
    else
      var end := start + IndexOf(clean[start..], ')');
      IndexOfFirst(clean[start..], ')');
      assert clean[start..][..|clean| - start] == clean[start..];
      if end == |clean| then None
      else
        assert clean[start + 1..end] == clean[start..][..end - start][1..];
        assert forall ch :: ch in clean[start + 1..end] ==> ch in clean && ch != ')';
        Some(clean[start + 1..end])
  }

  /**
   * The parts the CSS parsers split their argument text into: the text before each
   * comma, then the text after the last comma unless it is empty.
   */
  function SplitCommas(v: string): (parts: seq<string>)
  {
    var i := IndexOf(v, ',');
    if i == |v| then (if |v| == 0 then [] else [v])
    else [v[..i]] + SplitCommas(v[i + 1..])
  }

  /** No part contains a comma. */
  lemma {:induction false} SplitCommasNoComma(v: string)
    ensures forall i :: 0 <= i < |SplitCommas(v)| ==> ',' !in SplitCommas(v)[i]
    decreases |v|
  {
    var i := IndexOf(v, ',');
    IndexOfFirst(v, ',');
    if i < |v| {
      SplitCommasNoComma(v[i + 1..]);
    }
  }

  /** string::find(c, pos): the first index at or after pos holding c, or |s| for npos. */
  function FindFrom(s: string, c: char, pos: nat): (i: nat)
    requires pos <= |s|
    ensures pos <= i <= |s|
    ensures i < |s| ==> s[i] == c
    decreases |s| - pos
  {
    if pos == |s| then |s|
    else if s[pos] == c then pos
    else FindFrom(s, c, pos + 1)
  }

  /** The parts the splitting loop pushes from position pos on, in the loop's own terms. */
  function SplitFrom(values: string, pos: nat): seq<string>
    requires pos <= |values|
    decreases |values| - pos
  {
    if pos == |values| then []
    else
      var comma := FindFrom(values, ',', pos);
      if comma == |values| then [values[pos..]]
      else [values[pos..comma]] + SplitFrom(values, comma + 1)
  }

  /**
   * The splitting loop of the CSS parsers: find the next comma from pos, push the
   * text before it and continue after it, until no comma is left; push the tail
   * when it is not empty.
   */
  method SplitOnCommas(values: string) returns (parts: seq<string>)
    ensures parts == SplitCommas(values)
  {
    parts := [];
    var pos := 0;
    while pos < |values|
      invariant pos <= |values|
      invariant parts + SplitFrom(values, pos) == SplitFrom(values, 0)
      decreases |values| - pos
    {
      var comma := FindFrom(values, ',', pos);
      if comma == |values| {
        assert SplitFrom(values, pos) == [values[pos..]];
        AppendAssoc(parts, [values[pos..]], SplitFrom(values, |values|));
        parts := parts + [values[pos..]];
        pos := |values|;
      } else {
        assert SplitFrom(values, pos) == [values[pos..comma]] + SplitFrom(values, comma + 1);
        AppendAssoc(parts, [values[pos..comma]], SplitFrom(values, comma + 1));
        parts := parts + [values[pos..comma]];
        pos := comma + 1;
      }
    }
    SplitFromIsSplitCommas(values, 0);
    assert values[0..] == values;
    assert parts + [] == parts;
  }

  /** Searching from pos is searching the suffix from pos. */
  lemma {:induction false} FindFromIsIndexOf(s: string, c: char, pos: nat)
    requires pos <= |s|
    ensures FindFrom(s, c, pos) == pos + IndexOf(s[pos..], c)
    decreases |s| - pos
  {
    if pos < |s| && s[pos] != c {
      FindFromIsIndexOf(s, c, pos + 1);
      assert s[pos..][1..] == s[pos + 1..];
    }
  }

  /** The loop's parts from pos are the split of the suffix from pos. */
  lemma {:induction false} SplitFromIsSplitCommas(values: string, pos: nat)
    requires pos <= |values|
    ensures SplitFrom(values, pos) == SplitCommas(values[pos..])
    decreases |values| - pos
  {
    if pos < |values| {
      var rest := values[pos..];
      FindFromIsIndexOf(values, ',', pos);
      var k := IndexOf(rest, ',');
      if k == |rest| {
        assert SplitFrom(values, pos) == [rest];
        assert SplitCommas(rest) == [rest];
      } else {
        SplitFromIsSplitCommas(values, pos + k + 1);
        assert rest[..k] == values[pos..pos + k];
        assert rest[k + 1..] == values[pos + k + 1..];
        assert SplitCommas(rest) == [rest[..k]] + SplitCommas(rest[k + 1..]);
        assert SplitFrom(values, pos) == [values[pos..pos + k]] + SplitFrom(values, pos + k + 1);
      }
    } else {
      assert values[pos..] == [];
    }
  }

  /** Concatenation is associative. */
  lemma AppendAssoc<T>(a: seq<T>, b: seq<T>, c: seq<T>)
    ensures a + (b + c) == (a + b) + c
  {
  }

  function CountChar(s: string, c: char): (n: nat)
    ensures n <= |s|
  {
    if |s| == 0 then 0 else (if s[0] == c then 1 else 0) + CountChar(s[1..], c)
  }

  lemma {:induction false} CountCharAppend(a: string, b: string, c: char)
    ensures CountChar(a + b, c) == CountChar(a, c) + CountChar(b, c)
  {
    if |a| == 0 {
      assert a + b == b;
    } else {
      assert (a + b)[1..] == a[1..] + b;
      CountCharAppend(a[1..], b, c);
    }
  }

  lemma {:induction false} CountCharAbsent(s: string, c: char)
    requires c !in s
    ensures CountChar(s, c) == 0
  {
    if |s| > 0 {
      assert c !in s[1..];
      CountCharAbsent(s[1..], c);
    }
  }

  /**
   * The number of parts is the number of commas, plus one when the text after the
   * last comma is not empty: "a,b" gives two parts, "a,b," two, ",," two, "" none.
   */
  lemma {:induction false} SplitCommasCount(v: string)
    ensures |SplitCommas(v)| ==
            CountChar(v, ',') + (if |v| > 0 && v[|v| - 1] != ',' then 1 else 0)
    decreases |v|
  {
    var i := IndexOf(v, ',');
    IndexOfFirst(v, ',');
    if i == |v| {
      assert v[..i] == v;
      CountCharAbsent(v, ',');
    } else {
      var tail := v[i + 1..];
      assert v == v[..i] + [','] + tail;
      CountCharAppend(v[..i] + [','], tail, ',');
      CountCharAppend(v[..i], [','], ',');
      assert ',' !in v[..i];
      CountCharAbsent(v[..i], ',');
      assert [','][1..] == [];
      SplitCommasCount(tail);
      if |tail| > 0 {
        assert v[|v| - 1] == tail[|tail| - 1];
      }
    }
  }
}
