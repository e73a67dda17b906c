/** util/string_util.h and .cc: Split and Join; util/string_parse.h: ParseAsciiNumber for int. */
module Strings {
  import opened Common

  // ----- Split -----

  /** The first position, at or after `from`, of the delimiter, or the length. */
  function NextDelimiter(value: string, delim: char, from: nat): (k: nat)
    requires from <= |value|
    ensures from <= k <= |value| && (k < |value| ==> value[k] == delim)
    ensures forall i :: from <= i < k ==> value[i] != delim
    decreases |value| - from
  {
    if from == |value| || value[from] == delim then from else NextDelimiter(value, delim, from + 1)
  }

  /** The non-empty pieces between delimiters, from a position on. */
  function SplitFrom(value: string, delim: char, from: nat): seq<string>
    requires from <= |value|
    decreases |value| - from
  {
    var k := NextDelimiter(value, delim, from);
    var head := if k > from then [value[from..k]] else [];
    if k == |value| then head else head + SplitFrom(value, delim, k + 1)
  }

  function Split(value: string, delim: char): seq<string> {
    SplitFrom(value, delim, 0)
  }

  /** A maximal non-empty run without delimiters. */
  predicate IsToken(value: string, delim: char, a: int, b: int) {
    && 0 <= a < b <= |value|
    && (forall i :: a <= i < b ==> value[i] != delim)
    && (a == 0 || value[a - 1] == delim)
    && (b == |value| || value[b] == delim)
  }

  datatype Span = Span(a: int, b: int)

  /** Where the tokens from a position on lie. */
  ghost function Spans(value: string, delim: char, from: nat): seq<Span>
    requires from <= |value|
    decreases |value| - from
  {
    var k := NextDelimiter(value, delim, from);
    var head := if k > from then [Span(from, k)] else [];
    if k == |value| then head else head + Spans(value, delim, k + 1)
  }

  ghost predicate InOrder(spans: seq<Span>) {
    forall i, j :: 0 <= i < j < |spans| ==> spans[i].b < spans[j].a
  }

  ghost predicate AllTokens(value: string, delim: char, from: nat, spans: seq<Span>) {
    forall i :: 0 <= i < |spans| ==> from <= spans[i].a && IsToken(value, delim, spans[i].a, spans[i].b)
  }

  lemma {:induction false} SpansAreTokens(value: string, delim: char, from: nat)
    requires from <= |value| && (from == 0 || value[from - 1] == delim)
    ensures AllTokens(value, delim, from, Spans(value, delim, from)) && InOrder(Spans(value, delim, from))
    decreases |value| - from
  {
    var k := NextDelimiter(value, delim, from);
    if k < |value| {
      SpansAreTokens(value, delim, k + 1);
      if k > from {
        PrependToken(value, delim, from, k, Spans(value, delim, k + 1));
      }
    }
  }

  lemma PrependToken(value: string, delim: char, from: nat, k: nat, rest: seq<Span>)
    requires IsToken(value, delim, from, k) && AllTokens(value, delim, k + 1, rest) && InOrder(rest)
    ensures AllTokens(value, delim, from, [Span(from, k)] + rest) && InOrder([Span(from, k)] + rest)
  {
  }

  lemma TokenAtStart(value: string, delim: char, from: nat, a: nat, b: nat)
    requires from <= |value| && from <= a <= NextDelimiter(value, delim, from) && IsToken(value, delim, a, b)
    ensures a == from && b == NextDelimiter(value, delim, from)
  {
  }

  lemma {:induction false} EveryTokenIsFound(value: string, delim: char, from: nat, a: nat, b: nat)
    requires from <= a && IsToken(value, delim, a, b)
    ensures Span(a, b) in Spans(value, delim, from)
    decreases |value| - from
  {
    var k := NextDelimiter(value, delim, from);
    if a <= k {
      TokenAtStart(value, delim, from, a, b);
    } else {
      EveryTokenIsFound(value, delim, k + 1, a, b);
    }
  }

  /** What Split yields are the slices at the spans. */
  ghost predicate AreSlices(value: string, tokens: seq<string>, spans: seq<Span>) {
    |tokens| == |spans| && forall i :: 0 <= i < |spans| ==>
      0 <= spans[i].a <= spans[i].b <= |value| && tokens[i] == value[spans[i].a..spans[i].b]
  }

  lemma {:induction false} SplitIsSpans(value: string, delim: char, from: nat)
    requires from <= |value|
    ensures AreSlices(value, SplitFrom(value, delim, from), Spans(value, delim, from))
    decreases |value| - from
  {
    var k := NextDelimiter(value, delim, from);
    if k < |value| {
      SplitIsSpans(value, delim, k + 1);
    }
  }

  /** Split returns exactly the maximal non-empty delimiter-free runs, from left to right. */
  lemma SplitFindsTokens(value: string, delim: char)
    ensures AreSlices(value, Split(value, delim), Spans(value, delim, 0)) && InOrder(Spans(value, delim, 0))
    ensures forall a, b :: Span(a, b) in Spans(value, delim, 0) <==> IsToken(value, delim, a, b)
  {
    SpansAreTokens(value, delim, 0);
    SplitIsSpans(value, delim, 0);
    forall a, b | IsToken(value, delim, a, b)
      ensures Span(a, b) in Spans(value, delim, 0)
    {
      EveryTokenIsFound(value, delim, 0, a, b);
    }
  }

  /** What is left to split from a position on, which may be just past the end. */
  ghost function Rest(value: string, delim: char, from: nat): seq<string> {
    if from <= |value| then SplitFrom(value, delim, from) else []
  }

  function Piece(value: string, from: nat, end: nat): seq<string>
    requires from <= end <= |value|
  {
    if from == end then [] else [value[from..end]]
  }

  lemma NextPiece(value: string, delim: char, from: nat, done: seq<string>)
    requires from <= |value|
    ensures var end := NextDelimiter(value, delim, from);
            done + Rest(value, delim, from) == done + Piece(value, from, end) + Rest(value, delim, end + 1)
  {
    var end := NextDelimiter(value, delim, from);
    assert Rest(value, delim, from) == Piece(value, from, end) + Rest(value, delim, end + 1);
  }

  /** The loop of Split over the pieces. */
  method SplitLoop(value: string, delim: char) returns (result: seq<string>)
    ensures result == Split(value, delim)
  {
    result := [];
    var from := 0;
    while from <= |value|
      invariant 0 <= from <= |value| + 1
      invariant result + Rest(value, delim, from) == Split(value, delim)
    {
      NextPiece(value, delim, from, result);
      var end := NextDelimiter(value, delim, from);
      result := result + Piece(value, from, end);
      from := end + 1;
    }
    assert Rest(value, delim, from) == [];
  }

  // ----- Join -----

  function Join(pieces: seq<string>, delim: string): string {
    if pieces == [] then ""
    else if |pieces| == 1 then pieces[0]
    else pieces[0] + delim + Join(pieces[1..], delim)
  }

  /** Everything but the first piece, each after a delimiter. */
  ghost function Suffixes(pieces: seq<string>, delim: string): string {
    if pieces == [] then "" else Suffixes(pieces[..|pieces| - 1], delim) + delim + pieces[|pieces| - 1]
  }

  lemma {:induction false} SuffixesFromFront(pieces: seq<string>, delim: string)
    requires pieces != []
    ensures Suffixes(pieces, delim) == delim + pieces[0] + Suffixes(pieces[1..], delim)
  {
    if |pieces| > 1 {
      var init := pieces[..|pieces| - 1];
      SuffixesFromFront(init, delim);
      assert init[1..] == pieces[1..][..|pieces| - 2];
    }
  }

  lemma {:induction false} JoinIsSuffixes(pieces: seq<string>, delim: string)
    requires pieces != []
    ensures Join(pieces, delim) == pieces[0] + Suffixes(pieces[1..], delim)
  {
    if |pieces| > 1 {
      JoinIsSuffixes(pieces[1..], delim);
      SuffixesFromFront(pieces[1..], delim);
      assert pieces[0] + delim + (pieces[1] + Suffixes(pieces[1..][1..], delim))
          == pieces[0] + (delim + pieces[1] + Suffixes(pieces[1..][1..], delim));
    }
  }

  /** The loop of Join over a stream. */
  method JoinLoop(pieces: seq<string>, delim: string) returns (result: string)
    ensures result == Join(pieces, delim)
  {
    if pieces == [] {
      return "";
    }
    result := pieces[0];
    var i := 1;
    while i < |pieces|
      invariant 1 <= i <= |pieces|
      invariant result == pieces[0] + Suffixes(pieces[1..i], delim)
    {
      assert pieces[1..i + 1][..i - 1] == pieces[1..i];
      result := result + delim + pieces[i];
      assert pieces[0] + Suffixes(pieces[1..i], delim) + delim + pieces[i]
          == pieces[0] + (Suffixes(pieces[1..i], delim) + delim + pieces[i]);
      i := i + 1;
    }
    assert pieces[1..i] == pieces[1..];
    JoinIsSuffixes(pieces, delim);
  }

  /** Tokens that a Split can return. */
  ghost predicate AreTokens(tokens: seq<string>, delim: char) {
    forall i :: 0 <= i < |tokens| ==> tokens[i] != "" && delim !in tokens[i]
  }

  lemma {:induction false} SkipPrefix(x: string, rest: string, delim: char, from: nat)
    requires delim !in x && from <= |x| && (rest == "" || rest[0] == delim)
    ensures NextDelimiter(x + rest, delim, from) == |x|
    decreases |x| - from
  {
    if from < |x| {
      assert x[from] in x;
      SkipPrefix(x, rest, delim, from + 1);
    }
  }

  lemma {:induction false} DelimiterShifts(x: string, y: string, delim: char, at: nat)
    requires at <= |y|
    ensures NextDelimiter(x + y, delim, |x| + at) == |x| + NextDelimiter(y, delim, at)
    decreases |y| - at
  {
    if at < |y| && y[at] != delim {
      DelimiterShifts(x, y, delim, at + 1);
    }
  }

  /** Nothing before the starting position matters. */
  lemma {:induction false} SplitShifts(x: string, y: string, delim: char, at: nat)
    requires at <= |y|
    ensures SplitFrom(x + y, delim, |x| + at) == SplitFrom(y, delim, at)
    decreases |y| - at
  {
    DelimiterShifts(x, y, delim, at);
    var k := NextDelimiter(y, delim, at);
    assert (x + y)[|x| + at..|x| + k] == y[at..k];
    if k < |y| {
      SplitShifts(x, y, delim, k + 1);
    }
  }

  /** Split undoes Join if no piece is empty or holds the delimiter. */
  lemma {:induction false} SplitUndoesJoin(tokens: seq<string>, delim: char)
    requires AreTokens(tokens, delim)
    ensures Split(Join(tokens, [delim]), delim) == tokens
    decreases |tokens|
  {
    if |tokens| == 1 {
      assert tokens[0] + "" == tokens[0];
      SkipPrefix(tokens[0], "", delim, 0);
      assert tokens[0][..|tokens[0]|] == tokens[0];
    } else if |tokens| > 1 {
      var x, rest := tokens[0], Join(tokens[1..], [delim]);
      SplitUndoesJoin(tokens[1..], delim);
      assert x + [delim] + rest == x + ([delim] + rest);
      SkipPrefix(x, [delim] + rest, delim, 0);
      assert (x + [delim] + rest)[..|x|] == x;
      SplitShifts(x + [delim], rest, delim, 0);
    }
  }

  /** And only then: what Split returns are such pieces. */
  lemma SplitUndoesJoinOnlyOf(tokens: seq<string>, delim: char)
    ensures Split(Join(tokens, [delim]), delim) == tokens <==> AreTokens(tokens, delim)
  {
    if AreTokens(tokens, delim) {
      SplitUndoesJoin(tokens, delim);
    }
    SplitFindsTokens(Join(tokens, [delim]), delim);
  }

  // ----- numbers -----

  const INT_MIN := -0x8000_0000
  const INT_MAX := 0x7FFF_FFFF

  predicate IsInt(n: int) {
    INT_MIN <= n <= INT_MAX
  }

  predicate IsDigit(c: char) {
    '0' <= c <= '9'
  }

  /** The length of the longest prefix of digits. */
  function DigitsLength(s: string): (n: nat)
    ensures n <= |s| && (forall i :: 0 <= i < n ==> IsDigit(s[i])) && (n < |s| ==> !IsDigit(s[n]))
  {
    if s == "" || !IsDigit(s[0]) then 0 else 1 + DigitsLength(s[1..])
  }

  function DigitValue(c: char): nat
    requires IsDigit(c)
  {
    c as int - '0' as int
  }

  function DecimalValue(digits: string): nat
    requires forall i :: 0 <= i < |digits| ==> IsDigit(digits[i])
  {
    if digits == "" then 0
    else 10 * DecimalValue(digits[..|digits| - 1]) + DigitValue(digits[|digits| - 1])
  }

  /**
   ParseAsciiNumber for int: from_chars takes an optional minus sign and as many digits as
   there are, at least one; what follows is ignored; a value out of range is an error.
   */
  function ParseAsciiNumber(number: string): Option<int> {
    if number == "" then None
    else
      var negative := number[0] == '-';
      var rest := if negative then number[1..] else number;
      var n := DigitsLength(rest);
      if n == 0 then None
      else
        var magnitude: int := DecimalValue(rest[..n]);
        var value := if negative then -magnitude else magnitude;
        if IsInt(value) then Some(value) else None
  }

  function Digits(n: nat): (s: string)
    ensures s != "" && forall i :: 0 <= i < |s| ==> IsDigit(s[i])
  {
    var last := [('0' as int + n % 10) as char];
    if n < 10 then last else Digits(n / 10) + last
  }

  /** How std::to_string and the formatter print an int. */
  function Printed(n: int): string {
    if n < 0 then "-" + Digits(-n) else Digits(n)
  }

  lemma {:induction false} ValueOfDigits(n: nat)
    ensures DecimalValue(Digits(n)) == n
  {
    if n >= 10 {
      ValueOfDigits(n / 10);
      assert Digits(n)[..|Digits(n)| - 1] == Digits(n / 10);
    }
  }

  lemma {:induction false} DigitsThenOther(digits: string, other: string)
    requires forall i :: 0 <= i < |digits| ==> IsDigit(digits[i])
    requires other == "" || !IsDigit(other[0])
    ensures DigitsLength(digits + other) == |digits|
  {
    if digits == "" {
      assert digits + other == other;
    } else {
      assert (digits + other)[1..] == digits[1..] + other;
      DigitsThenOther(digits[1..], other);
    }
  }

  /** A printed number is read back exactly if it is an int, whatever follows that is no digit. */
  lemma ParseUndoesPrint(n: int, other: string)
    requires other == "" || !IsDigit(other[0])
    ensures ParseAsciiNumber(Printed(n) + other) == if IsInt(n) then Some(n) else None
  {
    var m := if n < 0 then -n else n;
    ValueOfDigits(m);
    DigitsThenOther(Digits(m), other);
    assert (Digits(m) + other)[..|Digits(m)|] == Digits(m);
    if n < 0 {
      MinusThenDigits(Digits(m), other);
    } else {
      assert IsDigit(Digits(m)[0]);
    }
  }

  lemma MinusThenDigits(digits: string, other: string)
    ensures ("-" + digits + other)[1..] == digits + other
    ensures ("-" + digits + other)[0] == '-'
  {
  }

  /** The text is a number with this sign and these digits, then something that is no digit. */
  ghost predicate IsNumber(number: string, negative: bool, digits: string, other: string) {
    && digits != "" && (forall i :: 0 <= i < |digits| ==> IsDigit(digits[i]))
    && (other == "" || !IsDigit(other[0]))
    && number == if negative then "-" + (digits + other) else digits + other
  }

  lemma NumberHasValue(number: string, negative: bool, digits: string, other: string)
    requires IsNumber(number, negative, digits, other)
    ensures var value: int := if negative then -(DecimalValue(digits) as int) else DecimalValue(digits);
            ParseAsciiNumber(number) == if IsInt(value) then Some(value) else None
  {
    DigitsThenOther(digits, other);
    assert (digits + other)[..|digits|] == digits;
    if negative {
      assert number[1..] == digits + other;
    } else {
      assert IsDigit(number[0]);
    }
  }

  /** Whatever is read has the form of a number. */
  lemma ReadsNumbersOnly(number: string) returns (negative: bool, digits: string, other: string)
    requires ParseAsciiNumber(number).Some?
    ensures IsNumber(number, negative, digits, other)
  {
    negative := number[0] == '-';
    var rest := if negative then number[1..] else number;
    var n := DigitsLength(rest);
    digits, other := rest[..n], rest[n..];
    assert rest == digits + other;
    assert negative ==> number == "-" + rest;
  }

  lemma PrintedHasNo(n: int, c: char)
    requires c != '-' && !IsDigit(c)
    ensures Printed(n) != "" && c !in Printed(n)
  {
  }
}
