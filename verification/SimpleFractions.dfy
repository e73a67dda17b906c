/** util/simple_fraction.cc: fractions as text. */
module SimpleFractions {
  import opened Common
  import opened Strings

  datatype SimpleFraction = SimpleFraction(numerator: int, denominator: int)

  predicate IsFraction(f: SimpleFraction) {
    IsInt(f.numerator) && IsInt(f.denominator)
  }

  /** None is the error kParameterInvalid. */
  function FromString(value: string): Option<SimpleFraction> {
    if |value| > 0 && value[0] == '/' then None
    else
      var fields := Split(value, '/');
      if |fields| != 1 && |fields| != 2 then None
      else
        var numerator := ParseAsciiNumber(fields[0]);
        if numerator.None? then None
        else if |fields| == 1 then Some(SimpleFraction(numerator.value, 1))
        else
          var denominator := ParseAsciiNumber(fields[1]);
          if denominator.None? then None else Some(SimpleFraction(numerator.value, denominator.value))
  }

  function ToString(f: SimpleFraction): string {
    if f.denominator == 1 then Printed(f.numerator) else Printed(f.numerator) + "/" + Printed(f.denominator)
  }

  lemma ParsePrinted(n: int)
    requires IsInt(n)
    ensures ParseAsciiNumber(Printed(n)) == Some(n)
  {
    assert Printed(n) + "" == Printed(n);
    ParseUndoesPrint(n, "");
  }

  /** Every pair of ints is read back as it was printed. */
  lemma RoundTrip(f: SimpleFraction)
    requires IsFraction(f)
    ensures FromString(ToString(f)) == Some(f)
  {
    PrintedHasNo(f.numerator, '/');
    PrintedHasNo(f.denominator, '/');
    ParsePrinted(f.numerator);
    ParsePrinted(f.denominator);
    var tokens := if f.denominator == 1 then [Printed(f.numerator)] else [Printed(f.numerator), Printed(f.denominator)];
    assert ToString(f) == Join(tokens, "/");
    SplitUndoesJoin(tokens, '/');
    assert ToString(f)[0] == Printed(f.numerator)[0];
  }

  /** So no two fractions print alike. */
  lemma PrintsDiffer(f: SimpleFraction, g: SimpleFraction)
    requires IsFraction(f) && IsFraction(g) && ToString(f) == ToString(g)
    ensures f == g
  {
    RoundTrip(f);
    RoundTrip(g);
  }

  /** Whatever is read is a pair of ints, and reading its print again changes nothing. */
  lemma ReadsInts(value: string)
    requires FromString(value).Some?
    ensures IsFraction(FromString(value).value)
    ensures FromString(ToString(FromString(value).value)) == FromString(value)
  {
    RoundTrip(FromString(value).value);
  }

  // ----- everything that is read -----

  ghost function Slashes(k: nat): string {
    seq(k, _ => '/')
  }

  ghost predicate Spells(text: string, n: int) {
    '/' !in text && ParseAsciiNumber(text) == Some(n)
  }

  /** A number, or two with slashes between them, and slashes that do not matter at the end. */
  ghost predicate IsSpelling(value: string, f: SimpleFraction, a: string, k: nat, b: string, j: nat) {
    && Spells(a, f.numerator)
    && if k == 0 then f.denominator == 1 && value == a + Slashes(j)
       else Spells(b, f.denominator) && value == a + Slashes(k) + b + Slashes(j)
  }

  lemma {:induction false} SlashesAreSkipped(before: string, k: nat, rest: string)
    ensures SplitFrom(before + Slashes(k) + rest, '/', |before|) == Split(rest, '/')
    decreases k
  {
    var value := before + Slashes(k) + rest;
    if k == 0 {
      assert value == before + rest;
      SplitShifts(before, rest, '/', 0);
    } else {
      assert value[|before|] == '/';
      assert value == before + "/" + Slashes(k - 1) + rest;
      SlashesAreSkipped(before + "/", k - 1, rest);
    }
  }

  lemma Regroup(a: string, k: nat, rest: string)
    ensures a + Slashes(k) + rest == a + (Slashes(k) + rest)
    ensures (a + Slashes(k) + rest)[..|a|] == a
    ensures k > 0 ==> a + Slashes(k) + rest == a + "/" + Slashes(k - 1) + rest
  {
  }

  lemma FirstSlash(a: string, k: nat, rest: string)
    requires '/' !in a && (k > 0 || rest == "")
    ensures NextDelimiter(a + Slashes(k) + rest, '/', 0) == |a|
  {
    Regroup(a, k, rest);
    SkipPrefix(a, Slashes(k) + rest, '/', 0);
  }

  /** Splitting takes the first text, and passes over the slashes behind it. */
  lemma SplitsOff(a: string, k: nat, rest: string)
    requires a != "" && '/' !in a && (k > 0 || rest == "")
    ensures Split(a + Slashes(k) + rest, '/') == [a] + Split(rest, '/')
  {
    Regroup(a, k, rest);
    FirstSlash(a, k, rest);
    if k > 0 {
      SlashesAreSkipped(a + "/", k - 1, rest);
    }
  }

  lemma SpellingIsRead(value: string, f: SimpleFraction, a: string, k: nat, b: string, j: nat)
    requires IsSpelling(value, f, a, k, b, j)
    ensures FromString(value) == Some(f)
  {
    assert Split("", '/') == [];
    assert value[0] == a[0] && a[0] in a;
    if k == 0 {
      assert value == a + Slashes(j) + "";
      SplitsOff(a, j, "");
    } else {
      SplitsOff(b, j, "");
      assert b + Slashes(j) + "" == b + Slashes(j);
      assert value == a + Slashes(k) + (b + Slashes(j));
      SplitsOff(a, k, b + Slashes(j));
    }
  }

  /** How many slashes a text starts with. */
  ghost function LeadingSlashes(value: string): (k: nat)
    ensures k <= |value| && value[..k] == Slashes(k) && (k < |value| ==> value[k] != '/')
  {
    if value == "" || value[0] != '/' then 0
    else
      var k := LeadingSlashes(value[1..]);
      assert value[..k + 1] == "/" + value[1..][..k];
      k + 1
  }

  /** The first text up to a slash, the slashes, and what is left. */
  lemma TakeApart(value: string) returns (a: string, k: nat, rest: string)
    requires value != "" && value[0] != '/'
    ensures a != "" && '/' !in a && (k > 0 || rest == "") && (rest == "" || rest[0] != '/')
    ensures value == a + Slashes(k) + rest && Split(value, '/') == [a] + Split(rest, '/')
  {
    var n := NextDelimiter(value, '/', 0);
    a := value[..n];
    k := LeadingSlashes(value[n..]);
    rest := value[n..][k..];
    assert value == a + value[n..] && value[n..] == value[n..][..k] + rest;
    assert value == a + Slashes(k) + rest;
    SplitsOff(a, k, rest);
  }

  lemma ReadIsSpelled(value: string, f: SimpleFraction) returns (a: string, k: nat, b: string, j: nat)
    requires FromString(value) == Some(f)
    ensures IsSpelling(value, f, a, k, b, j)
  {
    assert Split("", '/') == [];
    var rest;
    a, k, rest := TakeApart(value);
    b, j := "", k;
    if rest == "" {
      k := 0;
      assert value == a + Slashes(j);
    } else {
      var last;
      b, j, last := TakeApart(rest);
      if last != "" {
        var _, _, _ := TakeApart(last);
      }
      assert rest == b + Slashes(j);
      assert value == a + Slashes(k) + b + Slashes(j);
    }
  }

  /** What is read, of all texts, is exactly what spells the fraction. */
  lemma ReadsIffSpelled(value: string, f: SimpleFraction)
    ensures FromString(value) == Some(f) <==> exists a, k, b, j :: IsSpelling(value, f, a, k, b, j)
  {
    if FromString(value) == Some(f) {
      var a, k, b, j := ReadIsSpelled(value, f);
    }
    if a, k, b, j :| IsSpelling(value, f, a, k, b, j) {
      SpellingIsRead(value, f, a, k, b, j);
    }
  }
}
