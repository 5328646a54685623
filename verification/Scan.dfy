/** Reading "m=%d,t=%d,p=%d" the way `fmt.Fscanf` does. */
module Scan {
  import opened Wrappers
  import opened Decimal

  // A scan sees at most this many characters of its input; behind them it finds end of file.
  const MAX_RUNES: nat := 0x4000_0000

  const MAX_UINT32: nat := 0xffff_ffff
  const MAX_UINT8: nat := 255

  type uint32 = x: int | 0 <= x <= MAX_UINT32
  type uint8 = x: int | 0 <= x <= MAX_UINT8

  datatype CostParams = CostParams(memory: uint32, time: uint32, parallelism: uint8)

  /** The characters skipped before a number. A line feed is not skipped: it ends the scan with an error. */
  predicate IsSpace(c: char) {
    var code := c as int;
    || code == 0x9 || 0xb <= code <= 0xd || code == 0x20 || code == 0x85 || code == 0xa0
    || code == 0x1680 || 0x2000 <= code <= 0x200a || code == 0x2028 || code == 0x2029
    || code == 0x202f || code == 0x205f || code == 0x3000
  }

  predicate AllSpaces(s: string) {
    forall i :: 0 <= i < |s| ==> IsSpace(s[i])
  }

  function SpacePrefix(s: string): (n: nat)
    ensures n <= |s| && AllSpaces(s[..n]) && (n < |s| ==> !IsSpace(s[n]))
  {
    if s == [] || !IsSpace(s[0]) then 0 else
    var n := 1 + SpacePrefix(s[1..]);
    assert forall i :: 0 < i < n ==> s[i] == s[1..][..n - 1][i - 1];
    n
  }

  lemma {:induction false} SpacePrefixOf(spaces: string, rest: string)
    requires AllSpaces(spaces) && (rest == "" || !IsSpace(rest[0]))
    ensures SpacePrefix(spaces + rest) == |spaces|
  {
    if spaces == "" {
      assert spaces + rest == rest;
    } else {
      assert (spaces + rest)[1..] == spaces[1..] + rest;
      SpacePrefixOf(spaces[1..], rest);
    }
  }

  /** The characters that a scan can see. */
  function Seen(text: string): string {
    if |text| <= MAX_RUNES then text else text[..MAX_RUNES]
  }

  datatype Scanned = Scanned(value: nat, rest: string)

  /** One `%d`: spaces, then at least one digit, then a value in range. */
  function ScanNumber(s: string, max: nat): (number: Option<Scanned>)
    ensures number.Some? ==> number.value.value <= max
  {
    var text := s[SpacePrefix(s)..];
    var n := DigitPrefix(text);
    if n == 0 || Value(text[..n]) > max then None
    else Some(Scanned(Value(text[..n]), text[n..]))
  }

  /** A literal part of the format, then one `%d`. */
  function ScanParam(literal: string, s: string, max: nat): (number: Option<Scanned>)
    ensures number.Some? ==> number.value.value <= max
  {
    if literal <= s then ScanNumber(s[|literal|..], max) else None
  }

  function ScanParams(s: string): Option<(CostParams, string)> {
    match ScanParam("m=", s, MAX_UINT32)
    case None => None
    case Some(m) =>
      match ScanParam(",t=", m.rest, MAX_UINT32)
      case None => None
      case Some(t) =>
        match ScanParam(",p=", t.rest, MAX_UINT8)
        case None => None
        case Some(p) => Some((CostParams(m.value, t.value, p.value), p.rest))
  }

  lemma ScanParamsByParts(s: string, m: Option<Scanned>, t: Option<Scanned>, p: Option<Scanned>)
    requires m == ScanParam("m=", s, MAX_UINT32)
    requires m.Some? ==> t == ScanParam(",t=", m.value.rest, MAX_UINT32)
    requires m.Some? && t.Some? ==> p == ScanParam(",p=", t.value.rest, MAX_UINT8)
    ensures ScanParams(s) ==
      if m.None? || t.None? || p.None? then None
      else Some((CostParams(m.value.value, t.value.value, p.value.value), p.value.rest))
  {
  }

  // ----- the reader

  /** A `strings.Reader` being scanned. */
  class Reader {
    const text: string
    var pos: nat

    ghost predicate Valid()
      reads this
    {
      pos <= |Seen(text)|
    }

    ghost function Rest(): string
      requires Valid()
      reads this
    {
      Seen(text)[pos..]
    }

    constructor (text: string)
      ensures Valid() && this.text == text && Rest() == Seen(text)
    {
      this.text := text;
      pos := 0;
    }

    /** How many characters are left unread, seen or not. */
    function Len(): nat
      requires Valid()
      reads this
    {
      |text| - pos
    }

    /** Skips spaces; a line feed behind them is an error. */
    method SkipSpace() returns (ok: bool)
      requires Valid()
      modifies this
      ensures Valid() && Rest() == old(Rest())[SpacePrefix(old(Rest()))..]
      ensures ok <==> Rest() == "" || Rest()[0] != '\n'
    {
      var seen, start := Seen(text), pos;
      while pos < |seen| && IsSpace(seen[pos])
        invariant start <= pos <= |seen|
        invariant AllSpaces(seen[start..pos])
      {
        assert seen[start..pos + 1] == seen[start..pos] + [seen[pos]];
        pos := pos + 1;
      }
      assert seen[start..] == seen[start..pos] + seen[pos..];
      SpacePrefixOf(seen[start..pos], seen[pos..]);
      ok := pos == |seen| || seen[pos] != '\n';
    }

    /** Reads decimal digits; `digits` says how many there were. */
    method ReadDigits() returns (value: nat, digits: nat)
      requires Valid()
      modifies this
      ensures Valid() && digits == DigitPrefix(old(Rest()))
      ensures Rest() == old(Rest())[digits..] && value == Value(old(Rest())[..digits])
    {
      var seen, start := Seen(text), pos;
      value := 0;
      assert seen[start..start] == "";
      while pos < |seen| && IsDigit(seen[pos])
        invariant start <= pos <= |seen|
        invariant AllDigits(seen[start..pos]) && value == Value(seen[start..pos])
      {
        assert seen[start..pos + 1] == seen[start..pos] + [seen[pos]];
        value := 10 * value + DigitValue(seen[pos]);
        pos := pos + 1;
      }
      digits := pos - start;
      assert seen[start..] == seen[start..pos] + seen[pos..];
      DigitPrefixOf(seen[start..pos], seen[pos..]);
      assert seen[start..][..digits] == seen[start..pos];
    }

    /** One `%d` of at most `max`. */
    method ReadNumber(max: nat) returns (number: Option<nat>)
      requires Valid()
      modifies this
      ensures Valid()
      ensures number.Some? <==> ScanNumber(old(Rest()), max).Some?
      ensures number.Some? ==> ScanNumber(old(Rest()), max) == Some(Scanned(number.value, Rest()))
    {
      var ok := SkipSpace();
      if !ok {
        return None;
      }
      var value, digits := ReadDigits();
      number := if digits == 0 || value > max then None else Some(value);
    }

    method ReadLiteral(literal: string) returns (ok: bool)
      requires Valid()
      modifies this
      ensures Valid() && (ok <==> literal <= old(Rest()))
      ensures ok ==> Rest() == old(Rest())[|literal|..]
    {
      var seen, start, i := Seen(text), pos, 0;
      while i < |literal|
        invariant 0 <= i <= |literal| && pos == start + i <= |seen|
        invariant literal[..i] == seen[start..][..i]
      {
        if pos == |seen| || seen[pos] != literal[i] {
          return false;
        }
        assert seen[start..][..i + 1] == seen[start..][..i] + [seen[pos]];
        pos, i := pos + 1, i + 1;
      }
      assert literal[..i] == literal;
      ok := true;
    }

    method ReadParam(literal: string, max: nat) returns (number: Option<nat>)
      requires Valid()
      modifies this
      ensures Valid()
      ensures number.Some? <==> ScanParam(literal, old(Rest()), max).Some?
      ensures number.Some? ==> ScanParam(literal, old(Rest()), max) == Some(Scanned(number.value, Rest()))
    {
      var ok := ReadLiteral(literal);
      if !ok {
        return None;
      }
      number := ReadNumber(max);
    }

    /** `fmt.Fscanf(reader, "m=%d,t=%d,p=%d", &m, &t, &p)` */
    method ReadParams() returns (params: Option<CostParams>)
      requires Valid()
      modifies this
      ensures Valid()
      ensures params.Some? <==> ScanParams(old(Rest())).Some?
      ensures params.Some? ==> ScanParams(old(Rest())) == Some((params.value, Rest()))
    {
      ghost var start := Rest();
      var m := ReadParam("m=", MAX_UINT32);
      if m.None? {
        return None;
      }
      ghost var afterMemory := Rest();
      var t := ReadParam(",t=", MAX_UINT32);
      if t.None? {
        return None;
      }
      ghost var afterTime := Rest();
      var p := ReadParam(",p=", MAX_UINT8);
      ScanParamsByParts(start, Some(Scanned(m.value, afterMemory)), Some(Scanned(t.value, afterTime)), ScanParam(",p=", afterTime, MAX_UINT8));
      if p.None? {
        return None;
      }
      params := Some(CostParams(m.value, t.value, p.value));
    }
  }

  // ----- which spellings are accepted

  /** A number as it may be written: any spaces, any leading zeros. */
  datatype Numeral = Numeral(spaces: string, digits: string) {
    predicate Valid() {
      AllSpaces(spaces) && digits != "" && AllDigits(digits)
    }

    function Text(): string {
      spaces + digits
    }

    predicate IsCanonical() {
      spaces == "" && NoLeadingZero(digits)
    }
  }

  datatype Spelling = Spelling(memory: Numeral, time: Numeral, parallelism: Numeral) {
    function Text(): string {
      "m=" + memory.Text() + (",t=" + time.Text() + (",p=" + parallelism.Text()))
    }

    predicate IsCanonical() {
      memory.IsCanonical() && time.IsCanonical() && parallelism.IsCanonical()
    }

    /** True when this is a spelling of the parameters. */
    predicate Means(params: CostParams) {
      && memory.Valid() && time.Valid() && parallelism.Valid()
      && Value(memory.digits) == params.memory
      && Value(time.digits) == params.time
      && Value(parallelism.digits) == params.parallelism
    }
  }

  predicate NoDigitFirst(s: string) {
    s == "" || !IsDigit(s[0])
  }

  lemma ScanNumberAccepts(numeral: Numeral, rest: string, max: nat)
    requires numeral.Valid() && NoDigitFirst(rest)
    ensures ScanNumber(numeral.Text() + rest, max)
      == if Value(numeral.digits) <= max then Some(Scanned(Value(numeral.digits), rest)) else None
  {
    var s, text := numeral.Text() + rest, numeral.digits + rest;
    assert s == numeral.spaces + text;
    assert IsDigit(text[0]);
    SpacePrefixOf(numeral.spaces, text);
    DigitPrefixOf(numeral.digits, rest);
    assert s[|numeral.spaces|..] == text;
    assert text[..|numeral.digits|] == numeral.digits && text[|numeral.digits|..] == rest;
  }

  function NumeralOf(s: string): Numeral {
    var n := SpacePrefix(s);
    Numeral(s[..n], s[n..][..DigitPrefix(s[n..])])
  }

  lemma ScanNumberFinds(s: string, max: nat)
    requires ScanNumber(s, max).Some?
    ensures NumeralOf(s).Valid() && Value(NumeralOf(s).digits) == ScanNumber(s, max).value.value <= max
    ensures s == NumeralOf(s).Text() + ScanNumber(s, max).value.rest
    ensures NoDigitFirst(ScanNumber(s, max).value.rest)
  {
    var text := s[SpacePrefix(s)..];
    assert s == s[..SpacePrefix(s)] + text;
    assert text == text[..DigitPrefix(text)] + text[DigitPrefix(text)..];
  }

  lemma ScanParamAccepts(literal: string, numeral: Numeral, rest: string, max: nat)
    requires numeral.Valid() && NoDigitFirst(rest) && Value(numeral.digits) <= max
    ensures ScanParam(literal, literal + numeral.Text() + rest, max) == Some(Scanned(Value(numeral.digits), rest))
  {
    var s := literal + numeral.Text() + rest;
    assert literal <= s && s[|literal|..] == numeral.Text() + rest;
    ScanNumberAccepts(numeral, rest, max);
  }

  lemma ScanParamFinds(literal: string, s: string, max: nat) returns (numeral: Numeral)
    requires ScanParam(literal, s, max).Some?
    ensures numeral.Valid() && Value(numeral.digits) == ScanParam(literal, s, max).value.value
    ensures s == literal + numeral.Text() + ScanParam(literal, s, max).value.rest
    ensures NoDigitFirst(ScanParam(literal, s, max).value.rest)
  {
    numeral := NumeralOf(s[|literal|..]);
    ScanNumberFinds(s[|literal|..], max);
    assert s == literal + s[|literal|..];
  }

  lemma NestedText(spelling: Spelling, afterMemory: string, afterTime: string, rest: string)
    requires afterMemory == ",t=" + spelling.time.Text() + afterTime
    requires afterTime == ",p=" + spelling.parallelism.Text() + rest
    ensures spelling.Text() + rest == "m=" + spelling.memory.Text() + afterMemory
  {
  }

  lemma SpellingScans(spelling: Spelling, params: CostParams, rest: string)
    requires spelling.Means(params) && NoDigitFirst(rest)
    ensures ScanParams(spelling.Text() + rest) == Some((params, rest))
  {
    var afterTime := ",p=" + spelling.parallelism.Text() + rest;
    var afterMemory := ",t=" + spelling.time.Text() + afterTime;
    NestedText(spelling, afterMemory, afterTime, rest);
    ThreeParamsScan(spelling, params, spelling.Text() + rest, afterMemory, afterTime, rest);
  }

  lemma ThreeParamsScan(spelling: Spelling, params: CostParams, s: string, afterMemory: string, afterTime: string, rest: string)
    requires spelling.Means(params) && NoDigitFirst(rest) && NoDigitFirst(afterMemory) && NoDigitFirst(afterTime)
    requires s == "m=" + spelling.memory.Text() + afterMemory
    requires afterMemory == ",t=" + spelling.time.Text() + afterTime
    requires afterTime == ",p=" + spelling.parallelism.Text() + rest
    ensures ScanParams(s) == Some((params, rest))
  {
    ScanParamAccepts("m=", spelling.memory, afterMemory, MAX_UINT32);
    ScanParamAccepts(",t=", spelling.time, afterTime, MAX_UINT32);
    ScanParamAccepts(",p=", spelling.parallelism, rest, MAX_UINT8);
    ScanParamsByParts(s, Some(Scanned(params.memory, afterMemory)), Some(Scanned(params.time, afterTime)),
                      Some(Scanned(params.parallelism, rest)));
  }

  lemma SpellingFound(s: string) returns (spelling: Spelling)
    requires ScanParams(s).Some?
    ensures spelling.Means(ScanParams(s).value.0) && spelling.Text() + ScanParams(s).value.1 == s
    ensures NoDigitFirst(ScanParams(s).value.1)
  {
    var m := ScanParam("m=", s, MAX_UINT32).value;
    var t := ScanParam(",t=", m.rest, MAX_UINT32).value;
    var memory := ScanParamFinds("m=", s, MAX_UINT32);
    var time := ScanParamFinds(",t=", m.rest, MAX_UINT32);
    var parallelism := ScanParamFinds(",p=", t.rest, MAX_UINT8);
    spelling := Spelling(memory, time, parallelism);
    NestedText(spelling, m.rest, t.rest, ScanParams(s).value.1);
  }

  /** The scan returns parameters and a rest exactly when the string is a spelling of these parameters, then this
      rest, which does not go on with a digit. */
  lemma ScanIsTheGrammar(s: string, params: CostParams, rest: string)
    ensures ScanParams(s) == Some((params, rest)) <==>
      NoDigitFirst(rest) && exists spelling: Spelling :: spelling.Means(params) && spelling.Text() + rest == s
  {
    if ScanParams(s) == Some((params, rest)) {
      var spelling := SpellingFound(s);
      assert spelling.Means(params) && spelling.Text() + rest == s;
    }
    forall spelling: Spelling | spelling.Means(params) && spelling.Text() + rest == s && NoDigitFirst(rest)
      ensures ScanParams(s) == Some((params, rest))
    {
      SpellingScans(spelling, params, rest);
    }
  }

  // ----- the canonical spelling

  function Canonical(params: CostParams): Spelling {
    Spelling(
      Numeral("", Print(params.memory)),
      Numeral("", Print(params.time)),
      Numeral("", Print(params.parallelism)))
  }

  /** What `%d` prints is a spelling. */
  lemma CanonicalMeans(params: CostParams)
    ensures Canonical(params).Means(params)
  {
    PrintThenValue(params.memory);
    PrintThenValue(params.time);
    PrintThenValue(params.parallelism);
  }

  lemma NumeralOfText(numeral: Numeral, rest: string)
    requires numeral.Valid() && NoDigitFirst(rest)
    ensures NumeralOf(numeral.Text() + rest) == numeral
  {
    var s, text := numeral.Text() + rest, numeral.digits + rest;
    assert s == numeral.spaces + text;
    assert IsDigit(text[0]);
    SpacePrefixOf(numeral.spaces, text);
    DigitPrefixOf(numeral.digits, rest);
    assert s[..|numeral.spaces|] == numeral.spaces && s[|numeral.spaces|..] == text;
    assert text[..|numeral.digits|] == numeral.digits;
  }

  lemma SameNumeral(literal: string, a: Numeral, b: Numeral, restA: string, restB: string)
    requires a.Valid() && b.Valid() && NoDigitFirst(restA) && NoDigitFirst(restB)
    requires literal + a.Text() + restA == literal + b.Text() + restB
    ensures a == b && restA == restB
  {
    var s := literal + a.Text() + restA;
    assert s[|literal|..] == a.Text() + restA;
    assert s[|literal|..] == b.Text() + restB;
    NumeralOfText(a, restA);
    NumeralOfText(b, restB);
    assert restA == s[|literal| + |a.Text()|..];
    assert restB == s[|literal| + |b.Text()|..];
  }

  /** A string is a spelling in at most one way. */
  lemma SpellingIsUnique(a: Spelling, b: Spelling)
    requires a.memory.Valid() && a.time.Valid() && a.parallelism.Valid()
    requires b.memory.Valid() && b.time.Valid() && b.parallelism.Valid()
    requires a.Text() == b.Text()
    ensures a == b
  {
    var lastA, lastB := ",p=" + a.parallelism.Text(), ",p=" + b.parallelism.Text();
    var middleA, middleB := ",t=" + a.time.Text() + lastA, ",t=" + b.time.Text() + lastB;
    SameNumeral("m=", a.memory, b.memory, middleA, middleB);
    SameNumeral(",t=", a.time, b.time, lastA, lastB);
    assert lastA == lastA + "" && lastB == lastB + "";
    SameNumeral(",p=", a.parallelism, b.parallelism, "", "");
  }

  lemma CanonicalNumeral(numeral: Numeral, n: nat)
    requires numeral.Valid() && Value(numeral.digits) == n
    ensures numeral == Numeral("", Print(n)) <==> numeral.IsCanonical()
  {
    if numeral.IsCanonical() {
      ValueThenPrint(numeral.digits);
    }
    PrintHasNoLeadingZero(n);
  }

  /** A spelling is the one that `%d` prints exactly when it has no spaces and no leading zeros. */
  lemma CanonicalSpelling(spelling: Spelling, params: CostParams)
    requires spelling.Means(params)
    ensures spelling.Text() == Canonical(params).Text() <==> spelling.IsCanonical()
  {
    CanonicalMeans(params);
    CanonicalNumeral(spelling.memory, params.memory);
    CanonicalNumeral(spelling.time, params.time);
    CanonicalNumeral(spelling.parallelism, params.parallelism);
    if spelling.Text() == Canonical(params).Text() {
      SpellingIsUnique(spelling, Canonical(params));
    }
  }

  lemma CanonicalLength(params: CostParams)
    ensures |Canonical(params).Text()| <= 31
  {
    PrintLength(params.memory, 10);
    PrintLength(params.time, 10);
    PrintLength(params.parallelism, 3);
  }
}
