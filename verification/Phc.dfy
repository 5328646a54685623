/** The PHC string form of an Argon2id hash: its printer and its parser. */
module Phc {
  import opened Wrappers
  import opened Scan
  import opened Fields
  import opened Base64
  import Decimal

  datatype Params = Params(cost: CostParams, saltLen: uint32, hashLen: uint32)

  datatype PasswordHash = PasswordHash(hash: seq<byte>, salt: seq<byte>, params: Params)

  datatype ParseError =
    | InvalidPrefix
    | InvalidFieldsCount
    | UnsupportedId
    | UnsupportedVersion
    | InvalidParams
    | ExtraString
    | InvalidSalt
    | InvalidHash

  const ID := "argon2id"
  const VERSION := "v=19"

  // ----- the printer

  function FormatFields(hash: seq<byte>, salt: seq<byte>, cost: CostParams): seq<string> {
    [ID, VERSION, Canonical(cost).Text(), Encode(salt), Encode(hash)]
  }

  function Format(hash: seq<byte>, salt: seq<byte>, params: Params): string {
    [SEPARATOR] + Join(FormatFields(hash, salt, params.cost))
  }

  // ----- the parser

  function ReadParams(field: string): Result<CostParams, ParseError> {
    match ScanParams(Seen(field))
    case None => Failure(InvalidParams)
    case Some(scanned) =>
      if scanned.1 != "" || |field| > MAX_RUNES then Failure(ExtraString) else Success(scanned.0)
  }

  function ReadBytes(field: string, error: ParseError): Result<seq<byte>, ParseError> {
    match Decode(field)
    case None => Failure(error)
    case Some(bytes) => if |bytes| > MAX_UINT32 then Failure(error) else Success(bytes)
  }

  function ReadHash(cost: CostParams, saltField: string, hashField: string): Result<PasswordHash, ParseError> {
    match ReadBytes(saltField, InvalidSalt)
    case Failure(error) => Failure(error)
    case Success(salt) =>
      match ReadBytes(hashField, InvalidHash)
      case Failure(error) => Failure(error)
      case Success(hash) => Success(PasswordHash(hash, salt, Params(cost, |salt|, |hash|)))
  }

  function ParseFields(fields: seq<string>): Result<PasswordHash, ParseError> {
    if |fields| != 5 then Failure(InvalidFieldsCount)
    else if fields[0] != ID then Failure(UnsupportedId)
    else if fields[1] != VERSION then Failure(UnsupportedVersion)
    else
      match ReadParams(fields[2])
      case Failure(error) => Failure(error)
      case Success(cost) => ReadHash(cost, fields[3], fields[4])
  }

  function Parse(text: string): Result<PasswordHash, ParseError> {
    if text == "" || text[0] != SEPARATOR then Failure(InvalidPrefix) else ParseFields(Split(text[1..]))
  }

  /** parsePasswordHashArgon2ID, consuming the parameter field through a reader. */
  method ParsePasswordHash(passwordHash: string) returns (r: Result<PasswordHash, ParseError>)
    ensures r == Parse(passwordHash)
  {
    if passwordHash == "" || passwordHash[0] != SEPARATOR {
      return Failure(InvalidPrefix);
    }
    var fields := Split(passwordHash[1..]);
    if |fields| != 5 {
      return Failure(InvalidFieldsCount);
    }
    if fields[0] != ID {
      return Failure(UnsupportedId);
    }
    if fields[1] != VERSION {
      return Failure(UnsupportedVersion);
    }
    var cost := ReadParamsField(fields[2]);
    if cost.Failure? {
      return Failure(cost.error);
    }
    r := ReadHash(cost.value, fields[3], fields[4]);
  }

  method ReadParamsField(field: string) returns (cost: Result<CostParams, ParseError>)
    ensures cost == ReadParams(field)
  {
    var reader := new Reader(field);
    var params := reader.ReadParams();
    if params.None? {
      return Failure(InvalidParams);
    }
    if reader.Len() != 0 {
      return Failure(ExtraString);
    }
    cost := Success(params.value);
  }

  // ----- the literal form

  lemma JoinOfFive(a: string, b: string, c: string, d: string, e: string)
    ensures Join([a, b, c, d, e]) == a + "$" + b + "$" + c + "$" + d + "$" + e
  {
    assert [a, b, c, d, e][1..] == [b, c, d, e] && [b, c, d, e][1..] == [c, d, e];
    assert [c, d, e][1..] == [d, e] && [d, e][1..] == [e];
    assert Join([d, e]) == d + "$" + e;
    assert Join([c, d, e]) == c + "$" + (d + "$" + e);
    assert Join([b, c, d, e]) == b + "$" + (c + "$" + (d + "$" + e));
  }

  lemma Regrouped(m: string, a: string, t: string, b: string, p: string, c: string, rest: string)
    ensures m + (a + (t + (b + (p + c)))) + rest == m + a + t + b + p + c + rest
  {
  }

  lemma HeadLiteral()
    ensures "$" + ID + "$" + VERSION + "$" == "$argon2id$v=19$"
    ensures "$argon2id$v=19$" + "m=" == "$argon2id$v=19$m="
  {
  }

  lemma CostText(head: string, spelling: Spelling)
    ensures head + spelling.Text()
      == head + "m=" + spelling.memory.Text() + ",t=" + spelling.time.Text() + ",p=" + spelling.parallelism.Text()
  {
    Regrouped(head + "m=", spelling.memory.Text(), ",t=", spelling.time.Text(), ",p=", spelling.parallelism.Text(), "");
    var rest := spelling.memory.Text() + (",t=" + spelling.time.Text() + (",p=" + spelling.parallelism.Text()));
    assert spelling.Text() == "m=" + rest;
    assert head + ("m=" + rest) == head + "m=" + rest;
  }

  /** The whole string for given texts of the numbers, the salt and the hash. */
  function PhcText(memory: string, time: string, parallelism: string, saltText: string, hashText: string): string {
    "$argon2id$v=19$m=" + memory + ",t=" + time + ",p=" + parallelism + "$" + saltText + "$" + hashText
  }

  lemma JoinedText(spelling: Spelling, saltText: string, hashText: string)
    ensures [SEPARATOR] + Join([ID, VERSION, spelling.Text(), saltText, hashText])
      == PhcText(spelling.memory.Text(), spelling.time.Text(), spelling.parallelism.Text(), saltText, hashText)
  {
    JoinOfFive(ID, VERSION, spelling.Text(), saltText, hashText);
    HeadLiteral();
    CostText("$argon2id$v=19$", spelling);
    JoinedParts(ID, VERSION, spelling.Text(), saltText, hashText);
  }

  lemma JoinedParts(a: string, b: string, c: string, d: string, e: string)
    ensures "$" + (a + "$" + b + "$" + c + "$" + d + "$" + e) == "$" + a + "$" + b + "$" + c + "$" + d + "$" + e
  {
  }

  /** The printed form, written out. */
  lemma FormatIsThePhcForm(hash: seq<byte>, salt: seq<byte>, params: Params)
    ensures Format(hash, salt, params) ==
      "$argon2id$v=19$m=" + Decimal.Print(params.cost.memory) + ",t=" + Decimal.Print(params.cost.time)
      + ",p=" + Decimal.Print(params.cost.parallelism) + "$" + Encode(salt) + "$" + Encode(hash)
  {
    JoinedText(Canonical(params.cost), Encode(salt), Encode(hash));
    assert forall n: nat :: Numeral("", Decimal.Print(n)).Text() == Decimal.Print(n);
  }

  // ----- round trip

  lemma DigitsAreAField(digits: string)
    requires Decimal.AllDigits(digits)
    ensures IsField(digits)
  {
    forall i | 0 <= i < |digits| ensures digits[i] != SEPARATOR {
      assert Decimal.IsDigit(digits[i]);
    }
  }

  lemma CanonicalIsAField(cost: CostParams)
    ensures IsField(Canonical(cost).Text())
  {
    CanonicalMeans(cost);
    DigitsAreAField(Decimal.Print(cost.memory));
    DigitsAreAField(Decimal.Print(cost.time));
    DigitsAreAField(Decimal.Print(cost.parallelism));
  }

  lemma EncodingIsAField(b: seq<byte>)
    ensures IsField(Encode(b))
  {
    Base64.RoundTrip(b);
    forall i | 0 <= i < |Encode(b)| ensures Encode(b)[i] != SEPARATOR {
      assert InAlphabet(Encode(b)[i]);
    }
  }

  lemma FormatSplits(hash: seq<byte>, salt: seq<byte>, params: Params)
    ensures Split(Format(hash, salt, params)[1..]) == FormatFields(hash, salt, params.cost)
  {
    CanonicalIsAField(params.cost);
    EncodingIsAField(salt);
    EncodingIsAField(hash);
    assert IsField(ID) && IsField(VERSION);
    var fields := FormatFields(hash, salt, params.cost);
    SplitAfterJoin(fields);
    assert Format(hash, salt, params)[1..] == Join(fields);
  }

  lemma SpellingIsRead(spelling: Spelling, cost: CostParams)
    requires spelling.Means(cost) && |spelling.Text()| <= MAX_RUNES
    ensures ReadParams(spelling.Text()) == Success(cost)
  {
    SpellingScans(spelling, cost, "");
    assert spelling.Text() + "" == spelling.Text();
  }

  lemma CanonicalIsRead(cost: CostParams)
    ensures ReadParams(Canonical(cost).Text()) == Success(cost)
  {
    CanonicalMeans(cost);
    CanonicalLength(cost);
    SpellingIsRead(Canonical(cost), cost);
  }

  lemma EncodingIsRead(b: seq<byte>, error: ParseError)
    ensures ReadBytes(Encode(b), error) == if |b| > MAX_UINT32 then Failure(error) else Success(b)
  {
    Base64.RoundTrip(b);
  }

  /** Parsing what was printed gives back the same hash, salt and costs, with the real lengths,
      unless a length does not fit 32 bits. */
  lemma RoundTrip(hash: seq<byte>, salt: seq<byte>, params: Params)
    ensures Parse(Format(hash, salt, params)) ==
      if |salt| > MAX_UINT32 then Failure(InvalidSalt)
      else if |hash| > MAX_UINT32 then Failure(InvalidHash)
      else Success(PasswordHash(hash, salt, Params(params.cost, |salt|, |hash|)))
  {
    FormatSplits(hash, salt, params);
    CanonicalIsRead(params.cost);
    EncodingIsRead(salt, InvalidSalt);
    EncodingIsRead(hash, InvalidHash);
  }

  // ----- normal form

  function Normalize(text: string): string
    requires Parse(text).Success?
  {
    var parsed := Parse(text).value;
    Format(parsed.hash, parsed.salt, parsed.params)
  }

  lemma ParsedLengths(text: string)
    requires Parse(text).Success?
    ensures
      var parsed := Parse(text).value;
      parsed.params.saltLen == |parsed.salt| && parsed.params.hashLen == |parsed.hash|
  {
  }

  lemma ParsedAgain(parsed: PasswordHash)
    requires parsed.params.saltLen == |parsed.salt| && parsed.params.hashLen == |parsed.hash|
    ensures Parse(Format(parsed.hash, parsed.salt, parsed.params)) == Success(parsed)
  {
    RoundTrip(parsed.hash, parsed.salt, parsed.params);
  }

  /** A parsed string and its normal form mean the same, and the normal form is its own normal form. */
  lemma NormalForm(text: string)
    requires Parse(text).Success?
    ensures Parse(Normalize(text)) == Parse(text)
    ensures Normalize(Normalize(text)) == Normalize(text)
  {
    ParsedLengths(text);
    ParsedAgain(Parse(text).value);
  }

  /** Two strings with the same meaning have the same normal form, and only they do. */
  lemma SameNormalForm(a: string, b: string)
    requires Parse(a).Success? && Parse(b).Success?
    ensures Normalize(a) == Normalize(b) <==> Parse(a) == Parse(b)
  {
    NormalForm(a);
    NormalForm(b);
  }

  /** The text of base64 without line breaks and with zero unused bits. */
  predicate PlainBase64(field: string) {
    && Filter(field) == field
    && (OnlyAlphabet(field) ==> TrailingBitsAreZero(Values(field)))
  }

  lemma PlainBase64IsCanonical(field: string)
    requires Decode(field).Some?
    ensures Encode(Decode(field).value) == field <==> PlainBase64(field)
  {
    CanonicalText(field);
    if Encode(Decode(field).value) == field {
      Base64.RoundTrip(Decode(field).value);
      NothingToFilter(field);
    }
  }

  lemma PartsOf(fields: seq<string>)
    requires ParseFields(fields).Success?
    ensures
      var parsed := ParseFields(fields).value;
      && |fields| == 5 && fields[0] == ID && fields[1] == VERSION
      && ReadParams(fields[2]) == Success(parsed.params.cost)
      && Decode(fields[3]) == Some(parsed.salt) && Decode(fields[4]) == Some(parsed.hash)
  {
  }

  lemma ParsedText(text: string)
    requires text != "" && text[0] == SEPARATOR
    ensures text == [SEPARATOR] + Join(Split(text[1..]))
  {
    JoinAfterSplit(text[1..]);
    assert text == [text[0]] + text[1..];
  }

  lemma ParsedStart(text: string)
    requires Parse(text).Success?
    ensures text != "" && text[0] == SEPARATOR && Parse(text) == ParseFields(Split(text[1..]))
  {
  }

  /** What a parsed string is made of. */
  lemma ParsedFields(text: string)
    requires Parse(text).Success?
    ensures text == [SEPARATOR] + Join(Split(text[1..]))
    ensures
      var fields, parsed := Split(text[1..]), Parse(text).value;
      && |fields| == 5 && fields[0] == ID && fields[1] == VERSION
      && ReadParams(fields[2]) == Success(parsed.params.cost)
      && Decode(fields[3]) == Some(parsed.salt) && Decode(fields[4]) == Some(parsed.hash)
  {
    ParsedStart(text);
    ParsedText(text);
    PartsOf(Split(text[1..]));
  }

  lemma SameFields(fields: seq<string>, spelling: Spelling, hash: seq<byte>, salt: seq<byte>, cost: CostParams)
    requires |fields| == 5 && fields[0] == ID && fields[1] == VERSION
    requires spelling.Means(cost) && spelling.Text() == fields[2]
    requires Decode(fields[3]) == Some(salt) && Decode(fields[4]) == Some(hash)
    ensures FormatFields(hash, salt, cost) == fields <==>
      spelling.IsCanonical() && PlainBase64(fields[3]) && PlainBase64(fields[4])
  {
    CanonicalSpelling(spelling, cost);
    PlainBase64IsCanonical(fields[3]);
    PlainBase64IsCanonical(fields[4]);
    FiveFields(FormatFields(hash, salt, cost), fields);
  }

  lemma FiveFields(a: seq<string>, b: seq<string>)
    requires |a| == |b| == 5
    ensures a == b <==> a[0] == b[0] && a[1] == b[1] && a[2] == b[2] && a[3] == b[3] && a[4] == b[4]
  {
  }

  lemma SameText(text: string, fields: seq<string>, normal: seq<string>)
    requires |fields| >= 1 && |normal| >= 1 && text == [SEPARATOR] + Join(fields)
    requires Split(Join(fields)) == fields && Split(Join(normal)) == normal
    ensures [SEPARATOR] + Join(normal) == text <==> normal == fields
  {
    assert ([SEPARATOR] + Join(normal))[1..] == Join(normal);
    assert text[1..] == Join(fields);
  }

  /** A parsed string is its own normal form exactly when its numbers have no spaces and no leading zeros,
      and its base64 has no line breaks and no set unused bits. */
  lemma IsNormal(text: string) returns (spelling: Spelling)
    requires Parse(text).Success?
    ensures |Split(text[1..])| == 5
    ensures spelling.Means(Parse(text).value.params.cost) && spelling.Text() == Split(text[1..])[2]
    ensures Normalize(text) == text <==>
      spelling.IsCanonical() && PlainBase64(Split(text[1..])[3]) && PlainBase64(Split(text[1..])[4])
  {
    var parsed, fields := Parse(text).value, Split(text[1..]);
    var normal := FormatFields(parsed.hash, parsed.salt, parsed.params.cost);
    ParsedFields(text);
    spelling := ReadSpelling(fields[2]);
    SameFields(fields, spelling, parsed.hash, parsed.salt, parsed.params.cost);
    FormatSplits(parsed.hash, parsed.salt, parsed.params);
    assert Format(parsed.hash, parsed.salt, parsed.params)[1..] == Join(normal);
    assert text[1..] == Join(fields);
    SameText(text, fields, normal);
  }

  lemma ReadSpelling(field: string) returns (spelling: Spelling)
    requires ReadParams(field).Success?
    ensures spelling.Means(ReadParams(field).value) && spelling.Text() == field
    ensures |field| <= MAX_RUNES
  {
    spelling := SpellingFound(field);
  }

  // ----- the accepted strings

  /** The grammar: any spelling of the costs, any base64 text of the salt and of the hash. */
  predicate Spells(text: string, parsed: PasswordHash, spelling: Spelling, saltText: string, hashText: string) {
    && text == PhcText(spelling.memory.Text(), spelling.time.Text(), spelling.parallelism.Text(), saltText, hashText)
    && spelling.Means(parsed.params.cost) && |spelling.Text()| <= MAX_RUNES
    && Decode(saltText) == Some(parsed.salt) && parsed.params.saltLen == |parsed.salt|
    && Decode(hashText) == Some(parsed.hash) && parsed.params.hashLen == |parsed.hash|
  }

  lemma {:induction false} FilteredIsAField(s: string)
    requires OnlyAlphabet(Filter(s))
    ensures IsField(s)
  {
    if s != "" {
      if s[0] != '\r' && s[0] != '\n' {
        assert InAlphabet(Filter(s)[0]);
        assert Filter(s)[1..] == Filter(s[1..]);
      }
      FilteredIsAField(s[1..]);
    }
  }

  lemma NumeralIsAField(numeral: Numeral)
    requires numeral.Valid()
    ensures IsField(numeral.Text())
  {
    DigitsAreAField(numeral.digits);
    forall i | 0 <= i < |numeral.spaces| ensures numeral.spaces[i] != SEPARATOR {
      assert IsSpace(numeral.spaces[i]);
    }
  }

  lemma SpellingIsAField(spelling: Spelling)
    requires spelling.memory.Valid() && spelling.time.Valid() && spelling.parallelism.Valid()
    ensures IsField(spelling.Text())
  {
    NumeralIsAField(spelling.memory);
    NumeralIsAField(spelling.time);
    NumeralIsAField(spelling.parallelism);
  }

  lemma SpelledFields(spelling: Spelling, saltText: string, hashText: string)
    requires spelling.memory.Valid() && spelling.time.Valid() && spelling.parallelism.Valid()
    requires Decode(saltText).Some? && Decode(hashText).Some?
    ensures
      var fields := [ID, VERSION, spelling.Text(), saltText, hashText];
      Split(Join(fields)) == fields
  {
    assert IsField(ID) && IsField(VERSION);
    SpellingIsAField(spelling);
    DecodeSucceeds(saltText);
    DecodeSucceeds(hashText);
    FilteredIsAField(saltText);
    FilteredIsAField(hashText);
    SplitAfterJoin([ID, VERSION, spelling.Text(), saltText, hashText]);
  }

  lemma ParseJoined(text: string, fields: seq<string>)
    requires |fields| >= 1 && text == [SEPARATOR] + Join(fields) && Split(Join(fields)) == fields
    ensures Parse(text) == ParseFields(fields)
  {
    assert text[1..] == Join(fields);
  }

  lemma TextsAreRead(parsed: PasswordHash, saltText: string, hashText: string)
    requires Decode(saltText) == Some(parsed.salt) && parsed.params.saltLen == |parsed.salt|
    requires Decode(hashText) == Some(parsed.hash) && parsed.params.hashLen == |parsed.hash|
    ensures ReadHash(parsed.params.cost, saltText, hashText) == Success(parsed)
  {
  }

  lemma SpelledIsParsed(text: string, parsed: PasswordHash, spelling: Spelling, saltText: string, hashText: string)
    requires Spells(text, parsed, spelling, saltText, hashText)
    ensures Parse(text) == Success(parsed)
  {
    SpelledFields(spelling, saltText, hashText);
    JoinedText(spelling, saltText, hashText);
    ParseJoined(text, [ID, VERSION, spelling.Text(), saltText, hashText]);
    SpellingIsRead(spelling, parsed.params.cost);
    TextsAreRead(parsed, saltText, hashText);
  }

  lemma FieldsSpell(text: string, parsed: PasswordHash, spelling: Spelling, fields: seq<string>)
    requires |fields| == 5 && fields[0] == ID && fields[1] == VERSION && fields[2] == spelling.Text()
    requires text == [SEPARATOR] + Join(fields)
    requires spelling.Means(parsed.params.cost) && |fields[2]| <= MAX_RUNES
    requires Decode(fields[3]) == Some(parsed.salt) && parsed.params.saltLen == |parsed.salt|
    requires Decode(fields[4]) == Some(parsed.hash) && parsed.params.hashLen == |parsed.hash|
    ensures Spells(text, parsed, spelling, fields[3], fields[4])
  {
    FiveFields([ID, VERSION, spelling.Text(), fields[3], fields[4]], fields);
    JoinedText(spelling, fields[3], fields[4]);
  }

  lemma ParsedIsSpelled(text: string) returns (spelling: Spelling)
    requires Parse(text).Success?
    ensures |Split(text[1..])| == 5
    ensures Spells(text, Parse(text).value, spelling, Split(text[1..])[3], Split(text[1..])[4])
  {
    ParsedFields(text);
    ParsedLengths(text);
    spelling := ReadSpelling(Split(text[1..])[2]);
    FieldsSpell(text, Parse(text).value, spelling, Split(text[1..]));
  }

  /** The parser accepts exactly the strings of the grammar, with exactly their meaning. */
  lemma ParserIsTheGrammar(text: string, parsed: PasswordHash)
    ensures Parse(text) == Success(parsed) <==>
      exists spelling: Spelling, saltText: string, hashText: string :: Spells(text, parsed, spelling, saltText, hashText)
  {
    if Parse(text) == Success(parsed) {
      var spelling := ParsedIsSpelled(text);
      assert Spells(text, parsed, spelling, Split(text[1..])[3], Split(text[1..])[4]);
    }
    forall spelling: Spelling, saltText: string, hashText: string | Spells(text, parsed, spelling, saltText, hashText)
      ensures Parse(text) == Success(parsed)
    {
      SpelledIsParsed(text, parsed, spelling, saltText, hashText);
    }
  }

  /** Every string that parses starts in this way. */
  lemma ParsedPrefix(text: string)
    requires Parse(text).Success?
    ensures "$argon2id$v=19$m=" <= text
  {
    var spelling := ParsedIsSpelled(text);
    var saltText, hashText := Split(text[1..])[3], Split(text[1..])[4];
    PhcTextPrefix(spelling.memory.Text(), spelling.time.Text(), spelling.parallelism.Text(), saltText, hashText);
  }

  lemma PhcTextPrefix(memory: string, time: string, parallelism: string, saltText: string, hashText: string)
    ensures "$argon2id$v=19$m=" <= PhcText(memory, time, parallelism, saltText, hashText)
  {
  }

  // ----- the errors

  /** A field that spells parameters, within the limit of one scan. */
  ghost predicate SpellsParams(field: string) {
    |field| <= MAX_RUNES && exists spelling: Spelling, cost: CostParams :: spelling.Means(cost) && spelling.Text() == field
  }

  /** A field that decodes to at most 2^32 - 1 bytes. */
  predicate IsBase64(field: string) {
    && OnlyAlphabet(Filter(field)) && |Filter(field)| % 4 != 1
    && DecodedLength(|Filter(field)|) <= 4294967295
  }

  /** Behind spelled parameters something else follows, or the field is beyond the limit. */
  ghost predicate SpellsMore(field: string) {
    exists spelling: Spelling, cost: CostParams, rest: string ::
      && spelling.Means(cost) && NoDigitFirst(rest) && spelling.Text() + rest == Seen(field)
      && (rest != "" || |field| > MAX_RUNES)
  }

  lemma ParamsAreRead(field: string)
    ensures ReadParams(field).Success? <==> SpellsParams(field)
    ensures ReadParams(field) == Failure(ExtraString) <==> SpellsMore(field)
    ensures ReadParams(field).Failure? ==> ReadParams(field).error in {InvalidParams, ExtraString}
  {
    if ReadParams(field).Success? {
      var spelling := ReadSpelling(field);
      assert spelling.Means(ReadParams(field).value) && spelling.Text() == field;
    }
    if SpellsParams(field) {
      var spelling: Spelling, cost: CostParams :| spelling.Means(cost) && spelling.Text() == field;
      SpellingIsRead(spelling, cost);
    }
    ExtraIsRead(field);
  }

  lemma ExtraIsRead(field: string)
    ensures ReadParams(field) == Failure(ExtraString) <==> SpellsMore(field)
  {
    if ReadParams(field) == Failure(ExtraString) {
      var spelling := SpellingFound(Seen(field));
      var scanned := ScanParams(Seen(field)).value;
      assert spelling.Means(scanned.0) && spelling.Text() + scanned.1 == Seen(field);
    }
    if SpellsMore(field) {
      var spelling: Spelling, cost: CostParams, rest: string :|
        && spelling.Means(cost) && NoDigitFirst(rest) && spelling.Text() + rest == Seen(field)
        && (rest != "" || |field| > MAX_RUNES);
      SpellingScans(spelling, cost, rest);
    }
  }

  lemma BytesAreRead(field: string, error: ParseError)
    ensures ReadBytes(field, error).Success? <==> IsBase64(field)
    ensures ReadBytes(field, error).Failure? ==> ReadBytes(field, error).error == error
  {
    DecodeSucceeds(field);
  }

  /** What five fields behind the right id and version are answered. */
  ghost predicate FieldsAnswered(costs: string, salt: string, hash: string, r: Result<PasswordHash, ParseError>) {
    && (r == Failure(InvalidParams) <==> !SpellsParams(costs) && !SpellsMore(costs))
    && (r == Failure(ExtraString) <==> SpellsMore(costs))
    && (r == Failure(InvalidSalt) <==> SpellsParams(costs) && !IsBase64(salt))
    && (r == Failure(InvalidHash) <==> SpellsParams(costs) && IsBase64(salt) && !IsBase64(hash))
    && (r.Success? <==> SpellsParams(costs) && IsBase64(salt) && IsBase64(hash))
  }

  lemma FieldErrors(fields: seq<string>)
    requires |fields| == 5 && fields[0] == ID && fields[1] == VERSION
    ensures FieldsAnswered(fields[2], fields[3], fields[4], ParseFields(fields))
  {
    ParamsAreRead(fields[2]);
    BytesAreRead(fields[3], InvalidSalt);
    BytesAreRead(fields[4], InvalidHash);
  }

  /** Which error the parser reports: that of the first field from the left that is not as it should be. */
  lemma ErrorsInOrder(text: string, fields: seq<string>)
    requires |fields| >= 1 && forall i :: 0 <= i < |fields| ==> IsField(fields[i])
    ensures Parse(text) == Failure(InvalidPrefix) <==> !("$" <= text)
    ensures text == "$" + Join(fields) ==>
      && (Parse(text) == Failure(InvalidFieldsCount) <==> |fields| != 5)
      && (Parse(text) == Failure(UnsupportedId) <==> |fields| == 5 && fields[0] != "argon2id")
      && (Parse(text) == Failure(UnsupportedVersion) <==> |fields| == 5 && fields[0] == "argon2id" && fields[1] != "v=19")
      && (|fields| == 5 && fields[0] == "argon2id" && fields[1] == "v=19" ==>
            FieldsAnswered(fields[2], fields[3], fields[4], Parse(text)))
  {
    NoPrefix(text);
    if text == "$" + Join(fields) {
      SplitAfterJoin(fields);
      ParseJoined(text, fields);
      if |fields| == 5 && fields[0] == ID && fields[1] == VERSION {
        FieldErrors(fields);
      } else {
        EarlyErrors(fields);
      }
    }
  }

  lemma NoPrefix(text: string)
    ensures Parse(text) == Failure(InvalidPrefix) <==> !("$" <= text)
  {
    if "$" <= text {
      FieldsHavePrefix(Split(text[1..]));
    }
  }

  lemma FieldsHavePrefix(fields: seq<string>)
    ensures ParseFields(fields) != Failure(InvalidPrefix)
  {
    if |fields| == 5 {
      ParamsAreRead(fields[2]);
      BytesAreRead(fields[3], InvalidSalt);
      BytesAreRead(fields[4], InvalidHash);
    }
  }

  lemma EarlyErrors(fields: seq<string>)
    requires !(|fields| == 5 && fields[0] == ID && fields[1] == VERSION)
    ensures ParseFields(fields) == Failure(
      if |fields| != 5 then InvalidFieldsCount else if fields[0] != "argon2id" then UnsupportedId else UnsupportedVersion)
  {
  }
}
