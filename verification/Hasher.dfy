/** The password hasher: deriving a key, storing it in the PHC form, and checking a password against it. */
module Hasher {
  import opened Wrappers
  import opened Scan
  import opened Base64
  import opened Phc
  import Decimal

  /** The arguments of argon2.IDKey. */
  datatype KdfInput = KdfInput(password: seq<byte>, salt: seq<byte>, cost: CostParams, keyLen: uint32)

  /** What the model takes from Argon2id: it is a function; its keys have the asked length; whether it panics
      depends on the costs and the length only; it panics without a round or without a lane, and does not
      panic when there are both and the key is not empty. */
  ghost predicate IsKdf(f: KdfInput -> Option<seq<byte>>) {
    && (forall x: KdfInput :: f(x).Some? ==> |f(x).value| == x.keyLen && x.cost.time >= 1 && x.cost.parallelism >= 1)
    && (forall x: KdfInput :: x.cost.time >= 1 && x.cost.parallelism >= 1 && x.keyLen >= 1 ==> f(x).Some?)
    && (forall x: KdfInput, y: KdfInput :: x.cost == y.cost && x.keyLen == y.keyLen && f(x).Some? ==> f(y).Some?)
  }

  function ZeroKey(x: KdfInput): Option<seq<byte>> {
    if x.cost.time == 0 || x.cost.parallelism == 0 then None else Some(seq(x.keyLen, _ => 0))
  }

  type Kdf = f: KdfInput -> Option<seq<byte>> | IsKdf(f) ghost witness ZeroKey

  datatype HashOutcome = Hashed(passwordHash: string) | NoEntropy | HashPanicked

  datatype VerifyOutcome = Accepted | NotMatch | NotParsed(error: ParseError) | VerifyPanicked

  function HashWith(kdf: Kdf, params: Params, password: seq<byte>, salt: seq<byte>): HashOutcome {
    match kdf(KdfInput(password, salt, params.cost, params.hashLen))
    case None => HashPanicked
    case Some(key) => Hashed(Format(key, salt, params))
  }

  /** The password gives no hash to store: there is no entropy, or the key derivation panics. */
  predicate CannotHash(kdf: Kdf, params: Params, password: seq<byte>, entropy: Option<seq<byte>>) {
    entropy.None? || !HashWith(kdf, params, password, entropy.value).Hashed?
  }

  function VerifyWith(kdf: Kdf, password: seq<byte>, passwordHash: string): VerifyOutcome {
    match Parse(passwordHash)
    case Failure(error) => NotParsed(error)
    case Success(parsed) =>
      match kdf(KdfInput(password, parsed.salt, parsed.params.cost, parsed.params.hashLen))
      case None => VerifyPanicked
      case Some(key) => if key == parsed.hash then Accepted else NotMatch
  }

  class PasswordHasher {
    const params: Params
    const kdf: Kdf

    constructor (params: Params, kdf: Kdf)
      ensures this.params == params && this.kdf == kdf
    {
      this.params, this.kdf := params, kdf;
    }

    /** `entropy` is what the random source delivers: nothing, or enough bytes for the salt. */
    method Hash(password: seq<byte>, entropy: Option<seq<byte>>) returns (r: HashOutcome)
      requires entropy.Some? ==> |entropy.value| == params.saltLen
      ensures r == if entropy.None? then NoEntropy else HashWith(kdf, params, password, entropy.value)
      ensures r.Hashed? ==>
        && var key := kdf(KdfInput(password, entropy.value, params.cost, params.hashLen));
           key.Some? && r.passwordHash ==
             "$argon2id$v=19$m=" + Decimal.Print(params.cost.memory) + ",t=" + Decimal.Print(params.cost.time)
             + ",p=" + Decimal.Print(params.cost.parallelism) + "$" + Encode(entropy.value) + "$" + Encode(key.value)
    {
      var salt := new byte[params.saltLen];
      if entropy.None? {
        return NoEntropy;
      }
      for i := 0 to salt.Length
        invariant salt[..i] == entropy.value[..i]
      {
        salt[i] := entropy.value[i];
        assert salt[..i + 1] == salt[..i] + [entropy.value[i]];
      }
      assert salt[..] == entropy.value;
      var key := kdf(KdfInput(password, salt[..], params.cost, params.hashLen));
      if key.None? {
        return HashPanicked;
      }
      FormatIsThePhcForm(key.value, salt[..], params);
      r := Hashed(Format(key.value, salt[..], params));
    }

    /** The result depends on the stored string only, not on the parameters of this hasher. */
    method Verify(password: seq<byte>, passwordHash: string) returns (r: VerifyOutcome)
      ensures r == VerifyWith(kdf, password, passwordHash)
    {
      var parsed := ParsePasswordHash(passwordHash);
      if parsed.Failure? {
        return NotParsed(parsed.error);
      }
      var key := kdf(KdfInput(password, parsed.value.salt, parsed.value.params.cost, parsed.value.params.hashLen));
      if key.None? {
        return VerifyPanicked;
      }
      r := if key.value == parsed.value.hash then Accepted else NotMatch;
    }
  }

  lemma StoredIsParsed(key: seq<byte>, salt: seq<byte>, params: Params, stored: string)
    requires |salt| == params.saltLen && |key| == params.hashLen && stored == Format(key, salt, params)
    ensures Parse(stored) == Success(PasswordHash(key, salt, params))
  {
    Phc.RoundTrip(key, salt, params);
  }

  lemma VerifyStored(kdf: Kdf, params: Params, key: seq<byte>, password: seq<byte>, other: seq<byte>, salt: seq<byte>, stored: string)
    requires Parse(stored) == Success(PasswordHash(key, salt, params))
    requires kdf(KdfInput(password, salt, params.cost, params.hashLen)) == Some(key)
    ensures VerifyWith(kdf, other, stored) ==
      if kdf(KdfInput(other, salt, params.cost, params.hashLen)) == Some(key) then Accepted else NotMatch
  {
    assert kdf(KdfInput(other, salt, params.cost, params.hashLen)).Some?;
  }

  /** With at least one round, one lane and one byte of key, hashing succeeds; and whenever it does, the hash is
      accepted for its password, and for another one exactly when both derive the same key from the stored salt
      and costs. */
  lemma HashThenVerify(kdf: Kdf, params: Params, password: seq<byte>, other: seq<byte>, salt: seq<byte>)
    requires |salt| == params.saltLen
    ensures params.cost.time >= 1 && params.cost.parallelism >= 1 && params.hashLen >= 1 ==>
      HashWith(kdf, params, password, salt).Hashed?
    ensures HashWith(kdf, params, password, salt).Hashed? ==>
      var stored := HashWith(kdf, params, password, salt).passwordHash;
      && VerifyWith(kdf, password, stored) == Accepted
      && VerifyWith(kdf, other, stored) ==
           if kdf(KdfInput(other, salt, params.cost, params.hashLen)) == kdf(KdfInput(password, salt, params.cost, params.hashLen))
           then Accepted else NotMatch
  {
    if HashWith(kdf, params, password, salt).Hashed? {
      var key := kdf(KdfInput(password, salt, params.cost, params.hashLen)).value;
      var stored := HashWith(kdf, params, password, salt).passwordHash;
      StoredIsParsed(key, salt, params, stored);
      VerifyStored(kdf, params, key, password, password, salt, stored);
      VerifyStored(kdf, params, key, password, other, salt, stored);
    }
  }

  /** What a check answers on any stored text: whether it accepts is decided by the key, the salt and the costs that
      the grammar finds in the text, and a text outside the grammar is an error of its own, never a mismatch. */
  lemma VerifyMeaning(kdf: Kdf, password: seq<byte>, stored: string)
    ensures
      var r := VerifyWith(kdf, password, stored);
      && (r.NotParsed? <==> !exists parsed :: IsPhc(stored, parsed))
      && (forall parsed :: IsPhc(stored, parsed) ==>
            var key := kdf(KdfInput(password, parsed.salt, parsed.params.cost, |parsed.hash|));
            && (r.Accepted? <==> key == Some(parsed.hash))
            && (r.VerifyPanicked? <==> key.None?)
            && (r.NotMatch? <==> key.Some? && key.value != parsed.hash))
  {
    forall parsed
      ensures IsPhc(stored, parsed) <==> Parse(stored) == Success(parsed)
    {
      ParserIsTheGrammar(stored, parsed);
    }
    if Parse(stored).Success? {
      ParsedLengths(stored);
      VerifyParsed(kdf, password, stored, Parse(stored).value);
    }
  }

  /** The text is in the grammar, with this meaning. */
  ghost predicate IsPhc(text: string, parsed: PasswordHash) {
    exists spelling: Spelling, saltText: string, hashText: string :: Spells(text, parsed, spelling, saltText, hashText)
  }

  lemma VerifyParsed(kdf: Kdf, password: seq<byte>, stored: string, parsed: PasswordHash)
    requires Parse(stored) == Success(parsed) && parsed.params.hashLen == |parsed.hash|
    ensures VerifyWith(kdf, password, stored) ==
      match kdf(KdfInput(password, parsed.salt, parsed.params.cost, |parsed.hash|))
      case None => VerifyPanicked
      case Some(key) => if key == parsed.hash then Accepted else NotMatch
  {
  }
}
