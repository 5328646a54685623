/** Logging in: the hasher and the protocol together. */
module Login {
  import opened Schema
  import opened Base64
  import opened Phc
  import opened Hasher
  import opened Ledger
  import opened Accounting
  import opened Protocol
  import opened Invariant
  import opened Refinement

  /** The check that an authentication request makes of a stored hash. A panic ends the request with an
      error as an unreadable hash does. */
  function VerdictOf(outcome: VerifyOutcome): Verdict {
    match outcome
    case Accepted => Match
    case NotMatch => Mismatch
    case NotParsed(_) => Malformed
    case VerifyPanicked => Malformed
  }

  function CheckOf(kdf: Kdf, password: seq<byte>): string -> Verdict {
    passwordHash => VerdictOf(VerifyWith(kdf, password, passwordHash))
  }

  /** After any run: once a first login has created an account, every later login under that name whose
      lookup comes now gets that account if its password derives the same key as the first one, and is
      refused otherwise. Nothing that happened in between can change that. */
  lemma LoginAfterRegistration(
      t: Tables, now: int, steps: seq<Step>, first: OpId, later: OpId, pick: nat, flip: bool,
      kdf: Kdf, params: Params, password: seq<byte>, other: seq<byte>, salt: seq<byte>)
    requires Coherent(t)
    requires |salt| == params.saltLen && HashWith(kdf, params, password, salt).Hashed?
    requires
      var st := Execute(Initial(t, now), steps);
      && first < |st.ops| && st.ops[first].request.Authenticate?
      && st.ops[first].request.newHash == HashWith(kdf, params, password, salt).passwordHash
      && st.ops[first].pc.Finished? && st.ops[first].pc.outcome.Authenticated? && st.ops[first].pc.outcome.via.Created?
    requires
      var st := Execute(Initial(t, now), steps);
      && later < |st.ops| && st.ops[later].request.Authenticate? && st.ops[later].pc.Start?
      && st.ops[later].request.username == st.ops[first].request.username
      && st.ops[later].request.check == CheckOf(kdf, other)
    ensures
      var st := Execute(Initial(t, now), steps);
      var sameKey := kdf(KdfInput(other, salt, params.cost, params.hashLen)) == kdf(KdfInput(password, salt, params.cost, params.hashLen));
      Next(st, Advance(later, pick, flip)) ==
        Finish(st, later, if sameKey then Authenticated(st.ops[first].pc.outcome.user, Verified) else BadPassword)
  {
    var st := Execute(Initial(t, now), steps);
    Serializable(t, now, steps);
    SerialKeeps(t, st.log);
    StoredHash(st, first);
    HashThenVerify(kdf, params, password, other, salt);
    LookupFinds(st, later, pick, flip, st.ops[first].pc.outcome.user);
  }

  lemma StoredHash(st: State, first: OpId)
    requires OpsInv(st.db, st.ops) && first < |st.ops| && st.ops[first].request.Authenticate?
    requires st.ops[first].pc.Finished? && st.ops[first].pc.outcome.Authenticated? && st.ops[first].pc.outcome.via.Created?
    ensures
      var user, username := st.ops[first].pc.outcome.user, st.ops[first].request.username;
      && username in st.db.byName && st.db.byName[username] == user
      && user in st.db.users && st.db.users[user].passwordHash == st.ops[first].request.newHash
  {
    assert AuthInv(st.db, st.ops[first]);
  }

  lemma LookupFinds(st: State, op: OpId, pick: nat, flip: bool, user: UserId)
    requires op < |st.ops| && st.ops[op].request.Authenticate? && st.ops[op].pc.Start?
    requires st.ops[op].request.username in st.db.byName && st.db.byName[st.ops[op].request.username] == user
    requires user in st.db.users
    ensures
      var verdict := st.ops[op].request.check(st.db.users[user].passwordHash);
      && (verdict.Match? ==> Next(st, Advance(op, pick, flip)) == Finish(st, op, Authenticated(user, Verified)))
      && (verdict.Mismatch? ==> Next(st, Advance(op, pick, flip)) == Finish(st, op, BadPassword))
  {
    assert Wants(st.db, st.ops[op]) == {};
  }
}
