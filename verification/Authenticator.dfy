/** AuthenticatePassword as the code runs it: look up, create on a first login, look up again after a lost race. */
module Authenticator {
  import opened Wrappers
  import opened Schema
  import opened Base64
  import opened Hasher
  import opened Login
  import opened Ledger
  import opened Accounting
  import opened Protocol
  import opened Invariant
  import opened Refinement
  import opened Outcomes
  import opened Race
  import opened Database
  import opened Failures
  import opened Undisturbed
  import opened Calls
  import opened Phc
  import opened Scan

  /** What each statement of a login answers. The second lookup never fails. */
  predicate Answered(db: Tables, o: Op, pick: nat, o': Op)
    requires o.request.Authenticate?
  {
    var name := o.request.username;
    match o.pc
    case Start =>
      o'.pc ==
        (if name !in db.byName || db.byName[name] !in db.users then AuthMissing else
         match o.request.check(db.users[db.byName[name]].passwordHash)
         case Match => Finished(Authenticated(db.byName[name], Verified))
         case Mismatch => Finished(BadPassword)
         case Malformed => Finished(BadHash))
    case AuthMissing =>
      o'.pc ==
        (if pick in db.users then Finished(Failed(Rejected))
         else if name in db.byName then AuthConflict
         else AuthInserted(pick))
    case AuthInserted(id) => o'.pc == Finished(Authenticated(id, Created))
    case AuthConflict => name in db.byName && o'.pc == Finished(Authenticated(db.byName[name], Raced))
    case _ => true
  }

  lemma AdvanceAnswers(before: State, own: OpId, pick: nat)
    requires own < |before.ops| && before.ops[own].request.Authenticate? && AuthInv(before.db, before.ops[own])
    requires UserRow(pick) !in before.locks
    ensures
      var o, after := before.ops[own], AdvanceAuthenticate(before, own, pick);
      |after.ops| == |before.ops| && after.ops[own].request == o.request && Answered(before.db, o, pick, after.ops[own])
  {
  }

  lemma StatementAnswers(t: Tables, o: Op, before: State, after: State, own: OpId, pick: nat, flip: bool)
    requires Executed(t, o, before, after, own, pick, flip) && o.request.Authenticate?
    ensures after.ops[own].request == o.request && Answered(before.db, o, pick, after.ops[own])
  {
    assert AuthInv(before.db, o);
    AdvanceAnswers(before, own, pick);
  }

  /** What an answered login says of the committed tables. */
  ghost predicate AnswerHolds(db: Tables, request: Request, r: Outcome)
    requires request.Authenticate?
  {
    && (r.BadPassword? ==> StoredHashAnswers(db, request, Mismatch))
    && (r.BadHash? ==> StoredHashAnswers(db, request, Malformed))
    && (r.Authenticated? ==>
          && request.username in db.byName && db.byName[request.username] == r.user && r.user in db.users
          && (r.via.Verified? ==> StoredHashAnswers(db, request, Match))
          && (r.via.Created? ==> db.users[r.user].passwordHash == request.newHash))
  }

  lemma AnswersHold(t: Tables, now: int, steps: seq<Step>, own: OpId)
    requires Coherent(t)
    requires
      var st := Protocol.Execute(Initial(t, now), steps);
      own < |st.ops| && st.ops[own].request.Authenticate? && st.ops[own].pc.Finished?
    ensures
      var st := Protocol.Execute(Initial(t, now), steps);
      AnswerHolds(st.db, st.ops[own].request, st.ops[own].pc.outcome)
  {
    Serializable(t, now, steps);
    assert AuthInv(Protocol.Execute(Initial(t, now), steps).db, Protocol.Execute(Initial(t, now), steps).ops[own]);
  }

  /** Neither the lookup nor the uncommitted insert changes the committed tables. */
  lemma NothingCommitted(before: State, own: OpId, pick: nat, flip: bool)
    requires own < |before.ops| && before.ops[own].request.Authenticate? && (before.ops[own].pc.Start? || before.ops[own].pc.AuthMissing?)
    ensures Next(before, Advance(own, pick, flip)).db == before.db
  {
  }

  // ----- the code

  /** The request that a call makes: the hash it would store and the check it would do. */
  function RequestOf(hasher: PasswordHasher, username: string, password: seq<byte>, entropy: Option<seq<byte>>): Request {
    var hashed := NewHash(hasher, password, entropy);
    Authenticate(username, if hashed.Hashed? then hashed.passwordHash else "", CheckOf(hasher.kdf, password))
  }

  function NewHash(hasher: PasswordHasher, password: seq<byte>, entropy: Option<seq<byte>>): HashOutcome {
    if entropy.None? then NoEntropy else HashWith(hasher.kdf, hasher.params, password, entropy.value)
  }

  /** The stored hash of a username, checked against a password, gives this result. */
  predicate Checks(db: Tables, kdf: Kdf, username: string, password: seq<byte>, result: VerifyOutcome) {
    && username in db.byName && db.byName[username] in db.users
    && VerifyWith(kdf, password, db.users[db.byName[username]].passwordHash) == result
  }

  /** What an answered login says of the given password and the stored hash. */
  ghost predicate PasswordChecked(db: Tables, kdf: Kdf, params: Params, username: string, password: seq<byte>,
                                  entropy: Option<seq<byte>>, r: Outcome) {
    && (r.BadPassword? ==> Checks(db, kdf, username, password, NotMatch))
    && (r.BadHash? ==> Checks(db, kdf, username, password, VerifyPanicked)
                       || exists error :: Checks(db, kdf, username, password, NotParsed(error)))
    && (r.Authenticated? ==> username in db.byName && db.byName[username] == r.user && r.user in db.users)
    && (r.Authenticated? && r.via.Verified? ==> VerifyWith(kdf, password, db.users[r.user].passwordHash) == Accepted)
    && (r.Authenticated? && r.via.Created? ==>
          entropy.Some? && HashWith(kdf, params, password, entropy.value) == Hashed(db.users[r.user].passwordHash))
  }

  lemma CheckedByHash(hasher: PasswordHasher, db: Tables, username: string, password: seq<byte>, entropy: Option<seq<byte>>, r: Outcome)
    requires AnswerHolds(db, RequestOf(hasher, username, password, entropy), r)
    requires r.Authenticated? && r.via.Created? ==> !CannotHash(hasher.kdf, hasher.params, password, entropy)
    ensures PasswordChecked(db, hasher.kdf, hasher.params, username, password, entropy, r)
  {
    if r.BadHash? {
      var result := VerifyWith(hasher.kdf, password, db.users[db.byName[username]].passwordHash);
      assert Checks(db, hasher.kdf, username, password, result);
      assert VerdictOf(result) == Malformed;
    }
  }

  /** What a first or later login alone does to these tables. */
  ghost predicate LoginAnswer(before: Tables, kdf: Kdf, params: Params, username: string, password: seq<byte>,
                              entropy: Option<seq<byte>>, r: Outcome, after: Tables) {
    if username in before.byName && before.byName[username] in before.users then
      && after == before
      && r == (match VerifyWith(kdf, password, before.users[before.byName[username]].passwordHash)
               case Accepted => Authenticated(before.byName[username], Verified)
               case NotMatch => BadPassword
               case NotParsed(_) => BadHash
               case VerifyPanicked => BadHash)
    else if CannotHash(kdf, params, password, entropy) then after == before && r == Lost(false)
    else
      exists id: UserId ::
        if id in before.users then r == Failed(Rejected) && after == before
        else
          var row := User(username, HashWith(kdf, params, password, entropy.value).passwordHash, DEFAULT_BALANCE);
          && r == Authenticated(id, Created)
          && after == before.(users := before.users[id := row], byName := before.byName[username := id])
  }

  /** A username that is known stays known. */
  lemma KnownIsFound(t: Tables, now: int, steps: seq<Step>, k: nat, username: string)
    requires Coherent(t) && k <= |steps| && username in Protocol.Execute(Initial(t, now), steps[..k]).db.byName
    ensures
      var db := Protocol.Execute(Initial(t, now), steps).db;
      username in db.byName && db.byName[username] in db.users
  {
    NameSince(t, now, steps, k, username);
    Serializable(t, now, steps);
    SerialKeeps(t, Protocol.Execute(Initial(t, now), steps).log);
  }

  lemma LoginIsAnswered(t: Tables, now: int, steps: seq<Step>, k: nat, own: OpId,
                        hasher: PasswordHasher, username: string, password: seq<byte>, entropy: Option<seq<byte>>, r: Outcome)
    requires Coherent(t) && OwnRun(t, now, steps, k, own, RequestOf(hasher, username, password, entropy))
    requires own < |Protocol.Execute(Initial(t, now), steps).ops| && Honest(t, now, steps, own)
    requires Protocol.Execute(Initial(t, now), steps).ops[own].pc == Finished(r)
    requires PasswordChecked(Protocol.Execute(Initial(t, now), steps).db, hasher.kdf, hasher.params, username, password, entropy, r)
    requires r.Lost? ==> r == Lost(false) && CannotHash(hasher.kdf, hasher.params, password, entropy)
                         && username !in Protocol.Execute(Initial(t, now), steps[..k]).db.byName
    requires r.Failed? || (r.Authenticated? && !r.via.Verified?) ==> !CannotHash(hasher.kdf, hasher.params, password, entropy)
    ensures LoginAnswer(Protocol.Execute(Initial(t, now), steps[..k]).db, hasher.kdf, hasher.params, username, password, entropy, r,
                        Protocol.Execute(Initial(t, now), steps).db)
  {
    var before, after := Protocol.Execute(Initial(t, now), steps[..k]).db, Protocol.Execute(Initial(t, now), steps).db;
    FoundIsCoherent(t, now, steps, k);
    LoginEffect(t, now, steps, k, own, RequestOf(hasher, username, password, entropy), r);
    if username in before.byName {
      KnownNameIsVerified(t, now, steps, k, own);
      KnownAnswer(before, hasher, username, password, entropy, r);
    } else {
      UnknownAnswer(before, hasher, username, password, entropy, r, after);
    }
  }

  lemma LoginEffect(t: Tables, now: int, steps: seq<Step>, k: nat, own: OpId, request: Request, r: Outcome)
    requires Coherent(t) && request.Authenticate? && OwnRun(t, now, steps, k, own, request)
    requires own < |Protocol.Execute(Initial(t, now), steps).ops| && Honest(t, now, steps, own)
    requires Protocol.Execute(Initial(t, now), steps).ops[own].pc == Finished(r) && r != Lost(true)
    ensures
      var before, after := Protocol.Execute(Initial(t, now), steps[..k]).db, Protocol.Execute(Initial(t, now), steps).db;
      && Protocol.Execute(Initial(t, now), steps).ops[own].request == request
      && (if r.Authenticated? && r.via.Created? then EffectAlone(before, request, after) else after == before)
      && (Refusal(r) ==> RefusedByFound(before, request, r))
      && (r.Lost? || Refusal(r) || r.Authenticated?)
  {
    OwnRunEffect(t, now, steps, k, own, request);
    Serializable(t, now, steps);
    assert AuthInv(Protocol.Execute(Initial(t, now), steps).db, Protocol.Execute(Initial(t, now), steps).ops[own]);
    if Refusal(r) {
      assert Refused(Protocol.Execute(Initial(t, now), steps).ops[own], r);
      OwnRunRefusal(t, now, steps, k, own, request, r);
    }
  }

  lemma KnownAnswer(before: Tables, hasher: PasswordHasher, username: string, password: seq<byte>, entropy: Option<seq<byte>>, r: Outcome)
    requires UsersValid(before) && username in before.byName
    requires PasswordChecked(before, hasher.kdf, hasher.params, username, password, entropy, r)
    requires r.BadPassword? || r.BadHash? || (r.Authenticated? && r.via.Verified?)
    ensures LoginAnswer(before, hasher.kdf, hasher.params, username, password, entropy, r, before)
  {
  }

  lemma UnknownAnswer(before: Tables, hasher: PasswordHasher, username: string, password: seq<byte>, entropy: Option<seq<byte>>,
                      r: Outcome, after: Tables)
    requires Coherent(before) && username !in before.byName
    requires PasswordChecked(after, hasher.kdf, hasher.params, username, password, entropy, r)
    requires r.Lost? || Refusal(r) || r.Authenticated?
    requires r.Lost? ==> r == Lost(false) && CannotHash(hasher.kdf, hasher.params, password, entropy)
    requires r.Failed? || (r.Authenticated? && !r.via.Verified?) ==> !CannotHash(hasher.kdf, hasher.params, password, entropy)
    requires Refusal(r) ==> RefusedByFound(before, RequestOf(hasher, username, password, entropy), r)
    requires
      if r.Authenticated? && r.via.Created? then EffectAlone(before, RequestOf(hasher, username, password, entropy), after)
      else after == before
    ensures LoginAnswer(before, hasher.kdf, hasher.params, username, password, entropy, r, after)
  {
    if r.Authenticated? && r.via.Created? {
      var row := User(username, HashWith(hasher.kdf, hasher.params, password, entropy.value).passwordHash, DEFAULT_BALANCE);
      var ids: seq<nat>, at: int :| Run(before, CreateUsers([row]), ids, at) == Success(after);
      OneRow(before, row, ids, after);
      assert after.byName[username] == ids[0];
    } else if r.Failed? {
      var o: Op, pick: nat :| o.request == RequestOf(hasher, username, password, entropy)
        && Due(before, RequestOf(hasher, username, password, entropy), Drawn(o, pick), r);
      assert Drawn(o, pick)[0] in before.users;
    }
  }

  lemma OneRow(before: Tables, row: User, ids: seq<UserId>, after: Tables)
    requires RunCreate(before, [row], ids) == Success(after)
    ensures |ids| == 1 && ids[0] !in before.users
    ensures after == before.(users := before.users[ids[0] := row], byName := before.byName[row.username := ids[0]])
  {
    assert [row][..0] == [] && ids[..0] == [];
    assert InsertUsers(before, [row][..0], ids[..0]) == Success(before);
  }

  class PasswordAuthenticator {
    const db: Database
    const hasher: PasswordHasher

    constructor (db: Database, hasher: PasswordHasher)
      ensures this.db == db && this.hasher == hasher
    {
      this.db, this.hasher := db, hasher;
    }

    /** One statement of the session and its answer, or the session is cancelled. */
    method Exec(own: OpId) returns (seen: Tables, pick: nat)
      requires db.Valid() && own < |db.st.ops| && db.st.ops[own].request.Authenticate? && !db.st.ops[own].pc.Finished?
      modifies db
      ensures db.Valid() && own < |db.st.ops| && db.st.ops[own].request == old(db.st.ops[own].request) && db.Continued(own)
      ensures IsCancelled(db.st, own) || Answered(seen, old(db.st.ops[own]), pick, db.st.ops[own])
      ensures IsCancelled(db.st, own) || (old(db.st.ops[own].pc.Start? || db.st.ops[own].pc.AuthMissing?) ==> db.st.db == seen)
    {
      ghost var o := db.st.ops[own];
      var before, drawn, flip := db.Statement(own);
      seen, pick := before.db, drawn;
      if !IsCancelled(db.st, own) {
        StatementAnswers(db.initial, o, before, db.st, own, drawn, flip);
        if o.pc.Start? || o.pc.AuthMissing? {
          NothingCommitted(before, own, drawn, flip);
        }
      }
    }

    /** The outcome the code returns is the one the protocol reached; it is honest about the history, and it is
        right about the given password: a verified login and a refused one are so by the hash that is stored, and
        a created account stores a hash of it. Under a username that was known when the call began, the password
        decides. The call is lost only if a step of another session ended it, it waited for an index entry in vain,
        or the password could not be hashed. Undisturbed, it does and answers exactly `LoginAnswer`. */
    method AuthenticatePassword(username: string, password: seq<byte>, entropy: Option<seq<byte>>) returns (r: Outcome, own: OpId)
      requires db.Valid() && (entropy.Some? ==> |entropy.value| == hasher.params.saltLen)
      modifies db
      ensures db.Valid() && old(db.run) <= db.run && old(|db.st.ops|) == own < |db.st.ops|
      ensures db.st.ops[own].request.Authenticate? && db.st.ops[own].request.username == username && db.st.ops[own].pc == Finished(r)
      ensures Honest(db.initial, db.since, db.run, own)
      ensures PasswordChecked(db.st.db, hasher.kdf, hasher.params, username, password, entropy, r)
      ensures old(username in db.st.db.byName) ==> PasswordDecides(r)
      ensures r.Lost? ==>
        || EndedAmong(old(db.others), own) || TimedOut(db.initial, db.since, db.run, db.others, own)
        || CannotHash(hasher.kdf, hasher.params, password, entropy)
      ensures old(db.others) == [] && old(db.st.locks) == map[] ==>
        LoginAnswer(old(db.st.db), hasher.kdf, hasher.params, username, password, entropy, r, db.st.db)
    {
      ghost var k, found := |db.run|, db.st;
      r, own := Call(username, password, entropy);
      assert db.run[..k] == old(db.run);
      OutcomesAreHonest(db.initial, db.since, db.run, own);
      AnswersHold(db.initial, db.since, db.run, own);
      CheckedByHash(hasher, db.st.db, username, password, entropy, r);
      if username in found.db.byName {
        KnownNameIsVerified(db.initial, db.since, db.run, k, own);
      }
      if old(db.others) == [] && found.locks == map[] {
        LoginIsAnswered(db.initial, db.since, db.run, k, own, hasher, username, password, entropy, r);
      }
    }

    method Call(username: string, password: seq<byte>, entropy: Option<seq<byte>>) returns (r: Outcome, own: OpId)
      requires db.Valid() && (entropy.Some? ==> |entropy.value| == hasher.params.saltLen)
      modifies db
      ensures db.Valid() && old(db.run) <= db.run && old(|db.st.ops|) == own < |db.st.ops|
      ensures db.st.ops[own].request == RequestOf(hasher, username, password, entropy) && db.st.ops[own].pc == Finished(r)
      ensures r.Lost? ==>
        || EndedAmong(old(db.others), own) || TimedOut(db.initial, db.since, db.run, db.others, own)
        || CannotHash(hasher.kdf, hasher.params, password, entropy)
      ensures r.Failed? || (r.Authenticated? && !r.via.Verified?) ==> !CannotHash(hasher.kdf, hasher.params, password, entropy)
      ensures old(db.others) == [] && old(db.st.locks) == map[] ==>
        && OwnRun(db.initial, db.since, db.run, |old(db.run)|, own, RequestOf(hasher, username, password, entropy))
        && (r.Lost? ==> r == Lost(false) && CannotHash(hasher.kdf, hasher.params, password, entropy)
                        && username !in old(db.st.db.byName))
    {
      ghost var k, others := |db.run|, db.others;
      own := db.Open(RequestOf(hasher, username, password, entropy));
      r := Execute(own, username, password, entropy);
      assert db.run[..k] == old(db.run);
      if EndedByOthers(db.all, |db.all| - |others|, |db.all| - |db.others|, own) {
        EndIsAmong(db.all, others, |db.all| - |db.others|, own);
      }
    }

    method Execute(own: OpId, username: string, password: seq<byte>, entropy: Option<seq<byte>>) returns (r: Outcome)
      requires db.Valid() && (entropy.Some? ==> |entropy.value| == hasher.params.saltLen)
      requires own < |db.st.ops| && db.st.ops[own] == Op(RequestOf(hasher, username, password, entropy), Start, NO_TX)
      modifies db
      ensures db.Valid() && own < |db.st.ops| && db.RunsOn(own)
      ensures db.Continued(own) || (r == Lost(false) && CannotHash(hasher.kdf, hasher.params, password, entropy))
      ensures old(username in db.st.db.byName) ==> db.Continued(own)
      ensures r.Failed? || (r.Authenticated? && !r.via.Verified?) ==> !CannotHash(hasher.kdf, hasher.params, password, entropy)
      ensures db.st.ops[own].request == RequestOf(hasher, username, password, entropy) && db.st.ops[own].pc == Finished(r)
    {
      var seen := LookUp(own, username);
      if IsCancelled(db.st, own) {
        return OutcomeOf(db.st, own);
      }
      if username in seen.byName && seen.byName[username] in seen.users {
        var user := seen.byName[username];
        var verified := hasher.Verify(password, seen.users[user].passwordHash);
        match verified {
          case Accepted => r := Authenticated(user, Verified);
          case NotMatch => r := BadPassword;
          case NotParsed(_) => r := BadHash;
          case VerifyPanicked => r := BadHash;
        }
        return;
      }
      r := Register(own, password, entropy);
    }

    /** The branch of a username that was not found. */
    method Register(own: OpId, password: seq<byte>, entropy: Option<seq<byte>>) returns (r: Outcome)
      requires db.Valid() && (entropy.Some? ==> |entropy.value| == hasher.params.saltLen)
      requires own < |db.st.ops| && db.st.ops[own].request.Authenticate? && db.st.ops[own].pc.AuthMissing?
      requires
        var hashed := NewHash(hasher, password, entropy);
        hashed.Hashed? ==> db.st.ops[own].request.newHash == hashed.passwordHash
      modifies db
      ensures db.Valid() && own < |db.st.ops| && db.st.ops[own].request == old(db.st.ops[own].request) && db.RunsOn(own)
      ensures db.Continued(own) || (r == Lost(false) && CannotHash(hasher.kdf, hasher.params, password, entropy))
      ensures r.Failed? || r.Authenticated? ==> !CannotHash(hasher.kdf, hasher.params, password, entropy)
      ensures db.st.ops[own].pc == Finished(r)
    {
      r := CreateUser(own, password, entropy);
      if r == Failed(UserExists) {
        r := LookupAgain(own);
      }
    }

    /** The first lookup; it finds every user that was there when it was called. */
    method LookUp(own: OpId, username: string) returns (seen: Tables)
      requires db.Valid() && own < |db.st.ops| && db.st.ops[own].request.Authenticate? && db.st.ops[own].pc.Start?
      modifies db
      ensures db.Valid() && own < |db.st.ops| && db.st.ops[own].request == old(db.st.ops[own].request) && db.Continued(own)
      ensures IsCancelled(db.st, own) || Answered(seen, old(db.st.ops[own]), 0, db.st.ops[own])
      ensures !IsCancelled(db.st, own) && old(username in db.st.db.byName) ==>
        username in seen.byName && seen.byName[username] in seen.users
    {
      ghost var k := |db.run|;
      var tables, pick := Exec(own);
      seen := tables;
      assert db.run[..k] == old(db.run);
      if old(username in db.st.db.byName) {
        KnownIsFound(db.initial, db.since, db.run, k, username);
      }
    }

    /** Creates the account, or reports that the username has been taken in the meantime. */
    method CreateUser(own: OpId, password: seq<byte>, entropy: Option<seq<byte>>) returns (r: Outcome)
      requires db.Valid() && (entropy.Some? ==> |entropy.value| == hasher.params.saltLen)
      requires own < |db.st.ops| && db.st.ops[own].request.Authenticate? && db.st.ops[own].pc.AuthMissing?
      requires
        var hashed := NewHash(hasher, password, entropy);
        hashed.Hashed? ==> db.st.ops[own].request.newHash == hashed.passwordHash
      modifies db
      ensures db.Valid() && own < |db.st.ops| && db.st.ops[own].request == old(db.st.ops[own].request) && db.RunsOn(own)
      ensures db.Continued(own) || (r == Lost(false) && CannotHash(hasher.kdf, hasher.params, password, entropy))
      ensures r.Failed? || r.Authenticated? ==> !CannotHash(hasher.kdf, hasher.params, password, entropy) && db.Continued(own)
      ensures db.st.ops[own].pc == (if r == Failed(UserExists) then AuthConflict else Finished(r))
    {
      var hashed := hasher.Hash(password, entropy);
      if !hashed.Hashed? {
        db.Take(Abort(own));
        return Lost(false);
      }
      ghost var seen, id;
      r, seen, id := InsertUser(own, hashed.passwordHash);
    }

    /** INSERT INTO users ..., which commits on its own. It is rejected exactly when the id it draws is taken,
        otherwise it conflicts exactly when the username is taken, otherwise it stores the row. */
    method InsertUser(own: OpId, passwordHash: string) returns (r: Outcome, ghost seen: Tables, ghost id: UserId)
      requires db.Valid() && own < |db.st.ops| && db.st.ops[own].request.Authenticate? && db.st.ops[own].pc.AuthMissing?
      requires db.st.ops[own].request.newHash == passwordHash
      modifies db
      ensures db.Valid() && own < |db.st.ops| && db.st.ops[own].request == old(db.st.ops[own].request) && db.Continued(own)
      ensures db.st.ops[own].pc == (if r == Failed(UserExists) then AuthConflict else Finished(r))
      ensures !r.Lost? ==>
        var username := db.st.ops[own].request.username;
        && (r == Failed(Rejected) <==> id in seen.users)
        && (r == Failed(UserExists) <==> id !in seen.users && username in seen.byName)
        && (r == Authenticated(id, Created) <==> id !in seen.users && username !in seen.byName)
        && (r.Failed? ==> db.st.db == seen)
    {
      var tables, pick := Exec(own);
      id, seen := pick, tables;
      if IsCancelled(db.st, own) {
        return OutcomeOf(db.st, own), seen, id;
      }
      if db.st.ops[own].pc.Finished? {
        return Failed(Rejected), seen, id;
      }
      if db.st.ops[own].pc.AuthConflict? {
        return Failed(UserExists), seen, id;
      }
      r := CommitUser(own);
    }

    method CommitUser(own: OpId) returns (r: Outcome)
      requires db.Valid() && own < |db.st.ops| && db.st.ops[own].request.Authenticate? && db.st.ops[own].pc.AuthInserted?
      modifies db
      ensures db.Valid() && own < |db.st.ops| && db.st.ops[own].request == old(db.st.ops[own].request) && db.Continued(own)
      ensures db.st.ops[own].pc == Finished(r) && (r.Lost? || r == Authenticated(old(db.st.ops[own].pc.id), Created))
    {
      var id := db.st.ops[own].pc.id;
      var seen, pick := Exec(own);
      if IsCancelled(db.st, own) {
        return OutcomeOf(db.st, own);
      }
      r := Authenticated(id, Created);
    }

    method LookupAgain(own: OpId) returns (r: Outcome)
      requires db.Valid() && own < |db.st.ops| && db.st.ops[own].request.Authenticate? && db.st.ops[own].pc.AuthConflict?
      modifies db
      ensures db.Valid() && own < |db.st.ops| && db.st.ops[own].request == old(db.st.ops[own].request) && db.Continued(own)
      ensures db.st.ops[own].pc == Finished(r) && (r.Lost? || (r.Authenticated? && r.via.Raced?))
    {
      var seen, pick := Exec(own);
      if IsCancelled(db.st, own) {
        return OutcomeOf(db.st, own);
      }
      r := Authenticated(seen.byName[db.st.ops[own].request.username], Raced);
    }
  }

  /** The hash that a first login has stored stays stored. */
  lemma StoredHashStays(t: Tables, now: int, steps: seq<Step>, k: nat, own: OpId)
    requires Coherent(t) && k <= |steps|
    requires
      var st := Protocol.Execute(Initial(t, now), steps[..k]);
      && own < |st.ops| && st.ops[own].request.Authenticate? && st.ops[own].pc.Finished?
      && st.ops[own].pc.outcome.Authenticated? && st.ops[own].pc.outcome.via.Created?
    ensures
      var early, late := Protocol.Execute(Initial(t, now), steps[..k]), Protocol.Execute(Initial(t, now), steps);
      var user, username := early.ops[own].pc.outcome.user, early.ops[own].request.username;
      && username in late.db.byName && late.db.byName[username] == user && user in late.db.users && user in early.db.users
      && late.db.users[user].passwordHash == early.db.users[user].passwordHash
  {
    FinishedSince(t, now, steps, k, own);
    AnswersHold(t, now, steps, own);
    AnswersHold(t, now, steps[..k], own);
  }

  lemma LaterAnswer(db: Tables, kdf: Kdf, params: Params, username: string, password: seq<byte>, salt: seq<byte>,
                    other: seq<byte>, otherEntropy: Option<seq<byte>>, user: UserId, r: Outcome)
    requires |salt| == params.saltLen && username in db.byName && db.byName[username] == user && user in db.users
    requires HashWith(kdf, params, password, salt) == Hashed(db.users[user].passwordHash)
    requires PasswordChecked(db, kdf, params, username, other, otherEntropy, r)
    requires r.BadPassword? || r.BadHash? || (r.Authenticated? && r.via.Verified?)
    ensures
      r == if kdf(KdfInput(other, salt, params.cost, params.hashLen)) == kdf(KdfInput(password, salt, params.cost, params.hashLen))
           then Authenticated(user, Verified) else BadPassword
  {
    HashThenVerify(kdf, params, password, other, salt);
  }

  lemma LaterLogin(t: Tables, now: int, steps: seq<Step>, k: nat, own: OpId, kdf: Kdf, params: Params, username: string,
                   password: seq<byte>, salt: seq<byte>, other: seq<byte>, otherEntropy: Option<seq<byte>>, user: UserId, r: Outcome)
    requires Coherent(t) && k <= |steps| && |salt| == params.saltLen
    requires
      var st := Protocol.Execute(Initial(t, now), steps[..k]);
      && own < |st.ops| && st.ops[own].request.Authenticate? && st.ops[own].request.username == username
      && st.ops[own].pc == Finished(Authenticated(user, Created))
      && PasswordChecked(st.db, kdf, params, username, password, Some(salt), Authenticated(user, Created))
    requires PasswordChecked(Protocol.Execute(Initial(t, now), steps).db, kdf, params, username, other, otherEntropy, r)
    requires PasswordDecides(r) && !r.Lost?
    ensures
      r == if kdf(KdfInput(other, salt, params.cost, params.hashLen)) == kdf(KdfInput(password, salt, params.cost, params.hashLen))
           then Authenticated(user, Verified) else BadPassword
  {
    StoredHashStays(t, now, steps, k, own);
    LaterAnswer(Protocol.Execute(Initial(t, now), steps).db, kdf, params, username, password, salt, other, otherEntropy, user, r);
  }

  /** Over two calls, with any other sessions in between and around: after a first login has created the account,
      a login with another password that is not lost gets that account exactly when both passwords derive the
      same key from the stored salt and costs, and is refused otherwise. */
  method FirstAndLaterLogin(pa: PasswordAuthenticator, username: string,
                            password: seq<byte>, entropy: Option<seq<byte>>, other: seq<byte>, otherEntropy: Option<seq<byte>>)
      returns (first: Outcome, later: Outcome)
    requires pa.db.Valid()
    requires entropy.Some? ==> |entropy.value| == pa.hasher.params.saltLen
    requires otherEntropy.Some? ==> |otherEntropy.value| == pa.hasher.params.saltLen
    modifies pa.db
    ensures pa.db.Valid()
    ensures first.Authenticated? && first.via.Created? ==> entropy.Some?
    ensures first.Authenticated? && first.via.Created? && !later.Lost? ==>
      var salt, params := entropy.value, pa.hasher.params;
      var sameKey := pa.hasher.kdf(KdfInput(other, salt, params.cost, params.hashLen))
                  == pa.hasher.kdf(KdfInput(password, salt, params.cost, params.hashLen));
      later == if sameKey then Authenticated(first.user, Verified) else BadPassword
  {
    var a, b;
    first, a := pa.AuthenticatePassword(username, password, entropy);
    ghost var run := pa.db.run;
    later, b := pa.AuthenticatePassword(username, other, otherEntropy);
    assert pa.db.run[..|run|] == run;
    if first.Authenticated? && first.via.Created? && !later.Lost? {
      LaterLogin(pa.db.initial, pa.db.since, pa.db.run, |run|, a, pa.hasher.kdf, pa.hasher.params, username,
                 password, entropy.value, other, otherEntropy, first.user, later);
    }
  }
}
