/** GenerateUsers: numbered test users, created as one batch. */
module Setup {
  import opened Wrappers
  import opened Schema
  import opened Base64
  import opened Hasher
  import opened Phc
  import opened Ledger
  import opened Protocol
  import opened Invariant
  import opened Database
  import opened Creator
  import opened Batches
  import opened Calls
  import opened Decimal

  const DEFAULT_PASSWORD := "password"

  predicate IsAscii(s: string) {
    forall i :: 0 <= i < |s| ==> s[i] as int < 128
  }

  /** The bytes of a string in UTF-8, for strings that need one byte for each character. */
  function Bytes(s: string): (b: seq<byte>)
    requires IsAscii(s)
    ensures |b| == |s| && forall i :: 0 <= i < |s| ==> b[i] == s[i] as int
  {
    if s == "" then [] else Bytes(s[..|s| - 1]) + [s[|s| - 1] as int]
  }

  /** The bytes of the default password. */
  function DefaultPassword(): (b: seq<byte>)
    ensures IsAscii(DEFAULT_PASSWORD) && b == Bytes(DEFAULT_PASSWORD)
  {
    Bytes(DEFAULT_PASSWORD)
  }

  datatype TestUser = TestUser(id: UserId, username: string, password: string, balance: int64)

  /** The username of the i-th generated user. */
  function GeneratedName(i: nat): string {
    "u" + Print(i)
  }

  function GeneratedUser(passwordHash: string, i: nat): User {
    User(GeneratedName(i), passwordHash, DEFAULT_BALANCE)
  }

  function GeneratedUsers(passwordHash: string, count: nat): (params: seq<User>)
    ensures |params| == count
    ensures forall i :: 0 <= i < count ==> params[i] == GeneratedUser(passwordHash, i)
  {
    if count == 0 then [] else GeneratedUsers(passwordHash, count - 1) + [GeneratedUser(passwordHash, count - 1)]
  }

  /** Printing numbers in decimal is injective, so no two generated names are the same. */
  lemma GeneratedNamesDiffer(i: nat, j: nat)
    requires i != j
    ensures GeneratedName(i) != GeneratedName(j)
  {
    if GeneratedName(i) == GeneratedName(j) {
      assert GeneratedName(i)[1..] == Print(i) && GeneratedName(j)[1..] == Print(j);
      PrintIsInjective(i, j);
    }
  }

  /** A generated batch, run alone, can fail only on what was there before: a taken name, or an id that is
      taken or repeated. */
  lemma GeneratedBatch(t: Tables, passwordHash: string, count: nat, ids: seq<UserId>)
    requires |ids| == count
    ensures RunCreate(t, GeneratedUsers(passwordHash, count), ids).Success? <==>
      && (forall i :: 0 <= i < count ==> GeneratedName(i) !in t.byName && ids[i] !in t.users)
      && (forall i, j :: 0 <= i < j < count ==> ids[i] != ids[j])
  {
    var params := GeneratedUsers(passwordHash, count);
    CreateMeaning(t, params, ids);
    forall i, j | 0 <= i < j < count
      ensures params[i].username != params[j].username
    {
      GeneratedNamesDiffer(i, j);
    }
    if RunCreate(t, params, ids).Success? {
      forall i | 0 <= i < count
        ensures GeneratedName(i) !in t.byName && ids[i] !in t.users
      {
        assert params[i].username !in t.byName;
      }
    }
  }

  method FillParams(passwordHash: string, count: nat) returns (params: array<User>)
    ensures fresh(params) && params[..] == GeneratedUsers(passwordHash, count)
  {
    params := new User[count];
    for i := 0 to count
      invariant forall j :: 0 <= j < i ==> params[j] == GeneratedUser(passwordHash, j)
    {
      params[i] := User("u" + Print(i), passwordHash, DEFAULT_BALANCE);
    }
  }

  method CollectUsers(t: Tables, ids: seq<UserId>) returns (users: array<TestUser>)
    requires forall i :: 0 <= i < |ids| ==> ids[i] in t.users
    ensures fresh(users) && users.Length == |ids|
    ensures forall i :: 0 <= i < |ids| ==>
      users[i] == TestUser(ids[i], t.users[ids[i]].username, DEFAULT_PASSWORD, t.users[ids[i]].balance)
  {
    users := new TestUser[|ids|];
    for i := 0 to |ids|
      invariant forall j :: 0 <= j < i ==>
        users[j] == TestUser(ids[j], t.users[ids[j]].username, DEFAULT_PASSWORD, t.users[ids[j]].balance)
    {
      users[i] := TestUser(ids[i], t.users[ids[i]].username, DEFAULT_PASSWORD, t.users[ids[i]].balance);
    }
  }

  /** The hash made of the reported password is accepted for it. */
  method HashDefaultPassword(hasher: PasswordHasher, entropy: Option<seq<byte>>) returns (stored: Option<string>)
    requires entropy.Some? ==> |entropy.value| == hasher.params.saltLen
    ensures stored.None? <==> CannotHash(hasher.kdf, hasher.params, DefaultPassword(), entropy)
    ensures stored.Some? ==>
      && HashWith(hasher.kdf, hasher.params, DefaultPassword(), entropy.value) == Hashed(stored.value)
      && VerifyWith(hasher.kdf, DefaultPassword(), stored.value) == Accepted
  {
    var hashed := hasher.Hash(DefaultPassword(), entropy);
    if !hashed.Hashed? {
      return None;
    }
    HashThenVerify(hasher.kdf, hasher.params, DefaultPassword(), DefaultPassword(), entropy.value);
    stored := Some(hashed.passwordHash);
  }

  /** The i-th returned user is stored under its id, with its name and the default balance, and the password it
      is reported with is accepted for the stored hash. */
  ghost predicate IsStored(t: Tables, kdf: Kdf, u: TestUser, i: nat) {
    && u == TestUser(u.id, "u" + Print(i), "password", 1000)
    && u.id in t.users
    && t.users[u.id] == User("u" + Print(i), t.users[u.id].passwordHash, 1000)
    && IsAscii(u.password) && VerifyWith(kdf, Bytes(u.password), t.users[u.id].passwordHash) == Accepted
  }

  ghost predicate AllStored(t: Tables, kdf: Kdf, users: seq<TestUser>) {
    forall i :: 0 <= i < |users| ==> IsStored(t, kdf, users[i], i)
  }

  lemma StoredUsersLogIn(t: Tables, kdf: Kdf, passwordHash: string, users: seq<TestUser>)
    requires AreStored(t, passwordHash, users) && VerifyWith(kdf, DefaultPassword(), passwordHash) == Accepted
    ensures AllStored(t, kdf, users)
  {
  }

  /** The answer and the tables after a generated batch that nobody disturbs. */
  ghost predicate GenerateAnswer(before: Tables, kdf: Kdf, params: Params, entropy: Option<seq<byte>>, count: nat, r: Outcome, after: Tables) {
    && !CannotHash(kdf, params, DefaultPassword(), entropy)
    && CreateAnswer(before, GeneratedUsers(HashWith(kdf, params, DefaultPassword(), entropy.value).passwordHash, count), r, after)
  }

  /** The returned users, in order, and their rows. */
  ghost predicate AreStored(t: Tables, passwordHash: string, users: seq<TestUser>) {
    forall i :: 0 <= i < |users| ==>
      && users[i] == TestUser(users[i].id, GeneratedName(i), DEFAULT_PASSWORD, DEFAULT_BALANCE)
      && users[i].id in t.users && t.users[users[i].id] == GeneratedUser(passwordHash, i)
  }

  /** The batch of a hash, and the users to report. */
  method CreateGenerated(db: Database, passwordHash: string, count: nat) returns (r: Outcome, users: array<TestUser>, ghost own: OpId)
    requires db.Valid()
    modifies db
    ensures db.Valid() && fresh(users) && old(db.run) <= db.run
    ensures own < |db.st.ops| && db.st.ops[own].pc == Finished(r)
    ensures Honest(db.initial, db.since, db.run, own)
    ensures r.Lost? ==> EndedAmong(old(db.others), own) || TimedOut(db.initial, db.since, db.run, db.others, own)
    ensures old(db.others) == [] && old(db.st.locks) == map[] ==>
      CreateAnswer(old(db.st.db), GeneratedUsers(passwordHash, count), r, db.st.db)
    ensures r.Completed? ==> users.Length == count && AreStored(db.st.db, passwordHash, users[..])
  {
    users := new TestUser[0];
    var params := FillParams(passwordHash, count);
    var dataCreator := new DataCreator(db);
    var ids, session;
    r, ids, session := dataCreator.CreateUsers(params[..]);
    own := session;
    if !r.Completed? {
      return;
    }
    users := CollectUsers(db.st.db, ids);
  }

  /** On success the returned users are numbered in order and stored, and each can log in with the password it is
      reported with. No session is opened exactly when there is no hash; a session is lost only if another session's
      step ended it or it waited in vain. Undisturbed, it creates the whole batch and nothing else, or is refused
      with its cause. */
  method GenerateUsers(db: Database, hasher: PasswordHasher, entropy: Option<seq<byte>>, count: nat)
    returns (r: Outcome, users: array<TestUser>, ghost own: Option<OpId>)
    requires db.Valid() && (entropy.Some? ==> |entropy.value| == hasher.params.saltLen)
    modifies db
    ensures db.Valid() && fresh(users) && old(db.run) <= db.run
    ensures own.None? <==> CannotHash(hasher.kdf, hasher.params, DefaultPassword(), entropy)
    ensures own.None? ==> r == Lost(false) && db.st == old(db.st)
    ensures own.Some? ==>
      && own.value < |db.st.ops| && db.st.ops[own.value].pc == Finished(r)
      && Honest(db.initial, db.since, db.run, own.value)
      && (r.Lost? ==> EndedAmong(old(db.others), own.value) || TimedOut(db.initial, db.since, db.run, db.others, own.value))
    ensures own.Some? && old(db.others) == [] && old(db.st.locks) == map[] ==>
      GenerateAnswer(old(db.st.db), hasher.kdf, hasher.params, entropy, count, r, db.st.db)
    ensures r.Completed? ==>
      own.Some? && users.Length == count && AllStored(db.st.db, hasher.kdf, users[..])
  {
    users := new TestUser[0];
    own := None;
    var stored := HashDefaultPassword(hasher, entropy);
    if stored.None? {
      return Lost(false), users, None;
    }
    ghost var session;
    r, users, session := CreateGenerated(db, stored.value, count);
    own := Some(session);
    if r.Completed? {
      StoredUsersLogIn(db.st.db, hasher.kdf, stored.value, users[..]);
    }
  }
}
