/** When a successful login has checked its password, and when it has not. */
module Race {
  import opened Schema
  import opened Ledger
  import opened Accounting
  import opened Protocol
  import opened Invariant
  import opened Refinement
  import opened Outcomes

  /** The session is logged in to an account whose stored hash its check does not accept. */
  predicate LetInUnchecked(st: State, op: OpId) {
    && op < |st.ops| && st.ops[op].request.Authenticate? && st.ops[op].pc.Finished? && st.ops[op].pc.outcome.Authenticated?
    && var user := st.ops[op].pc.outcome.user;
       user in st.db.users && st.ops[op].request.check(st.db.users[user].passwordHash) != Match
  }

  // ----- a username that is known on arrival

  /** A login under a known username waits for its lookup, or has ended; if it succeeded, it was verified. */
  ghost predicate KnownLogin(db: Tables, o: Op) {
    && o.request.Authenticate? && o.request.username in db.byName
    && (o.pc.Start? || o.pc.Finished?)
    && (o.pc.Finished? ==> !o.pc.outcome.Failed?)
    && (o.pc.Finished? && o.pc.outcome.Authenticated? ==> o.pc.outcome.via.Verified?)
  }

  /** The login was decided by its password, or was lost. */
  predicate PasswordDecides(outcome: Outcome) {
    outcome.Lost? || outcome.BadPassword? || outcome.BadHash? || (outcome.Authenticated? && outcome.via.Verified?)
  }

  lemma NamesStay(st: State, step: Step, name: string)
    requires name in st.db.byName
    ensures name in Next(st, step).db.byName
  {
    StepShape(st, step);
  }

  lemma KnownLoginAdvances(st: State, op: OpId, pick: nat)
    requires UsersValid(st.db) && op < |st.ops| && KnownLogin(st.db, st.ops[op])
    ensures
      var st' := AdvanceAuthenticate(st, op, pick);
      |st'.ops| == |st.ops| && st'.db == st.db && KnownLogin(st.db, st'.ops[op])
  {
  }

  lemma OthersKeepKnownLogin(st: State, step: Step, op: OpId)
    requires op < |st.ops| && KnownLogin(st.db, st.ops[op]) && !(step.Advance? && step.op == op)
    ensures op < |Next(st, step).ops| && KnownLogin(Next(st, step).db, Next(st, step).ops[op])
  {
    NamesStay(st, step, st.ops[op].request.username);
    if step.Advance? && step.op < |st.ops| {
      AdvanceTouches(st, step.op, step.pick, step.flip);
    }
  }

  lemma KnownLoginStays(t: Tables, st: State, step: Step, op: OpId)
    requires Inv(t, st) && op < |st.ops| && KnownLogin(st.db, st.ops[op])
    ensures op < |Next(st, step).ops| && KnownLogin(Next(st, step).db, Next(st, step).ops[op])
  {
    if step.Advance? && step.op == op {
      SerialKeeps(t, st.log);
      KnownLoginAdvances(st, op, step.pick);
    } else {
      OthersKeepKnownLogin(st, step, op);
    }
  }

  /** A login whose username was taken when it arrived (or when its lookup was still to come) succeeds only by
      the password check: on the hash that is stored, then and now. */
  lemma {:induction false} KnownNameIsVerified(t: Tables, now: int, steps: seq<Step>, k: nat, op: OpId)
    requires Coherent(t) && k <= |steps| && op < |Execute(Initial(t, now), steps).ops|
    requires
      var early, o := Execute(Initial(t, now), steps[..k]), Execute(Initial(t, now), steps).ops[op];
      && o.request.Authenticate? && o.request.username in early.db.byName
      && (op < |early.ops| ==> early.ops[op].pc.Start?)
    ensures
      var st := Execute(Initial(t, now), steps);
      && KnownLogin(st.db, st.ops[op])
      && (st.ops[op].pc.Finished? && st.ops[op].pc.outcome.Authenticated? ==> StoredHashAnswers(st.db, st.ops[op].request, Match))
      && (st.ops[op].pc.Finished? ==> PasswordDecides(st.ops[op].pc.outcome))
    decreases |steps|
  {
    var st := Execute(Initial(t, now), steps);
    KnownSince(t, now, steps, k, op);
    Serializable(t, now, steps);
    assert AuthInv(st.db, st.ops[op]);
  }

  lemma {:induction false} KnownSince(t: Tables, now: int, steps: seq<Step>, k: nat, op: OpId)
    requires Coherent(t) && k <= |steps| && op < |Execute(Initial(t, now), steps).ops|
    requires
      var early, o := Execute(Initial(t, now), steps[..k]), Execute(Initial(t, now), steps).ops[op];
      && o.request.Authenticate? && o.request.username in early.db.byName
      && (op < |early.ops| ==> early.ops[op].pc.Start?)
    ensures var st := Execute(Initial(t, now), steps); KnownLogin(st.db, st.ops[op])
    decreases |steps|
  {
    assert steps[..|steps|] == steps;
    if k < |steps| {
      var front, step := steps[..|steps| - 1], steps[|steps| - 1];
      var st := Execute(Initial(t, now), front);
      assert front[..k] == steps[..k];
      if op < |st.ops| {
        RequestIsKept(st, step, op);
        KnownSince(t, now, front, k, op);
        Serializable(t, now, front);
        KnownLoginStays(t, st, step, op);
      } else {
        ArrivesAtStart(st, step, op);
        NameSince(t, now, steps, k, Execute(Initial(t, now), steps).ops[op].request.username);
      }
    }
  }

  lemma {:induction false} NameSince(t: Tables, now: int, steps: seq<Step>, k: nat, name: string)
    requires k <= |steps| && name in Execute(Initial(t, now), steps[..k]).db.byName
    ensures name in Execute(Initial(t, now), steps).db.byName
    decreases |steps|
  {
    assert steps[..|steps|] == steps;
    if k < |steps| {
      var front := steps[..|steps| - 1];
      assert front[..k] == steps[..k];
      NameSince(t, now, front, k, name);
      NamesStay(Execute(Initial(t, now), front), steps[|steps| - 1], name);
    }
  }

  // ----- a username that is free on arrival: the race

  function Try(st: State, op: OpId, pick: nat): State {
    Next(st, Advance(op, pick, false))
  }

  /** Two first logins, 0 and 1, under a name that is free in `t`, at these statements. */
  predicate Racing(st: State, t: Tables, a: Pc, b: Pc) {
    && st.db == t && |st.ops| == 2
    && st.ops[0].request.Authenticate? && st.ops[0].pc == a && st.ops[0].tx == NO_TX
    && st.ops[1].request.Authenticate? && st.ops[1].pc == b
    && st.ops[1].request.username == st.ops[0].request.username
    && st.ops[1].request.username !in t.byName
  }

  lemma BothMiss(st: State, t: Tables)
    requires Racing(st, t, Start, Start) && st.locks == map[] && st.ops[1].tx == NO_TX
    ensures
      var st' := Try(Try(st, 0, 0), 1, 0);
      && Racing(st', t, AuthMissing, AuthMissing) && st'.locks == map[] && st'.ops[1].tx == NO_TX
      && SameRequests(st, st')
  {
    var st1 := Try(st, 0, 0);
    assert Wants(st.db, st.ops[0]) == {} && Wants(st1.db, st1.ops[1]) == {};
  }

  ghost predicate SameRequests(st: State, st': State) {
    |st.ops| == |st'.ops| == 2 && st'.ops[0].request == st.ops[0].request && st'.ops[1].request == st.ops[1].request
  }

  /** The row of a first login. */
  function FirstRow(request: Request): User
    requires request.Authenticate?
  {
    User(request.username, request.newHash, DEFAULT_BALANCE)
  }

  lemma SecondInserts(st: State, t: Tables, id: nat)
    requires Racing(st, t, AuthMissing, AuthMissing) && st.locks == map[] && st.ops[1].tx == NO_TX && id !in t.users
    ensures
      var st', row := Try(st, 1, id), FirstRow(st.ops[1].request);
      && Racing(st', t, AuthMissing, AuthInserted(id)) && SameRequests(st, st')
      && st'.ops[1].tx.users == map[id := row] && st'.ops[1].tx.names == map[row.username := id]
      && (forall k :: k in st'.locks ==> st'.locks[k] == 1)
  {
  }

  /** One session has created the account; the other one has not noticed. */
  predicate AccountMade(st: State, id: nat, row: User, a: Pc) {
    && |st.ops| == 2 && st.ops[0].request.Authenticate? && st.ops[0].pc == a && st.ops[0].tx == NO_TX
    && st.ops[0].request.username == row.username && st.locks == map[]
    && row.username in st.db.byName && st.db.byName[row.username] == id && id in st.db.users && st.db.users[id] == row
  }

  lemma SecondCommits(st: State, t: Tables, id: nat)
    requires Racing(st, t, AuthMissing, AuthInserted(id)) && (forall k :: k in st.locks ==> st.locks[k] == 1)
    requires
      var row := FirstRow(st.ops[1].request);
      st.ops[1].tx.users == map[id := row] && st.ops[1].tx.names == map[row.username := id]
    ensures AccountMade(Try(st, 1, 0), id, FirstRow(st.ops[1].request), AuthMissing)
    ensures SameRequests(st, Try(st, 1, 0))
    ensures forall u :: u in Try(st, 1, 0).db.users <==> u in t.users || u == id
  {
    assert Wants(st.db, st.ops[1]) == {};
    assert Try(st, 1, 0).db == Merge(st.db, st.ops[1].tx);
  }

  lemma FirstConflicts(st: State, id: nat, row: User, pick: nat)
    requires AccountMade(st, id, row, AuthMissing) && pick !in st.db.users
    ensures AccountMade(Try(st, 0, pick), id, row, AuthConflict) && SameRequests(st, Try(st, 0, pick))
  {
    assert !Blocked(st, 0);
  }

  lemma FirstIsLetIn(st: State, id: nat, row: User)
    requires AccountMade(st, id, row, AuthConflict)
    ensures AccountMade(Try(st, 0, 0), id, row, Finished(Authenticated(id, Raced))) && SameRequests(st, Try(st, 0, 0))
  {
    assert Wants(st.db, st.ops[0]) == {};
  }

  /** The run: both look the name up, the other one creates the account, and only then does the first one try to. */
  function RaceSteps(first: Request, other: Request, id: nat, pick: nat): seq<Step> {
    [Arrive(first), Arrive(other),
     Advance(0, 0, false), Advance(1, 0, false),
     Advance(1, id, false), Advance(1, 0, false),
     Advance(0, pick, false), Advance(0, 0, false)]
  }

  lemma EightSteps(st: State, s: seq<Step>)
    requires |s| == 8
    ensures Execute(st, s) == Next(Next(Next(Next(Next(Next(Next(Next(st, s[0]), s[1]), s[2]), s[3]), s[4]), s[5]), s[6]), s[7])
  {
    assert s[..8] == s && s[..7][..6] == s[..6] && s[..6][..5] == s[..5] && s[..5][..4] == s[..4];
    assert s[..4][..3] == s[..3] && s[..3][..2] == s[..2] && s[..2][..1] == s[..1] && s[..1][..0] == [];
    RunUnfolds(st, s);
    RunUnfolds(st, s[..7]);
    RunUnfolds(st, s[..6]);
    RunUnfolds(st, s[..5]);
    RunUnfolds(st, s[..4]);
    RunUnfolds(st, s[..3]);
    RunUnfolds(st, s[..2]);
    RunUnfolds(st, s[..1]);
  }

  /** Under a free name, any other first login whose stored hash the check refuses can let the first one in. */
  lemma RaceLetsIn(t: Tables, now: int, first: Request, other: Request, id: nat, pick: nat)
    requires first.Authenticate? && other.Authenticate? && other.username == first.username && first.username !in t.byName
    requires id !in t.users && pick !in t.users && pick != id
    ensures
      var st := Execute(Initial(t, now), RaceSteps(first, other, id, pick));
      && |st.ops| == 2 && st.ops[0].request == first && st.ops[1].request == other
      && st.ops[0].pc == Finished(Authenticated(id, Raced))
      && id in st.db.users && st.db.users[id] == FirstRow(other)
  {
    var st2 := State(t, map[], [Op(first, Start, NO_TX), Op(other, Start, NO_TX)], [], now);
    EightSteps(Initial(t, now), RaceSteps(first, other, id, pick));
    assert Next(Next(Initial(t, now), Arrive(first)), Arrive(other)) == st2;
    BothMiss(st2, t);
    var st4 := Try(Try(st2, 0, 0), 1, 0);
    SecondInserts(st4, t, id);
    var st5 := Try(st4, 1, id);
    SecondCommits(st5, t, id);
    var st6 := Try(st5, 1, 0);
    FirstConflicts(st6, id, FirstRow(other), pick);
    FirstIsLetIn(Try(st6, 0, pick), id, FirstRow(other));
  }

  ghost predicate LetsInUnchecked(t: Tables, now: int, request: Request, steps: seq<Step>) {
    steps != [] && steps[0] == Arrive(request) && LetInUnchecked(Execute(Initial(t, now), steps), 0)
  }

  /** A login that arrives at the tables `t` can succeed without its check accepting the stored hash, in some
      run, exactly when its username is free in `t` and there is a hash that its check refuses. */
  lemma UncheckedLogin(t: Tables, now: int, request: Request)
    requires Coherent(t) && request.Authenticate?
    ensures (exists steps :: LetsInUnchecked(t, now, request, steps))
      <==> request.username !in t.byName && exists hash: string :: request.check(hash) != Match
  {
    forall steps | LetsInUnchecked(t, now, request, steps)
      ensures request.username !in t.byName && exists hash: string :: request.check(hash) != Match
    {
      UncheckedOnlyWhenFree(t, now, request, steps);
    }
    if request.username !in t.byName && exists hash: string :: request.check(hash) != Match {
      var hash: string :| request.check(hash) != Match;
      var steps := UncheckedWhenFree(t, now, request, hash);
      assert LetsInUnchecked(t, now, request, steps);
    }
  }

  lemma FirstRequest(t: Tables, now: int, request: Request, steps: seq<Step>)
    requires steps != [] && steps[0] == Arrive(request)
    ensures 0 < |Execute(Initial(t, now), steps).ops| && Execute(Initial(t, now), steps).ops[0].request == request
  {
    assert steps[..1] == [Arrive(request)] && steps[..1][..0] == [];
    RunUnfolds(Initial(t, now), steps[..1]);
    RequestSince(t, now, steps, 1, 0);
  }

  lemma UncheckedOnlyWhenFree(t: Tables, now: int, request: Request, steps: seq<Step>)
    requires Coherent(t) && request.Authenticate? && LetsInUnchecked(t, now, request, steps)
    ensures request.username !in t.byName && exists hash: string :: request.check(hash) != Match
  {
    var st := Execute(Initial(t, now), steps);
    FirstRequest(t, now, request, steps);
    assert request.check(st.db.users[st.ops[0].pc.outcome.user].passwordHash) != Match;
    if request.username in t.byName {
      assert Execute(Initial(t, now), steps[..0]) == Initial(t, now);
      KnownNameIsVerified(t, now, steps, 0, 0);
      Serializable(t, now, steps);
    }
  }

  lemma LetInByRace(st: State, request: Request, other: Request, id: nat)
    requires |st.ops| == 2 && st.ops[0].request == request && request.Authenticate? && other.Authenticate?
    requires st.ops[0].pc == Finished(Authenticated(id, Raced)) && id in st.db.users && st.db.users[id] == FirstRow(other)
    requires request.check(other.newHash) != Match
    ensures LetInUnchecked(st, 0)
  {
  }

  lemma UncheckedWhenFree(t: Tables, now: int, request: Request, hash: string) returns (steps: seq<Step>)
    requires request.Authenticate? && request.username !in t.byName && request.check(hash) != Match
    ensures LetsInUnchecked(t, now, request, steps)
  {
    var id := UnusedId(t.users.Keys);
    var other := Authenticate(request.username, hash, request.check);
    steps := RaceSteps(request, other, id, id + 1);
    RaceLetsIn(t, now, request, other, id, id + 1);
    LetInByRace(Execute(Initial(t, now), steps), request, other, id);
  }

  lemma {:induction false} UnusedId(ids: set<UserId>) returns (n: nat)
    ensures forall id :: id in ids ==> id < n
    decreases |ids|
  {
    n := 0;
    if ids != {} {
      var id :| id in ids;
      var m := UnusedId(ids - {id});
      n := if m > id then m else id + 1;
      assert forall x :: x in ids ==> x == id || x in ids - {id};
    }
  }
}
