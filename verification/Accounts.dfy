/** One account per username, under every interleaving of first logins and batch registrations. */
module Accounts {
  import opened Schema
  import opened Wrappers
  import opened Ledger
  import opened Accounting
  import opened Protocol
  import opened Invariant
  import opened Refinement

  /** Every successful authentication for a username, by whichever path, got the same user: the one the
      name is committed under. A call that verified its password verified it against the hash still stored,
      and a call that created the account stored its own hash. */
  lemma OneAccountPerUsername(t: Tables, now: int, steps: seq<Step>, i: OpId, j: OpId)
    requires Coherent(t)
    requires var st := Execute(Initial(t, now), steps);
      && i < |st.ops| && st.ops[i].request.Authenticate? && st.ops[i].pc.Finished? && st.ops[i].pc.outcome.Authenticated?
      && j < |st.ops| && st.ops[j].request.Authenticate? && st.ops[j].pc.Finished? && st.ops[j].pc.outcome.Authenticated?
      && st.ops[i].request.username == st.ops[j].request.username
    ensures var st := Execute(Initial(t, now), steps);
      && st.ops[i].pc.outcome.user == st.ops[j].pc.outcome.user
      && st.ops[i].pc.outcome.user in st.db.users
      && st.db.users[st.ops[i].pc.outcome.user].username == st.ops[i].request.username
      && (st.ops[i].pc.outcome.via.Verified? ==>
            st.ops[i].request.check(st.db.users[st.ops[i].pc.outcome.user].passwordHash).Match?)
      && (st.ops[i].pc.outcome.via.Created? ==>
            st.db.users[st.ops[i].pc.outcome.user].passwordHash == st.ops[i].request.newHash)
  {
    var st := Execute(Initial(t, now), steps);
    Serializable(t, now, steps);
    SerialKeeps(t, st.log);
    assert AuthInv(st.db, st.ops[i]) && AuthInv(st.db, st.ops[j]);
  }

  /** The lookup after a lost race always finds the winner's row, so a race never turns into an error. */
  lemma ConflictIsResolved(t: Tables, now: int, steps: seq<Step>, op: OpId, pick: nat, flip: bool)
    requires Coherent(t)
    requires var st := Execute(Initial(t, now), steps);
      op < |st.ops| && st.ops[op].request.Authenticate? && st.ops[op].pc.AuthConflict?
    ensures var st := Execute(Initial(t, now), steps);
      && st.ops[op].request.username in st.db.byName
      && Next(st, Advance(op, pick, flip)).ops
         == st.ops[op := Op(st.ops[op].request, Finished(Authenticated(st.db.byName[st.ops[op].request.username], Raced)), NO_TX)]
  {
    var st := Execute(Initial(t, now), steps);
    Serializable(t, now, steps);
    assert AuthInv(st.db, st.ops[op]);
    assert Wants(st.db, st.ops[op]) == {};
  }

  /** The number of registrations of `name` among some rows. */
  function Named(params: seq<User>, name: string): nat {
    if params == [] then 0 else Named(params[..|params| - 1], name) + (if params[|params| - 1].username == name then 1 else 0)
  }

  /** The number of times a log grants an initial balance to `name`. */
  function GrantsTo(log: seq<Entry>, name: string): nat {
    if log == [] then 0 else
    var call := log[|log| - 1].call;
    GrantsTo(log[..|log| - 1], name) + (if call.CreateUsers? then Named(call.params, name) else 0)
  }

  function Taken(t: Tables, name: string): nat {
    if name in t.byName then 1 else 0
  }

  lemma {:induction false} InsertUsersTakesNames(t: Tables, params: seq<User>, ids: seq<UserId>, name: string)
    requires |params| == |ids| && InsertUsers(t, params, ids).Success?
    ensures Taken(InsertUsers(t, params, ids).value, name) == Taken(t, name) + Named(params, name)
  {
    if params != [] {
      InsertUsersTakesNames(t, params[..|params| - 1], ids[..|ids| - 1], name);
    }
  }

  /** Exactly one initial grant is ever made for a username: none if the name was there before,
      otherwise one as soon as the name is there, however many logins raced for it. */
  lemma {:induction false} OneGrantPerUsername(t: Tables, log: seq<Entry>, name: string)
    requires Serial(t, log).Success?
    ensures Taken(Serial(t, log).value, name) == Taken(t, name) + GrantsTo(log, name)
  {
    if log != [] {
      var e := log[|log| - 1];
      OneGrantPerUsername(t, log[..|log| - 1], name);
      if e.call.CreateUsers? {
        InsertUsersTakesNames(Serial(t, log[..|log| - 1]).value, e.call.params, e.ids, name);
      }
    }
  }
}
