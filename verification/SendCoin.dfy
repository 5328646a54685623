/** PostAPISendCoin: the guards before a transfer and the response to each outcome. */
module SendCoin {
  import opened Wrappers
  import opened Schema
  import opened Ledger
  import Accounting
  import opened Protocol
  import Refinement
  import opened Outcomes
  import opened Failures
  import opened Database
  import opened Transferer
  import opened Calls

  datatype Response = Ok | BadRequest(errors: string) | InternalError

  const EMPTY_TO_USER := "empty toUser body value"
  const NON_POSITIVE := "non-positive amount body value"
  const NO_TO_USER := "toUser doesn't exist"
  const SAME_USERS := "fromUser and toUser are equal"
  const NOT_ENOUGH := "not enough coin"

  function ResponseTo(outcome: Outcome): Response {
    match outcome
    case Completed => Ok
    case Failed(DstUserNotFound) => BadRequest(NO_TO_USER)
    case Failed(SameUser) => BadRequest(SAME_USERS)
    case Failed(NotEnough) => BadRequest(NOT_ENOUGH)
    case _ => InternalError
  }

  ghost predicate Poor(db: Tables, user: UserId, amount: int64) {
    user in db.users && db.users[user].balance < amount
  }

  ghost predicate PoorDuring(st: State, own: OpId, user: UserId, amount: int64) {
    own < |st.ops| && !st.ops[own].pc.Finished? && Poor(st.db, user, amount)
  }

  /** At some moment of the run, while the session was in progress, the account held less than this amount. */
  ghost predicate WasPoor(t: Tables, now: int, steps: seq<Step>, own: OpId, user: UserId, amount: int64) {
    exists k :: 0 <= k <= |steps| && PoorDuring(Protocol.Execute(Initial(t, now), steps[..k]), own, user, amount)
  }

  /** For the positive amounts that pass the guard, the "not enough" of a transfer is exact. */
  lemma NotEnoughIsPoor(db: Tables, dstUsername: string, src: UserId, amount: int64, pick: nat)
    requires UsersValid(db) && amount > 0
    ensures SendDue(db, Send(dstUsername, src, amount), pick, NotEnough)
      <==> EndsKnown(db, Send(dstUsername, src, amount)) && Poor(db, src, amount)
  {
    if src in db.users {
      NotEnoughMeaning(db.users[src].balance, amount);
    }
  }

  lemma NotEnoughWasPoor(t: Tables, now: int, steps: seq<Step>, own: OpId)
    requires Coherent(t)
    requires
      var st := Protocol.Execute(Initial(t, now), steps);
      own < |st.ops| && st.ops[own].request.Send? && st.ops[own].request.amount > 0
    requires Justified(t, now, steps, own, Failed(NotEnough))
    ensures
      var request := Protocol.Execute(Initial(t, now), steps).ops[own].request;
      WasPoor(t, now, steps, own, request.src, request.amount)
  {
    var request := Protocol.Execute(Initial(t, now), steps).ops[own].request;
    var k :| 0 <= k < |steps| && RefusedAt(Protocol.Execute(Initial(t, now), steps[..k]), steps[k], own, Failed(NotEnough));
    var st := Protocol.Execute(Initial(t, now), steps[..k]);
    RequestSince(t, now, steps, k, own);
    Refinement.Serializable(t, now, steps[..k]);
    Accounting.SerialKeeps(t, st.log);
    NotEnoughIsPoor(st.db, request.dstUsername, request.src, request.amount, Drawn(st.ops[own], steps[k].pick)[0]);
    assert PoorDuring(st, own, request.src, request.amount);
  }

  /** Which response tells which outcome. */
  predicate Tells(response: Response, outcome: Outcome) {
    && (response.Ok? <==> outcome == Completed)
    && (response == BadRequest("toUser doesn't exist") <==> outcome == Failed(DstUserNotFound))
    && (response == BadRequest("fromUser and toUser are equal") <==> outcome == Failed(SameUser))
    && (response == BadRequest("not enough coin") <==> outcome == Failed(NotEnough))
    && (response.InternalError? <==>
          outcome !in {Completed, Failed(DstUserNotFound), Failed(SameUser), Failed(NotEnough)})
  }

  lemma ErrorsAreTold(outcome: Outcome)
    ensures Tells(ResponseTo(outcome), outcome)
    ensures ResponseTo(outcome).BadRequest? ==> outcome.Failed?
  {
    assert |NO_TO_USER| == 20 && |SAME_USERS| == 29 && |NOT_ENOUGH| == 15;
  }

  /** A request that the guards refuse never touches the database. Otherwise the response is the one of the
      session's outcome: 200 exactly for a completed transfer, 400 exactly for the three named refusals. A 200 means
      exactly one transfer of this amount in the history, a 400 none; each refusal had its cause; and a "not enough
      coin" means that the sender's committed balance really was below the amount at some moment of the call.
      Undisturbed, the response is that of the transfer alone. */
  method PostAPISendCoin(db: Database, requestUserID: UserId, toUser: string, amount: int64) returns (response: Response, ghost own: OpId)
    requires db.Valid()
    modifies db
    ensures db.Valid()
    ensures toUser == "" ==> response == BadRequest("empty toUser body value") && db.st == old(db.st) && db.run == old(db.run)
    ensures toUser != "" && amount <= 0 ==> response == BadRequest("non-positive amount body value") && db.st == old(db.st) && db.run == old(db.run)
    ensures toUser != "" && amount > 0 ==>
      && own < |db.st.ops| && db.st.ops[own].request == Send(toUser, requestUserID, amount) && db.st.ops[own].pc.Finished?
      && Tells(response, db.st.ops[own].pc.outcome)
      && (db.st.ops[own].pc.outcome.Lost? ==>
            EndedAmong(old(db.others), own) || TimedOut(db.initial, db.since, db.run, db.others, own))
      && Honest(db.initial, db.since, db.run, own)
      && (response.Ok? ==> Commits(db.st.log, own) == 1)
      && (response.BadRequest? ==> Commits(db.st.log, own) == 0)
      && (response == BadRequest(NO_TO_USER) ==> Justified(db.initial, db.since, db.run, own, Failed(DstUserNotFound)))
      && (response == BadRequest(SAME_USERS) ==> Justified(db.initial, db.since, db.run, own, Failed(SameUser)))
      && (response == BadRequest(NOT_ENOUGH) ==> WasPoor(db.initial, db.since, db.run, own, requestUserID, amount))
    ensures toUser != "" && amount > 0 && old(db.others) == [] && old(db.st.locks) == map[] ==>
      TransferAnswer(old(db.st.db), toUser, requestUserID, amount, db.st.ops[own].pc.outcome, db.st.db)
  {
    own := 0;
    if toUser == "" {
      return BadRequest(EMPTY_TO_USER), 0;
    }
    if amount <= 0 {
      return BadRequest(NON_POSITIVE), 0;
    }
    var transferer := new Transferer(db);
    var r, session := transferer.TransferByUsername(toUser, requestUserID, amount);
    own := session;
    response := ResponseTo(r);
    ErrorsAreTold(r);
    if r == Failed(NotEnough) {
      assert Refused(db.st.ops[own], r);
      NotEnoughWasPoor(db.initial, db.since, db.run, own);
    }
  }
}
