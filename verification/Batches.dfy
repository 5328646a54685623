/** Which batches of users can be created. */
module Batches {
  import opened Wrappers
  import opened Schema
  import opened Ledger
  import opened Protocol
  import opened Invariant
  import opened Refinement

  lemma InsertUsersSucceeds(t: Tables, params: seq<User>, ids: seq<UserId>)
    requires |params| == |ids| && PendingFree(t, params, ids)
    ensures InsertUsers(t, params, ids)
      == Success(t.(users := t.users + PendingUsers(params, ids), byName := t.byName + PendingNames(params, ids)))
  {
    PendingInserts(t, params, ids);
    assert params[..|ids|] == params;
  }

  lemma {:induction false} InsertedWereFree(t: Tables, params: seq<User>, ids: seq<UserId>)
    requires |params| == |ids| && InsertUsers(t, params, ids).Success?
    ensures PendingFree(t, params, ids)
  {
    if params != [] {
      var n := |params| - 1;
      var front, rows := params[..n], ids[..n];
      InsertedWereFree(t, front, rows);
      InsertUsersSucceeds(t, front, rows);
      forall i | 0 <= i < n
        ensures ids[i] != ids[n] && params[i].username != params[n].username
        ensures NonNegativeInt32(params[i].balance) && ids[i] !in t.users && params[i].username !in t.byName
      {
        PendingCovers(front, rows, i);
        assert front[i] == params[i] && rows[i] == ids[i];
      }
      OneMoreFree(t, params, ids);
    }
  }

  lemma OneMoreFree(t: Tables, params: seq<User>, ids: seq<UserId>)
    requires |params| == |ids| > 0 && PendingFree(t, params[..|params| - 1], ids[..|ids| - 1])
    requires
      var n := |params| - 1;
      && NonNegativeInt32(params[n].balance) && ids[n] !in t.users && params[n].username !in t.byName
      && forall i :: 0 <= i < n ==> ids[i] != ids[n] && params[i].username != params[n].username
    ensures PendingFree(t, params, ids)
  {
    var n := |params| - 1;
    var front, rows := params[..n], ids[..n];
    forall i | 0 <= i < |ids|
      ensures NonNegativeInt32(params[i].balance) && ids[i] !in t.users && params[i].username !in t.byName
    {
      if i < n {
        assert front[i] == params[i] && rows[i] == ids[i];
      }
    }
    forall i, j | 0 <= i < j < |ids|
      ensures ids[i] != ids[j] && params[i].username != params[j].username
    {
      if j < n {
        assert front[i] == params[i] && rows[i] == ids[i] && front[j] == params[j] && rows[j] == ids[j];
      }
    }
  }

  /** A batch, run alone, is created exactly when no name and no id is taken or repeated and every balance
      is in range; it then adds exactly these rows, and otherwise nothing at all. */
  lemma CreateMeaning(t: Tables, params: seq<User>, ids: seq<UserId>)
    requires |params| == |ids|
    ensures RunCreate(t, params, ids).Success? <==> PendingFree(t, params, ids)
    ensures RunCreate(t, params, ids).Success? ==>
      RunCreate(t, params, ids).value
        == t.(users := t.users + PendingUsers(params, ids), byName := t.byName + PendingNames(params, ids))
  {
    if PendingFree(t, params, ids) {
      InsertUsersSucceeds(t, params, ids);
      assert forall i :: 0 <= i < |params| ==> Int32(params[i].balance);
    }
    if RunCreate(t, params, ids).Success? {
      InsertedWereFree(t, params, ids);
    }
  }
}
