/**
 * The session registry: the caller's current session is the one with the
 * greatest creation time among the caller's rows; it can be read or deleted.
 */
module Sessions {
  import opened Wrappers
  import Accounts
  import Tables

  type Session = Accounts.Session

  /**
   * Position of the caller's newest session (`findFirst` ordered by
   * `createdAt` descending); among equal times the later row.
   */
  function NewestIndex(ss: seq<Session>, uid: string): (r: Option<nat>)
    ensures r.None? <==> forall i :: 0 <= i < |ss| ==> ss[i].userId != uid
    ensures r.Some? ==> r.value < |ss| && ss[r.value].userId == uid
    ensures r.Some? ==> forall j :: 0 <= j < |ss| && ss[j].userId == uid ==> ss[j].createdAt <= ss[r.value].createdAt
    decreases |ss|
  {
    if ss == [] then None
    else
      var last := |ss| - 1;
      var prev := NewestIndex(ss[..last], uid);
      if ss[last].userId == uid && (prev.None? || ss[prev.value].createdAt <= ss[last].createdAt) then Some(last)
      else prev
  }

  /** A response body: a plain text, or a session row. */
  datatype Payload = Text(text: string) | Current(session: Session)

  datatype Reply = Reply(code: nat, body: Payload)

  /** `getAll`: the caller's newest session, or 404 when the caller has none; nothing is written. */
  function GetAll(sessions: seq<Session>, caller: Accounts.Caller): (r: Reply)
    ensures r.code == 404 <==> forall i :: 0 <= i < |sessions| ==> sessions[i].userId != caller.id
    ensures r.code == 404 ==> r.body == Text("Session not found!")
    ensures r.code != 404 ==> r.code == 200 && r.body.Current?
    ensures r.body.Current? ==>
      && r.body.session in sessions
      && r.body.session.userId == caller.id
      && forall s :: s in sessions && s.userId == caller.id ==> s.createdAt <= r.body.session.createdAt
  {
    match NewestIndex(sessions, caller.id)
    case None => Reply(404, Text("Session not found!"))
    case Some(i) => Reply(200, Current(sessions[i]))
  }

  /** `remove`: deletes exactly the caller's newest session, or answers 404 and deletes nothing. */
  method Remove(db: Accounts.AccountTables, caller: Accounts.Caller) returns (r: Reply)
    requires db.Valid()
    modifies db`sessions
    ensures db.Valid()
    ensures NewestIndex(old(db.sessions), caller.id).None? ==>
      r == Reply(404, Text("Session not found!")) && db.sessions == old(db.sessions)
    ensures NewestIndex(old(db.sessions), caller.id).Some? ==>
      var i := NewestIndex(old(db.sessions), caller.id).value;
      r == Reply(200, Text("Session deleted successfully")) && db.sessions == Tables.RemoveAt(old(db.sessions), i)
  {
    var found := NewestIndex(db.sessions, caller.id);
    if found.None? {
      r := Reply(404, Text("Session not found!"));
      return;
    }
    var i := found.value;
    Tables.RemoveAtDistinct(db.sessions, Accounts.SessionIdOf, i);
    db.sessions := Tables.RemoveAt(db.sessions, i);
    r := Reply(200, Text("Session deleted successfully"));
  }

  /**
   * After the newest session is deleted, the caller's current session is the
   * newest of the caller's other rows: none when there were no others.
   */
  lemma AfterRemoveCurrentIsSecondNewest(ss: seq<Session>, uid: string)
    requires NewestIndex(ss, uid).Some?
    ensures var i := NewestIndex(ss, uid).value;
      var rest := Tables.RemoveAt(ss, i);
      && (NewestIndex(rest, uid).None? <==> forall k :: 0 <= k < |ss| && k != i ==> ss[k].userId != uid)
      && (NewestIndex(rest, uid).Some? ==>
            var s := rest[NewestIndex(rest, uid).value];
            && s.createdAt <= ss[i].createdAt
            && (exists k :: 0 <= k < |ss| && k != i && ss[k] == s)
            && forall k :: 0 <= k < |ss| && k != i && ss[k].userId == uid ==> ss[k].createdAt <= s.createdAt)
  {
    var i := NewestIndex(ss, uid).value;
    var rest := Tables.RemoveAt(ss, i);
    var at := (k: int) => if k < i then k else k + 1;
    forall k | 0 <= k < |ss| && k != i && ss[k].userId == uid
      ensures NewestIndex(rest, uid).Some?
      ensures ss[k].createdAt <= rest[NewestIndex(rest, uid).value].createdAt
    {
      var k' := if k < i then k else k - 1;
      assert rest[k'] == ss[k];
    }
    if NewestIndex(rest, uid).Some? {
      var j := NewestIndex(rest, uid).value;
      assert rest[j] == ss[at(j)];
    }
  }

  /** Deleting the caller's current session leaves every other user's current session time as it was. */
  lemma RemoveKeepsOthersCurrent(ss: seq<Session>, uid: string, other: string)
    requires NewestIndex(ss, uid).Some? && other != uid
    ensures var rest := Tables.RemoveAt(ss, NewestIndex(ss, uid).value);
      && (NewestIndex(rest, other).Some? <==> NewestIndex(ss, other).Some?)
      && (NewestIndex(rest, other).Some? ==>
            rest[NewestIndex(rest, other).value].createdAt == ss[NewestIndex(ss, other).value].createdAt)
  {
    var i := NewestIndex(ss, uid).value;
    var rest := Tables.RemoveAt(ss, i);
    OwnerRowsKept(ss, rest, i, other);
    if NewestIndex(ss, other).Some? && NewestIndex(rest, other).Some? {
      NewestTimesAgree(ss, rest, i, other, NewestIndex(ss, other).value, NewestIndex(rest, other).value);
    }
  }

  /** `rest` is `ss` without row `i`, which is not `other`'s: `other` has a row in one exactly when in the other. */
  lemma OwnerRowsKept(ss: seq<Session>, rest: seq<Session>, i: nat, other: string)
    requires i < |ss| && |rest| == |ss| - 1 && ss[i].userId != other
    requires forall j :: 0 <= j < i ==> rest[j] == ss[j]
    requires forall j :: i <= j < |rest| ==> rest[j] == ss[j + 1]
    ensures (exists k :: 0 <= k < |ss| && ss[k].userId == other) <==> (exists k :: 0 <= k < |rest| && rest[k].userId == other)
  {
    if k :| 0 <= k < |ss| && ss[k].userId == other {
      if k < i { assert rest[k] == ss[k]; } else { assert rest[k - 1] == ss[k]; }
    }
    if k :| 0 <= k < |rest| && rest[k].userId == other {
      if k < i { assert rest[k] == ss[k]; } else { assert rest[k] == ss[k + 1]; }
    }
  }

  /** The newest of `other`'s rows before and after the removal have the same creation time. */
  lemma NewestTimesAgree(ss: seq<Session>, rest: seq<Session>, i: nat, other: string, n: nat, m: nat)
    requires i < |ss| && |rest| == |ss| - 1 && ss[i].userId != other
    requires forall j :: 0 <= j < i ==> rest[j] == ss[j]
    requires forall j :: i <= j < |rest| ==> rest[j] == ss[j + 1]
    requires n < |ss| && ss[n].userId == other
    requires forall j :: 0 <= j < |ss| && ss[j].userId == other ==> ss[j].createdAt <= ss[n].createdAt
    requires m < |rest| && rest[m].userId == other
    requires forall j :: 0 <= j < |rest| && rest[j].userId == other ==> rest[j].createdAt <= rest[m].createdAt
    ensures rest[m].createdAt == ss[n].createdAt
  {
    if n < i { assert rest[n] == ss[n]; } else { assert rest[n - 1] == ss[n]; }
    if m < i { assert rest[m] == ss[m]; } else { assert rest[m] == ss[m + 1]; }
  }
}
