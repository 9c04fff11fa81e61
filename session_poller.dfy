/** One tick of the poll loop: fetch the active sessions, then either display
    the first qualifying session as an activity or clear the presence. */
module SessionPoller {
  import opened Wrappers
  import opened PresenceMapper

  /** Whatever the media-server client raised while listing sessions. */
  datatype FetchError = FetchError(message: string)

  /** The session that will be shown, if any, carries the attributes that are
      read without a default (a missing one raises before anything is pushed). */
  predicate Renderable(sessions: seq<Session>, target: string) {
    match FirstMatch(sessions, target)
    case Some(i) => HasRequiredTitle(sessions[i])
    case None => true
  }

  /** The presence one tick pushes, given what the session fetch returned, the
      target user and the clock reading in milliseconds. */
  function Tick(fetched: Result<seq<Session>, FetchError>, target: string, nowMs: int): (p: Presence)
    requires fetched.Success? ==> Renderable(fetched.value, target)
    ensures fetched.Failure? ==> p == Clear
    ensures fetched.Success? ==>
      (p == Clear <==> forall j :: 0 <= j < |fetched.value| ==> !Qualifies(fetched.value[j], target))
  {
    match fetched
    case Failure(_) => Clear
    case Success(sessions) =>
      match FirstMatch(sessions, target)
      case None => Clear
      case Some(i) => Set(BuildActivity(sessions[i], nowMs))
  }

  /** The poll coroutine: a failed fetch clears the presence; otherwise the
      sessions are scanned in order, the first one that belongs to the target
      user or to an unknown user is displayed, and if none does the presence
      is cleared. Exactly one presence is produced per tick. */
  method Poll(fetched: Result<seq<Session>, FetchError>, target: string, nowMs: int) returns (p: Presence)
    requires fetched.Success? ==> Renderable(fetched.value, target)
    ensures p == Tick(fetched, target, nowMs)
  {
    if fetched.Failure? {
      return Clear;
    }
    var sessions := fetched.value;
    var i := 0;
    while i < |sessions|
      invariant 0 <= i <= |sessions|
      invariant forall j :: 0 <= j < i ==> !Qualifies(sessions[j], target)
    {
      var user := ResolveUser(sessions[i]);
      if user == Some(target) || user.None? {
        FirstMatchIsFirstQualifying(sessions, target, i);
        return Set(BuildActivity(sessions[i], nowMs));
      }
      i := i + 1;
    }
    return Clear;
  }

  /** A failed fetch clears the presence and raises nothing. */
  lemma FetchFailureClears(e: FetchError, target: string, nowMs: int)
    ensures Tick(Failure(e), target, nowMs) == Clear
  {
  }

  /** An empty session list clears the presence. */
  lemma EmptyListClears(target: string, nowMs: int)
    ensures Tick(Success([]), target, nowMs) == Clear
  {
  }

  /** The first qualifying session in list order is the one displayed, whatever
      follows it. */
  lemma FirstQualifyingShown(sessions: seq<Session>, target: string, nowMs: int, i: nat)
    requires i < |sessions| && Qualifies(sessions[i], target) && HasRequiredTitle(sessions[i])
    requires forall j :: 0 <= j < i ==> !Qualifies(sessions[j], target)
    ensures Tick(Success(sessions), target, nowMs) == Set(BuildActivity(sessions[i], nowMs))
  {
    FirstMatchIsFirstQualifying(sessions, target, i);
  }

  /** Sessions of other users in front of the list change nothing: the result
      is that of the rest of the list. */
  lemma {:induction false} OtherUsersSkipped(others: seq<Session>, rest: seq<Session>, target: string, nowMs: int)
    requires forall j :: 0 <= j < |others| ==>
      ResolveUser(others[j]).Some? && ResolveUser(others[j]).value != target
    requires Renderable(rest, target)
    ensures Renderable(others + rest, target)
    ensures FirstMatch(others + rest, target) ==
      if FirstMatch(rest, target).None? then None else Some(FirstMatch(rest, target).value + |others|)
    ensures Tick(Success(others + rest), target, nowMs) == Tick(Success(rest), target, nowMs)
    decreases |others|
  {
    var all := others + rest;
    if others != [] {
      assert all[0] == others[0];
      assert !Qualifies(all[0], target);
      assert all[1..] == others[1..] + rest;
      OtherUsersSkipped(others[1..], rest, target, nowMs);
      match FirstMatch(rest, target)
      case None =>
      case Some(k) => assert all[k + |others|] == rest[k];
    } else {
      assert all == rest;
    }
  }

  /** A paused session that is displayed never carries an elapsed-time bar. */
  lemma PausedHasNoTimestamps(sessions: seq<Session>, target: string, nowMs: int, i: nat)
    requires Renderable(sessions, target)
    requires FirstMatch(sessions, target) == Some(i) && Paused(sessions[i])
    ensures Tick(Success(sessions), target, nowMs).Set?
    ensures Tick(Success(sessions), target, nowMs).activity.timestamps == None
  {
  }
}
