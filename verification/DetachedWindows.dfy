/** Torn-off file windows: who may write a file, and when a window may close. Users, renderers and
    the application's shutdown act in any order; window and contents numbers are never used twice. */
module DetachedWindows {

  datatype Owner = Owner(win: nat, contents: nat)

  /** `<window>:<sequence number>`. */
  datatype RequestId = RequestId(win: nat, seqNo: nat)

  datatype Decision = Save | Discard | Cancel

  /** The registries, together with what the windows themselves know: the contents every window ever
      created has, and the windows whose close was let through and which are going down. */
  datatype Registry = Registry(
    detached: map<nat, string>,
    owners: map<string, Owner>,
    requestSeq: nat,
    pending: map<RequestId, nat>,
    allowClose: set<nat>,
    forceAll: bool,
    contents: map<nat, nat>,
    closing: set<nat>)

  datatype Event =
    | Detach(key: string, win: nat, contents: nat)
    | CloseAttempt(win: nat, contentsLost: bool)
    | Reply(rid: RequestId, decision: Decision)
    | RendererGone(win: nat)
    | ForceAll
    | Closed(win: nat)

  const EMPTY := Registry(map[], map[], 0, map[], {}, false, map[], {})

  // ---- One step ----

  predicate CanWrite(r: Registry, key: string, sender: nat) {
    key !in r.owners || r.owners[key].contents == sender
  }

  predicate Fresh(r: Registry, win: nat, contents: nat) {
    win !in r.contents && contents !in r.contents.Values
  }

  function LetThrough(r: Registry, win: nat): Registry {
    r.(allowClose := r.allowClose + {win}, closing := r.closing + {win})
  }

  function Without(pending: map<RequestId, nat>, win: nat): map<RequestId, nat> {
    map rid | rid in pending && pending[rid] != win :: pending[rid]
  }

  function AfterDetach(r: Registry, key: string, win: nat, contents: nat): Registry {
    if !Fresh(r, win, contents) then r
    else if key in r.owners && r.owners[key].win in r.detached then r
    else r.(detached := r.detached[win := key], owners := r.owners[key := Owner(win, contents)],
            contents := r.contents[win := contents])
  }

  function AfterCloseAttempt(r: Registry, win: nat, contentsLost: bool): Registry {
    if win !in r.detached then r
    else if r.forceAll || win in r.allowClose then r.(closing := r.closing + {win})
    else if contentsLost then LetThrough(r, win)
    else r.(requestSeq := r.requestSeq + 1, pending := r.pending[RequestId(win, r.requestSeq + 1) := win])
  }

  function AfterReply(r: Registry, rid: RequestId, decision: Decision): Registry {
    if rid !in r.pending then r
    else
      var answered := r.(pending := r.pending - {rid});
      if decision == Cancel || r.pending[rid] !in r.detached then answered
      else LetThrough(answered, r.pending[rid])
  }

  function AfterClosed(r: Registry, win: nat): Registry {
    if win !in r.detached || win !in r.closing then r
    else r.(allowClose := r.allowClose - {win}, pending := Without(r.pending, win),
            detached := r.detached - {win}, owners := r.owners - {r.detached[win]})
  }

  function Step(r: Registry, e: Event): Registry {
    match e
    case Detach(key, win, contents) => AfterDetach(r, key, win, contents)
    case CloseAttempt(win, lost) => AfterCloseAttempt(r, win, lost)
    case Reply(rid, decision) => AfterReply(r, rid, decision)
    case RendererGone(win) =>
      if win !in r.contents then r
      else if win in r.detached then LetThrough(r, win)
      else r.(allowClose := r.allowClose + {win})
    case ForceAll => r.(forceAll := true, closing := r.closing + r.detached.Keys)
    case Closed(win) => AfterClosed(r, win)
  }

  function Run(events: seq<Event>): Registry {
    if events == [] then EMPTY
    else Step(Run(events[..|events| - 1]), events[|events| - 1])
  }

  lemma RunSnoc(events: seq<Event>, e: Event)
    ensures Run(events + [e]) == Step(Run(events), e)
  {
    assert (events + [e])[..|events|] == events;
  }

  lemma AppendNothing(events: seq<Event>)
    ensures events + [] == events
  {
  }

  // ---- What every step keeps ----

  /** Owners and live windows agree one to one: every window owns the file it shows, through its own
      contents, and every owner is a live window showing that file. */
  ghost predicate OneToOne(r: Registry) {
    && (forall w :: w in r.detached ==> w in r.contents && r.detached[w] in r.owners)
    && (forall w :: w in r.detached ==> r.owners[r.detached[w]] == Owner(w, r.contents[w]))
    && (forall k :: k in r.owners ==> r.owners[k].win in r.detached && r.detached[r.owners[k].win] == k)
  }

  ghost predicate ContentsDiffer(r: Registry) {
    forall v, w :: v in r.contents && w in r.contents && v != w ==> r.contents[v] != r.contents[w]
  }

  /** A pending request is the live window's own and its number has been given out. */
  ghost predicate OwnRequests(r: Registry) {
    forall rid :: rid in r.pending ==>
      r.pending[rid] == rid.win && rid.win in r.detached && 0 < rid.seqNo <= r.requestSeq
  }

  ghost predicate KnownWindows(r: Registry) {
    (forall w :: w in r.allowClose ==> w in r.contents) && (forall w :: w in r.closing ==> w in r.contents)
  }

  /** A window that is going down is not asked. */
  ghost predicate ClosingIsCleared(r: Registry) {
    forall w :: w in r.closing && w in r.detached ==> Cleared(r, w)
  }

  ghost predicate Inv(r: Registry) {
    OneToOne(r) && ContentsDiffer(r) && OwnRequests(r) && KnownWindows(r) && ClosingIsCleared(r)
  }

  /** The next close attempt of the window is let through. */
  predicate Cleared(r: Registry, win: nat) { win in r.allowClose || r.forceAll }

  lemma DetachKeeps(r: Registry, key: string, win: nat, contents: nat)
    requires Inv(r)
    ensures Inv(AfterDetach(r, key, win, contents))
  {
    var next := AfterDetach(r, key, win, contents);
    if next != r {
      forall w | w in r.contents
        ensures r.contents[w] != contents
      {
        assert r.contents[w] in r.contents.Values;
      }
      assert key !in r.owners;
    }
  }

  lemma ClosedKeeps(r: Registry, win: nat)
    requires Inv(r)
    ensures Inv(AfterClosed(r, win))
  {
  }

  lemma CloseAttemptKeeps(r: Registry, win: nat, contentsLost: bool)
    requires Inv(r)
    ensures Inv(AfterCloseAttempt(r, win, contentsLost))
  {
  }

  lemma ReplyKeeps(r: Registry, rid: RequestId, decision: Decision)
    requires Inv(r)
    ensures Inv(AfterReply(r, rid, decision))
  {
  }

  lemma RendererGoneKeeps(r: Registry, win: nat)
    requires Inv(r)
    ensures Inv(Step(r, RendererGone(win)))
  {
  }

  lemma ForceAllKeeps(r: Registry)
    requires Inv(r)
    ensures Inv(Step(r, ForceAll))
  {
  }

  lemma StepKeeps(r: Registry, e: Event)
    requires Inv(r)
    ensures Inv(Step(r, e))
  {
    match e
    case Detach(key, win, contents) => DetachKeeps(r, key, win, contents);
    case CloseAttempt(win, lost) => CloseAttemptKeeps(r, win, lost);
    case Reply(rid, decision) => ReplyKeeps(r, rid, decision);
    case RendererGone(win) => RendererGoneKeeps(r, win);
    case ForceAll => ForceAllKeeps(r);
    case Closed(win) => ClosedKeeps(r, win);
  }

  lemma {:induction false} RunKeeps(events: seq<Event>)
    ensures Inv(Run(events))
  {
    if events != [] {
      RunKeeps(events[..|events| - 1]);
      StepKeeps(Run(events[..|events| - 1]), events[|events| - 1]);
    }
  }

  // ---- One writer ----

  /** Main result. In every reachable state a file shown in a detached window is writable from that
      window's contents and from nowhere else, and two detached windows never show one file. */
  lemma OneWriter(events: seq<Event>, win: nat)
    requires win in Run(events).detached
    ensures
      var r := Run(events);
      && (forall sender :: CanWrite(r, r.detached[win], sender) <==> win in r.contents && sender == r.contents[win])
      && (forall other :: other in r.detached && r.detached[other] == r.detached[win] ==> other == win)
  {
    RunKeeps(events);
  }

  /** A file no detached window shows is writable by everyone. */
  lemma FreeFilesAreWritable(events: seq<Event>, key: string)
    requires forall w :: w in Run(events).detached ==> Run(events).detached[w] != key
    ensures forall sender :: CanWrite(Run(events), key, sender)
  {
    RunKeeps(events);
  }

  // ---- Why a window closes ----

  /** The window may go after this event: a save or discard answer to a request of its own that is
      still pending, the loss of its renderer, or the shutdown of the application. */
  predicate Excuse(r: Registry, e: Event, win: nat) {
    match e
    case Reply(rid, decision) => decision != Cancel && rid in r.pending && r.pending[rid] == win
    case RendererGone(w) => w == win && win in r.contents
    case CloseAttempt(w, lost) => w == win && lost && win in r.detached
    case ForceAll => true
    case _ => false
  }

  ghost predicate Excused(events: seq<Event>, win: nat) {
    exists j :: 0 <= j < |events| && Excuse(Run(events[..j]), events[j], win)
  }

  lemma ExcusedLater(events: seq<Event>, e: Event, win: nat)
    ensures Excused(events, win) ==> Excused(events + [e], win)
    ensures Excuse(Run(events), e, win) ==> Excused(events + [e], win)
  {
    var all := events + [e];
    assert all[..|events|] == events;
    if Excused(events, win) {
      var j :| 0 <= j < |events| && Excuse(Run(events[..j]), events[j], win);
      assert all[..j] == events[..j] && all[j] == events[j];
    }
  }

  predicate Going(r: Registry, win: nat) {
    win in r.allowClose || win in r.closing || r.forceAll
  }

  /** Only an excuse starts a window going. */
  lemma StartsGoing(r: Registry, e: Event, win: nat)
    requires Inv(r) && !Going(r, win) && Going(Step(r, e), win)
    ensures Excuse(r, e, win)
  {
  }

  lemma {:induction false} GoingIsExcused(events: seq<Event>, win: nat)
    requires Going(Run(events), win)
    ensures Excused(events, win)
  {
    if events == [] {
      assert false;
    } else {
      var front, e := events[..|events| - 1], events[|events| - 1];
      assert events == front + [e];
      RunKeeps(front);
      ExcusedLater(front, e, win);
      if Going(Run(front), win) {
        GoingIsExcused(front, win);
      } else {
        StartsGoing(Run(front), e, win);
      }
    }
  }

  lemma LeavesOnlyGoing(r: Registry, e: Event, win: nat)
    requires win in r.detached && win !in Step(r, e).detached
    ensures win in r.closing
  {
  }

  /** Main result. A detached window that is gone later in a run was answered save or discard on its
      own pending request, lost its renderer, or was forced shut - in that very run. */
  lemma {:induction false} NoWindowClosesByItself(events: seq<Event>, more: seq<Event>, win: nat)
    requires win in Run(events).detached && win !in Run(events + more).detached
    ensures Excused(events + more, win)
  {
    AppendNothing(events);
    if more == [] {
      assert false;
    } else {
      var front, e := events + more[..|more| - 1], more[|more| - 1];
      assert events + more == front + [e];
      RunSnoc(front, e);
      if win in Run(front).detached {
        LeavesOnlyGoing(Run(front), e, win);
        GoingIsExcused(front, win);
        ExcusedLater(front, e, win);
      } else {
        NoWindowClosesByItself(events, more[..|more| - 1], win);
        ExcusedLater(front, e, win);
      }
    }
  }

  lemma ExcuseClears(r: Registry, e: Event, win: nat)
    requires Inv(r) && win in r.detached && Excuse(r, e, win)
    ensures
      var after := Step(r, e);
      win in after.detached && win in after.closing && Cleared(after, win)
  {
  }

  /** An excuse lets its window go at once. */
  lemma ExcuseLetsGo(events: seq<Event>, e: Event, win: nat)
    requires win in Run(events).detached && Excuse(Run(events), e, win)
    ensures
      var after := Step(Run(events), e);
      win in after.detached && win in after.closing && Cleared(after, win)
  {
    RunKeeps(events);
    ExcuseClears(Run(events), e, win);
  }

  /** The window was created, or the application is shutting down. */
  predicate Known(r: Registry, win: nat) { win in r.contents || r.forceAll }

  lemma KnownStep(r: Registry, e: Event, win: nat)
    requires Inv(r) && (Known(r, win) || Excuse(r, e, win))
    ensures Known(Step(r, e), win)
  {
  }

  lemma ClearedStep(r: Registry, e: Event, win: nat)
    requires Inv(r) && Known(r, win) && win in Step(r, e).detached
    requires win in r.detached ==> Cleared(r, win)
    ensures Cleared(Step(r, e), win)
  {
  }

  lemma NewlyDetached(r: Registry, e: Event, win: nat)
    requires win !in r.detached && win in Step(r, e).detached
    ensures !Excuse(r, e, win)
  {
  }

  lemma ExcusedEarlier(front: seq<Event>, e: Event, win: nat)
    requires Excused(front + [e], win)
    ensures Excused(front, win) || Excuse(Run(front), e, win)
  {
    var all := front + [e];
    var j :| 0 <= j < |all| && Excuse(Run(all[..j]), all[j], win);
    if j < |front| {
      assert all[..j] == front[..j] && all[j] == front[j];
    } else {
      assert all[..j] == front;
    }
  }

  lemma {:induction false} ExcusedIsKnown(events: seq<Event>, win: nat)
    requires Excused(events, win)
    ensures Known(Run(events), win)
  {
    if events == [] {
      assert false;
    } else {
      var front, e := events[..|events| - 1], events[|events| - 1];
      assert events == front + [e];
      RunKeeps(front);
      ExcusedEarlier(front, e, win);
      if Excused(front, win) {
        ExcusedIsKnown(front, win);
      }
      KnownStep(Run(front), e, win);
    }
  }

  /** Main result. As long as it is there, a window that once had an excuse is cleared, whatever happens
      in between. */
  lemma {:induction false} ExcusedStaysCleared(events: seq<Event>, win: nat)
    requires Excused(events, win) && win in Run(events).detached
    ensures Cleared(Run(events), win)
  {
    if events == [] {
      assert false;
    } else {
      var front, e := events[..|events| - 1], events[|events| - 1];
      assert events == front + [e];
      RunKeeps(front);
      ExcusedEarlier(front, e, win);
      if Excused(front, win) {
        ExcusedIsKnown(front, win);
        if win in Run(front).detached {
          ExcusedStaysCleared(front, win);
        }
        ClearedStep(Run(front), e, win);
      } else if win in Run(front).detached {
        ExcuseClears(Run(front), e, win);
      } else {
        NewlyDetached(Run(front), e, win);
      }
    }
  }

  /** No later close attempt of it is held up. */
  lemma ExcusedIsNotAsked(events: seq<Event>, win: nat)
    requires Excused(events, win) && win in Run(events).detached
    ensures
      var after := Step(Run(events), CloseAttempt(win, false));
      win in after.closing && after.pending == Run(events).pending
  {
    ExcusedStaysCleared(events, win);
  }

  // ---- Requests ----

  /** This event puts the request to its window: a close attempt that is held up. */
  predicate Puts(r: Registry, e: Event, rid: RequestId) {
    && e == CloseAttempt(rid.win, false) && rid.win in r.detached && rid.seqNo == r.requestSeq + 1
    && !r.forceAll && rid.win !in r.allowClose
  }

  ghost predicate Asked(events: seq<Event>, rid: RequestId) {
    exists j :: 0 <= j < |events| && Puts(Run(events[..j]), events[j], rid)
  }

  lemma AskedLater(events: seq<Event>, e: Event, rid: RequestId)
    ensures Asked(events, rid) || Puts(Run(events), e, rid) ==> Asked(events + [e], rid)
  {
    var all := events + [e];
    assert all[..|events|] == events && all[|events|] == e;
    if Asked(events, rid) {
      var j :| 0 <= j < |events| && Puts(Run(events[..j]), events[j], rid);
      assert all[..j] == events[..j] && all[j] == events[j];
    }
  }

  lemma NewRequestIsPut(r: Registry, e: Event, rid: RequestId)
    requires rid !in r.pending && rid in Step(r, e).pending
    ensures Puts(r, e, rid)
  {
  }

  /** Every pending request was really put to the window it names. */
  lemma {:induction false} PendingWasAsked(events: seq<Event>, rid: RequestId)
    requires rid in Run(events).pending
    ensures Asked(events, rid)
  {
    if events == [] {
      assert false;
    } else {
      var front, e := events[..|events| - 1], events[|events| - 1];
      assert events == front + [e];
      AskedLater(front, e, rid);
      if rid in Run(front).pending {
        PendingWasAsked(front, rid);
      } else {
        NewRequestIsPut(Run(front), e, rid);
      }
    }
  }

  /** The request was answered at step `j` or later. */
  predicate Answered(events: seq<Event>, j: nat, rid: RequestId) {
    exists k :: j <= k < |events| && events[k].Reply? && events[k].rid == rid
  }

  lemma AnsweredMore(events: seq<Event>, e: Event, j: nat, rid: RequestId)
    requires j <= |events|
    ensures Answered(events + [e], j, rid) <==> Answered(events, j, rid) || (e.Reply? && e.rid == rid)
  {
    var all := events + [e];
    assert all[|events|] == e;
    if Answered(events, j, rid) {
      var k :| j <= k < |events| && events[k].Reply? && events[k].rid == rid;
      assert all[k] == events[k];
    }
  }

  /** The number was given out, to a window that exists. */
  predicate GivenOut(r: Registry, rid: RequestId) {
    rid.seqNo <= r.requestSeq && rid.win in r.contents
  }

  /** A number stays given out, and a window that is gone does not come back. */
  lemma GivenOutStays(r: Registry, e: Event, rid: RequestId)
    requires GivenOut(r, rid)
    ensures GivenOut(Step(r, e), rid)
    ensures rid.win in Step(r, e).detached ==> rid.win in r.detached
  {
  }

  lemma NotPutAgain(r: Registry, e: Event, rid: RequestId)
    requires GivenOut(r, rid) && rid in Step(r, e).pending
    ensures rid in r.pending && !(e.Reply? && e.rid == rid)
  {
  }

  lemma StaysPending(r: Registry, e: Event, rid: RequestId)
    requires OwnRequests(r) && rid in r.pending && !(e.Reply? && e.rid == rid) && rid.win in Step(r, e).detached
    ensures rid in Step(r, e).pending
  {
  }

  /** A request that was given out stays pending through a step exactly if the step does not answer it
      and its window is still there. */
  lemma PendingStep(r: Registry, e: Event, rid: RequestId)
    requires Inv(r) && GivenOut(r, rid)
    ensures rid in Step(r, e).pending
      <==> rid in r.pending && !(e.Reply? && e.rid == rid) && rid.win in Step(r, e).detached
  {
    if rid in Step(r, e).pending {
      NotPutAgain(r, e, rid);
      StepKeeps(r, e);
    } else if rid in r.pending && !(e.Reply? && e.rid == rid) && rid.win in Step(r, e).detached {
      StaysPending(r, e, rid);
    }
  }

  lemma PutStep(r: Registry, e: Event, rid: RequestId)
    requires Inv(r) && Puts(r, e, rid)
    ensures GivenOut(Step(r, e), rid) && rid in Step(r, e).pending && rid.win in Step(r, e).detached
  {
  }

  /** Main result. In every run a request that was put to a window is pending if and only if no answer
      to it has come since and its window is still there: no later question takes it away. */
  lemma {:induction false} PendingUntilAnsweredOrGone(events: seq<Event>, j: nat, rid: RequestId)
    requires j < |events| && Puts(Run(events[..j]), events[j], rid)
    ensures GivenOut(Run(events), rid)
    ensures rid in Run(events).pending <==> !Answered(events, j + 1, rid) && rid.win in Run(events).detached
    decreases |events|
  {
    var front, e := events[..|events| - 1], events[|events| - 1];
    assert events == front + [e];
    RunKeeps(front);
    if j == |front| {
      assert events[..j] == front;
      PutStep(Run(front), e, rid);
    } else {
      assert front[..j] == events[..j];
      PendingUntilAnsweredOrGone(front, j, rid);
      PendingStep(Run(front), e, rid);
      GivenOutStays(Run(front), e, rid);
      AnsweredMore(front, e, j + 1, rid);
    }
  }

  /** So an answer to a question, the newest or an older one, has an effect exactly if that question is
      still unanswered and its window is still there; a save or discard then lets the window go. */
  lemma AnswerCountsExactly(events: seq<Event>, j: nat, rid: RequestId, decision: Decision)
    requires j < |events| && Puts(Run(events[..j]), events[j], rid)
    ensures Step(Run(events), Reply(rid, decision)) != Run(events)
      <==> !Answered(events, j + 1, rid) && rid.win in Run(events).detached
    ensures !Answered(events, j + 1, rid) && rid.win in Run(events).detached && decision != Cancel ==>
      Going(Step(Run(events), Reply(rid, decision)), rid.win)
  {
    RunKeeps(events);
    PendingUntilAnsweredOrGone(events, j, rid);
    if rid in Run(events).pending {
      assert rid !in Step(Run(events), Reply(rid, decision)).pending;
    }
  }

  /** An answer whose request is not pending changes nothing, and one that cancels only retires its
      request. */
  lemma StaleAndCancelledReplies(r: Registry, rid: RequestId, decision: Decision)
    ensures rid !in r.pending ==> Step(r, Reply(rid, decision)) == r
    ensures rid in r.pending ==> Step(r, Reply(rid, Cancel)) == r.(pending := r.pending - {rid})
    ensures rid !in Step(r, Reply(rid, decision)).pending
  {
  }

  /** A window that may go does go once its close is attempted: it is forgotten, no question to it is
      left, and its file is free again - for any window and in any reachable state. */
  lemma GoingWindowFreesItsFile(events: seq<Event>, win: nat, sender: nat)
    requires win in Run(events).detached && Going(Run(events), win)
    ensures
      var r := Run(events);
      var after := Step(Step(r, CloseAttempt(win, false)), Closed(win));
      && win !in after.detached && win !in after.allowClose && CanWrite(after, r.detached[win], sender)
      && (forall rid :: rid in after.pending ==> after.pending[rid] != win)
      && (forall w :: w in r.detached && w != win ==> w in after.detached && after.detached[w] == r.detached[w])
  {
    RunKeeps(events);
    ClosesOnceGoing(Run(events), win);
  }

  lemma ClosesOnceGoing(r: Registry, win: nat)
    requires Inv(r) && win in r.detached && Going(r, win)
    ensures win in AfterCloseAttempt(r, win, false).closing || win in r.closing
    ensures AfterCloseAttempt(r, win, false).detached == r.detached
    ensures AfterCloseAttempt(r, win, false).owners == r.owners
  {
  }

  /** And a save or discard answer to a pending request is what makes its window go. */
  lemma AnsweredWindowGoes(events: seq<Event>, rid: RequestId, decision: Decision)
    requires rid in Run(events).pending && decision != Cancel
    ensures rid.win in Run(events).detached && Going(Run(events + [Reply(rid, decision)]), rid.win)
  {
    RunKeeps(events);
    RunSnoc(events, Reply(rid, decision));
  }

  /** A second close attempt does not supersede the first request: each stays pending until it is
      answered or the window is gone. Here the user cancels the newer question, and an answer to the
      older one still lets the window go. */
  lemma OlderRequestStillCounts()
    ensures
      var asked := [Detach("f", 1, 7), CloseAttempt(1, false), CloseAttempt(1, false)];
      var r := Run(asked + [Reply(RequestId(1, 2), Cancel), Reply(RequestId(1, 1), Save)]);
      1 in r.closing
  {
    var s0: seq<Event> := [];
    var s1 := s0 + [Detach("f", 1, 7)];
    var s2 := s1 + [CloseAttempt(1, false)];
    var s3 := s2 + [CloseAttempt(1, false)];
    var s4 := s3 + [Reply(RequestId(1, 2), Cancel)];
    var s5 := s4 + [Reply(RequestId(1, 1), Save)];
    RunSnoc(s0, Detach("f", 1, 7));
    RunSnoc(s1, CloseAttempt(1, false));
    RunSnoc(s2, CloseAttempt(1, false));
    RunSnoc(s3, Reply(RequestId(1, 2), Cancel));
    RunSnoc(s4, Reply(RequestId(1, 1), Save));
    assert Run(s1) == EMPTY.(detached := map[1 := "f"], owners := map["f" := Owner(1, 7)], contents := map[1 := 7]);
    assert Run(s2).pending == map[RequestId(1, 1) := 1];
    assert Run(s3).pending == map[RequestId(1, 1) := 1, RequestId(1, 2) := 1];
    assert RequestId(1, 1) in Run(s4).pending && Run(s4).pending[RequestId(1, 1)] == 1;
    assert s5 == [Detach("f", 1, 7), CloseAttempt(1, false), CloseAttempt(1, false)]
      + [Reply(RequestId(1, 2), Cancel), Reply(RequestId(1, 1), Save)];
  }

  /** Once the application shuts down, no close attempt is held up. */
  lemma ShutdownIsNeverHeldUp(events: seq<Event>, more: seq<Event>, win: nat)
    requires win in Run(events + [ForceAll] + more).detached
    ensures Run(events + [ForceAll] + more).forceAll
    ensures win in Step(Run(events + [ForceAll] + more), CloseAttempt(win, false)).closing
  {
    var all := events + [ForceAll] + more;
    ForceStays(events, more);
  }

  lemma {:induction false} ForceStays(events: seq<Event>, more: seq<Event>)
    ensures Run(events + [ForceAll] + more).forceAll
  {
    if more == [] {
      assert events + [ForceAll] + more == events + [ForceAll];
      RunSnoc(events, ForceAll);
    } else {
      var front := events + [ForceAll] + more[..|more| - 1];
      var e := more[|more| - 1];
      ForceStays(events, more[..|more| - 1]);
      RunSnoc(front, e);
      ForceStep(Run(front), e);
      assert events + [ForceAll] + more == front + [e];
    }
  }

  lemma ForceStep(r: Registry, e: Event)
    requires r.forceAll
    ensures Step(r, e).forceAll
  {
  }

  // ---- The module ----

  class Windows {
    var detached: map<nat, string>
    var owners: map<string, Owner>
    var requestSeq: nat
    var pendingCloses: map<RequestId, nat>
    var allowClose: set<nat>
    var forceCloseAll: bool
    var contents: map<nat, nat>
    var closing: set<nat>

    ghost function State(): Registry
      reads this
    {
      Registry(detached, owners, requestSeq, pendingCloses, allowClose, forceCloseAll, contents, closing)
    }

    ghost predicate Valid()
      reads this
    {
      Inv(State())
    }

    constructor ()
      ensures Valid() && State() == EMPTY
    {
      detached, owners, requestSeq, pendingCloses := map[], map[], 0, map[];
      allowClose, forceCloseAll, contents, closing := {}, false, map[], {};
    }

    /** Opens a window for a file, or focuses the one that shows it. `win` and `webContents` are the
        numbers a new window would get. */
    method CreateDetachedWindow(key: string, win: nat, webContents: nat) returns (focusedExisting: bool)
      requires Valid() && Fresh(State(), win, webContents)
      modifies this
      ensures Valid() && State() == Step(old(State()), Detach(key, win, webContents))
      ensures focusedExisting <==> exists w :: w in old(detached) && old(detached)[w] == key
    {
      DetachKeeps(State(), key, win, webContents);
      if key in owners {
        if owners[key].win in detached {
          return true;
        }
      }
      detached := detached[win := key];
      owners := owners[key := Owner(win, webContents)];
      contents := contents[win := webContents];
      return false;
    }

    /** The `close` handler. */
    method OnClose(win: nat, contentsLost: bool) returns (prevented: bool)
      requires Valid() && win in detached
      modifies this
      ensures Valid() && State() == Step(old(State()), CloseAttempt(win, contentsLost))
      ensures prevented <==> !old(forceCloseAll) && win !in old(allowClose) && !contentsLost
      ensures prevented ==> closing == old(closing) && RequestId(win, requestSeq) in pendingCloses
      ensures !prevented ==> win in closing
    {
      CloseAttemptKeeps(State(), win, contentsLost);
      ghost var next := AfterCloseAttempt(State(), win, contentsLost);
      if forceCloseAll || win in allowClose {
        closing := closing + {win};
        prevented := false;
      } else if contentsLost {
        allowClose := allowClose + {win};
        closing := closing + {win};
        prevented := false;
      } else {
        requestSeq := requestSeq + 1;
        pendingCloses := pendingCloses[RequestId(win, requestSeq) := win];
        prevented := true;
      }
      assert State() == next;
    }

    method OnRendererGone(win: nat)
      requires Valid() && win in contents
      modifies this
      ensures Valid() && State() == Step(old(State()), RendererGone(win))
      ensures win in allowClose && (win in detached ==> win in closing)
    {
      RendererGoneKeeps(State(), win);
      allowClose := allowClose + {win};
      if win in detached {
        closing := closing + {win};
      }
    }

    /** Drops every question the window still had open. */
    method ForgetRequests(win: nat)
      modifies this`pendingCloses
      ensures pendingCloses == Without(old(pendingCloses), win)
    {
      ghost var before := pendingCloses;
      var left := pendingCloses.Keys;
      while left != {}
        invariant left <= before.Keys
        invariant pendingCloses == map rid | rid in before && (rid in left || before[rid] != win) :: before[rid]
        decreases left
      {
        var rid :| rid in left;
        left := left - {rid};
        if pendingCloses[rid] == win {
          pendingCloses := pendingCloses - {rid};
        }
      }
    }

    /** The `closed` handler. */
    method OnClosed(win: nat)
      requires Valid() && win in detached && win in closing
      modifies this
      ensures Valid() && State() == Step(old(State()), Closed(win))
    {
      ClosedKeeps(State(), win);
      ghost var next := AfterClosed(State(), win);
      allowClose := allowClose - {win};
      ForgetRequests(win);
      owners := owners - {detached[win]};
      detached := detached - {win};
      assert State() == next;
    }

    method HandleDetachedCloseReply(rid: RequestId, decision: Decision)
      requires Valid()
      modifies this
      ensures Valid() && State() == Step(old(State()), Reply(rid, decision))
    {
      ReplyKeeps(State(), rid, decision);
      ghost var next := AfterReply(State(), rid, decision);
      if rid in pendingCloses {
        var win := pendingCloses[rid];
        pendingCloses := pendingCloses - {rid};
        if decision != Cancel && win in detached {
          allowClose := allowClose + {win};
          closing := closing + {win};
        }
      }
      assert State() == next;
    }

    /** Closes every detached window that is left. */
    method CloseEach()
      modifies this`closing
      ensures closing == old(closing) + detached.Keys
    {
      var left := detached.Keys;
      while left != {}
        invariant left <= detached.Keys
        invariant closing == old(closing) + (detached.Keys - left)
        decreases left
      {
        var win :| win in left;
        left := left - {win};
        closing := closing + {win};
      }
    }

    method ForceCloseAllDetached()
      requires Valid()
      modifies this
      ensures Valid() && State() == Step(old(State()), ForceAll)
      ensures forceCloseAll && forall w :: w in detached ==> w in closing
    {
      ForceAllKeeps(State());
      ghost var next := Step(State(), ForceAll);
      forceCloseAll := true;
      CloseEach();
      assert State() == next;
    }

    /** The permission check of a write. */
    method MayWrite(key: string, sender: nat) returns (ok: bool)
      requires Valid()
      ensures ok <==> forall w :: w in detached && detached[w] == key ==> w in contents && contents[w] == sender
    {
      if key !in owners {
        return true;
      }
      return owners[key].contents == sender;
    }
  }
}
