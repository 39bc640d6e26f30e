/** What holds over every interleaving of requests on one session. */
module SessionRuns {
  import opened Options
  import opened SessionRefresh

  // ----- No refresh is lost and no stale one wins, whatever the lock does.

  /** A replacement for a refresh stores what its request heard identity issue for the token of the session read. */
  predicate Exchanged(replacement: Replacement, exchanges: seq<Exchange>) {
    var Replacement(cause, read, issued, at) := replacement;
    cause.Refreshed? ==> Exchange(cause.request, read.refresh, issued, at, InHand) in exchanges
  }

  /** The session's user and, unless it was issued others, its address and login; the issued tokens and lifetimes. */
  predicate MadeFrom(next: Session, read: Session, issued: Issued, at: Millis) {
    && next.user == read.user
    && (if issued.email.Some? then Some(next.email) == issued.email else next.email == read.email)
    && (if issued.loginId.Some? then next.loginId == issued.loginId else next.loginId == read.loginId)
    && next.access == issued.access && next.accessExpires == at + 1000 * issued.accessSeconds
    && next.refresh == issued.refresh && next.refreshExpires == at + 1000 * issued.refreshSeconds
  }

  /** Each session but the first was made, with tokens issued to its user, from the very one it replaced. */
  predicate Provenance(history: seq<Session>, log: seq<Replacement>, exchanges: seq<Exchange>) {
    && |history| == |log| + 1
    && forall k :: 0 <= k < |log| ==>
         && log[k].read == history[k]
         && MadeFrom(history[k + 1], log[k].read, log[k].issued, log[k].at)
         && log[k].issued.subject == log[k].read.user
         && Exchanged(log[k], exchanges)
  }

  ghost predicate DistinctTokens(history: seq<Session>) {
    forall j, k :: 0 <= j < k < |history| ==> history[j].refresh != history[k].refresh
  }

  predicate OutcomeFrom(outcome: Outcome, history: seq<Session>) {
    outcome.Active? ==> outcome.session in history
  }

  /** Every session a request has in hand was stored at some time. */
  predicate StageFrom(stage: Stage, history: seq<Session>) {
    match stage
    case Acquiring(seen) => seen in history
    case Waiting(seen, _) => seen in history
    case Refreshing(current) => current in history
    case Storing(current, _, _) => current in history
    case Deleting(current, _) => current in history
    case Releasing(outcome) => OutcomeFrom(outcome, history)
    case Done(outcome) => OutcomeFrom(outcome, history)
    case _ => true
  }

  /** Tokens no session stored has. */
  predicate Unused(s: System, issued: Issued) {
    issued.refresh in s.known && forall k :: 0 <= k < |s.history| ==> s.history[k].refresh != issued.refresh
  }

  /** What a request is about to store was issued to it, for the session it read, and its tokens are unused. */
  predicate HoldsFresh(s: System, i: nat)
    requires i < |s.requests|
  {
    match s.requests[i]
    case Storing(current, issued, at) =>
      && issued.subject == current.user
      && Exchange(i, current.refresh, issued, at, InHand) in s.exchanges
      && Unused(s, issued)
    case _ => true
  }

  predicate FreshApart(s: System, i: nat, j: nat)
    requires i < |s.requests| && j < |s.requests|
  {
    (i != j && s.requests[i].Storing? && s.requests[j].Storing?)
    ==> s.requests[i].issued.refresh != s.requests[j].issued.refresh
  }

  ghost predicate HistoryInv(s: System) {
    && Provenance(s.history, s.log, s.exchanges)
    && DistinctTokens(s.history)
    && (forall k :: 0 <= k < |s.history| ==> s.history[k].refresh in s.known)
    && (s.stored.Some? ==> s.stored.value == s.history[|s.history| - 1])
    && (forall i :: 0 <= i < |s.requests| ==> StageFrom(s.requests[i], s.history))
    && (forall i :: 0 <= i < |s.requests| ==> HoldsFresh(s, i))
    && (forall i, j :: 0 <= i < |s.requests| && 0 <= j < |s.requests| ==> FreshApart(s, i, j))
  }

  /** A step that changes one request's stage, holding nothing new to store, and stores nothing. */
  lemma PutKeeps(s: System, t: System, i: nat, stage: Stage)
    requires HistoryInv(s) && i < |s.requests| && !stage.Storing? && StageFrom(stage, s.history)
    requires t == s.(now := t.now, stored := t.stored, lock := t.lock, requests := s.requests[i := stage])
    requires t.stored == s.stored || t.stored.None?
    ensures HistoryInv(t)
  {
    forall j | 0 <= j < |t.requests|
      ensures StageFrom(t.requests[j], t.history) && HoldsFresh(t, j)
    {
      assert StageFrom(s.requests[j], s.history) && HoldsFresh(s, j);
    }
    forall j, k | 0 <= j < |t.requests| && 0 <= k < |t.requests|
      ensures FreshApart(t, j, k)
    {
      assert FreshApart(s, j, k);
    }
  }

  lemma LongerHistory(history: seq<Session>, next: Session, stage: Stage)
    requires StageFrom(stage, history)
    ensures StageFrom(stage, history + [next])
  {
  }

  /** The tokens name the session, so finding the expected refresh token is finding the very session read. */
  lemma SameTokenSameSession(s: System, current: Session)
    requires HistoryInv(s) && current in s.history && s.stored.Some? && s.stored.value.refresh == current.refresh
    ensures s.stored.value == current
  {
    var k :| 0 <= k < |s.history| && s.history[k] == current;
  }

  lemma LongerProvenance(history: seq<Session>, log: seq<Replacement>, exchanges: seq<Exchange>, next: Replacement)
    requires Provenance(history, log, exchanges) && next.read == history[|history| - 1]
    requires next.issued.subject == next.read.user && Exchanged(next, exchanges)
    ensures Provenance(history + [next.Next()], log + [next], exchanges)
  {
  }

  /** Replacing the newest session extends the history. */
  lemma ReplacedKeeps(s: System, next: Replacement)
    requires HistoryInv(s) && s.stored == Some(next.read)
    requires next.issued.subject == next.read.user && Exchanged(next, s.exchanges) && Unused(s, next.issued)
    requires forall j :: 0 <= j < |s.requests| && s.requests[j].Storing?
               ==> s.requests[j].issued.refresh != next.issued.refresh
    ensures HistoryInv(Replaced(s, next))
  {
    var t := Replaced(s, next);
    LongerProvenance(s.history, s.log, s.exchanges, next);
    forall j | 0 <= j < |t.requests|
      ensures StageFrom(t.requests[j], t.history) && HoldsFresh(t, j)
    {
      LongerHistory(s.history, next.Next(), s.requests[j]);
      assert HoldsFresh(s, j);
    }
    forall j, k | 0 <= j < |t.requests| && 0 <= k < |t.requests|
      ensures FreshApart(t, j, k)
    {
      assert FreshApart(s, j, k);
    }
  }

  lemma StoringKeeps(s: System, i: nat)
    requires HistoryInv(s) && i < |s.requests| && s.requests[i].Storing?
    ensures HistoryInv(Ran(s, i))
  {
    var Storing(current, issued, at) := s.requests[i];
    assert StageFrom(s.requests[i], s.history) && HoldsFresh(s, i);
    if s.stored.Some? && s.stored.value.refresh == current.refresh {
      SameTokenSameSession(s, current);
      var next := Replacement(Refreshed(i), current, issued, at);
      var released := Put(s, i, Releasing(Expired));
      PutKeeps(s, released, i, Releasing(Expired));
      forall j | 0 <= j < |released.requests| && released.requests[j].Storing?
        ensures released.requests[j].issued.refresh != issued.refresh
      {
        assert FreshApart(s, i, j);
      }
      ReplacedKeeps(released, next);
      PutKeeps(Replaced(released, next), Ran(s, i), i, Releasing(Active(next.Next(), true)));
    } else {
      PutKeeps(s, Ran(s, i), i, Rereading);
    }
  }

  lemma RanKeeps(s: System, i: nat)
    requires HistoryInv(s) && Can(s, Run(i))
    ensures HistoryInv(Ran(s, i))
  {
    assert StageFrom(s.requests[i], s.history);
    if s.requests[i].Storing? {
      StoringKeeps(s, i);
    } else {
      PutKeeps(s, Ran(s, i), i, Ran(s, i).requests[i]);
    }
  }

  lemma HeardKeeps(s: System, i: nat, answer: Answer)
    requires HistoryInv(s) && Can(s, Answered(i, answer))
    ensures HistoryInv(Heard(s, i, answer))
  {
    assert StageFrom(s.requests[i], s.history);
    var t := Heard(s, i, answer);
    if t.requests[i].Storing? {
      forall j | 0 <= j < |t.requests|
        ensures StageFrom(t.requests[j], t.history) && HoldsFresh(t, j)
      {
        assert StageFrom(s.requests[j], s.history) && HoldsFresh(s, j);
      }
      forall j, k | 0 <= j < |t.requests| && 0 <= k < |t.requests|
        ensures FreshApart(t, j, k)
      {
        assert FreshApart(s, j, k) && HoldsFresh(s, j) && HoldsFresh(s, k);
      }
    } else {
      var knowing := s.(known := t.known, exchanges := t.exchanges, abandoned := t.abandoned);
      KnowingMore(s, knowing);
      PutKeeps(knowing, t, i, t.requests[i]);
    }
  }

  lemma KnowingMore(s: System, t: System)
    requires HistoryInv(s) && t == s.(known := t.known, exchanges := t.exchanges, abandoned := t.abandoned)
    requires s.known <= t.known && s.exchanges <= t.exchanges
    ensures HistoryInv(t)
  {
    forall j | 0 <= j < |t.requests|
      ensures HoldsFresh(t, j)
    {
      assert HoldsFresh(s, j);
    }
    forall j, k | 0 <= j < |t.requests| && 0 <= k < |t.requests|
      ensures FreshApart(t, j, k)
    {
      assert FreshApart(s, j, k);
    }
  }

  lemma StepUpKeeps(s: System, read: Session, issued: Issued, at: Millis)
    requires HistoryInv(s) && Can(s, StepUp(read, issued, at))
    ensures HistoryInv(After(s, StepUp(read, issued, at)))
  {
    var knowing := s.(known := s.known + {issued.refresh});
    var next := Replacement(SteppedUp, read, issued, at);
    KnowingMore(s, knowing);
    SameTokenSameSession(s, read);
    forall j | 0 <= j < |s.requests| && s.requests[j].Storing?
      ensures s.requests[j].issued.refresh != issued.refresh
    {
      assert HoldsFresh(s, j);
    }
    ReplacedKeeps(knowing, next);
    assert After(s, StepUp(read, issued, at)) == Replaced(knowing, next);
  }

  lemma ArriveKeeps(s: System)
    requires HistoryInv(s)
    ensures HistoryInv(After(s, Arrive))
  {
    var t := After(s, Arrive);
    forall j | 0 <= j < |t.requests|
      ensures StageFrom(t.requests[j], t.history) && HoldsFresh(t, j)
    {
      if j < |s.requests| {
        assert StageFrom(s.requests[j], s.history) && HoldsFresh(s, j);
      }
    }
    forall j, k | 0 <= j < |t.requests| && 0 <= k < |t.requests|
      ensures FreshApart(t, j, k)
    {
      if j < |s.requests| && k < |s.requests| {
        assert FreshApart(s, j, k);
      }
    }
  }

  lemma SameRequestsKeep(s: System, t: System)
    requires HistoryInv(s) && t == s.(now := t.now, stored := t.stored, lock := t.lock)
    requires t.stored == s.stored || t.stored.None?
    ensures HistoryInv(t)
  {
    forall j | 0 <= j < |t.requests|
      ensures HoldsFresh(t, j)
    {
      assert HoldsFresh(s, j);
    }
    forall j, k | 0 <= j < |t.requests| && 0 <= k < |t.requests|
      ensures FreshApart(t, j, k)
    {
      assert FreshApart(s, j, k);
    }
  }

  lemma HistoryStep(s: System, step: Step)
    requires HistoryInv(s) && Can(s, step)
    ensures HistoryInv(After(s, step))
  {
    match step
    case Run(i) => RanKeeps(s, i);
    case Answered(i, answer) => HeardKeeps(s, i, answer);
    case ActsLate(_, _) => KnowingMore(s, After(s, step));
    case StepUp(read, issued, at) => StepUpKeeps(s, read, issued, at);
    case Arrive => ArriveKeeps(s);
    case _ => SameRequestsKeep(s, After(s, step));
  }

  lemma {:induction false} HistoryRun(s: System, steps: seq<Step>)
    requires HistoryInv(s) && CanRun(s, steps)
    ensures HistoryInv(AfterAll(s, steps))
    decreases |steps|
  {
    if steps != [] {
      HistoryStep(s, steps[0]);
      HistoryRun(After(s, steps[0]), steps[1..]);
    }
  }

  lemma {:induction false} SameUser(history: seq<Session>, log: seq<Replacement>, exchanges: seq<Exchange>, k: nat)
    requires Provenance(history, log, exchanges) && k < |history|
    ensures history[k].user == history[0].user
  {
    if k > 0 {
      assert log[k - 1].read == history[k - 1];
      SameUser(history, log, exchanges, k - 1);
    }
  }

  /**
   Over every run, leases running out or not: each session stored was made from the one stored right before it,
   with the tokens a step-up was given or those identity issued, to the request that stored them, for that
   session's own refresh token. So nothing replaced is brought back, and whoever is answered with a session is
   answered with one that was stored, of the same user.
   */
  lemma EveryReplacementFollows(session: Session, now: Millis, steps: seq<Step>)
    requires CanRun(Start(session, now), steps)
    ensures var s := AfterAll(Start(session, now), steps);
            && s.history != [] && s.history[0] == session
            && Provenance(s.history, s.log, s.exchanges) && DistinctTokens(s.history)
            && (s.stored.Some? ==> s.stored.value == s.history[|s.history| - 1])
            && (forall k :: 0 <= k < |s.history| ==> s.history[k].user == session.user)
            && forall i :: 0 <= i < |s.requests| && s.requests[i].Done? && s.requests[i].outcome.Active?
                 ==> s.requests[i].outcome.session in s.history
  {
    HistoryRun(Start(session, now), steps);
    FirstKept(Start(session, now), steps);
    var s := AfterAll(Start(session, now), steps);
    forall k | 0 <= k < |s.history|
      ensures s.history[k].user == session.user
    {
      SameUser(s.history, s.log, s.exchanges, k);
    }
    forall i | 0 <= i < |s.requests| && s.requests[i].Done? && s.requests[i].outcome.Active?
      ensures s.requests[i].outcome.session in s.history
    {
      assert StageFrom(s.requests[i], s.history);
    }
  }

  lemma HistoryGrows(s: System, step: Step)
    requires Can(s, step)
    ensures s.history <= After(s, step).history
  {
  }

  lemma {:induction false} FirstKept(s: System, steps: seq<Step>)
    requires CanRun(s, steps)
    ensures s.history <= AfterAll(s, steps).history
    decreases |steps|
  {
    if steps != [] {
      HistoryGrows(s, steps[0]);
      FirstKept(After(s, steps[0]), steps[1..]);
    }
  }

  // ----- Nobody is answered with a session older than the one stored when they asked.

  lemma SuffixGrows(history: seq<Session>, longer: seq<Session>, n: nat, stage: Stage)
    requires n < |history| && history <= longer && StageFrom(stage, history[n..])
    ensures StageFrom(stage, longer[n..])
  {
    assert longer[n..] == history[n..] + longer[|history|..];
  }

  lemma NewestInSuffix(history: seq<Session>, n: nat)
    requires n < |history|
    ensures history[|history| - 1] in history[n..]
  {
    assert history[n..][|history| - 1 - n] == history[|history| - 1];
  }

  lemma NotOlderRan(s: System, i: nat, n: nat)
    requires HistoryInv(s) && Can(s, Run(i)) && n < |s.history| && StageFrom(s.requests[i], s.history[n..])
    ensures StageFrom(Ran(s, i).requests[i], Ran(s, i).history[n..])
  {
    NewestInSuffix(s.history, n);
    if s.requests[i].Storing? {
      NewestInSuffix(Ran(s, i).history, n);
    } else {
      assert Ran(s, i).history == s.history;
    }
  }

  /** A step of the request itself. */
  predicate IsOwn(step: Step, i: nat) { step == Run(i) || (step.Answered? && step.request == i) }

  lemma NotOlderHeard(s: System, i: nat, answer: Answer, n: nat)
    requires Can(s, Answered(i, answer)) && n < |s.history| && StageFrom(s.requests[i], s.history[n..])
    ensures StageFrom(Heard(s, i, answer).requests[i], s.history[n..]) && Heard(s, i, answer).history == s.history
  {
  }

  lemma OthersWait(s: System, step: Step, i: nat)
    requires Can(s, step) && i < |s.requests| && !IsOwn(step, i)
    ensures i < |After(s, step).requests| && After(s, step).requests[i] == s.requests[i]
  {
  }

  lemma NotOlderStep(s: System, step: Step, i: nat, n: nat)
    requires HistoryInv(s) && Can(s, step) && i < |s.requests| && n < |s.history|
    requires StageFrom(s.requests[i], s.history[n..])
    ensures i < |After(s, step).requests| && StageFrom(After(s, step).requests[i], After(s, step).history[n..])
  {
    if step == Run(i) {
      NotOlderRan(s, i, n);
    } else if IsOwn(step, i) {
      NotOlderHeard(s, i, step.answer, n);
    } else {
      HistoryGrows(s, step);
      OthersWait(s, step, i);
      SuffixGrows(s.history, After(s, step).history, n, s.requests[i]);
    }
  }

  lemma {:induction false} NotOlderRun(s: System, steps: seq<Step>, i: nat, n: nat)
    requires HistoryInv(s) && CanRun(s, steps) && i < |s.requests| && n < |s.history|
    requires StageFrom(s.requests[i], s.history[n..])
    ensures var t := AfterAll(s, steps);
            i < |t.requests| && n < |t.history| && StageFrom(t.requests[i], t.history[n..])
    decreases |steps|
  {
    if steps != [] {
      NotOlderStep(s, steps[0], i, n);
      HistoryStep(s, steps[0]);
      HistoryGrows(s, steps[0]);
      NotOlderRun(After(s, steps[0]), steps[1..], i, n);
    }
  }

  /** From when a request starts, whatever else happens: a session it is answered with was stored then or later. */
  lemma NeverAnsweredOlder(s: System, steps: seq<Step>, i: nat)
    requires HistoryInv(s) && CanRun(s, steps) && i < |s.requests| && s.requests[i] == Reading
    ensures var t := AfterAll(s, steps);
            && i < |t.requests| && |s.history| <= |t.history|
            && (t.requests[i].Done? && t.requests[i].outcome.Active?
                ==> t.requests[i].outcome.session in t.history[|s.history| - 1..])
  {
    NotOlderRun(s, steps, i, |s.history| - 1);
    FirstKept(s, steps);
  }

  // ----- Every request ends, after asking identity at most once.

  function Rank(stage: Stage): nat {
    match stage
    case Reading => POLL_ATTEMPTS + 2
    case Acquiring(_) => POLL_ATTEMPTS + 1
    case Waiting(_, left) => if left == 0 then 1 else left
    case Holding => 5
    case Refreshing(_) => 4
    case Storing(_, _, _) => 3
    case Deleting(_, _) => 2
    case Rereading => 2
    case Discarding => 1
    case Releasing(_) => 1
    case Done(_) => 0
  }

  function MayAsk(stage: Stage): nat {
    if stage.Reading? || stage.Acquiring? || stage.Holding? || stage.Refreshing? then 1 else 0
  }

  function OwnSteps(steps: seq<Step>, i: nat): nat {
    if steps == [] then 0
    else (if IsOwn(steps[0], i) then 1 else 0) + OwnSteps(steps[1..], i)
  }

  function Asked(steps: seq<Step>, i: nat): nat {
    if steps == [] then 0 else (if steps[0].Answered? && steps[0].request == i then 1 else 0) + Asked(steps[1..], i)
  }

  lemma StepCounted(s: System, step: Step, i: nat)
    requires Can(s, step) && i < |s.requests|
    ensures i < |After(s, step).requests|
    ensures OwnSteps([step], i) + Rank(After(s, step).requests[i]) <= Rank(s.requests[i])
    ensures Asked([step], i) + MayAsk(After(s, step).requests[i]) <= MayAsk(s.requests[i])
  {
    assert OwnSteps([step][1..], i) == 0 && Asked([step][1..], i) == 0;
    var own := IsOwn(step, i);
    assert OwnSteps([step], i) == if own then 1 else 0;
    assert !own ==> After(s, step).requests[i] == s.requests[i];
  }

  lemma {:induction false} StepsCounted(s: System, steps: seq<Step>, i: nat)
    requires CanRun(s, steps) && i < |s.requests|
    ensures i < |AfterAll(s, steps).requests|
    ensures OwnSteps(steps, i) + Rank(AfterAll(s, steps).requests[i]) <= Rank(s.requests[i])
    ensures Asked(steps, i) + MayAsk(AfterAll(s, steps).requests[i]) <= MayAsk(s.requests[i])
    decreases |steps|
  {
    if steps != [] {
      StepCounted(s, steps[0], i);
      StepsCounted(After(s, steps[0]), steps[1..], i);
      assert [steps[0]][1..] == [];
    }
  }

  predicate Blocked(s: System, i: nat)
    requires i < |s.requests|
  {
    !Can(s, Run(i)) && !s.requests[i].Refreshing?
  }

  /**
   A request takes at most 52 steps of its own and asks identity at most once, whatever the others do, and until
   it is done it can always take one, at worst once identity has answered it.
   */
  lemma EveryRequestEnds(s: System, steps: seq<Step>, i: nat)
    requires CanRun(s, steps) && i < |s.requests| && s.requests[i] == Reading
    ensures OwnSteps(steps, i) <= POLL_ATTEMPTS + 2 && Asked(steps, i) <= 1
    ensures i < |AfterAll(s, steps).requests|
    ensures Blocked(AfterAll(s, steps), i) <==> AfterAll(s, steps).requests[i].Done?
  {
    StepsCounted(s, steps, i);
  }
}
