/** Which outcome each request gets, said of what its own steps met over a run. */
module SessionOutcomes {
  import opened Options
  import opened SessionRefresh
  import opened SessionRuns

  /** What a step of a request met: the store, whether the lock was taken, the clock, and identity's answer, if any. */
  datatype View = View(stored: Option<Session>, locked: bool, at: Millis, answer: Option<Answer>)

  function Met(s: System, step: Step): View {
    View(s.stored, s.lock.Some?, s.now, if step.Answered? then Some(step.answer) else None)
  }

  function OwnView(s: System, step: Step, i: nat): seq<View> { if IsOwn(step, i) then [Met(s, step)] else [] }

  /** What the own steps of request `i` meet over a run, in order. */
  function Views(s: System, steps: seq<Step>, i: nat): seq<View>
    requires CanRun(s, steps)
    decreases |steps|
  {
    if steps == [] then [] else OwnView(s, steps[0], i) + Views(After(s, steps[0]), steps[1..], i)
  }

  // ----- When each outcome is given. A request reads the store, tries the lock, and polls, or reads again and asks.

  /** The session first read could be refreshed, and its access token had 30 seconds left or less. */
  predicate WasDue(vs: seq<View>) {
    && vs != [] && vs[0].stored.Some?
    && vs[0].stored.value.refreshExpires > vs[0].at
    && vs[0].stored.value.accessExpires - vs[0].at <= 30_000
  }

  predicate Waited(vs: seq<View>) { WasDue(vs) && |vs| >= 2 && vs[1].locked }

  predicate Held(vs: seq<View>) { WasDue(vs) && |vs| >= 2 && !vs[1].locked }

  /** A poll that found a session with the same access token. */
  predicate Unchanged(seen: Session, poll: View) { poll.stored.Some? && poll.stored.value.access == seen.access }

  /** It polled at least once, and every poll but the last found nothing new. */
  predicate Polled(vs: seq<View>) {
    Waited(vs) && |vs| >= 3 && forall k :: 2 <= k < |vs| - 1 ==> Unchanged(vs[0].stored.value, vs[k])
  }

  predicate PolledInVain(vs: seq<View>) {
    Polled(vs) && |vs| == 2 + 50 && Unchanged(vs[0].stored.value, vs[51])
  }

  /** Having the lock it found the session still in need, and identity was asked to exchange its token. */
  predicate Asked(vs: seq<View>) {
    && Held(vs) && |vs| >= 4 && vs[2].stored.Some? && vs[2].stored.value.accessExpires - vs[2].at <= 30_000
    && vs[3].answer.Some?
  }

  predicate Unanswered(vs: seq<View>) { Asked(vs) && (vs[3].answer.value.Fails? || vs[3].answer.value.Unheard?) }

  predicate TurnedDown(vs: seq<View>) {
    && Asked(vs)
    && (vs[3].answer.value.Rejects?
        || (vs[3].answer.value.Issues? && vs[3].answer.value.issued.subject != vs[2].stored.value.user))
  }

  predicate Granted(vs: seq<View>) {
    && Asked(vs) && |vs| >= 5
    && vs[3].answer.value.Issues? && vs[3].answer.value.issued.subject == vs[2].stored.value.user
  }

  /** The store still had the refresh token that was exchanged. */
  predicate StillThere(vs: seq<View>)
    requires Granted(vs)
  {
    vs[4].stored.Some? && vs[4].stored.value.refresh == vs[2].stored.value.refresh
  }

  predicate GivesExpired(vs: seq<View>) {
    || (vs != [] && vs[0].stored.None?)
    || (vs != [] && vs[0].stored.Some? && vs[0].stored.value.refreshExpires <= vs[0].at)
    || (Polled(vs) && vs[|vs| - 1].stored.None?)
    || (Held(vs) && |vs| >= 3 && vs[2].stored.None?)
    || TurnedDown(vs)
    || (Granted(vs) && !StillThere(vs) && |vs| >= 6 && vs[5].stored.None?)
  }

  predicate GivesUnrefreshed(vs: seq<View>, session: Session) {
    || (vs != [] && vs[0].stored == Some(session)
        && session.refreshExpires > vs[0].at && session.accessExpires - vs[0].at > 30_000)
    || (Polled(vs) && vs[|vs| - 1].stored == Some(session) && session.access != vs[0].stored.value.access)
    || (PolledInVain(vs) && vs[0].stored == Some(session) && session.accessExpires > vs[51].at)
    || (Held(vs) && |vs| >= 3 && vs[2].stored == Some(session) && session.accessExpires - vs[2].at > 30_000)
    || (Unanswered(vs) && vs[2].stored == Some(session) && session.accessExpires > vs[3].at)
    || (Granted(vs) && !StillThere(vs) && |vs| >= 6 && vs[5].stored == Some(session))
  }

  /** The session made, with the tokens issued, from the one read under the lock. */
  predicate GivesRefreshed(vs: seq<View>, session: Session) {
    && Granted(vs) && StillThere(vs)
    && MadeFrom(session, vs[2].stored.value, vs[3].answer.value.issued, vs[3].at)
  }

  predicate Gives(vs: seq<View>, outcome: Outcome) {
    match outcome
    case Expired => GivesExpired(vs)
    case Active(session, refreshed) => if refreshed then GivesRefreshed(vs, session) else GivesUnrefreshed(vs, session)
    case RefreshFailed => Unanswered(vs) && vs[2].stored.value.accessExpires <= vs[3].at
    case RefreshTimedOut => PolledInVain(vs) && vs[0].stored.value.accessExpires <= vs[51].at
  }

  lemma OneOutcome(vs: seq<View>, a: Outcome, b: Outcome)
    requires Gives(vs, a) && Gives(vs, b)
    ensures a == b
  {
  }

  // ----- How far a request is says what its steps have met.

  predicate Progress(vs: seq<View>, stage: Stage) {
    match stage
    case Reading => vs == []
    case Discarding => |vs| == 1 && vs[0].stored.Some? && vs[0].stored.value.refreshExpires <= vs[0].at
    case Acquiring(seen) => |vs| == 1 && WasDue(vs) && vs[0].stored.value == seen
    case Waiting(seen, left) =>
      && Waited(vs) && vs[0].stored.value == seen && 1 <= left <= 50 && |vs| == 2 + (50 - left)
      && forall k :: 2 <= k < |vs| ==> Unchanged(seen, vs[k])
    case Holding => |vs| == 2 && Held(vs)
    case Refreshing(current) =>
      |vs| == 3 && Held(vs) && vs[2].stored == Some(current) && current.accessExpires - vs[2].at <= 30_000
    case Storing(current, issued, at) =>
      && |vs| == 4 && Asked(vs) && vs[2].stored.value == current
      && vs[3].answer.value == Issues(issued) && vs[3].at == at && issued.subject == current.user
    case Deleting(current, spent) =>
      |vs| == 4 && TurnedDown(vs) && vs[2].stored.value == current && (spent <==> vs[3].answer.value.Issues?)
    case Rereading => |vs| == 5 && Granted(vs) && !StillThere(vs)
    case Releasing(outcome) => Held(vs) && |vs| >= 3 && Gives(vs, outcome) && (TurnedDown(vs) ==> |vs| >= 5)
    case Done(outcome) => Gives(vs, outcome)
  }

  lemma MoreViews(vs: seq<View>, v: View, outcome: Outcome)
    requires Held(vs) && |vs| >= 3 && Gives(vs, outcome)
    ensures Gives(vs + [v], outcome)
  {
    var longer := vs + [v];
    assert longer[0] == vs[0] && longer[1] == vs[1] && longer[2] == vs[2];
    assert |vs| > 3 ==> longer[3] == vs[3];
    assert |vs| > 4 ==> longer[4] == vs[4];
    assert |vs| > 5 ==> longer[5] == vs[5];
  }

  lemma PollProgress(s: System, i: nat, vs: seq<View>)
    requires Can(s, Run(i)) && s.requests[i].Waiting? && Progress(vs, s.requests[i])
    ensures Progress(vs + [Met(s, Run(i))], Ran(s, i).requests[i])
  {
    var longer := vs + [Met(s, Run(i))];
    assert forall k :: 2 <= k < |longer| - 1 ==> longer[k] == vs[k];
    assert longer[0] == vs[0] && longer[1] == vs[1];
    assert Polled(longer);
  }

  predicate IsHolding(stage: Stage) {
    stage.Holding? || stage.Storing? || stage.Deleting? || stage.Rereading?
  }

  lemma HoldingProgress(s: System, i: nat, vs: seq<View>)
    requires Can(s, Run(i)) && IsHolding(s.requests[i]) && Progress(vs, s.requests[i])
    ensures Progress(vs + [Met(s, Run(i))], Ran(s, i).requests[i])
  {
  }

  lemma RanProgress(s: System, i: nat, vs: seq<View>)
    requires Can(s, Run(i)) && Progress(vs, s.requests[i])
    ensures Progress(vs + [Met(s, Run(i))], Ran(s, i).requests[i])
  {
    if s.requests[i].Waiting? {
      PollProgress(s, i, vs);
    } else if IsHolding(s.requests[i]) {
      HoldingProgress(s, i, vs);
    } else if s.requests[i].Releasing? {
      MoreViews(vs, Met(s, Run(i)), s.requests[i].outcome);
    }
  }

  lemma HeardProgress(s: System, i: nat, answer: Answer, vs: seq<View>)
    requires Can(s, Answered(i, answer)) && Progress(vs, s.requests[i])
    ensures Progress(vs + [Met(s, Answered(i, answer))], Heard(s, i, answer).requests[i])
  {
  }

  predicate ProgressOf(s: System, i: nat, vs: seq<View>) {
    if i < |s.requests| then Progress(vs, s.requests[i]) else vs == []
  }

  lemma ProgressStep(s: System, step: Step, i: nat, vs: seq<View>)
    requires Can(s, step) && ProgressOf(s, i, vs)
    ensures ProgressOf(After(s, step), i, vs + OwnView(s, step, i))
  {
    if step == Run(i) {
      RanProgress(s, i, vs);
    } else if IsOwn(step, i) {
      HeardProgress(s, i, step.answer, vs);
    } else {
      assert vs + [] == vs;
      if i < |s.requests| {
        OthersWait(s, step, i);
      }
    }
  }

  lemma Associates(a: seq<View>, b: seq<View>, c: seq<View>)
    ensures a + b + c == a + (b + c)
  {
  }

  lemma {:induction false} ProgressRun(s: System, steps: seq<Step>, i: nat, vs: seq<View>)
    requires CanRun(s, steps) && ProgressOf(s, i, vs)
    ensures ProgressOf(AfterAll(s, steps), i, vs + Views(s, steps, i))
    decreases |steps|
  {
    if steps == [] {
      assert vs + [] == vs;
    } else {
      ProgressStep(s, steps[0], i, vs);
      ProgressRun(After(s, steps[0]), steps[1..], i, vs + OwnView(s, steps[0], i));
      Associates(vs, OwnView(s, steps[0], i), Views(After(s, steps[0]), steps[1..], i));
    }
  }

  lemma ProgressFromStart(session: Session, now: Millis, steps: seq<Step>, i: nat)
    requires CanRun(Start(session, now), steps)
    ensures ProgressOf(AfterAll(Start(session, now), steps), i, Views(Start(session, now), steps, i))
  {
    ProgressRun(Start(session, now), steps, i, []);
    assert [] + Views(Start(session, now), steps, i) == Views(Start(session, now), steps, i);
  }

  /**
   Over every interleaving, leases running out and sessions lost or not: a request that is done was given the one
   outcome that what its own steps met calls for, by bounds written out, whatever the other requests did.
   */
  lemma OutcomesExactly(session: Session, now: Millis, steps: seq<Step>, i: nat, outcome: Outcome)
    requires CanRun(Start(session, now), steps)
    requires var s := AfterAll(Start(session, now), steps); i < |s.requests| && s.requests[i].Done?
    ensures AfterAll(Start(session, now), steps).requests[i] == Done(outcome)
            <==> Gives(Views(Start(session, now), steps, i), outcome)
  {
    var vs := Views(Start(session, now), steps, i);
    ProgressFromStart(session, now, steps, i);
    if Gives(vs, outcome) {
      OneOutcome(vs, outcome, AfterAll(Start(session, now), steps).requests[i].outcome);
    }
  }

  // ----- What each own step writes.

  /** The request's deletion: of a session past refreshing, or of the one whose token got it turned down. */
  predicate Deletes(vs: seq<View>) {
    || (|vs| == 2 && vs[0].stored.Some? && vs[0].stored.value.refreshExpires <= vs[0].at)
    || (|vs| == 5 && TurnedDown(vs))
  }

  predicate Stores(vs: seq<View>) { |vs| == 5 && Granted(vs) && StillThere(vs) }

  /** What a run's own steps have met when a step of request `i` follows it, that step's view included. */
  function ViewsWith(s: System, steps: seq<Step>, i: nat, step: Step): seq<View>
    requires CanRun(s, steps)
  {
    Views(s, steps, i) + [Met(AfterAll(s, steps), step)]
  }

  lemma RanWrites(s: System, i: nat, vs: seq<View>)
    requires Can(s, Run(i)) && Progress(vs, s.requests[i])
    ensures var met := vs + [Met(s, Run(i))]; var t := Ran(s, i);
            && (Deletes(met) ==> t.stored.None?)
            && (Stores(met)
                ==> t.stored.Some?
                    && MadeFrom(t.stored.value, met[2].stored.value, met[3].answer.value.issued, met[3].at))
            && (!Deletes(met) && !Stores(met) ==> t.stored == s.stored)
            && t.lock == (if |met| == 2 && Held(met) then Some(i)
                          else if Held(met) && t.requests[i].Done? && s.lock == Some(i) then None else s.lock)
  {
  }

  /**
   Over every run, the store and the lock after an own step: deleted exactly where the session was past refreshing
   or identity turned the request down, replaced exactly where the store still had the token exchanged, and else
   left alone. The lock is taken if it was free, and given back, if still its own, as the request ends.
   */
  lemma OwnStepWrites(session: Session, now: Millis, steps: seq<Step>, i: nat)
    requires CanRun(Start(session, now), steps) && Can(AfterAll(Start(session, now), steps), Run(i))
    ensures var s := AfterAll(Start(session, now), steps); var t := After(s, Run(i));
            var vs := ViewsWith(Start(session, now), steps, i, Run(i));
            && (Deletes(vs) ==> t.stored.None?)
            && (Stores(vs)
                ==> t.stored.Some? && MadeFrom(t.stored.value, vs[2].stored.value, vs[3].answer.value.issued, vs[3].at))
            && (!Deletes(vs) && !Stores(vs) ==> t.stored == s.stored)
            && t.lock == (if |vs| == 2 && Held(vs) then Some(i)
                          else if Held(vs) && t.requests[i].Done? && s.lock == Some(i) then None else s.lock)
  {
    ProgressFromStart(session, now, steps, i);
    RanWrites(AfterAll(Start(session, now), steps), i, Views(Start(session, now), steps, i));
  }

  lemma HeardWrites(s: System, i: nat, answer: Answer, vs: seq<View>)
    requires Can(s, Answered(i, answer)) && Progress(vs, s.requests[i])
    ensures var met := vs + [Met(s, Answered(i, answer))]; var t := Heard(s, i, answer);
            && Asked(met) && t.stored == s.stored && t.lock == s.lock
            && var token := met[2].stored.value.refresh;
            && t.exchanges == s.exchanges
                 + (if answer.Issues? then [Exchange(i, token, answer.issued, s.now, InHand)]
                    else if answer.Unheard? then [Exchange(i, token, answer.issued, s.now, Unread)] else [])
            && t.abandoned == s.abandoned + if answer.Fails? then [Call(i, token)] else []
  {
  }

  /**
   Over every run, what identity is asked with and what comes of it: the refresh token of the session read under
   the lock, and an exchange of it if tokens are issued, or a call still on its way if the request gave up.
   */
  lemma AnswerRecords(session: Session, now: Millis, steps: seq<Step>, i: nat, answer: Answer)
    requires CanRun(Start(session, now), steps) && Can(AfterAll(Start(session, now), steps), Answered(i, answer))
    ensures var s := AfterAll(Start(session, now), steps); var t := After(s, Answered(i, answer));
            var vs := ViewsWith(Start(session, now), steps, i, Answered(i, answer));
            && Asked(vs) && t.stored == s.stored && t.lock == s.lock
            && var token := vs[2].stored.value.refresh;
            && t.exchanges == s.exchanges
                 + (if answer.Issues? then [Exchange(i, token, answer.issued, s.now, InHand)]
                    else if answer.Unheard? then [Exchange(i, token, answer.issued, s.now, Unread)] else [])
            && t.abandoned == s.abandoned + if answer.Fails? then [Call(i, token)] else []
  {
    ProgressFromStart(session, now, steps, i);
    HeardWrites(AfterAll(Start(session, now), steps), i, answer, Views(Start(session, now), steps, i));
  }

  // ----- When there is no session left.

  /** What happened from outside, or a request's deletion. */
  predicate Empties(s: System, step: Step) {
    step.Lost?
    || (step.Run? && step.request < |s.requests|
        && (s.requests[step.request].Discarding? || s.requests[step.request].Deleting?))
  }

  predicate Emptied(s: System, steps: seq<Step>)
    requires CanRun(s, steps)
    decreases |steps|
  {
    steps != [] && (Empties(s, steps[0]) || Emptied(After(s, steps[0]), steps[1..]))
  }

  lemma EmptyStep(s: System, step: Step)
    requires Can(s, step)
    ensures After(s, step).stored.None? <==> s.stored.None? || Empties(s, step)
  {
  }

  lemma {:induction false} EmptyRun(s: System, steps: seq<Step>)
    requires CanRun(s, steps)
    ensures AfterAll(s, steps).stored.None? <==> s.stored.None? || Emptied(s, steps)
    decreases |steps|
  {
    if steps != [] {
      EmptyStep(s, steps[0]);
      EmptyRun(After(s, steps[0]), steps[1..]);
    }
  }

  /** Over every run the session is gone exactly if it was lost or some request deleted it: nothing brings it back. */
  lemma EmptyExactly(session: Session, now: Millis, steps: seq<Step>)
    requires CanRun(Start(session, now), steps)
    ensures AfterAll(Start(session, now), steps).stored.None? <==> Emptied(Start(session, now), steps)
  {
    EmptyRun(Start(session, now), steps);
  }

  // ----- What may always happen besides.

  /** Time passes, requests arrive, sessions are lost and leases run out at any moment, and touch nothing else. */
  lemma AnyMoment(s: System, millis: nat)
    ensures Can(s, Tick(millis)) && After(s, Tick(millis)) == s.(now := s.now + millis)
    ensures Can(s, Arrive) && After(s, Arrive) == s.(requests := s.requests + [Reading])
    ensures Can(s, Lost) && After(s, Lost) == s.(stored := None)
    ensures s.lock.Some? ==> Can(s, LeaseEnds) && After(s, LeaseEnds) == s.(lock := None)
  {
  }

  /** A call given up is acted on late at most once, by an exchange its request does not hear of. */
  lemma ActsLateOnce(s: System, k: nat, issued: Issued)
    requires Can(s, ActsLate(k, issued))
    ensures var t := After(s, ActsLate(k, issued)); var call := s.abandoned[k];
            && t.exchanges == s.exchanges + [Exchange(call.request, call.token, issued, s.now, TooLate)]
            && multiset(t.abandoned) + multiset{call} == multiset(s.abandoned)
            && t.stored == s.stored && t.requests == s.requests
  {
    assert s.abandoned == s.abandoned[..k] + ([s.abandoned[k]] + s.abandoned[k + 1..]);
  }

  // ----- Nearer the surface.

  lemma {:induction false} DoneStays(s: System, steps: seq<Step>, i: nat)
    requires CanRun(s, steps) && i < |s.requests| && s.requests[i].Done?
    ensures i < |AfterAll(s, steps).requests| && AfterAll(s, steps).requests[i] == s.requests[i]
    decreases |steps|
  {
    if steps != [] {
      OthersWait(s, steps[0], i);
      DoneStays(After(s, steps[0]), steps[1..], i);
    }
  }

  /** A first read that finds a session with more than 30 seconds left is answered with it, and changes nothing. */
  lemma FreshReadAnswered(s: System, i: nat, steps: seq<Step>)
    requires Can(s, Run(i)) && s.requests[i].Reading? && CanRun(After(s, Run(i)), steps)
    requires s.stored.Some? && s.stored.value.refreshExpires > s.now && s.stored.value.accessExpires - s.now > 30_000
    ensures var t := After(s, Run(i));
            && t == s.(requests := t.requests)
            && i < |AfterAll(t, steps).requests|
            && AfterAll(t, steps).requests[i] == Done(Active(s.stored.value, false))
  {
    DoneStays(After(s, Run(i)), steps, i);
  }

  // ----- Answered as refreshed, exactly by a replacement of one's own.

  /** The session a request is answered with, or about to be, as one it refreshed. */
  function Renewed(stage: Stage): Option<Session> {
    if (stage.Releasing? || stage.Done?) && stage.outcome.Active? && stage.outcome.refreshed
    then Some(stage.outcome.session) else None
  }

  predicate Replaces(s: System, i: nat, k: nat) { k < |s.log| && s.log[k].cause == Refreshed(i) }

  ghost predicate Credited(s: System, i: nat) {
    var renewed := if i < |s.requests| then Renewed(s.requests[i]) else None;
    && |s.history| == |s.log| + 1
    && (renewed.Some? <==> exists k :: Replaces(s, i, k))
    && (forall k :: Replaces(s, i, k) ==> renewed == Some(s.history[k + 1]))
    && (forall j, k :: Replaces(s, i, j) && Replaces(s, i, k) ==> j == k)
  }

  /** A replacement that is not the request's leaves its credit as it was. */
  lemma SameCredit(s: System, t: System, i: nat)
    requires Credited(s, i) && |t.history| == |t.log| + 1
    requires s.log <= t.log && s.history <= t.history
    requires forall k :: |s.log| <= k < |t.log| ==> t.log[k].cause != Refreshed(i)
    requires (if i < |t.requests| then Renewed(t.requests[i]) else None)
             == if i < |s.requests| then Renewed(s.requests[i]) else None
    ensures Credited(t, i)
  {
    assert forall k :: Replaces(t, i, k) <==> Replaces(s, i, k);
    assert forall k :: Replaces(s, i, k) ==> t.history[k + 1] == s.history[k + 1];
  }

  lemma RanCredits(s: System, i: nat)
    requires Can(s, Run(i)) && Credited(s, i)
    ensures Credited(Ran(s, i), i)
  {
    var t := Ran(s, i);
    if t.log == s.log {
      SameCredit(s, t, i);
    } else {
      assert t.log == s.log + [t.log[|s.log|]] && t.history[|s.log| + 1] == Renewed(t.requests[i]).value;
      assert forall k: nat :: k < |s.log| && Replaces(t, i, k) ==> Replaces(s, i, k);
      assert Replaces(t, i, |s.log|);
    }
  }

  lemma CreditStep(s: System, step: Step, i: nat)
    requires Can(s, step) && Credited(s, i)
    ensures Credited(After(s, step), i)
  {
    if step == Run(i) {
      RanCredits(s, i);
    } else {
      if i < |s.requests| && !IsOwn(step, i) {
        OthersWait(s, step, i);
      }
      SameCredit(s, After(s, step), i);
    }
  }

  lemma {:induction false} CreditRun(s: System, steps: seq<Step>, i: nat)
    requires CanRun(s, steps) && Credited(s, i)
    ensures Credited(AfterAll(s, steps), i)
    decreases |steps|
  {
    if steps != [] {
      CreditStep(s, steps[0], i);
      CreditRun(After(s, steps[0]), steps[1..], i);
    }
  }

  /** Over every run a done request is answered with a session as refreshed exactly if it put that in the store. */
  lemma RefreshedExactly(session: Session, now: Millis, steps: seq<Step>, i: nat, next: Session)
    requires CanRun(Start(session, now), steps)
    requires var s := AfterAll(Start(session, now), steps); i < |s.requests| && s.requests[i].Done?
    ensures var s := AfterAll(Start(session, now), steps);
            && |s.history| == |s.log| + 1
            && (s.requests[i] == Done(Active(next, true))
                <==> exists k :: 0 <= k < |s.log| && s.log[k].cause == Refreshed(i) && s.history[k + 1] == next)
            && forall j, k :: Replaces(s, i, j) && Replaces(s, i, k) ==> j == k
  {
    CreditRun(Start(session, now), steps, i);
    var s := AfterAll(Start(session, now), steps);
    if s.requests[i] == Done(Active(next, true)) {
      var k: nat :| Replaces(s, i, k);
      assert s.history[k + 1] == next;
    }
    if k :| 0 <= k < |s.log| && s.log[k].cause == Refreshed(i) && s.history[k + 1] == next {
      assert Replaces(s, i, k);
    }
  }
}
