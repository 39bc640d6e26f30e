/**
 What a request may delete when identity rejects its refresh token, or when it finds the session expired: its own
 session, or one another request has renewed.
 */
module SessionDeletions {
  import opened Options
  import opened SessionRefresh
  import opened SessionFlight

  // ----- What a rejected refresh token deletes.

  /** A lease outlasts its request's deletion too, rejected as its token was. */
  predicate Unbroken(s: System, step: Step) {
    && Calm(s, step)
    && (step == LeaseEnds && s.lock.Some? && s.lock.value < |s.requests| ==> !s.requests[s.lock.value].Deleting?)
  }

  predicate UnbrokenRun(s: System, steps: seq<Step>)
    requires CanRun(s, steps)
    decreases |steps|
  {
    steps == [] || (Unbroken(s, steps[0]) && UnbrokenRun(After(s, steps[0]), steps[1..]))
  }

  /** The stored session, if any, is still the one this request took its refresh token from. */
  predicate StillCurrent(s: System, i: nat)
    requires i < |s.requests|
  {
    var stage := s.requests[i];
    && (stage.Deleting? ==> s.lock == Some(i))
    && ((stage.Refreshing? || stage.Storing? || stage.Deleting?) && s.stored.Some? ==> s.stored.value == stage.current)
  }

  predicate NoStepUps(steps: seq<Step>) {
    forall k :: 0 <= k < |steps| ==> !steps[k].StepUp?
  }

  ghost predicate AllCurrent(s: System) {
    FlightInv(s) && forall i :: 0 <= i < |s.requests| ==> StillCurrent(s, i)
  }

  lemma CurrentRan(s: System, i: nat, j: nat)
    requires Can(s, Run(i)) && j < |s.requests| && StillCurrent(s, j) && OwnsFlight(s, i) && OwnsFlight(s, j)
    ensures StillCurrent(Ran(s, i), j)
  {
  }

  lemma CurrentHeard(s: System, i: nat, answer: Answer, j: nat)
    requires Can(s, Answered(i, answer)) && j < |s.requests| && StillCurrent(s, j) && OwnsFlight(s, j)
    ensures StillCurrent(Heard(s, i, answer), j)
  {
  }

  lemma CurrentElse(s: System, step: Step, j: nat)
    requires Can(s, step) && Unbroken(s, step) && !step.StepUp? && !step.Run? && !step.Answered?
    requires j < |s.requests| && StillCurrent(s, j)
    ensures StillCurrent(After(s, step), j)
  {
  }

  lemma CurrentAfter(s: System, step: Step, j: nat)
    requires FlightInv(s) && Can(s, step) && Unbroken(s, step) && !step.StepUp?
    requires j < |After(s, step).requests| && (j < |s.requests| ==> StillCurrent(s, j))
    ensures StillCurrent(After(s, step), j)
  {
    if j < |s.requests| {
      assert OwnsFlight(s, j);
      if step.Run? {
        assert OwnsFlight(s, step.request);
        CurrentRan(s, step.request, j);
      } else if step.Answered? {
        CurrentHeard(s, step.request, step.answer, j);
      } else {
        CurrentElse(s, step, j);
      }
    } else {
      assert After(s, step).requests[j] == Reading;
    }
  }

  lemma CurrentStep(s: System, step: Step)
    requires AllCurrent(s) && Can(s, step) && Unbroken(s, step) && !step.StepUp?
    ensures AllCurrent(After(s, step))
  {
    FlightStep(s, step);
    forall j | 0 <= j < |After(s, step).requests|
      ensures StillCurrent(After(s, step), j)
    {
      CurrentAfter(s, step, j);
    }
  }

  lemma {:induction false} CurrentRun(s: System, steps: seq<Step>)
    requires AllCurrent(s) && CanRun(s, steps) && UnbrokenRun(s, steps) && NoStepUps(steps)
    ensures AllCurrent(AfterAll(s, steps))
    decreases |steps|
  {
    if steps != [] {
      assert !steps[0].StepUp?;
      CurrentStep(s, steps[0]);
      CurrentRun(After(s, steps[0]), steps[1..]);
    }
  }

  /**
   Over every run without a step-up in which a lease also outlasts the deletion, a rejected refresh token ends
   only the session it belongs to.
   */
  lemma RejectionEndsItsOwn(session: Session, now: Millis, steps: seq<Step>, i: nat)
    requires CanRun(Start(session, now), steps) && UnbrokenRun(Start(session, now), steps) && NoStepUps(steps)
    requires i < |AfterAll(Start(session, now), steps).requests|
    ensures var s := AfterAll(Start(session, now), steps);
            s.requests[i].Deleting? && s.stored.Some? ==> s.stored.value == s.requests[i].current
  {
    CurrentRun(Start(session, now), steps);
    assert StillCurrent(AfterAll(Start(session, now), steps), i);
  }

  /** A request holding the lock with the stored session in hand, or about to read it. */
  predicate Exposed(s: System, i: nat) {
    && i < |s.requests| && s.lock == Some(i) && Due(s) && HeldFor(s.requests[i], s.stored.value)
  }

  predicate HeldFor(stage: Stage, session: Session) {
    stage.Holding? || ((stage.Refreshing? || stage.Storing? || stage.Deleting?) && stage.current == session)
  }

  /** Of two requests that read the same session, what is issued to one and how the other comes to delete it. */
  function OtherRenews(stage: Stage, i: nat, j: nat, second: Issued): seq<Step> {
    match stage
    case Holding => [Run(i)] + [Answered(j, Issues(second))] + [Run(j)] + [Answered(i, Rejects)]
    case Refreshing(_) => [Answered(j, Issues(second))] + [Run(j)] + [Answered(i, Rejects)]
    case Storing(_, _, _) => [Run(i)] + [Answered(j, Rejects)]
    case _ => [Answered(j, Issues(second))] + [Run(j)]
  }

  /** Once the lease of `i` has run out, another request `j` comes and asks, and one of the two stores its tokens. */
  function AfterLease(stage: Stage, i: nat, j: nat, second: Issued): seq<Step> {
    Asks(j) + OtherRenews(stage, i, j, second)
  }

  /** Which of the two deletes, and which tokens made the session it deletes. */
  function Deleter(stage: Stage, i: nat, j: nat): nat { if stage.Storing? then j else i }

  function Renewal(stage: Stage, read: Session, second: Issued, now: Millis): Session {
    match stage
    case Storing(current, issued, at) => RotateTokens(current, issued, at)
    case _ => RotateTokens(read, second, now)
  }

  /** `d` is about to delete a session, and the one stored is another, made from it. */
  predicate AboutToDeleteOther(s: System, d: nat, read: Session, other: Session) {
    && d < |s.requests| && s.requests[d].Deleting? && s.requests[d].current == read
    && s.stored == Some(other) && other != read
  }

  lemma OtherRenewsLeads(s: System, i: nat, j: nat, second: Issued) returns (t: System)
    requires i < j < |s.requests| && Due(s) && HeldFor(s.requests[i], s.stored.value)
    requires s.requests[j] == Refreshing(s.stored.value)
    requires second.refresh !in s.known && second.subject == s.stored.value.user
    ensures Leads(s, OtherRenews(s.requests[i], i, j, second), t)
    ensures t.stored == Some(Renewal(s.requests[i], s.stored.value, second, s.now))
    ensures t.history == s.history + [t.stored.value]
    ensures var d := Deleter(s.requests[i], i, j);
            d < |t.requests| && t.requests[d].Deleting? && t.requests[d].current == s.stored.value
  {
    var stage := s.requests[i];
    match stage
    case Holding =>
      var asking := After(s, Run(i));
      LeadsOne(s, Run(i));
      LeadsStep(s, [Run(i)], asking, Answered(j, Issues(second)));
      var heard := After(asking, Answered(j, Issues(second)));
      LeadsStep(s, [Run(i)] + [Answered(j, Issues(second))], heard, Run(j));
      var renewed := After(heard, Run(j));
      LeadsStep(s, [Run(i)] + [Answered(j, Issues(second))] + [Run(j)], renewed, Answered(i, Rejects));
      t := After(renewed, Answered(i, Rejects));
    case Refreshing(_) =>
      LeadsOne(s, Answered(j, Issues(second)));
      var heard := After(s, Answered(j, Issues(second)));
      LeadsStep(s, [Answered(j, Issues(second))], heard, Run(j));
      var renewed := After(heard, Run(j));
      LeadsStep(s, [Answered(j, Issues(second))] + [Run(j)], renewed, Answered(i, Rejects));
      t := After(renewed, Answered(i, Rejects));
    case Storing(_, _, _) =>
      LeadsOne(s, Run(i));
      LeadsStep(s, [Run(i)], After(s, Run(i)), Answered(j, Rejects));
      t := After(After(s, Run(i)), Answered(j, Rejects));
    case Deleting(_, _) =>
      LeadsOne(s, Answered(j, Issues(second)));
      var heard := After(s, Answered(j, Issues(second)));
      LeadsStep(s, [Answered(j, Issues(second))], heard, Run(j));
      t := After(heard, Run(j));
  }

  /** Whichever of its stages a lease runs out on, a deletion can end the session another request renewed. */
  lemma LeaseRunningOutDeletes(s: System, i: nat, second: Issued)
    requires Exposed(s, i) && s.stored.value.refresh in s.known
    requires s.requests[i].Storing? ==> s.requests[i].issued.refresh != s.stored.value.refresh
    requires second.refresh !in s.known && second.subject == s.stored.value.user
    ensures var j, stage := |s.requests|, s.requests[i];
            var steps, d := [LeaseEnds] + AfterLease(stage, i, j, second), Deleter(stage, i, j);
            var other := Renewal(stage, s.stored.value, second, s.now);
            && CanRun(s, steps) && AboutToDeleteOther(AfterAll(s, steps), d, s.stored.value, other)
            && CanRun(s, steps + [Run(d)]) && AfterAll(s, steps + [Run(d)]).stored.None?
            && AfterAll(s, steps + [Run(d)]).history == s.history + [other]
  {
    var j, stage := |s.requests|, s.requests[i];
    var free := s.(lock := None);
    LeadsOne(s, LeaseEnds);
    AsksLeads(free);
    var asking := s.(lock := Some(j), requests := s.requests + [Refreshing(s.stored.value)]);
    var t := OtherRenewsLeads(asking, i, j, second);
    LeadsOn(free, Asks(j), asking, OtherRenews(stage, i, j, second), t);
    LeadsOn(s, [LeaseEnds], free, AfterLease(stage, i, j, second), t);
    LeadsStep(s, [LeaseEnds] + AfterLease(stage, i, j, second), t, Run(Deleter(stage, i, j)));
  }

  lemma AfterLeasePlain(stage: Stage, i: nat, j: nat, second: Issued)
    ensures forall step :: step in AfterLease(stage, i, j, second) ==> step != LeaseEnds && !step.StepUp?
  {
  }

  lemma PlainConcat(before: seq<Step>, after: seq<Step>)
    requires forall step :: step in before ==> !step.StepUp?
    requires forall step :: step in after ==> !step.StepUp?
    ensures NoStepUps(before + ([LeaseEnds] + after))
  {
    forall step | step in before + ([LeaseEnds] + after)
      ensures !step.StepUp?
    {
    }
  }

  /**
   Nor can any of the five stages do without a lease that outlasts it: from a session just created a run without a
   step-up reaches each, and with no more than its lease running out there one request deletes the session the other
   has just renewed.
   */
  lemma EveryStageNeedsUnbroken(session: Session, now: Millis, stage: Stage, first: Issued, second: Issued)
    requires Due(Start(session, now)) && ComesOf(stage, session, first, now)
    requires first.refresh != session.refresh && second.refresh !in {session.refresh, first.refresh}
    requires second.subject == session.user
    ensures var start, before := Start(session, now), Reaching(stage, first);
            var after, d := AfterLease(stage, 0, 1, second), Deleter(stage, 0, 1);
            var other := Renewal(stage, session, second, now);
            var steps := before + ([LeaseEnds] + after);
            && CanRun(start, before) && UnbrokenRun(start, before) && AfterAll(start, before).requests == [stage]
            && LeaseEnds !in after && NoStepUps(steps)
            && CanRun(start, steps) && AboutToDeleteOther(AfterAll(start, steps), d, session, other)
            && CanRun(start, steps + [Run(d)]) && AfterAll(start, steps + [Run(d)]).stored.None?
            && AfterAll(start, steps + [Run(d)]).history == [session, other]
  {
    var start, before := Start(session, now), Reaching(stage, first);
    var after, d := AfterLease(stage, 0, 1, second), Deleter(stage, 0, 1);
    StageReached(session, now, stage, first);
    AfterLeasePlain(stage, 0, 1, second);
    PlainConcat(before, after);
    NoLeaseEndsIsUnbroken(start, before);
    var s := AfterAll(start, before);
    LeaseRunningOutDeletes(s, 0, second);
    var more := [LeaseEnds] + after;
    LeadsOn(start, before, s, more, AfterAll(s, more));
    LeadsStep(start, before + more, AfterAll(s, more), Run(d));
    LeadsOn(s, more, AfterAll(s, more), [Run(d)], After(AfterAll(s, more), Run(d)));
  }

  /** A step-up that lands while a request is asking is undone when identity rejects the token it replaced. */
  lemma RejectionUndoesStepUp(s: System, i: nat, read: Session, issued: Issued, at: Millis)
    requires i < |s.requests| && s.requests[i].Refreshing? && s.stored == Some(s.requests[i].current)
    requires Can(s, StepUp(read, issued, at))
    ensures var steps := [StepUp(read, issued, at)] + [Answered(i, Rejects)] + [Run(i)];
            && CanRun(s, steps) && AfterAll(s, steps).stored.None?
            && AfterAll(s, steps).history == s.history + [RotateTokens(read, issued, at)]
  {
    var s1 := After(s, StepUp(read, issued, at));
    var s2 := After(s1, Answered(i, Rejects));
    LeadsOne(s, StepUp(read, issued, at));
    LeadsStep(s, [StepUp(read, issued, at)], s1, Answered(i, Rejects));
    LeadsStep(s, [StepUp(read, issued, at)] + [Answered(i, Rejects)], s2, Run(i));
  }

  /** So no lease need run out for a step-up to be lost: the first request on a session can do it. */
  lemma RejectionEndsStepUp(session: Session, now: Millis, issued: Issued, at: Millis)
    requires Due(Start(session, now)) && issued.subject == session.user && issued.refresh != session.refresh
    ensures var start := Start(session, now);
            var steps := Asks(0) + ([StepUp(session, issued, at)] + [Answered(0, Rejects)] + [Run(0)]);
            && CanRun(start, steps) && UnbrokenRun(start, steps) && AfterAll(start, steps).stored.None?
            && AfterAll(start, steps).history == [session, RotateTokens(session, issued, at)]
  {
    var start := Start(session, now);
    var more := [StepUp(session, issued, at)] + [Answered(0, Rejects)] + [Run(0)];
    AsksLeads(start);
    var asking := AfterAll(start, Asks(0));
    RejectionUndoesStepUp(asking, 0, session, issued, at);
    LeadsOn(start, Asks(0), asking, more, AfterAll(asking, more));
    NoLeaseEndsIsUnbroken(start, Asks(0) + more);
  }

  lemma {:induction false} NoLeaseEndsIsUnbroken(s: System, steps: seq<Step>)
    requires CanRun(s, steps) && forall step :: step in steps ==> step != LeaseEnds
    ensures UnbrokenRun(s, steps)
    decreases |steps|
  {
    if steps != [] {
      assert steps[0] in steps && forall step :: step in steps[1..] ==> step in steps;
      NoLeaseEndsIsUnbroken(After(s, steps[0]), steps[1..]);
    }
  }

  // ----- What a request that finds the session expired deletes.

  /** Nobody reads a session past its expiry: the store drops it at that instant, by the same clock. */
  predicate Prompt(s: System, step: Step) {
    step.Run? && step.request < |s.requests| && s.requests[step.request].Reading? && s.stored.Some?
    ==> IsRefreshable(s.stored.value, s.now)
  }

  predicate PromptRun(s: System, steps: seq<Step>)
    requires CanRun(s, steps)
    decreases |steps|
  {
    steps == [] || (Prompt(s, steps[0]) && PromptRun(After(s, steps[0]), steps[1..]))
  }

  predicate NoneDiscarding(s: System) {
    forall i :: 0 <= i < |s.requests| ==> !s.requests[i].Discarding?
  }

  lemma PromptStep(s: System, step: Step)
    requires NoneDiscarding(s) && Can(s, step) && Prompt(s, step)
    ensures NoneDiscarding(After(s, step))
  {
    if step.Run? {
      assert !s.requests[step.request].Discarding?;
    }
  }

  lemma {:induction false} PromptSteps(s: System, steps: seq<Step>)
    requires NoneDiscarding(s) && CanRun(s, steps) && PromptRun(s, steps)
    ensures NoneDiscarding(AfterAll(s, steps))
    decreases |steps|
  {
    if steps != [] {
      PromptStep(s, steps[0]);
      PromptSteps(After(s, steps[0]), steps[1..]);
    }
  }

  /** A request about to delete the session, if there is one, for whatever reason. */
  predicate Deletes(stage: Stage) { stage.Deleting? || stage.Discarding? }

  /**
   Then only a rejection deletes: over every run that is prompt as well, unbroken and without a step-up, whatever a
   request is about to delete is the session it took its refresh token from.
   */
  lemma DeletionEndsItsOwn(session: Session, now: Millis, steps: seq<Step>, i: nat)
    requires CanRun(Start(session, now), steps) && UnbrokenRun(Start(session, now), steps) && NoStepUps(steps)
    requires PromptRun(Start(session, now), steps)
    requires i < |AfterAll(Start(session, now), steps).requests|
    ensures var s := AfterAll(Start(session, now), steps);
            Deletes(s.requests[i]) && s.stored.Some? ==>
              s.requests[i].Deleting? && s.stored.value == s.requests[i].current
  {
    PromptSteps(Start(session, now), steps);
    RejectionEndsItsOwn(session, now, steps, i);
  }

  /** A request reads the session at its expiry, and another renews it before it deletes. */
  function LateRead(first: Issued, wait: nat): seq<Step> {
    Asks(0) + [Answered(0, Issues(first))] + [Tick(wait)] + [Arrive] + [Run(1)] + [Run(0)]
  }

  /**
   Promptness is needed: were the store to keep a session past its expiry, as by a clock that is behind, a request
   that reads it so deletes what another has renewed, no lease running out and nobody stepping up.
   */
  lemma DiscardingEndsRenewed(session: Session, now: Millis, first: Issued, wait: nat)
    requires Due(Start(session, now)) && session.refreshExpires <= now + wait
    requires first.subject == session.user && first.refresh != session.refresh
    ensures var start, steps := Start(session, now), LateRead(first, wait);
            var renewed := RotateTokens(session, first, now);
            && CanRun(start, steps) && AfterAll(start, steps).stored == Some(renewed) && renewed != session
            && |AfterAll(start, steps).requests| == 2 && AfterAll(start, steps).requests[1].Discarding?
            && CanRun(start, steps + [Run(1)]) && AfterAll(start, steps + [Run(1)]).stored.None?
            && UnbrokenRun(start, steps + [Run(1)]) && NoStepUps(steps + [Run(1)])
  {
    var start := Start(session, now);
    StageReached(session, now, Storing(session, first, now), first);
    var s0 := AfterAll(start, Asks(0) + [Answered(0, Issues(first))]);
    var s1 := After(s0, Tick(wait));
    var s2 := After(s1, Arrive);
    var s3 := After(s2, Run(1));
    var s4 := After(s3, Run(0));
    var reached := Asks(0) + [Answered(0, Issues(first))];
    LeadsStep(start, reached, s0, Tick(wait));
    LeadsStep(start, reached + [Tick(wait)], s1, Arrive);
    LeadsStep(start, reached + [Tick(wait)] + [Arrive], s2, Run(1));
    LeadsStep(start, reached + [Tick(wait)] + [Arrive] + [Run(1)], s3, Run(0));
    LeadsStep(start, LateRead(first, wait), s4, Run(1));
    NoLeaseEndsIsUnbroken(start, LateRead(first, wait) + [Run(1)]);
  }
}
