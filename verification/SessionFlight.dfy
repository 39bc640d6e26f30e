/**
 Single flight: as long as no lease runs out on a request that still needs it, no request is issued tokens in time for
 a refresh token of which another has heard, and what such a lease running out allows.
 */
module SessionFlight {
  import opened Options
  import opened SessionRefresh

  /** Between taking the lock and having done with a refresh token identity may have exchanged for it. */
  predicate NeedsLease(stage: Stage) {
    stage.Holding? || stage.Refreshing? || stage.Storing? || (stage.Deleting? && stage.spent)
  }

  /** A lease runs out only once its request has no more use for it. */
  predicate Calm(s: System, step: Step) {
    step == LeaseEnds && s.lock.Some? && s.lock.value < |s.requests| ==> !NeedsLease(s.requests[s.lock.value])
  }

  predicate CalmRun(s: System, steps: seq<Step>)
    requires CanRun(s, steps)
    decreases |steps|
  {
    steps == [] || (Calm(s, steps[0]) && CalmRun(After(s, steps[0]), steps[1..]))
  }

  predicate Distinct(tokens: seq<Token>) {
    forall j, k :: 0 <= j < k < |tokens| ==> tokens[j] != tokens[k]
  }

  /** The refresh tokens identity exchanged and a request heard of, in order. */
  function Spent(exchanges: seq<Exchange>): seq<Token> {
    if exchanges == [] then []
    else (if exchanges[0].reply == InHand then [exchanges[0].spent] else []) + Spent(exchanges[1..])
  }

  lemma {:induction false} SpentMore(exchanges: seq<Exchange>, e: Exchange)
    ensures Spent(exchanges + [e]) == Spent(exchanges) + if e.reply == InHand then [e.spent] else []
  {
    if exchanges == [] {
      assert [e][1..] == [] && [] + [e] == [e];
    } else {
      SpentMore(exchanges[1..], e);
      assert (exchanges + [e])[0] == exchanges[0] && (exchanges + [e])[1..] == exchanges[1..] + [e];
      var head := if exchanges[0].reply == InHand then [exchanges[0].spent] else [];
      assert Spent(exchanges + [e]) == head + Spent(exchanges[1..] + [e]);
    }
  }

  lemma {:induction false} SpentMembers(exchanges: seq<Exchange>, t: Token)
    ensures t in Spent(exchanges)
            <==> exists k :: 0 <= k < |exchanges| && exchanges[k].spent == t && exchanges[k].reply == InHand
  {
    if exchanges != [] {
      SpentMembers(exchanges[1..], t);
      assert exchanges == [exchanges[0]] + exchanges[1..];
      if k :| 0 <= k < |exchanges[1..]| && exchanges[1..][k].spent == t && exchanges[1..][k].reply == InHand {
        assert exchanges[k + 1].spent == t;
      }
    }
  }

  /** No exchange made in time comes after one of the same token that was heard of. */
  predicate HeardLast(exchanges: seq<Exchange>) {
    forall j, k :: 0 <= j < k < |exchanges| && exchanges[j].spent == exchanges[k].spent && exchanges[k].reply != TooLate
      ==> exchanges[j].reply != InHand
  }

  lemma HeardLastMore(exchanges: seq<Exchange>, e: Exchange)
    requires HeardLast(exchanges) && (e.spent !in Spent(exchanges) || e.reply == TooLate)
    ensures HeardLast(exchanges + [e])
  {
    SpentMembers(exchanges, e.spent);
  }

  predicate HoldsSpent(stage: Stage) {
    stage.Storing? || (stage.Deleting? && stage.spent)
  }

  /** What one request in its critical section relies on. */
  predicate OwnsFlight(s: System, i: nat)
    requires i < |s.requests|
  {
    var stage := s.requests[i];
    && (NeedsLease(stage) ==> s.lock == Some(i))
    && (stage.Refreshing? ==> stage.current.refresh in s.known && stage.current.refresh !in Spent(s.exchanges))
    && (HoldsSpent(stage) ==> stage.current.refresh in Spent(s.exchanges))
    && (stage.Storing? ==> stage.issued.refresh in s.known && stage.issued.refresh !in Spent(s.exchanges))
  }

  /** The stored refresh token has been exchanged only while the request that did so is about to replace it. */
  predicate SpentByOwner(s: System) {
    s.stored.Some? && s.stored.value.refresh in Spent(s.exchanges) ==>
      && s.lock.Some? && s.lock.value < |s.requests|
      && var stage := s.requests[s.lock.value];
         HoldsSpent(stage) && stage.current.refresh == s.stored.value.refresh
  }

  ghost predicate FlightInv(s: System) {
    && (forall i :: 0 <= i < |s.requests| ==> OwnsFlight(s, i))
    && Distinct(Spent(s.exchanges))
    && HeardLast(s.exchanges)
    && (forall t :: t in Spent(s.exchanges) ==> t in s.known)
    && (s.stored.Some? ==> s.stored.value.refresh in s.known)
    && SpentByOwner(s)
    && (s.lock.Some? ==> s.lock.value < |s.requests|)
  }

  lemma OneInFlight(s: System, i: nat, j: nat)
    requires FlightInv(s) && i < |s.requests| && j < |s.requests|
    requires NeedsLease(s.requests[i]) && NeedsLease(s.requests[j])
    ensures i == j
  {
    assert OwnsFlight(s, i) && OwnsFlight(s, j);
  }

  /** Steps by which a request's stage changes and nothing is exchanged. */
  lemma FlightRan(s: System, i: nat)
    requires FlightInv(s) && Can(s, Run(i))
    ensures FlightInv(Ran(s, i))
  {
    var t := Ran(s, i);
    RanExchangesNothing(s, i);
    assert OwnsFlight(s, i);
    RanOwns(s, i);
    RanKnown(s, i);
    forall j | 0 <= j < |t.requests| && j != i
      ensures OwnsFlight(t, j)
    {
      RanOthers(s, i, j);
    }
    RanSpent(s, i);
  }

  lemma RanExchangesNothing(s: System, i: nat)
    requires Can(s, Run(i))
    ensures var t := Ran(s, i);
            && t.exchanges == s.exchanges && t.known == s.known && |t.requests| == |s.requests|
            && forall j :: 0 <= j < |s.requests| && j != i ==> t.requests[j] == s.requests[j]
  {
  }

  lemma RanOwns(s: System, i: nat)
    requires Can(s, Run(i)) && OwnsFlight(s, i) && SpentByOwner(s)
    requires s.stored.Some? ==> s.stored.value.refresh in s.known
    ensures OwnsFlight(Ran(s, i), i)
  {
    RanExchangesNothing(s, i);
  }

  lemma RanKnown(s: System, i: nat)
    requires Can(s, Run(i)) && OwnsFlight(s, i)
    requires s.stored.Some? ==> s.stored.value.refresh in s.known
    requires s.lock.Some? ==> s.lock.value < |s.requests|
    ensures var t := Ran(s, i);
            && (t.stored.Some? ==> t.stored.value.refresh in t.known)
            && (t.lock.Some? ==> t.lock.value < |t.requests|)
  {
    RanExchangesNothing(s, i);
  }

  lemma RanOthers(s: System, i: nat, j: nat)
    requires Can(s, Run(i)) && j < |s.requests| && j != i && OwnsFlight(s, i) && OwnsFlight(s, j)
    ensures OwnsFlight(Ran(s, i), j)
  {
    RanExchangesNothing(s, i);
    assert s.lock.Some? ==> Ran(s, i).lock == s.lock || (s.lock == Some(i) && Ran(s, i).lock.None?);
  }

  lemma RanSpent(s: System, i: nat)
    requires Can(s, Run(i)) && OwnsFlight(s, i) && SpentByOwner(s)
    requires s.lock.Some? ==> s.lock.value < |s.requests|
    ensures SpentByOwner(Ran(s, i))
  {
    RanExchangesNothing(s, i);
  }

  lemma DistinctSnoc(tokens: seq<Token>, t: Token)
    requires Distinct(tokens) && t !in tokens
    ensures Distinct(tokens + [t])
  {
  }

  lemma FlightHeard(s: System, i: nat, answer: Answer)
    requires FlightInv(s) && Can(s, Answered(i, answer))
    ensures FlightInv(Heard(s, i, answer))
  {
    var t := Heard(s, i, answer);
    assert OwnsFlight(s, i);
    if answer.Issues? || answer.Unheard? {
      SpentMore(s.exchanges, t.exchanges[|s.exchanges|]);
      HeardLastMore(s.exchanges, t.exchanges[|s.exchanges|]);
      DistinctSnoc(Spent(s.exchanges), s.requests[i].current.refresh);
    }
    forall j | 0 <= j < |t.requests|
      ensures OwnsFlight(t, j)
    {
      assert OwnsFlight(s, j);
    }
  }

  lemma FlightElse(s: System, step: Step)
    requires FlightInv(s) && Can(s, step) && Calm(s, step) && !step.Run? && !step.Answered?
    ensures FlightInv(After(s, step))
  {
    var t := After(s, step);
    if step.ActsLate? {
      SpentMore(s.exchanges, t.exchanges[|s.exchanges|]);
      HeardLastMore(s.exchanges, t.exchanges[|s.exchanges|]);
    }
    forall j | 0 <= j < |t.requests|
      ensures OwnsFlight(t, j)
    {
      if j < |s.requests| {
        assert OwnsFlight(s, j);
      }
    }
  }

  lemma FlightStep(s: System, step: Step)
    requires FlightInv(s) && Can(s, step) && Calm(s, step)
    ensures FlightInv(After(s, step))
  {
    match step
    case Run(i) => FlightRan(s, i);
    case Answered(i, answer) => FlightHeard(s, i, answer);
    case _ => FlightElse(s, step);
  }

  lemma {:induction false} FlightRun(s: System, steps: seq<Step>)
    requires FlightInv(s) && CanRun(s, steps) && CalmRun(s, steps)
    ensures FlightInv(AfterAll(s, steps))
    decreases |steps|
  {
    if steps != [] {
      FlightStep(s, steps[0]);
      FlightRun(After(s, steps[0]), steps[1..]);
    }
  }

  /**
   Single flight: over every calm run at most one request at a time is asking identity or about to store what it got;
   no refresh token is exchanged twice with both requests hearing of it; and no exchange follows one that was heard
   of, unless identity made it for a call long given up.
   */
  lemma ExchangedOnce(session: Session, now: Millis, steps: seq<Step>)
    requires CanRun(Start(session, now), steps) && CalmRun(Start(session, now), steps)
    ensures var s := AfterAll(Start(session, now), steps);
            && Distinct(Spent(s.exchanges)) && HeardLast(s.exchanges)
            && forall i, j | 0 <= i < |s.requests| && 0 <= j < |s.requests| ::
                 NeedsLease(s.requests[i]) && NeedsLease(s.requests[j]) ==> i == j
  {
    FlightRun(Start(session, now), steps);
    var s := AfterAll(Start(session, now), steps);
    forall i, j | 0 <= i < |s.requests| && 0 <= j < |s.requests|
                  && NeedsLease(s.requests[i]) && NeedsLease(s.requests[j])
      ensures i == j
    {
      OneInFlight(s, i, j);
    }
  }

  /** The refresh tokens identity exchanged, heard of or not, in order. */
  function AllSpent(exchanges: seq<Exchange>): (r: seq<Token>)
    ensures |r| == |exchanges| && forall k :: 0 <= k < |r| ==> r[k] == exchanges[k].spent
  {
    seq(|exchanges|, k requires 0 <= k < |exchanges| => exchanges[k].spent)
  }

  /** Identity's tokens reach the request they are issued to, or are not issued. */
  predicate Replying(step: Step) { !step.ActsLate? && !(step.Answered? && step.answer.Unheard?) }

  predicate AllInHand(exchanges: seq<Exchange>) {
    forall k :: 0 <= k < |exchanges| ==> exchanges[k].reply == InHand
  }

  lemma {:induction false} ReplyingRun(s: System, steps: seq<Step>)
    requires CanRun(s, steps) && AllInHand(s.exchanges) && forall step :: step in steps ==> Replying(step)
    ensures AllInHand(AfterAll(s, steps).exchanges)
    decreases |steps|
  {
    if steps != [] {
      assert steps[0] in steps && forall step :: step in steps[1..] ==> step in steps;
      ReplyingRun(After(s, steps[0]), steps[1..]);
    }
  }

  /** Over every calm run in which no reply is lost, no refresh token is exchanged twice at all. */
  lemma HeardExchangedOnce(session: Session, now: Millis, steps: seq<Step>)
    requires CanRun(Start(session, now), steps) && CalmRun(Start(session, now), steps)
    requires forall step :: step in steps ==> Replying(step)
    ensures Distinct(AllSpent(AfterAll(Start(session, now), steps).exchanges))
  {
    ExchangedOnce(session, now, steps);
    ReplyingRun(Start(session, now), steps);
  }

  // ----- A lease that runs out on a request that still needs it.

  predicate Leads(s: System, steps: seq<Step>, t: System) {
    CanRun(s, steps) && AfterAll(s, steps) == t
  }

  lemma LeadsOne(s: System, step: Step)
    requires Can(s, step)
    ensures Leads(s, [step], After(s, step))
  {
    assert [step][1..] == [];
  }

  lemma {:induction false} LeadsOn(s: System, a: seq<Step>, t: System, b: seq<Step>, u: System)
    requires Leads(s, a, t) && Leads(t, b, u)
    ensures Leads(s, a + b, u)
    decreases |a|
  {
    if a == [] {
      assert a + b == b;
    } else {
      LeadsOn(After(s, a[0]), a[1..], t, b, u);
      assert (a + b)[1..] == a[1..] + b;
    }
  }

  lemma LeadsStep(s: System, a: seq<Step>, t: System, step: Step)
    requires Leads(s, a, t) && Can(t, step)
    ensures Leads(s, a + [step], After(t, step))
  {
    LeadsOne(t, step);
    LeadsOn(s, a, t, [step], After(t, step));
  }

  /** The session stored is one a request coming now would refresh. */
  predicate Due(s: System) {
    s.stored.Some? && NeedsRefresh(s.stored.value, s.now) && IsRefreshable(s.stored.value, s.now)
  }

  function TakesLock(j: nat): seq<Step> { [Arrive] + [Run(j)] + [Run(j)] }

  function Asks(j: nat): seq<Step> { TakesLock(j) + [Run(j)] }

  /** A request that comes while the lock is free gets it. */
  lemma TakesLockLeads(s: System)
    requires Due(s) && s.lock.None?
    ensures var j := |s.requests|;
            Leads(s, TakesLock(j), s.(lock := Some(j), requests := s.requests + [Holding]))
  {
    var j := |s.requests|;
    assert forall stage: Stage, other: Stage :: (s.requests + [stage])[j := other] == s.requests + [other];
    var read := s.(requests := s.requests + [Reading]);
    LeadsOne(s, Arrive);
    LeadsStep(s, [Arrive], read, Run(j));
    LeadsStep(s, [Arrive] + [Run(j)], s.(requests := s.requests + [Acquiring(s.stored.value)]), Run(j));
  }

  /** And asks identity to exchange the token it reads. */
  lemma AsksLeads(s: System)
    requires Due(s) && s.lock.None?
    ensures var j := |s.requests|;
            Leads(s, Asks(j), s.(lock := Some(j), requests := s.requests + [Refreshing(s.stored.value)]))
  {
    var j := |s.requests|;
    TakesLockLeads(s);
    var holding := s.(lock := Some(j), requests := s.requests + [Holding]);
    LeadsStep(s, TakesLock(j), holding, Run(j));
    assert After(holding, Run(j)).requests == s.requests + [Refreshing(s.stored.value)];
  }

  /** What `i` still has to do to make its exchange, and the exchange. */
  function OwnExchange(stage: Stage, i: nat, first: Issued): seq<Step> {
    match stage
    case Holding => [Run(i)] + [Answered(i, Issues(first))]
    case Refreshing(_) => [Answered(i, Issues(first))]
    case _ => []
  }

  /** The lease of `i` runs out, another request `j` comes and asks, and identity answers both. */
  function SecondExchange(stage: Stage, i: nat, j: nat, first: Issued, second: Issued): seq<Step> {
    [LeaseEnds] + Asks(j) + OwnExchange(stage, i, first) + [Answered(j, Issues(second))]
  }

  predicate FreshPair(s: System, first: Issued, second: Issued) {
    first.refresh !in s.known && second.refresh !in s.known && first.refresh != second.refresh
  }

  /** A request in flight has the stored session in hand, or is about to read it. */
  predicate InFlight(s: System, i: nat) {
    && i < |s.requests| && NeedsLease(s.requests[i]) && s.lock == Some(i)
    && Due(s) && (s.requests[i].Holding? || s.requests[i].current == s.stored.value)
  }

  /** Whatever it had still to do, its exchange is made with the other request asking for the same one. */
  lemma OwnExchangeLeads(s: System, i: nat, j: nat, first: Issued, second: Issued) returns (t: System)
    requires i < j < |s.requests| && NeedsLease(s.requests[i]) && FreshPair(s, first, second) && Due(s)
    requires s.requests[i].Holding? || s.requests[i].current == s.stored.value
    requires HoldsSpent(s.requests[i]) ==> s.stored.value.refresh in Spent(s.exchanges)
    requires s.requests[j] == Refreshing(s.stored.value)
    ensures Leads(s, OwnExchange(s.requests[i], i, first), t)
    ensures j < |t.requests| && t.requests[j] == s.requests[j] && second.refresh !in t.known
    ensures s.stored.value.refresh in Spent(t.exchanges)
  {
    var stage := s.requests[i];
    t := s;
    if stage.Holding? {
      LeadsOne(t, Run(i));
      t := After(t, Run(i));
    }
    if stage.Holding? || stage.Refreshing? {
      var asked := t;
      LeadsOne(asked, Answered(i, Issues(first)));
      t := After(asked, Answered(i, Issues(first)));
      SpentMore(s.exchanges, t.exchanges[|s.exchanges|]);
      assert Spent(t.exchanges)[|Spent(s.exchanges)|] == s.stored.value.refresh;
      if stage.Holding? {
        LeadsOn(s, [Run(i)], asked, [Answered(i, Issues(first))], t);
      }
    }
  }

  /** Whichever of the stages that need it a lease runs out on, the refresh token can be exchanged twice. */
  lemma LeaseRunningOutDoubles(s: System, i: nat, first: Issued, second: Issued)
    requires FlightInv(s) && InFlight(s, i) && FreshPair(s, first, second)
    ensures var steps := SecondExchange(s.requests[i], i, |s.requests|, first, second);
            CanRun(s, steps) && !Distinct(Spent(AfterAll(s, steps).exchanges))
  {
    var j, token, stage := |s.requests|, s.stored.value.refresh, s.requests[i];
    assert OwnsFlight(s, i);
    var free := s.(lock := None);
    LeadsOne(s, LeaseEnds);
    AsksLeads(free);
    var asking := s.(lock := Some(j), requests := s.requests + [Refreshing(s.stored.value)]);
    LeadsOn(s, [LeaseEnds], free, Asks(j), asking);
    var exchanged := OwnExchangeLeads(asking, i, j, first, second);
    LeadsOn(s, [LeaseEnds] + Asks(j), asking, OwnExchange(stage, i, first), exchanged);
    LeadsStep(s, [LeaseEnds] + Asks(j) + OwnExchange(stage, i, first), exchanged, Answered(j, Issues(second)));
    var final := After(exchanged, Answered(j, Issues(second)));
    SpentMore(exchanged.exchanges, final.exchanges[|exchanged.exchanges|]);
    SpentTwice(Spent(exchanged.exchanges), token);
  }

  lemma SpentTwice(tokens: seq<Token>, t: Token)
    requires t in tokens
    ensures !Distinct(tokens + [t])
  {
    var k :| 0 <= k < |tokens| && tokens[k] == t;
    assert (tokens + [t])[k] == (tokens + [t])[|tokens|];
  }

  /** How the first request on a session gets as far as a stage, with `first` issued to it if it comes to that. */
  function Reaching(stage: Stage, first: Issued): seq<Step> {
    match stage
    case Holding => TakesLock(0)
    case Refreshing(_) => Asks(0)
    case Deleting(_, false) => Asks(0) + [Answered(0, Rejects)]
    case _ => Asks(0) + [Answered(0, Issues(first))]
  }

  /** The stages of a request that holds the lock, as they come of reading `session` and being issued `first`. */
  predicate ComesOf(stage: Stage, session: Session, first: Issued, now: Millis) {
    match stage
    case Holding => true
    case Refreshing(current) => current == session
    case Storing(current, issued, at) =>
      current == session && issued == first && at == now && first.subject == session.user
    case Deleting(current, spent) => current == session && (spent ==> first.subject != session.user)
    case _ => false
  }

  lemma StageReached(session: Session, now: Millis, stage: Stage, first: Issued)
    requires Due(Start(session, now)) && ComesOf(stage, session, first, now) && first.refresh != session.refresh
    ensures var start, steps := Start(session, now), Reaching(stage, first);
            && CanRun(start, steps) && (forall step :: step in steps ==> step != LeaseEnds && !step.StepUp?)
            && AfterAll(start, steps).requests == [stage] && AfterAll(start, steps).lock == Some(0)
            && AfterAll(start, steps).stored == Some(session) && AfterAll(start, steps).now == now
            && AfterAll(start, steps).history == [session]
            && AfterAll(start, steps).known == {session.refresh} + if HoldsSpent(stage) then {first.refresh} else {}
  {
    var start := Start(session, now);
    var asking := start.(lock := Some(0), requests := [Refreshing(session)]);
    TakesLockLeads(start);
    AsksLeads(start);
    assert start.requests + [Holding] == [Holding] && start.requests + [Refreshing(session)] == [Refreshing(session)];
    if HoldsSpent(stage) {
      LeadsStep(start, Asks(0), asking, Answered(0, Issues(first)));
    } else if stage.Deleting? {
      LeadsStep(start, Asks(0), asking, Answered(0, Rejects));
    }
  }

  lemma {:induction false} NoLeaseEndsIsCalm(s: System, steps: seq<Step>)
    requires CanRun(s, steps) && forall step :: step in steps ==> step != LeaseEnds
    ensures CalmRun(s, steps)
    decreases |steps|
  {
    if steps != [] {
      assert steps[0] in steps && forall step :: step in steps[1..] ==> step in steps;
      NoLeaseEndsIsCalm(After(s, steps[0]), steps[1..]);
    }
  }

  /**
   None of the four stages can do without its lease: from a session just created a calm run reaches each, and a
   lease that runs out there lets another request exchange the very same refresh token.
   */
  lemma EveryStageNeedsLease(session: Session, now: Millis, stage: Stage, first: Issued, second: Issued, third: Issued)
    requires Due(Start(session, now)) && ComesOf(stage, session, first, now) && NeedsLease(stage)
    requires first.refresh != session.refresh && second.refresh !in {session.refresh, first.refresh}
    requires third.refresh !in {session.refresh, first.refresh, second.refresh}
    ensures var start, calm := Start(session, now), Reaching(stage, first);
            var steps := calm + SecondExchange(stage, 0, 1, second, third);
            && CanRun(start, calm) && CalmRun(start, calm) && AfterAll(start, calm).requests == [stage]
            && CanRun(start, steps) && !Distinct(Spent(AfterAll(start, steps).exchanges))
  {
    var start, calm := Start(session, now), Reaching(stage, first);
    StageReached(session, now, stage, first);
    NoLeaseEndsIsCalm(start, calm);
    FlightRun(start, calm);
    var s := AfterAll(start, calm);
    LeaseRunningOutDoubles(s, 0, second, third);
    var more := SecondExchange(stage, 0, 1, second, third);
    LeadsOn(start, calm, s, more, AfterAll(s, more));
  }

  // ----- Replies that are lost.

  /** A request asks, identity's reply is lost on it, and it gives the lock back. */
  function AsksInVain(j: nat, issued: Issued): seq<Step> {
    Asks(j) + [Answered(j, Unheard(issued))] + [Run(j)]
  }

  function AllInVain(j: nat, replies: seq<Issued>): seq<Step>
    decreases |replies|
  {
    if replies == [] then [] else AsksInVain(j, replies[0]) + AllInVain(j + 1, replies[1..])
  }

  /** It leaves everything as it was for the next one, but for an exchange more. */
  lemma InVainLeads(s: System, issued: Issued) returns (t: System)
    requires Due(s) && s.lock.None? && issued.refresh !in s.known
    ensures Leads(s, AsksInVain(|s.requests|, issued), t) && t.lock.None? && |t.requests| == |s.requests| + 1
    ensures t.stored == s.stored && t.now == s.now && t.known == s.known + {issued.refresh}
    ensures |t.exchanges| == |s.exchanges| + 1 && t.exchanges[..|s.exchanges|] == s.exchanges
    ensures t.exchanges[|s.exchanges|].spent == s.stored.value.refresh
  {
    var j := |s.requests|;
    AsksLeads(s);
    var asking := s.(lock := Some(j), requests := s.requests + [Refreshing(s.stored.value)]);
    LeadsStep(s, Asks(j), asking, Answered(j, Unheard(issued)));
    var gaveUp := After(asking, Answered(j, Unheard(issued)));
    LeadsStep(s, Asks(j) + [Answered(j, Unheard(issued))], gaveUp, Run(j));
    t := After(gaveUp, Run(j));
  }

  function Tokens(replies: seq<Issued>): set<Token> { set issued | issued in replies :: issued.refresh }

  predicate FreshReplies(s: System, replies: seq<Issued>) {
    && (forall k :: 0 <= k < |replies| ==> replies[k].refresh !in s.known)
    && forall j, k :: 0 <= j < k < |replies| ==> replies[j].refresh != replies[k].refresh
  }

  predicate AllOf(tokens: seq<Token>, t: Token) { forall k :: 0 <= k < |tokens| ==> tokens[k] == t }

  lemma {:induction false} AllInVainLeads(s: System, replies: seq<Issued>) returns (t: System)
    requires Due(s) && s.lock.None? && FreshReplies(s, replies) && AllOf(AllSpent(s.exchanges), s.stored.value.refresh)
    ensures Leads(s, AllInVain(|s.requests|, replies), t) && t.lock.None?
    ensures |t.requests| == |s.requests| + |replies| && t.stored == s.stored && t.now == s.now
    ensures t.known == s.known + Tokens(replies)
    ensures |t.exchanges| == |s.exchanges| + |replies| && AllOf(AllSpent(t.exchanges), s.stored.value.refresh)
    decreases |replies|
  {
    t := s;
    if replies != [] {
      var j, rest := |s.requests|, replies[1..];
      var next := InVainLeads(s, replies[0]);
      assert replies == [replies[0]] + rest && Tokens(replies) == {replies[0].refresh} + Tokens(rest);
      OneMoreOf(s, next);
      t := AllInVainLeads(next, rest);
      LeadsOn(s, AsksInVain(j, replies[0]), next, AllInVain(j + 1, rest), t);
    }
  }

  lemma OneMoreOf(s: System, next: System)
    requires s.stored.Some? && AllOf(AllSpent(s.exchanges), s.stored.value.refresh)
    requires |next.exchanges| == |s.exchanges| + 1 && next.exchanges[..|s.exchanges|] == s.exchanges
    requires next.exchanges[|s.exchanges|].spent == s.stored.value.refresh
    ensures AllOf(AllSpent(next.exchanges), s.stored.value.refresh)
  {
    forall k | 0 <= k < |next.exchanges|
      ensures next.exchanges[k].spent == s.stored.value.refresh
    {
      if k < |s.exchanges| {
        assert next.exchanges[k] == s.exchanges[k] && AllSpent(s.exchanges)[k] == s.stored.value.refresh;
      }
    }
  }

  lemma {:induction false} AllInVainPlain(j: nat, replies: seq<Issued>)
    ensures forall step :: step in AllInVain(j, replies) ==> step != LeaseEnds && !step.StepUp?
    decreases |replies|
  {
    if replies != [] {
      AllInVainPlain(j + 1, replies[1..]);
    }
  }

  /**
   No lease need run out for a token to be exchanged again and again: from a session just created a calm run lets
   identity issue any number of tokens in vain, and then some that are heard of, all for the one refresh token.
   */
  lemma UnheardRepeats(session: Session, now: Millis, replies: seq<Issued>, last: Issued)
    requires Due(Start(session, now)) && FreshReplies(Start(session, now), replies)
    requires last.refresh !in Tokens(replies) && last.refresh != session.refresh
    ensures var start, n := Start(session, now), |replies|;
            var steps := AllInVain(0, replies) + (Asks(n) + [Answered(n, Issues(last))]);
            && CanRun(start, steps) && CalmRun(start, steps)
            && |AfterAll(start, steps).exchanges| == n + 1
            && AllOf(AllSpent(AfterAll(start, steps).exchanges), session.refresh)
  {
    var start, n := Start(session, now), |replies|;
    var t := AllInVainLeads(start, replies);
    var final := OneHeardLeads(t, last);
    var heard := Asks(n) + [Answered(n, Issues(last))];
    LeadsOn(start, AllInVain(0, replies), t, heard, final);
    OneMoreOf(t, final);
    AllInVainPlain(0, replies);
    PlainThenHeard(AllInVain(0, replies), n, last);
    NoLeaseEndsIsCalm(start, AllInVain(0, replies) + heard);
  }

  /** A request that asks, and hears. */
  lemma OneHeardLeads(s: System, issued: Issued) returns (t: System)
    requires Due(s) && s.lock.None? && issued.refresh !in s.known
    ensures Leads(s, Asks(|s.requests|) + [Answered(|s.requests|, Issues(issued))], t)
    ensures |t.exchanges| == |s.exchanges| + 1 && t.exchanges[..|s.exchanges|] == s.exchanges
    ensures t.exchanges[|s.exchanges|].spent == s.stored.value.refresh
  {
    var j := |s.requests|;
    AsksLeads(s);
    var asking := s.(lock := Some(j), requests := s.requests + [Refreshing(s.stored.value)]);
    LeadsStep(s, Asks(j), asking, Answered(j, Issues(issued)));
    t := After(asking, Answered(j, Issues(issued)));
  }

  lemma PlainThenHeard(steps: seq<Step>, j: nat, issued: Issued)
    requires forall step :: step in steps ==> step != LeaseEnds
    ensures forall step :: step in steps + (Asks(j) + [Answered(j, Issues(issued))]) ==> step != LeaseEnds
  {
  }

  /** A call given up may be acted on after the next one was heard of. */
  lemma LateRepeats(session: Session, now: Millis, first: Issued, second: Issued)
    requires Due(Start(session, now)) && FreshPair(Start(session, now), first, second)
    ensures var start := Start(session, now);
            var steps := Asks(0) + [Answered(0, Fails)] + [Run(0)]
                         + (Asks(1) + [Answered(1, Issues(first))] + [ActsLate(0, second)]);
            && CanRun(start, steps) && CalmRun(start, steps)
            && AllSpent(AfterAll(start, steps).exchanges) == [session.refresh, session.refresh]
            && AfterAll(start, steps).exchanges[0].reply == InHand
  {
    var start := Start(session, now);
    var free := GivesUpLeads(start);
    var final := HeardThenLateLeads(free, first, second);
    var before := Asks(0) + [Answered(0, Fails)] + [Run(0)];
    var after := Asks(1) + [Answered(1, Issues(first))] + [ActsLate(0, second)];
    LeadsOn(start, before, free, after, final);
    NoLeaseEndsIsCalm(start, before + after);
  }

  /** A request gives up a call of which it has heard nothing. */
  lemma GivesUpLeads(s: System) returns (t: System)
    requires Due(s) && s.lock.None?
    ensures Leads(s, Asks(|s.requests|) + [Answered(|s.requests|, Fails)] + [Run(|s.requests|)], t)
    ensures t == s.(requests := t.requests, abandoned := s.abandoned + [Call(|s.requests|, s.stored.value.refresh)])
    ensures |t.requests| == |s.requests| + 1
  {
    var j := |s.requests|;
    AsksLeads(s);
    var asking := s.(lock := Some(j), requests := s.requests + [Refreshing(s.stored.value)]);
    LeadsStep(s, Asks(j), asking, Answered(j, Fails));
    var failed := After(asking, Answered(j, Fails));
    LeadsStep(s, Asks(j) + [Answered(j, Fails)], failed, Run(j));
    t := After(failed, Run(j));
  }

  lemma HeardThenLateLeads(s: System, first: Issued, second: Issued) returns (t: System)
    requires Due(s) && s.lock.None? && FreshPair(s, first, second) && s.abandoned != []
    ensures var j := |s.requests|;
            Leads(s, Asks(j) + [Answered(j, Issues(first))] + [ActsLate(0, second)], t)
    ensures |t.exchanges| == |s.exchanges| + 2 && t.exchanges[..|s.exchanges|] == s.exchanges
    ensures t.exchanges[|s.exchanges|].spent == s.stored.value.refresh && t.exchanges[|s.exchanges|].reply == InHand
    ensures t.exchanges[|s.exchanges| + 1].spent == s.abandoned[0].token
  {
    var j := |s.requests|;
    AsksLeads(s);
    var asking := s.(lock := Some(j), requests := s.requests + [Refreshing(s.stored.value)]);
    LeadsStep(s, Asks(j), asking, Answered(j, Issues(first)));
    var issued := After(asking, Answered(j, Issues(first)));
    LeadsStep(s, Asks(j) + [Answered(j, Issues(first))], issued, ActsLate(0, second));
    t := After(issued, ActsLate(0, second));
  }
}
