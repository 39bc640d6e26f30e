/**
 Resolving one session id by any number of concurrent requests
 (web/src/modules/session/application/resolve-session.ts): each request runs alone between its awaits, so a
 step here is what the original does from one await to the next. Sign-out, eviction and step-up interleave,
 and a lease may run out at any moment.
 */
module SessionRefresh {
  import opened Options

  type Token = nat
  type Millis = int

  const REFRESH_WINDOW: Millis := 30_000
  const POLL_ATTEMPTS: nat := 50

  datatype Session = Session(
    user: nat, email: string, loginId: Option<string>,
    access: Token, accessExpires: Millis,
    refresh: Token, refreshExpires: Millis)

  datatype Issued = Issued(
    subject: nat, email: Option<string>, loginId: Option<string>,
    access: Token, accessSeconds: int,
    refresh: Token, refreshSeconds: int)

  function Or<T>(preferred: Option<T>, otherwise: T): T {
    match preferred case Some(t) => t case None => otherwise
  }

  function RotateTokens(s: Session, issued: Issued, now: Millis): Session {
    Session(
      s.user, Or(issued.email, s.email), if issued.loginId.Some? then issued.loginId else s.loginId,
      issued.access, now + issued.accessSeconds * 1000,
      issued.refresh, now + issued.refreshSeconds * 1000)
  }

  predicate NeedsRefresh(s: Session, now: Millis) { s.accessExpires - now <= REFRESH_WINDOW }

  predicate HasValidAccess(s: Session, now: Millis) { s.accessExpires - now > 0 }

  predicate IsRefreshable(s: Session, now: Millis) { s.refreshExpires - now > 0 }

  datatype Outcome =
    | Expired
    | Active(session: Session, refreshed: bool)
    | RefreshFailed
    | RefreshTimedOut

  /**
   Where a request stands: what it does when it next runs. It deletes the session because identity rejected its
   refresh token or, that token `spent`, issued tokens of another user.
   */
  datatype Stage =
    | Reading
    | Discarding
    | Acquiring(seen: Session)
    | Waiting(seen: Session, left: nat)
    | Holding
    | Refreshing(current: Session)
    | Storing(current: Session, issued: Issued, at: Millis)
    | Deleting(current: Session, spent: bool)
    | Rereading
    | Releasing(outcome: Outcome)
    | Done(outcome: Outcome)

  /** Whether a request learnt of the tokens issued to it, or had given up on them by then. */
  datatype Reply = InHand | Unread | TooLate

  /** Identity took `spent` from a request and issued tokens for it. */
  datatype Exchange = Exchange(request: nat, spent: Token, issued: Issued, at: Millis, reply: Reply)

  /** A call its request has given up on, not knowing whether identity ever got it. */
  datatype Call = Call(request: nat, token: Token)

  datatype Cause = Refreshed(request: nat) | SteppedUp

  /** The store replaced the session it held, `read` being the one its new tokens were made for. */
  datatype Replacement = Replacement(cause: Cause, read: Session, issued: Issued, at: Millis) {
    function Next(): Session { RotateTokens(read, issued, at) }
  }

  /**
   The store's session, the lock's owner, the requests, and what identity has done: every refresh token it ever
   issued, its exchanges in order, and the calls it may yet act on. `history` is every session the store has held,
   oldest first, and `log` how each but the first came there.
   */
  datatype System = System(
    now: Millis, stored: Option<Session>, lock: Option<nat>, requests: seq<Stage>,
    known: set<Token>, exchanges: seq<Exchange>, abandoned: seq<Call>,
    history: seq<Session>, log: seq<Replacement>)

  /** Tokens issued may be `Unheard`: their reply lost, or not one that can be read. */
  datatype Answer = Issues(issued: Issued) | Unheard(issued: Issued) | Rejects | Fails

  datatype Step =
    | Tick(millis: nat)
    | Arrive
    | Run(request: nat)
    | Answered(request: nat, answer: Answer)
    | ActsLate(call: nat, issued: Issued)
    | LeaseEnds
    | Lost
    | StepUp(read: Session, issued: Issued, at: Millis)

  function Put(s: System, i: nat, stage: Stage): System
    requires i < |s.requests|
  {
    s.(requests := s.requests[i := stage])
  }

  function FallBackTo(session: Session, otherwise: Outcome, now: Millis): Outcome {
    if HasValidAccess(session, now) then Active(session, false) else otherwise
  }

  /** The store's `replaceTokens` once it has found the expected refresh token. */
  function Replaced(s: System, replacement: Replacement): System {
    var next := replacement.Next();
    s.(stored := Some(next), history := s.history + [next], log := s.log + [replacement])
  }

  /** A request runs up to its next await. The last poll that finds nothing new falls back at once. */
  function Ran(s: System, i: nat): System
    requires i < |s.requests| && !s.requests[i].Refreshing? && !s.requests[i].Done?
  {
    match s.requests[i]
    case Reading =>
      if s.stored.None? then Put(s, i, Done(Expired))
      else if !IsRefreshable(s.stored.value, s.now) then Put(s, i, Discarding)
      else if NeedsRefresh(s.stored.value, s.now) then Put(s, i, Acquiring(s.stored.value))
      else Put(s, i, Done(Active(s.stored.value, false)))
    case Discarding => Put(s.(stored := None), i, Done(Expired))
    case Acquiring(seen) =>
      if s.lock.None? then Put(s.(lock := Some(i)), i, Holding) else Put(s, i, Waiting(seen, POLL_ATTEMPTS))
    case Waiting(seen, left) =>
      if s.stored.None? then Put(s, i, Done(Expired))
      else if s.stored.value.access != seen.access then Put(s, i, Done(Active(s.stored.value, false)))
      else if left <= 1 then Put(s, i, Done(FallBackTo(seen, RefreshTimedOut, s.now)))
      else Put(s, i, Waiting(seen, left - 1))
    case Holding =>
      if s.stored.None? then Put(s, i, Releasing(Expired))
      else if !NeedsRefresh(s.stored.value, s.now) then Put(s, i, Releasing(Active(s.stored.value, false)))
      else Put(s, i, Refreshing(s.stored.value))
    case Storing(current, issued, at) =>
      var replacement := Replacement(Refreshed(i), current, issued, at);
      if s.stored.Some? && s.stored.value.refresh == current.refresh
      then Put(Replaced(s, replacement), i, Releasing(Active(replacement.Next(), true)))
      else Put(s, i, Rereading)
    case Deleting(_, _) => Put(s.(stored := None), i, Releasing(Expired))
    case Rereading =>
      Put(s, i, Releasing(if s.stored.None? then Expired else Active(s.stored.value, false)))
    case Releasing(outcome) =>
      Put(s.(lock := if s.lock == Some(i) then None else s.lock), i, Done(outcome))
  }

  /** Identity issues tokens for a refresh token. */
  function Issuing(s: System, exchange: Exchange): System {
    s.(known := s.known + {exchange.issued.refresh}, exchanges := s.exchanges + [exchange])
  }

  /** What comes of a request that asked identity to exchange its refresh token. */
  function Heard(s: System, i: nat, answer: Answer): System
    requires i < |s.requests| && s.requests[i].Refreshing?
  {
    var current := s.requests[i].current;
    match answer
    case Issues(issued) =>
      Put(Issuing(s, Exchange(i, current.refresh, issued, s.now, InHand)), i,
          if issued.subject == current.user then Storing(current, issued, s.now) else Deleting(current, true))
    case Unheard(issued) =>
      Put(Issuing(s, Exchange(i, current.refresh, issued, s.now, Unread)), i,
          Releasing(FallBackTo(current, RefreshFailed, s.now)))
    case Rejects => Put(s, i, Deleting(current, false))
    case Fails =>
      Put(s.(abandoned := s.abandoned + [Call(i, current.refresh)]), i,
          Releasing(FallBackTo(current, RefreshFailed, s.now)))
  }

  /** Identity gets to a call after its request has given up. */
  function ActedLate(s: System, k: nat, issued: Issued): System
    requires k < |s.abandoned|
  {
    var Call(request, token) := s.abandoned[k];
    Issuing(s, Exchange(request, token, issued, s.now, TooLate)).(
      abandoned := s.abandoned[..k] + s.abandoned[k + 1..])
  }

  /**
   Identity never issues a refresh token twice. A step-up replaces the session it had read, or read again, only
   where the store finds that session's refresh token.
   */
  predicate Can(s: System, step: Step) {
    match step
    case Tick(_) => true
    case Arrive => true
    case Run(i) => i < |s.requests| && !s.requests[i].Refreshing? && !s.requests[i].Done?
    case Answered(i, answer) =>
      && i < |s.requests| && s.requests[i].Refreshing?
      && (answer.Issues? || answer.Unheard? ==> answer.issued.refresh !in s.known)
    case ActsLate(k, issued) => k < |s.abandoned| && issued.refresh !in s.known
    case LeaseEnds => s.lock.Some?
    case Lost => true
    case StepUp(read, issued, _) =>
      && read in s.history && s.stored.Some? && s.stored.value.refresh == read.refresh
      && issued.subject == read.user && issued.refresh !in s.known
  }

  function After(s: System, step: Step): System
    requires Can(s, step)
  {
    match step
    case Tick(millis) => s.(now := s.now + millis)
    case Arrive => s.(requests := s.requests + [Reading])
    case Run(i) => Ran(s, i)
    case Answered(i, answer) => Heard(s, i, answer)
    case ActsLate(k, issued) => ActedLate(s, k, issued)
    case LeaseEnds => s.(lock := None)
    case Lost => s.(stored := None)
    case StepUp(read, issued, at) =>
      Replaced(s, Replacement(SteppedUp, read, issued, at)).(known := s.known + {issued.refresh})
  }

  /** A session just created, nobody asking yet. */
  function Start(session: Session, now: Millis): System {
    System(now, Some(session), None, [], {session.refresh}, [], [], [session], [])
  }

  predicate CanRun(s: System, steps: seq<Step>)
    decreases |steps|
  {
    steps == [] || (Can(s, steps[0]) && CanRun(After(s, steps[0]), steps[1..]))
  }

  function AfterAll(s: System, steps: seq<Step>): System
    requires CanRun(s, steps)
    decreases |steps|
  {
    if steps == [] then s else AfterAll(After(s, steps[0]), steps[1..])
  }
}
