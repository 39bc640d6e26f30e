/**
 One tab's round trips to GitHub: setting off, settling GitHub's redirect, setting off again
 (web/src/modules/github/application/finish-github-redirect.ts and its neighbours). The service answers
 as it likes; its answers are parameters.
 */
module GitHubRedirect {
  import opened Options
  import opened ReturnIntents
  import opened GitHubCallback

  datatype Error = ApiError(code: string) | SessionExpired | OtherError

  datatype Answer<T> = Ok(value: T) | Threw(error: Error)

  datatype Handoff = Handoff(url: string, expiresAt: Instant)

  /** What the tab asked of the service. */
  datatype Call =
    | StartAuthorizationCall
    | StartInstallCall(org: OrgId)
    | CompleteCall(grant: Grant)
    | LinkCall(org: OrgId, installationId: int, withGrant: Option<Grant>)

  const GITHUB_AUTHORIZATION_REQUIRED := "GITHUB_AUTHORIZATION_REQUIRED"
  const INVALID_AUTHORIZATION_STATE := "INVALID_AUTHORIZATION_STATE"

  datatype Flag = Connected | Installed

  /** A return path with its flag set. */
  datatype Destination = Destination(returnTo: string, flag: Flag)

  datatype Outcome =
    | ConnectedOutcome(destination: Destination)
    | InstalledOutcome(org: OrgId, destination: Destination, alreadyLinked: bool)
    | Authorizing(handoff: Handoff)
    | InstallRequestedOutcome(backTo: string)
    | CancelledOutcome(backTo: string)
    | InvalidOutcome(backTo: string)
    | StartAgain(backTo: string)
    | StateRejected(backTo: string, retry: ReturnIntent)
    | FailedOutcome(backTo: string, retry: ReturnIntent, error: Error)

  /** What the service would answer to each call, and when a hop's intent would be recorded. */
  datatype Service = Service(complete: Answer<()>, link: Answer<bool>, start: Answer<Handoff>, hopAt: Instant)

  datatype Tab = Tab(stored: Stored, calls: seq<Call>)

  function Asked(tab: Tab, call: Call): Tab { tab.(calls := tab.calls + [call]) }

  function StartAuthorization(tab: Tab, returnTo: string, pending: Option<PendingLink>, answer: Answer<Handoff>,
                              now: Instant, safe: SafeRedirect): (Tab, Answer<Handoff>)
  {
    var asked := Asked(tab, StartAuthorizationCall);
    if answer.Threw? then (asked, answer)
    else (asked.(stored := Written(AuthorizeIntent(now, returnTo, pending, safe))), answer)
  }

  function StartInstall(tab: Tab, org: OrgId, returnTo: string, answer: Answer<Handoff>, now: Instant,
                        safe: SafeRedirect): (Tab, Answer<Handoff>)
  {
    var asked := Asked(tab, StartInstallCall(org));
    if answer.Threw? then (asked, answer)
    else (asked.(stored := Written(InstallIntent(now, org, returnTo, safe))), answer)
  }

  function Retry(tab: Tab, intent: ReturnIntent, answer: Answer<Handoff>, now: Instant,
                 safe: SafeRedirect): (Tab, Answer<Handoff>) {
    if intent.Install? then StartInstall(tab, intent.org, intent.returnTo, answer, now, safe)
    else StartAuthorization(tab, intent.returnTo, PendingLinkOf(intent), answer, now, safe)
  }

  /**
   Setting off asks for a handoff once and answers with it. What the tab stores changes only if one was given: to the
   intent, from now, on the path `safe` makes of the one asked for.
   */
  lemma StartsExactly(tab: Tab, returnTo: string, pending: Option<PendingLink>, org: OrgId, answer: Answer<Handoff>,
                      now: Instant, safe: SafeRedirect)
    ensures var (after, r) := StartAuthorization(tab, returnTo, pending, answer, now, safe);
            && r == answer && after.calls == tab.calls + [StartAuthorizationCall]
            && after.stored == (if answer.Threw? then tab.stored
                                else Written(Authorize(safe(returnTo), now,
                                                       if pending.Some? then Some(pending.value.orgId) else None,
                                                       if pending.Some? then Some(pending.value.installationId)
                                                       else None)))
    ensures var (after, r) := StartInstall(tab, org, returnTo, answer, now, safe);
            && r == answer && after.calls == tab.calls + [StartInstallCall(org)]
            && after.stored == if answer.Threw? then tab.stored else Written(Install(org, safe(returnTo), now))
  {
  }

  /** Retrying sets off as the intent did: an install for its organization, else an authorization with its link. */
  lemma RetriesExactly(tab: Tab, intent: ReturnIntent, answer: Answer<Handoff>, now: Instant, safe: SafeRedirect)
    ensures var (after, r) := Retry(tab, intent, answer, now, safe);
            && r == answer
            && match intent
               case Install(org, returnTo, _) =>
                 && after.calls == tab.calls + [StartInstallCall(org)]
                 && (answer.Ok? ==> after.stored == Written(Install(org, safe(returnTo), now)))
               case Authorize(returnTo, _, org, id) =>
                 && after.calls == tab.calls + [StartAuthorizationCall]
                 && (answer.Ok? ==>
                       after.stored == Written(if org.Some? && id.Some? then Authorize(safe(returnTo), now, org, id)
                                               else Authorize(safe(returnTo), now, None, None)))
  {
    StartsExactly(tab, intent.returnTo, PendingLinkOf(intent), if intent.Install? then intent.org else "", answer, now,
                  safe);
  }

  function InstalledFor(intent: ReturnIntent, org: OrgId, alreadyLinked: bool): Outcome {
    InstalledOutcome(org, Destination(intent.returnTo, Installed), alreadyLinked)
  }

  /** Links, and says how it went; a thrown error passes through. */
  function Link(tab: Tab, intent: ReturnIntent, org: OrgId, id: int, grant: Option<Grant>,
                service: Service): (Tab, Answer<Option<Outcome>>) {
    (Asked(tab, LinkCall(org, id, grant)),
     match service.link
     case Threw(error) => Threw(error)
     case Ok(alreadyLinked) => Ok(Some(InstalledFor(intent, org, alreadyLinked))))
  }

  /** Settles a callback against an intent; none when the intent names no organization to install for. */
  function Settle(tab: Tab, callback: Callback, intent: ReturnIntent, service: Service,
                  safe: SafeRedirect): (Tab, Answer<Option<Outcome>>) {
    match callback
    case Authorization(grant) =>
      var asked := Asked(tab, CompleteCall(grant));
      if service.complete.Threw? then (asked, Threw(service.complete.error))
      else
        (match PendingLinkOf(intent)
         case None => (asked, Ok(Some(ConnectedOutcome(Destination(intent.returnTo, Connected)))))
         case Some(pending) => Link(asked, intent, pending.orgId, pending.installationId, None, service))
    case FreshInstall(id, grant) =>
      (match OrgOf(intent)
       case None => (tab, Ok(None))
       case Some(org) => Link(tab, intent, org, id, Some(grant), service))
    case InstallWithoutAuthorization(id) =>
      (match OrgOf(intent)
       case None => (tab, Ok(None))
       case Some(org) =>
         var (linked, answer) := Link(tab, intent, org, id, None, service);
         if answer.Ok? || answer.error != ApiError(GITHUB_AUTHORIZATION_REQUIRED) then (linked, answer)
         else
           var (hopped, handoff) :=
             StartAuthorization(
               linked, intent.returnTo, Some(PendingLink(org, id)), service.start, service.hopAt, safe);
           (hopped, if handoff.Ok? then Ok(Some(Authorizing(handoff.value))) else Threw(handoff.error)))
    case _ => (tab, Ok(None))
  }

  predicate EndsQuietly(callback: Callback) { callback.InstallRequested? || callback.Cancelled? || callback.Invalid? }

  function QuietOutcome(callback: Callback, backTo: string): Outcome
    requires EndsQuietly(callback)
  {
    if callback.InstallRequested? then InstallRequestedOutcome(backTo)
    else if callback.Cancelled? then CancelledOutcome(backTo)
    else InvalidOutcome(backTo)
  }

  /** The whole settling of one redirect; only an expired session is thrown on. */
  function Finish(tab: Tab, query: CallbackQuery, service: Service, now: Instant, safe: SafeRedirect): (Tab,
                  Answer<Outcome>) {
    var callback := ClassifyCallback(query);
    var intent := ReadReturnIntent(tab.stored, now, safe);
    var cleared := tab.(stored := Nothing);
    var backTo := BackPath(intent);
    if EndsQuietly(callback) then (cleared, Ok(QuietOutcome(callback, backTo)))
    else if intent.None? then (cleared, Ok(StartAgain(backTo)))
    else
      var (settled, answer) := Settle(cleared, callback, intent.value, service, safe);
      match answer
      case Ok(outcome) => (settled, Ok(if outcome.Some? then outcome.value else StartAgain(backTo)))
      case Threw(error) =>
        if error.SessionExpired? then (settled, Threw(error))
        else if error == ApiError(INVALID_AUTHORIZATION_STATE) then (settled, Ok(StateRejected(backTo, intent.value)))
        else (settled, Ok(FailedOutcome(backTo, intent.value, error)))
  }

  /** The tab's intent store and its use cases, as the dashboard runs them. */
  class GitHubTab {
    var stored: Stored
    var calls: seq<Call>
    const safe: SafeRedirect

    constructor (stored: Stored, safe: SafeRedirect)
      ensures State() == Tab(stored, []) && this.safe == safe
    {
      this.stored, this.calls, this.safe := stored, [], safe;
    }

    function State(): Tab
      reads this
    {
      Tab(stored, calls)
    }

    method StartsAuthorization(returnTo: string, pending: Option<PendingLink>, answer: Answer<Handoff>, now: Instant)
      returns (r: Answer<Handoff>)
      modifies this
      ensures (State(), r) == StartAuthorization(old(State()), returnTo, pending, answer, now, safe)
    {
      calls := calls + [StartAuthorizationCall];
      if answer.Threw? {
        return answer;
      }
      stored := Written(AuthorizeIntent(now, returnTo, pending, safe));
      r := answer;
    }

    method StartsInstall(org: OrgId, returnTo: string, answer: Answer<Handoff>, now: Instant)
      returns (r: Answer<Handoff>)
      modifies this
      ensures (State(), r) == StartInstall(old(State()), org, returnTo, answer, now, safe)
    {
      calls := calls + [StartInstallCall(org)];
      if answer.Threw? {
        return answer;
      }
      stored := Written(InstallIntent(now, org, returnTo, safe));
      r := answer;
    }

    method Links(intent: ReturnIntent, org: OrgId, id: int, grant: Option<Grant>, service: Service)
      returns (r: Answer<Option<Outcome>>)
      modifies this
      ensures (State(), r) == Link(old(State()), intent, org, id, grant, service)
    {
      calls := calls + [LinkCall(org, id, grant)];
      if service.link.Threw? {
        return Threw(service.link.error);
      }
      r := Ok(Some(InstalledFor(intent, org, service.link.value)));
    }

    method Settles(callback: Callback, intent: ReturnIntent, service: Service) returns (r: Answer<Option<Outcome>>)
      modifies this
      ensures (State(), r) == Settle(old(State()), callback, intent, service, safe)
    {
      match callback
      case Authorization(grant) =>
        calls := calls + [CompleteCall(grant)];
        if service.complete.Threw? {
          return Threw(service.complete.error);
        }
        var pending := PendingLinkOf(intent);
        if pending.None? {
          return Ok(Some(ConnectedOutcome(Destination(intent.returnTo, Connected))));
        }
        r := Links(intent, pending.value.orgId, pending.value.installationId, None, service);
      case FreshInstall(id, grant) =>
        var org := OrgOf(intent);
        if org.None? {
          return Ok(None);
        }
        r := Links(intent, org.value, id, Some(grant), service);
      case InstallWithoutAuthorization(id) =>
        var org := OrgOf(intent);
        if org.None? {
          return Ok(None);
        }
        r := Links(intent, org.value, id, None, service);
        if r.Threw? && r.error == ApiError(GITHUB_AUTHORIZATION_REQUIRED) {
          var pending := Some(PendingLink(org.value, id));
          var handoff := StartsAuthorization(intent.returnTo, pending, service.start, service.hopAt);
          r := if handoff.Ok? then Ok(Some(Authorizing(handoff.value))) else Threw(handoff.error);
        }
      case _ => r := Ok(None);
    }

    method FinishGitHubRedirect(query: CallbackQuery, service: Service, now: Instant) returns (r: Answer<Outcome>)
      modifies this
      ensures (State(), r) == Finish(old(State()), query, service, now, safe)
    {
      var callback := ClassifyCallback(query);
      var intent := ReadReturnIntent(stored, now, safe);
      stored := Nothing;
      var backTo := BackPath(intent);
      if EndsQuietly(callback) {
        return Ok(QuietOutcome(callback, backTo));
      }
      if intent.None? {
        return Ok(StartAgain(backTo));
      }
      var settled := Settles(callback, intent.value, service);
      match settled
      case Ok(outcome) => r := Ok(if outcome.Some? then outcome.value else StartAgain(backTo));
      case Threw(error) =>
        if error.SessionExpired? {
          r := Threw(error);
        } else if error == ApiError(INVALID_AUTHORIZATION_STATE) {
          r := Ok(StateRejected(backTo, intent.value));
        } else {
          r := Ok(FailedOutcome(backTo, intent.value, error));
        }
    }

    method RetriesGitHubRedirect(intent: ReturnIntent, answer: Answer<Handoff>, now: Instant)
      returns (r: Answer<Handoff>)
      modifies this
      ensures (State(), r) == Retry(old(State()), intent, answer, now, safe)
    {
      if intent.Install? {
        r := StartsInstall(intent.org, intent.returnTo, answer, now);
      } else {
        r := StartsAuthorization(intent.returnTo, PendingLinkOf(intent), answer, now);
      }
    }
  }

  // ----- One redirect.

  /** The links among the calls. */
  function LinksOf(calls: seq<Call>): (links: seq<Call>)
    ensures forall k :: 0 <= k < |links| ==> links[k].LinkCall?
  {
    if calls == [] then []
    else if calls[0].LinkCall? then [calls[0]] + LinksOf(calls[1..])
    else LinksOf(calls[1..])
  }

  lemma {:induction false} LinksOfConcat(a: seq<Call>, b: seq<Call>)
    ensures LinksOf(a + b) == LinksOf(a) + LinksOf(b)
  {
    if a == [] {
      assert a + b == b;
    } else {
      assert (a + b)[1..] == a[1..] + b;
      LinksOfConcat(a[1..], b);
    }
  }

  /** After a redirect is settled the store is non-empty exactly when the tab is off to GitHub again. */
  lemma StoreAfterFinish(tab: Tab, query: CallbackQuery, service: Service, now: Instant, safe: SafeRedirect)
    ensures var (after, r) := Finish(tab, query, service, now, safe);
            after.stored != Nothing <==> r.Ok? && r.value.Authorizing?
  {
    var intent := ReadReturnIntent(tab.stored, now, safe);
    if intent.Some? {
      StoreAfterSettle(tab.(stored := Nothing), ClassifyCallback(query), intent.value, service, safe);
    }
  }

  lemma StoreAfterSettle(cleared: Tab, callback: Callback, intent: ReturnIntent, service: Service, safe: SafeRedirect)
    requires cleared.stored == Nothing
    ensures var (after, r) := Settle(cleared, callback, intent, service, safe);
            after.stored != Nothing <==> r.Ok? && r.value.Some? && r.value.value.Authorizing?
  {
  }

  /** Off to GitHub again: the same organization and return path, and the installation that came back. */
  lemma HopKeepsIntent(tab: Tab, query: CallbackQuery, service: Service, now: Instant, safe: SafeRedirect)
    ensures var (after, r) := Finish(tab, query, service, now, safe);
            r.Ok? && r.value.Authorizing? ==>
              && ClassifyCallback(query).InstallWithoutAuthorization?
              && ReadReturnIntent(tab.stored, now, safe).Some?
              && var intent := ReadReturnIntent(tab.stored, now, safe).value;
                 OrgOf(intent).Some?
                 && after.stored == Written(Authorize(intent.returnTo, service.hopAt, OrgOf(intent),
                                                      Some(ClassifyCallback(query).installationId)))
  {
  }

  /**
   Exactly when a redirect hops: an installation came back alone, for an intent with an organization, and its link
   was refused for want of an authorization, which could be started.
   */
  lemma HopsExactly(tab: Tab, query: CallbackQuery, service: Service, now: Instant, safe: SafeRedirect,
                    handoff: Handoff)
    ensures Finish(tab, query, service, now, safe).1 == Ok(Authorizing(handoff))
            <==> && ClassifyCallback(query).InstallWithoutAuthorization?
                 && ReadReturnIntent(tab.stored, now, safe).Some?
                 && OrgOf(ReadReturnIntent(tab.stored, now, safe).value).Some?
                 && service.link == Threw(ApiError(GITHUB_AUTHORIZATION_REQUIRED)) && service.start == Ok(handoff)
  {
  }

  predicate AsksAtMostOneLinkFor(made: seq<Call>, org: Option<OrgId>) {
    |LinksOf(made)| <= 1 && (LinksOf(made) != [] ==> Some(LinksOf(made)[0].org) == org)
  }

  lemma OneCall(call: Call)
    ensures LinksOf([call]) == if call.LinkCall? then [call] else []
  {
    assert [call][1..] == [];
  }

  /** What was asked is what GitHub's redirect and the intent name: its grant, its or the pending installation. */
  predicate IsNamed(call: Call, callback: Callback, intent: ReturnIntent) {
    match call
    case CompleteCall(grant) => callback == Authorization(grant)
    case LinkCall(org, id, grant) =>
      OrgOf(intent) == Some(org)
      && (callback.Authorization? ==> PendingLinkOf(intent) == Some(PendingLink(org, id)))
      && (!callback.Authorization? ==>
            (callback.FreshInstall? || callback.InstallWithoutAuthorization?) && callback.installationId == id)
      && (if callback.FreshInstall? then grant == Some(callback.grant) else grant == None)
    case StartAuthorizationCall => callback.InstallWithoutAuthorization?
    case StartInstallCall(_) => false
  }

  predicate SpendsGrant(call: Call) { call.CompleteCall? || (call.LinkCall? && call.withGrant.Some?) }

  /** Every call is for what was named, and GitHub's grant is spent at most once, before anything else. */
  predicate AllNamed(made: seq<Call>, callback: Callback, intent: ReturnIntent) {
    forall k :: 0 <= k < |made| ==> IsNamed(made[k], callback, intent) && (SpendsGrant(made[k]) ==> k == 0)
  }

  /** What an outcome says happened is what the service answered. */
  predicate TellsTruth(outcome: Outcome, made: seq<Call>, intent: ReturnIntent, service: Service) {
    match outcome
    case ConnectedOutcome(to) => to.returnTo == intent.returnTo && service.complete.Ok? && LinksOf(made) == []
    case InstalledOutcome(org, to, already) =>
      && to.returnTo == intent.returnTo && service.link == Ok(already)
      && LinksOf(made) != [] && LinksOf(made)[0].org == org
    case Authorizing(handoff) =>
      service.start == Ok(handoff) && service.link == Threw(ApiError(GITHUB_AUTHORIZATION_REQUIRED))
    case _ => false
  }

  predicate SomethingThrew(service: Service, error: Error) {
    service.complete == Threw(error) || service.link == Threw(error) || service.start == Threw(error)
  }

  predicate SettledTruly(r: Answer<Option<Outcome>>, made: seq<Call>, intent: ReturnIntent, service: Service) {
    match r
    case Threw(error) => SomethingThrew(service, error)
    case Ok(None) => made == []
    case Ok(Some(outcome)) => TellsTruth(outcome, made, intent, service)
  }

  lemma SettleAuthorization(tab: Tab, grant: Grant, intent: ReturnIntent, service: Service, safe: SafeRedirect)
    returns (made: seq<Call>)
    ensures var (after, r) := Settle(tab, Authorization(grant), intent, service, safe);
            after.calls == tab.calls + made && SettledTruly(r, made, intent, service)
    ensures AsksAtMostOneLinkFor(made, OrgOf(intent)) && AllNamed(made, Authorization(grant), intent)
  {
    made := [CompleteCall(grant)];
    OneCall(made[0]);
    if service.complete.Ok? && PendingLinkOf(intent).Some? {
      var link := LinkCall(intent.orgId.value, intent.installationId.value, None);
      OneCall(link);
      LinksOfConcat(made, [link]);
      made := made + [link];
    }
  }

  lemma SettleInstall(tab: Tab, id: int, intent: ReturnIntent, service: Service, safe: SafeRedirect)
    returns (made: seq<Call>)
    ensures var (after, r) := Settle(tab, InstallWithoutAuthorization(id), intent, service, safe);
            after.calls == tab.calls + made && SettledTruly(r, made, intent, service)
    ensures AsksAtMostOneLinkFor(made, OrgOf(intent)) && AllNamed(made, InstallWithoutAuthorization(id), intent)
  {
    made := [];
    if OrgOf(intent).Some? {
      made := [LinkCall(OrgOf(intent).value, id, None)];
      OneCall(made[0]);
      if service.link == Threw(ApiError(GITHUB_AUTHORIZATION_REQUIRED)) {
        OneCall(StartAuthorizationCall);
        LinksOfConcat(made, [StartAuthorizationCall]);
        made := made + [StartAuthorizationCall];
      }
    }
  }

  lemma SettleCalls(tab: Tab, callback: Callback, intent: ReturnIntent, service: Service, safe: SafeRedirect)
    returns (made: seq<Call>)
    ensures var (after, r) := Settle(tab, callback, intent, service, safe);
            after.calls == tab.calls + made && SettledTruly(r, made, intent, service)
    ensures AsksAtMostOneLinkFor(made, OrgOf(intent)) && AllNamed(made, callback, intent)
  {
    match callback
    case Authorization(grant) => made := SettleAuthorization(tab, grant, intent, service, safe);
    case InstallWithoutAuthorization(id) => made := SettleInstall(tab, id, intent, service, safe);
    case FreshInstall(id, grant) =>
      made := [];
      if OrgOf(intent).Some? {
        made := [LinkCall(OrgOf(intent).value, id, Some(grant))];
        OneCall(made[0]);
      }
    case _ => made := [];
  }

  /** What the page shows: the truth about the calls made, or that nothing was asked; a retry is the intent itself. */
  predicate FinishedTruly(r: Answer<Outcome>, made: seq<Call>, intent: Option<ReturnIntent>, service: Service) {
    match r
    case Threw(error) => error == SessionExpired && SomethingThrew(service, error)
    case Ok(StateRejected(_, retry)) =>
      intent == Some(retry) && SomethingThrew(service, ApiError(INVALID_AUTHORIZATION_STATE))
    case Ok(FailedOutcome(_, retry, error)) => intent == Some(retry) && SomethingThrew(service, error)
    case Ok(outcome) =>
      if outcome.ConnectedOutcome? || outcome.InstalledOutcome? || outcome.Authorizing?
      then intent.Some? && TellsTruth(outcome, made, intent.value, service)
      else made == []
  }

  /**
   One redirect: at most one link, for the fresh stored intent's organization; every call for what was named;
   the outcome true of the answers; and with no such intent, or a redirect that asks for nothing, no call.
   */
  lemma FinishCalls(tab: Tab, query: CallbackQuery, service: Service, now: Instant, safe: SafeRedirect)
    returns (made: seq<Call>)
    ensures var (after, r) := Finish(tab, query, service, now, safe);
            after.calls == tab.calls + made && FinishedTruly(r, made, ReadReturnIntent(tab.stored, now, safe), service)
    ensures ReadReturnIntent(tab.stored, now, safe).None? || EndsQuietly(ClassifyCallback(query)) ==> made == []
    ensures ReadReturnIntent(tab.stored, now, safe).Some? ==>
              var intent := ReadReturnIntent(tab.stored, now, safe).value;
              AsksAtMostOneLinkFor(made, OrgOf(intent)) && AllNamed(made, ClassifyCallback(query), intent)
  {
    var callback, intent := ClassifyCallback(query), ReadReturnIntent(tab.stored, now, safe);
    if EndsQuietly(callback) || intent.None? {
      made := [];
    } else {
      made := SettleCalls(tab.(stored := Nothing), callback, intent.value, service, safe);
    }
  }

  // ----- When each ending is given.

  /** The calls a redirect leads to, in order: none without an intent, or an install's without an organization. */
  function Made(callback: Callback, intent: Option<ReturnIntent>, service: Service): seq<Call> {
    if intent.None? then []
    else
      match callback
      case Authorization(grant) =>
        var pending := PendingLinkOf(intent.value);
        [CompleteCall(grant)]
        + if service.complete.Ok? && pending.Some?
          then [LinkCall(pending.value.orgId, pending.value.installationId, None)] else []
      case FreshInstall(id, grant) =>
        if OrgOf(intent.value).None? then [] else [LinkCall(OrgOf(intent.value).value, id, Some(grant))]
      case InstallWithoutAuthorization(id) =>
        if OrgOf(intent.value).None? then []
        else
          [LinkCall(OrgOf(intent.value).value, id, None)]
          + if service.link == Threw(ApiError("GITHUB_AUTHORIZATION_REQUIRED")) then [StartAuthorizationCall] else []
      case _ => []
  }

  /** The last of the calls made threw `error`. */
  predicate Fails(made: seq<Call>, service: Service, error: Error) {
    && made != []
    && match made[|made| - 1]
       case CompleteCall(_) => service.complete == Threw(error)
       case LinkCall(_, _, _) => service.link == Threw(error)
       case _ => service.start == Threw(error)
  }

  /** Each ending, by the callback, the intent read, and what the calls made were answered. */
  predicate EndsAs(r: Answer<Outcome>, callback: Callback, intent: Option<ReturnIntent>, service: Service) {
    var made := Made(callback, intent, service);
    var back := if intent.Some? then intent.value.returnTo else "/orgs";
    match r
    case Threw(error) => error == SessionExpired && Fails(made, service, error)
    case Ok(StateRejected(backTo, retry)) =>
      backTo == back && intent == Some(retry) && Fails(made, service, ApiError("INVALID_AUTHORIZATION_STATE"))
    case Ok(FailedOutcome(backTo, retry, error)) =>
      && backTo == back && intent == Some(retry) && Fails(made, service, error)
      && error != SessionExpired && error != ApiError("INVALID_AUTHORIZATION_STATE")
    case Ok(InstallRequestedOutcome(backTo)) => backTo == back && callback.InstallRequested?
    case Ok(CancelledOutcome(backTo)) => backTo == back && callback.Cancelled?
    case Ok(InvalidOutcome(backTo)) => backTo == back && callback.Invalid?
    case Ok(StartAgain(backTo)) =>
      && backTo == back && made == []
      && (callback.Authorization? || callback.FreshInstall? || callback.InstallWithoutAuthorization?)
    case Ok(ConnectedOutcome(to)) =>
      made != [] && made[|made| - 1].CompleteCall? && service.complete.Ok? && to == Destination(back, Connected)
    case Ok(InstalledOutcome(org, to, already)) =>
      && made != [] && made[|made| - 1].LinkCall? && made[|made| - 1].org == org
      && service.link == Ok(already) && to == Destination(back, Installed)
    case Ok(Authorizing(handoff)) =>
      made != [] && made[|made| - 1].StartAuthorizationCall? && service.start == Ok(handoff)
  }

  lemma SettlesExactly(tab: Tab, callback: Callback, intent: ReturnIntent, service: Service, safe: SafeRedirect)
    ensures var made := Made(callback, Some(intent), service);
            var (after, r) := Settle(tab, callback, intent, service, safe);
            && after.calls == tab.calls + made
            && (made == [] <==> r == Ok(None))
            && (made != [] && r.Threw? ==> Fails(made, service, r.error))
            && (made != [] && r.Ok? ==> EndsAs(Ok(r.value.value), callback, Some(intent), service))
            && forall error :: Fails(made, service, error) ==> r == Threw(error)
  {
  }

  lemma OneEnding(a: Answer<Outcome>, b: Answer<Outcome>, callback: Callback, intent: Option<ReturnIntent>,
                  service: Service)
    requires EndsAs(a, callback, intent, service) && EndsAs(b, callback, intent, service)
    ensures a == b
  {
  }

  lemma FinishEnds(tab: Tab, query: CallbackQuery, service: Service, now: Instant, safe: SafeRedirect)
    ensures var callback, intent := ClassifyCallback(query), ReadReturnIntent(tab.stored, now, safe);
            var (after, r) := Finish(tab, query, service, now, safe);
            after.calls == tab.calls + Made(callback, intent, service) && EndsAs(r, callback, intent, service)
  {
    var callback, intent := ClassifyCallback(query), ReadReturnIntent(tab.stored, now, safe);
    if intent.Some? {
      SettlesExactly(tab.(stored := Nothing), callback, intent.value, service, safe);
    }
  }

  /**
   Whatever the tab's store, the query and the service's answers: these calls are made, and an ending is given if and
   only if it is the one they call for. A refused state, an expired session and any other failure of the last call
   end apart; without a call the callback alone decides, and whether there was an intent it could use.
   */
  lemma EndingsExactly(tab: Tab, query: CallbackQuery, service: Service, now: Instant, safe: SafeRedirect,
                       ending: Answer<Outcome>)
    ensures var callback, intent := ClassifyCallback(query), ReadReturnIntent(tab.stored, now, safe);
            var (after, r) := Finish(tab, query, service, now, safe);
            && after.calls == tab.calls + Made(callback, intent, service)
            && (r == ending <==> EndsAs(ending, callback, intent, service))
  {
    var callback, intent := ClassifyCallback(query), ReadReturnIntent(tab.stored, now, safe);
    FinishEnds(tab, query, service, now, safe);
    if EndsAs(ending, callback, intent, service) {
      OneEnding(ending, Finish(tab, query, service, now, safe).1, callback, intent, service);
    }
  }
}
