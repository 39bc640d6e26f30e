/** Every run of one tab: starts, redirects with arbitrary query text, and retries, in any order. */
module GitHubRuns {
  import opened Options
  import opened ReturnIntents
  import opened GitHubCallback
  import opened GitHubRedirect

  /** A link asked for: for whom, by which saved intent, and when the redirect was settled. */
  datatype LinkMade = LinkMade(org: OrgId, serial: nat, at: Instant)

  /**
   The tab and its history: every intent it saved, numbered from zero, with how many automatic hops led to
   it; the one waiting; those consumed; the links asked for; retries offered; organizations a start named.
   */
  datatype Run = Run(
    tab: Tab, saves: seq<ReturnIntent>, hops: seq<nat>, waiting: Option<nat>, consumed: seq<nat>,
    links: seq<LinkMade>, offered: set<ReturnIntent>, started: set<OrgId>)

  datatype Step =
    | UserAuthorizes(returnTo: string, pending: Option<PendingLink>, answer: Answer<Handoff>, at: Instant)
    | UserInstalls(org: OrgId, returnTo: string, answer: Answer<Handoff>, at: Instant)
    | UserRetries(intent: ReturnIntent, answer: Answer<Handoff>, at: Instant)
    | Redirected(params: seq<(string, string)>, service: Service, at: Instant)

  const FRESH_TAB := Run(Tab(Nothing, []), [], [], None, [], [], {}, {})

  predicate Enabled(run: Run, step: Step) {
    step.UserRetries? ==> step.intent in run.offered
  }

  function Orgs(intent: ReturnIntent): set<OrgId> {
    if OrgOf(intent).Some? then {OrgOf(intent).value} else {}
  }

  /** A save that happened, after `hops` automatic hops. */
  function Saved(run: Run, tab: Tab, intent: ReturnIntent, hops: nat): Run {
    run.(tab := tab, saves := run.saves + [intent], hops := run.hops + [hops], waiting := Some(|run.saves|))
  }

  function AfterStart(run: Run, tab: Tab, answer: Answer<Handoff>, intent: ReturnIntent, named: set<OrgId>): Run {
    if answer.Threw? then run.(tab := tab)
    else Saved(run, tab, intent, 0).(started := run.started + named)
  }

  function Tagged(links: seq<Call>, serial: nat, at: Instant): (r: seq<LinkMade>)
    requires forall k :: 0 <= k < |links| ==> links[k].LinkCall?
    ensures |r| == |links| && forall k :: 0 <= k < |links| ==> r[k] == LinkMade(links[k].org, serial, at)
  {
    seq(|links|, k requires 0 <= k < |links| => LinkMade(links[k].org, serial, at))
  }

  function Retries(r: Answer<Outcome>): set<ReturnIntent> {
    if r.Ok? && (r.value.StateRejected? || r.value.FailedOutcome?) then {r.value.retry} else {}
  }

  /** The redirect settled: the waiting intent is consumed, and a hop saves another. */
  function AfterRedirect(run: Run, query: CallbackQuery, service: Service, at: Instant, safe: SafeRedirect): Run {
    var (tab, r) := Finish(run.tab, query, service, at, safe);
    var serial := if run.waiting.Some? then run.waiting.value else 0;
    var made := if |run.tab.calls| <= |tab.calls| then tab.calls[|run.tab.calls|..] else [];
    var settled := run.(
      tab := tab, waiting := None,
      consumed := run.consumed + (if run.waiting.Some? then [serial] else []),
      links := run.links + Tagged(LinksOf(made), serial, at),
      offered := run.offered + Retries(r));
    var intent := ReadReturnIntent(run.tab.stored, at, safe);
    var callback := ClassifyCallback(query);
    if r.Ok? && r.value.Authorizing? && intent.Some? && OrgOf(intent.value).Some?
       && callback.InstallWithoutAuthorization?
    then
      var link := PendingLink(OrgOf(intent.value).value, callback.installationId);
      Saved(settled, tab, AuthorizeIntent(service.hopAt, intent.value.returnTo, Some(link), safe),
            1 + if serial < |run.hops| then run.hops[serial] else 0)
    else settled
  }

  function Next(run: Run, step: Step, safe: SafeRedirect): Run {
    match step
    case UserAuthorizes(returnTo, pending, answer, at) =>
      var intent := AuthorizeIntent(at, returnTo, pending, safe);
      AfterStart(run, StartAuthorization(run.tab, returnTo, pending, answer, at, safe).0, answer, intent, Orgs(intent))
    case UserInstalls(org, returnTo, answer, at) =>
      AfterStart(run, StartInstall(run.tab, org, returnTo, answer, at, safe).0, answer,
                 InstallIntent(at, org, returnTo, safe), {org})
    case UserRetries(intent, answer, at) =>
      AfterStart(run, Retry(run.tab, intent, answer, at, safe).0, answer, RetryIntent(intent, at, safe), {})
    case Redirected(params, service, at) => AfterRedirect(run, QueryOf(params), service, at, safe)
  }

  ghost predicate Runs(run: Run, steps: seq<Step>, final: Run, safe: SafeRedirect)
    decreases |steps|
  {
    if steps == [] then run == final
    else Enabled(run, steps[0]) && Runs(Next(run, steps[0], safe), steps[1..], final, safe)
  }

  /** The tab of a run is what the use cases make of it, call by call. */
  lemma TabFollows(run: Run, step: Step, safe: SafeRedirect)
    ensures Next(run, step, safe).tab
            == match step
               case UserAuthorizes(returnTo, pending, answer, at) =>
                 StartAuthorization(run.tab, returnTo, pending, answer, at, safe).0
               case UserInstalls(org, returnTo, answer, at) => StartInstall(run.tab, org, returnTo, answer, at, safe).0
               case UserRetries(intent, answer, at) => Retry(run.tab, intent, answer, at, safe).0
               case Redirected(params, service, at) => Finish(run.tab, QueryOf(params), service, at, safe).0
  {
  }

  /** A retry is offered exactly once some redirect was refused its state or failed otherwise, of the intent it read. */
  lemma RetriesOffered(run: Run, step: Step, safe: SafeRedirect, intent: ReturnIntent, answer: Answer<Handoff>,
                       at: Instant)
    ensures Enabled(Next(run, step, safe), UserRetries(intent, answer, at))
            <==> Enabled(run, UserRetries(intent, answer, at))
                 || (step.Redirected?
                     && var ending := Finish(run.tab, QueryOf(step.params), step.service, step.at, safe).1;
                        ending.Ok? && (ending.value.StateRejected? || ending.value.FailedOutcome?)
                        && ending.value.retry == intent)
  {
  }

  // ----- What every run keeps.

  predicate Increasing(serials: seq<nat>) {
    forall i, j :: 0 <= i < j < |serials| ==> serials[i] < serials[j]
  }

  /** The store holds the last intent saved, or nothing. */
  ghost predicate StoreInv(run: Run) {
    && |run.hops| == |run.saves|
    && match run.waiting
       case None => run.tab.stored == Nothing
       case Some(k) => k + 1 == |run.saves| && run.tab.stored == Written(run.saves[k])
  }

  /** No intent is consumed twice, and none is both consumed and waiting. */
  ghost predicate ConsumedInv(run: Run) {
    && Increasing(run.consumed)
    && forall i :: 0 <= i < |run.consumed| ==>
         run.consumed[i] < |run.saves| && (run.waiting.Some? ==> run.consumed[i] < run.waiting.value)
  }

  /** A link is for the organization its own intent recorded, at most fifteen minutes before. */
  ghost predicate Rightful(run: Run, link: LinkMade) {
    && link.serial in run.consumed && link.serial < |run.saves|
    && OrgOf(run.saves[link.serial]) == Some(link.org)
    && 0 <= link.at - run.saves[link.serial].startedAt <= RETURN_INTENT_TTL_MS
  }

  /** No intent causes two links, and the links are those the service was really asked for. */
  ghost predicate LinksInv(run: Run) {
    && (forall k :: 0 <= k < |run.links| ==> Rightful(run, run.links[k]))
    && (forall i, j :: 0 <= i < j < |run.links| ==> run.links[i].serial < run.links[j].serial)
    && |LinksOf(run.tab.calls)| == |run.links|
    && forall k :: 0 <= k < |run.links| ==> LinksOf(run.tab.calls)[k].org == run.links[k].org
  }

  /** No organization comes from anywhere but a start the user made in this tab. */
  ghost predicate OrgsInv(run: Run) {
    && (forall k :: 0 <= k < |run.saves| ==> Orgs(run.saves[k]) <= run.started)
    && forall intent :: intent in run.offered ==> Orgs(intent) <= run.started
  }

  ghost predicate Inv(run: Run) {
    StoreInv(run) && ConsumedInv(run) && LinksInv(run) && OrgsInv(run)
  }

  lemma StartKeepsInv(run: Run, tab: Tab, answer: Answer<Handoff>, intent: ReturnIntent, named: set<OrgId>)
    requires Inv(run) && Orgs(intent) <= run.started + named
    requires |tab.calls| == |run.tab.calls| + 1 && tab.calls[..|run.tab.calls|] == run.tab.calls
    requires !tab.calls[|run.tab.calls|].LinkCall?
    requires tab.stored == if answer.Threw? then run.tab.stored else Written(intent)
    ensures Inv(AfterStart(run, tab, answer, intent, named))
  {
    var call := tab.calls[|run.tab.calls|];
    assert tab.calls == run.tab.calls + [call];
    LinksOfConcat(run.tab.calls, [call]);
    OneCall(call);
    var next := AfterStart(run, tab, answer, intent, named);
    assert LinksOf(tab.calls) == LinksOf(run.tab.calls);
    forall k | 0 <= k < |run.links|
      ensures Rightful(next, run.links[k])
    {
      assert Rightful(run, run.links[k]);
    }
  }

  /** What the redirect reads is the waiting intent, fresh, or nothing. */
  lemma ReadsWaiting(run: Run, at: Instant, safe: SafeRedirect)
    requires StoreInv(run)
    ensures var intent := ReadReturnIntent(run.tab.stored, at, safe);
            intent.Some? ==>
              run.waiting.Some? && intent.value == run.saves[run.waiting.value]
              && 0 <= at - intent.value.startedAt <= RETURN_INTENT_TTL_MS
              && safe(intent.value.returnTo) == intent.value.returnTo
  {
    if run.waiting.Some? {
      ReadBack(run.saves[run.waiting.value], at, safe);
    }
  }

  lemma RetryOffered(tab: Tab, query: CallbackQuery, service: Service, at: Instant, safe: SafeRedirect)
    ensures var r := Finish(tab, query, service, at, safe).1;
            Retries(r) != {} ==> ReadReturnIntent(tab.stored, at, safe).Some?
                                 && Retries(r) == {ReadReturnIntent(tab.stored, at, safe).value}
  {
  }

  /** The part of a redirect that consumes the waiting intent. */
  function Consumed(run: Run, tab: Tab, links: seq<LinkMade>, retries: set<ReturnIntent>): Run {
    run.(tab := tab, waiting := None,
         consumed := run.consumed + (if run.waiting.Some? then [run.waiting.value] else []),
         links := run.links + links, offered := run.offered + retries)
  }

  /** What a link needs to be the waiting intent's. */
  ghost predicate ForWaiting(run: Run, links: seq<LinkMade>, at: Instant)
    requires StoreInv(run)
  {
    links != [] ==>
      && run.waiting.Some? && links[0].serial == run.waiting.value && links[0].at == at
      && OrgOf(run.saves[run.waiting.value]) == Some(links[0].org)
      && 0 <= at - run.saves[run.waiting.value].startedAt <= RETURN_INTENT_TTL_MS
  }

  lemma LinksStayMatched(calls: seq<Call>, made: seq<Call>, before: seq<LinkMade>, links: seq<LinkMade>)
    requires |LinksOf(calls)| == |before| && |LinksOf(made)| == |links| <= 1
    requires forall k :: 0 <= k < |before| ==> LinksOf(calls)[k].org == before[k].org
    requires links != [] ==> links[0].org == LinksOf(made)[0].org
    ensures |LinksOf(calls + made)| == |before + links|
    ensures forall k :: 0 <= k < |before + links| ==> LinksOf(calls + made)[k].org == (before + links)[k].org
  {
    LinksOfConcat(calls, made);
  }

  lemma SerialsStayOrdered(before: seq<LinkMade>, links: seq<LinkMade>)
    requires |links| <= 1 && forall i, j :: 0 <= i < j < |before| ==> before[i].serial < before[j].serial
    requires links != [] ==> forall k :: 0 <= k < |before| ==> before[k].serial < links[0].serial
    ensures forall i, j :: 0 <= i < j < |before + links| ==> (before + links)[i].serial < (before + links)[j].serial
  {
  }

  lemma ConsumingKeepsLinks(run: Run, tab: Tab, made: seq<Call>, links: seq<LinkMade>,
                            retries: set<ReturnIntent>, at: Instant)
    requires Inv(run) && tab.calls == run.tab.calls + made
    requires |LinksOf(made)| == |links| <= 1 && ForWaiting(run, links, at)
    requires links != [] ==> links[0].org == LinksOf(made)[0].org
    ensures LinksInv(Consumed(run, tab, links, retries))
  {
    forall k | 0 <= k < |run.links + links|
      ensures Rightful(Consumed(run, tab, links, retries), (run.links + links)[k])
    {
      ConsumingKeepsRightful(run, tab, links, retries, at, k);
    }
    EarlierSerials(run, links, at);
    LinksStayMatched(run.tab.calls, made, run.links, links);
    SerialsStayOrdered(run.links, links);
  }

  lemma ConsumingKeepsRightful(run: Run, tab: Tab, links: seq<LinkMade>, retries: set<ReturnIntent>,
                               at: Instant, k: nat)
    requires Inv(run) && |links| <= 1 && ForWaiting(run, links, at) && k < |run.links + links|
    ensures Rightful(Consumed(run, tab, links, retries), (run.links + links)[k])
  {
    if k < |run.links| {
      assert Rightful(run, run.links[k]);
    }
  }

  /** Every link so far was for an intent consumed before the waiting one. */
  lemma EarlierSerials(run: Run, links: seq<LinkMade>, at: Instant)
    requires Inv(run) && ForWaiting(run, links, at)
    ensures links != [] ==> forall k :: 0 <= k < |run.links| ==> run.links[k].serial < links[0].serial
  {
    forall k | 0 <= k < |run.links| && links != []
      ensures run.links[k].serial < links[0].serial
    {
      assert Rightful(run, run.links[k]);
    }
  }

  lemma ConsumingKeepsInv(run: Run, tab: Tab, made: seq<Call>, links: seq<LinkMade>, retries: set<ReturnIntent>,
                          at: Instant)
    requires Inv(run) && tab.stored == Nothing && tab.calls == run.tab.calls + made
    requires |LinksOf(made)| == |links| <= 1 && ForWaiting(run, links, at)
    requires links != [] ==> links[0].org == LinksOf(made)[0].org
    requires forall intent :: intent in retries ==> Orgs(intent) <= run.started
    ensures Inv(Consumed(run, tab, links, retries))
  {
    ConsumingKeepsLinks(run, tab, made, links, retries, at);
  }

  /** The part of a redirect that hops: another intent saved, nothing else asked to link. */
  lemma SavingKeepsInv(run: Run, tab: Tab, intent: ReturnIntent, hops: nat)
    requires Inv(run) && run.waiting.None? && Orgs(intent) <= run.started
    requires tab == run.tab.(stored := Written(intent))
    ensures Inv(Saved(run, tab, intent, hops))
  {
    var next := Saved(run, tab, intent, hops);
    forall k | 0 <= k < |run.links|
      ensures Rightful(next, run.links[k])
    {
      assert Rightful(run, run.links[k]);
    }
  }

  /** The intent a hop saves. */
  lemma HopSaves(run: Run, query: CallbackQuery, service: Service, at: Instant, safe: SafeRedirect)
    requires StoreInv(run)
    ensures var (tab, r) := Finish(run.tab, query, service, at, safe);
            var intent := ReadReturnIntent(run.tab.stored, at, safe);
            if r.Ok? && r.value.Authorizing? then
              && intent.Some? && OrgOf(intent.value).Some? && ClassifyCallback(query).InstallWithoutAuthorization?
              && var link := PendingLink(OrgOf(intent.value).value, ClassifyCallback(query).installationId);
                 tab.stored == Written(AuthorizeIntent(service.hopAt, intent.value.returnTo, Some(link), safe))
            else tab.stored == Nothing
  {
    HopKeepsIntent(run.tab, query, service, at, safe);
    StoreAfterFinish(run.tab, query, service, at, safe);
    ReadsWaiting(run, at, safe);
  }

  /** The links a redirect asks for are the waiting intent's, and so is the retry it offers. */
  lemma RedirectConsumes(run: Run, query: CallbackQuery, service: Service, at: Instant, safe: SafeRedirect)
    returns (made: seq<Call>)
    requires Inv(run)
    ensures var (tab, r) := Finish(run.tab, query, service, at, safe);
            var serial := if run.waiting.Some? then run.waiting.value else 0;
            && tab.calls == run.tab.calls + made
            && Inv(Consumed(run, tab.(stored := Nothing), Tagged(LinksOf(made), serial, at), Retries(r)))
  {
    var (tab, r) := Finish(run.tab, query, service, at, safe);
    made := FinishCalls(run.tab, query, service, at, safe);
    ReadsWaiting(run, at, safe);
    RetryOffered(run.tab, query, service, at, safe);
    assert LinksOf([]) == [];
    var serial := if run.waiting.Some? then run.waiting.value else 0;
    ConsumingKeepsInv(run, tab.(stored := Nothing), made, Tagged(LinksOf(made), serial, at), Retries(r), at);
  }

  lemma RedirectKeepsInv(run: Run, query: CallbackQuery, service: Service, at: Instant, safe: SafeRedirect)
    requires Inv(run)
    ensures Inv(AfterRedirect(run, query, service, at, safe))
  {
    var (tab, r) := Finish(run.tab, query, service, at, safe);
    var intent := ReadReturnIntent(run.tab.stored, at, safe);
    var made := RedirectConsumes(run, query, service, at, safe);
    assert made == tab.calls[|run.tab.calls|..];
    ReadsWaiting(run, at, safe);
    HopSaves(run, query, service, at, safe);
    if r.Ok? && r.value.Authorizing? {
      var serial := if run.waiting.Some? then run.waiting.value else 0;
      var link := PendingLink(OrgOf(intent.value).value, ClassifyCallback(query).installationId);
      SavingKeepsInv(Consumed(run, tab.(stored := Nothing), Tagged(LinksOf(made), serial, at), Retries(r)), tab,
                     AuthorizeIntent(service.hopAt, intent.value.returnTo, Some(link), safe),
                     1 + if serial < |run.hops| then run.hops[serial] else 0);
    }
  }

  lemma StepKeepsInv(run: Run, step: Step, safe: SafeRedirect)
    requires Inv(run) && Enabled(run, step)
    ensures Inv(Next(run, step, safe))
  {
    match step
    case UserAuthorizes(returnTo, pending, answer, at) =>
      var intent := AuthorizeIntent(at, returnTo, pending, safe);
      var started := StartAuthorization(run.tab, returnTo, pending, answer, at, safe).0;
      StartKeepsInv(run, started, answer, intent, Orgs(intent));
    case UserInstalls(org, returnTo, answer, at) =>
      StartKeepsInv(run, StartInstall(run.tab, org, returnTo, answer, at, safe).0, answer,
                    InstallIntent(at, org, returnTo, safe), {org});
    case UserRetries(intent, answer, at) =>
      assert Orgs(RetryIntent(intent, at, safe)) <= Orgs(intent);
      StartKeepsInv(run, Retry(run.tab, intent, answer, at, safe).0, answer, RetryIntent(intent, at, safe), {});
    case Redirected(params, service, at) => RedirectKeepsInv(run, QueryOf(params), service, at, safe);
  }

  /**
   Over every run of one tab: each saved intent is consumed at most once and causes at most one link, every
   link is for the organization its intent recorded at most fifteen minutes before, and every organization
   was named by a start made in this tab.
   */
  lemma {:induction false} EveryRunKeepsInv(run: Run, steps: seq<Step>, final: Run, safe: SafeRedirect)
    requires Inv(run) && Runs(run, steps, final, safe)
    ensures Inv(final)
    decreases |steps|
  {
    if steps != [] {
      StepKeepsInv(run, steps[0], safe);
      EveryRunKeepsInv(Next(run, steps[0], safe), steps[1..], final, safe);
    }
  }

  /** The same, said of the links of a fresh tab. */
  lemma LinksOfFreshTab(steps: seq<Step>, final: Run, safe: SafeRedirect)
    requires Runs(FRESH_TAB, steps, final, safe)
    ensures forall k :: 0 <= k < |final.links| ==>
              Rightful(final, final.links[k]) && final.links[k].org in final.started
    ensures forall i, j :: 0 <= i < j < |final.links| ==> final.links[i].serial != final.links[j].serial
    ensures |LinksOf(final.tab.calls)| == |final.links|
    ensures forall k :: 0 <= k < |final.links| ==> LinksOf(final.tab.calls)[k].org == final.links[k].org
  {
    EveryRunKeepsInv(FRESH_TAB, steps, final, safe);
    forall k | 0 <= k < |final.links|
      ensures final.links[k].org in final.started
    {
      assert Rightful(final, final.links[k]);
      assert Orgs(final.saves[final.links[k].serial]) <= final.started;
    }
  }

  // ----- Hops.

  /** Whatever GitHub's authorize page sends back, it is not an installation without an authorization. */
  ghost predicate AuthorizePageAnswers(run: Run, step: Step) {
    step.Redirected? && run.waiting.Some? && run.waiting.value < |run.saves| && run.saves[run.waiting.value].Authorize?
    ==> !ClassifyCallback(QueryOf(step.params)).InstallWithoutAuthorization?
  }

  ghost predicate AnsweredRuns(run: Run, steps: seq<Step>, final: Run, safe: SafeRedirect)
    decreases |steps|
  {
    if steps == [] then run == final
    else
      Enabled(run, steps[0]) && AuthorizePageAnswers(run, steps[0])
      && AnsweredRuns(Next(run, steps[0], safe), steps[1..], final, safe)
  }

  ghost predicate OneHop(run: Run) {
    |run.hops| == |run.saves|
    && forall k :: 0 <= k < |run.hops| ==> run.hops[k] <= 1 && (run.hops[k] == 1 ==> run.saves[k].Authorize?)
  }

  lemma StepHopsOnce(run: Run, step: Step, safe: SafeRedirect)
    requires Inv(run) && OneHop(run) && Enabled(run, step) && AuthorizePageAnswers(run, step)
    ensures OneHop(Next(run, step, safe))
  {
    if step.Redirected? {
      ReadsWaiting(run, step.at, safe);
    }
  }

  /** Then no user action leads to more than one automatic hop. */
  lemma {:induction false} HopsAtMostOnce(run: Run, steps: seq<Step>, final: Run, safe: SafeRedirect)
    requires Inv(run) && OneHop(run) && AnsweredRuns(run, steps, final, safe)
    ensures OneHop(final)
    decreases |steps|
  {
    if steps != [] {
      StepKeepsInv(run, steps[0], safe);
      StepHopsOnce(run, steps[0], safe);
      HopsAtMostOnce(Next(run, steps[0], safe), steps[1..], final, safe);
    }
  }

  /** Settling the intent a hop saved, on such an answer, never hops again. */
  lemma HopSettles(tab: Tab, intent: ReturnIntent, query: CallbackQuery, service: Service, at: Instant,
                   safe: SafeRedirect)
    requires intent.Authorize? && tab.stored == Written(intent)
    requires !ClassifyCallback(query).InstallWithoutAuthorization?
    ensures var (after, r) := Finish(tab, query, service, at, safe);
            after.stored == Nothing && !(r.Ok? && r.value.Authorizing?)
  {
    StoreAfterFinish(tab, query, service, at, safe);
    HopKeepsIntent(tab, query, service, at, safe);
  }

  /** The condition is needed: an installation coming back to a hop's intent, refused, hops once more. */
  lemma InstallationHopsAgain(tab: Tab, intent: ReturnIntent, query: CallbackQuery, service: Service,
                              handoff: Handoff, safe: SafeRedirect)
    requires intent.Authorize? && tab.stored == Written(intent) && PendingLinkOf(intent).Some?
    requires ReadReturnIntent(tab.stored, service.hopAt, safe) == Some(intent)
    requires ClassifyCallback(query).InstallWithoutAuthorization?
    requires service.link == Threw(ApiError(GITHUB_AUTHORIZATION_REQUIRED)) && service.start == Ok(handoff)
    ensures Finish(tab, query, service, service.hopAt, safe).1 == Ok(Authorizing(handoff))
  {
  }

  /** The last intent saved, `hops` hops on, can be read back at `at` and names `org`. */
  predicate Waits(run: Run, hops: nat, org: OrgId, at: Instant, safe: SafeRedirect) {
    && run.saves != [] && |run.hops| == |run.saves| && run.waiting == Some(|run.saves| - 1)
    && var intent := run.saves[|run.saves| - 1];
       && run.hops[|run.hops| - 1] == hops && run.tab.stored == Written(intent) && OrgOf(intent) == Some(org)
       && org != "" && ReadReturnIntent(run.tab.stored, at, safe) == Some(intent)
  }

  /** Answers on which a bare installation hops: its link wants an authorization, which can be started. */
  predicate HopsWith(query: CallbackQuery, service: Service, at: Instant) {
    && ClassifyCallback(query).InstallWithoutAuthorization?
    && service.link == Threw(ApiError(GITHUB_AUTHORIZATION_REQUIRED)) && service.start.Ok?
    && service.hopAt == at && HasFourDigitYear(at)
  }

  /** What a redirect that hops saves. */
  lemma HopExtends(run: Run, intent: ReturnIntent, org: OrgId, query: CallbackQuery, service: Service, at: Instant,
                   safe: SafeRedirect)
    requires run.waiting.Some? && run.waiting.value < |run.hops|
    requires Finish(run.tab, query, service, at, safe).1.Ok?
    requires Finish(run.tab, query, service, at, safe).1.value.Authorizing?
    requires ReadReturnIntent(run.tab.stored, at, safe) == Some(intent) && OrgOf(intent) == Some(org)
    requires ClassifyCallback(query).InstallWithoutAuthorization?
    ensures var link := PendingLink(org, ClassifyCallback(query).installationId);
            var next := AfterRedirect(run, query, service, at, safe);
            && next.saves == run.saves + [AuthorizeIntent(service.hopAt, intent.returnTo, Some(link), safe)]
            && next.hops == run.hops + [1 + run.hops[run.waiting.value]]
            && next.waiting == Some(|run.saves|) && next.tab == Finish(run.tab, query, service, at, safe).0
  {
  }

  lemma HopStores(tab: Tab, intent: ReturnIntent, org: OrgId, query: CallbackQuery, service: Service, at: Instant,
                  safe: SafeRedirect)
    requires ReadReturnIntent(tab.stored, at, safe) == Some(intent) && OrgOf(intent) == Some(org) && org != ""
    requires tab.stored == Written(intent)
    requires HopsWith(query, service, at)
    ensures Finish(tab, query, service, at, safe).1 == Ok(Authorizing(service.start.value))
    ensures var link := PendingLink(org, ClassifyCallback(query).installationId);
            var hop := AuthorizeIntent(at, intent.returnTo, Some(link), safe);
            var stored := Finish(tab, query, service, at, safe).0.stored;
            && stored == Written(hop) && ReadReturnIntent(stored, at, safe) == Some(hop) && OrgOf(hop) == Some(org)
  {
    HopsExactly(tab, query, service, at, safe, service.start.value);
    HopKeepsIntent(tab, query, service, at, safe);
    ClassifiedIsWellFormed(query);
    ReadBack(intent, at, safe);
    var link := PendingLink(org, ClassifyCallback(query).installationId);
    AuthorizeSurvives(at, intent.returnTo, Some(link), at, safe);
  }

  lemma HopWaits(run: Run, next: Run, hop: ReturnIntent, hops: nat, org: OrgId, at: Instant, safe: SafeRedirect)
    requires |run.hops| == |run.saves| && org != ""
    requires next.saves == run.saves + [hop] && next.hops == run.hops + [1 + hops]
    requires next.waiting == Some(|run.saves|) && next.tab.stored == Written(hop)
    requires ReadReturnIntent(Written(hop), at, safe) == Some(hop) && OrgOf(hop) == Some(org)
    ensures Waits(next, hops + 1, org, at, safe)
  {
  }

  lemma HopsOn(run: Run, next: Run, hops: nat, org: OrgId, query: CallbackQuery, service: Service, at: Instant,
               safe: SafeRedirect)
    requires Waits(run, hops, org, at, safe) && HopsWith(query, service, at)
    requires next == AfterRedirect(run, query, service, at, safe)
    ensures Waits(next, hops + 1, org, at, safe)
  {
    var intent := run.saves[|run.saves| - 1];
    var link := PendingLink(org, ClassifyCallback(query).installationId);
    HopSurvives(run, next, intent, org, query, service, at, safe);
    HopWaits(run, next, AuthorizeIntent(at, intent.returnTo, Some(link), safe), hops, org, at, safe);
  }

  lemma HopSurvives(run: Run, next: Run, intent: ReturnIntent, org: OrgId, query: CallbackQuery, service: Service,
                    at: Instant, safe: SafeRedirect)
    requires run.waiting.Some? && run.waiting.value < |run.hops|
    requires ReadReturnIntent(run.tab.stored, at, safe) == Some(intent) && run.tab.stored == Written(intent)
    requires OrgOf(intent) == Some(org) && org != "" && HopsWith(query, service, at)
    requires next == AfterRedirect(run, query, service, at, safe)
    ensures var link := PendingLink(org, ClassifyCallback(query).installationId);
            var hop := AuthorizeIntent(at, intent.returnTo, Some(link), safe);
            && next.saves == run.saves + [hop] && next.hops == run.hops + [1 + run.hops[run.waiting.value]]
            && next.waiting == Some(|run.saves|) && next.tab.stored == Written(hop)
            && ReadReturnIntent(Written(hop), at, safe) == Some(hop) && OrgOf(hop) == Some(org)
  {
    HopStores(run.tab, intent, org, query, service, at, safe);
    HopExtends(run, intent, org, query, service, at, safe);
  }

  lemma RunsCons(run: Run, step: Step, next: Run, rest: seq<Step>, final: Run, safe: SafeRedirect)
    requires Enabled(run, step) && next == Next(run, step, safe) && Runs(next, rest, final, safe)
    ensures Runs(run, [step] + rest, final, safe)
  {
    assert ([step] + rest)[1..] == rest;
  }

  function Repeated(step: Step, n: nat): seq<Step> {
    if n == 0 then [] else [step] + Repeated(step, n - 1)
  }

  /** Where doing one thing `n` times leads. A run made of it is one of that step repeated. */
  function Iterated(f: Run -> Run, run: Run, n: nat): Run
    decreases n
  {
    if n == 0 then run else Iterated(f, f(run), n - 1)
  }

  lemma {:induction false} RunsIterated(runs: (Run, seq<Step>, Run) -> bool, f: Run -> Run, run: Run, n: nat,
                                        step: Step)
    requires forall r: Run :: runs(r, [], r)
    requires forall r: Run, rest: seq<Step>, final: Run :: runs(f(r), rest, final) ==> runs(r, [step] + rest, final)
    ensures runs(run, Repeated(step, n), Iterated(f, run, n))
    decreases n
  {
    if n > 0 {
      RunsIterated(runs, f, f(run), n - 1, step);
    }
  }

  lemma {:induction false} WaitsIterated(f: Run -> Run, run: Run, hops: nat, n: nat, org: OrgId, at: Instant,
                                         safe: SafeRedirect)
    requires Waits(run, hops, org, at, safe)
    requires forall r: Run, h: nat :: Waits(r, h, org, at, safe) ==> Waits(f(r), h + 1, org, at, safe)
    ensures Waits(Iterated(f, run, n), hops + n, org, at, safe)
    decreases n
  {
    if n > 0 {
      WaitsIterated(f, f(run), hops + 1, n - 1, org, at, safe);
    }
  }

  lemma HopsOnAndOn(run: Run, hops: nat, n: nat, org: OrgId, params: seq<(string, string)>, service: Service,
                    at: Instant, safe: SafeRedirect) returns (final: Run)
    requires Waits(run, hops, org, at, safe) && HopsWith(QueryOf(params), service, at)
    ensures Runs(run, Repeated(Redirected(params, service, at), n), final, safe)
    ensures Waits(final, hops + n, org, at, safe)
  {
    var step := Redirected(params, service, at);
    var f := (r: Run) => AfterRedirect(r, QueryOf(params), service, at, safe);
    final := Iterated(f, run, n);
    forall r: Run, rest: seq<Step>, end: Run | Runs(f(r), rest, end, safe)
      ensures Runs(r, [step] + rest, end, safe)
    {
      RunsCons(r, step, f(r), rest, end, safe);
    }
    RunsIterated((r, steps, end) => Runs(r, steps, end, safe), f, run, n, step);
    forall r: Run, h: nat | Waits(r, h, org, at, safe)
      ensures Waits(f(r), h + 1, org, at, safe)
    {
      HopsOn(r, f(r), h, org, QueryOf(params), service, at, safe);
    }
    WaitsIterated(f, run, hops, n, org, at, safe);
  }

  /**
   The condition on the authorize page is needed: were it to answer every time with a bare installation, one install
   the user starts in a fresh tab could lead to any number of automatic hops.
   */
  lemma HopsWithoutEnd(n: nat, org: OrgId, returnTo: string, handoff: Handoff, params: seq<(string, string)>,
                       service: Service, at: Instant, safe: SafeRedirect) returns (final: Run)
    requires org != "" && IsSafePath(safe(returnTo), safe) && HopsWith(QueryOf(params), service, at)
    ensures var starts := UserInstalls(org, returnTo, Ok(handoff), at);
            Runs(FRESH_TAB, [starts] + Repeated(Redirected(params, service, at), n), final, safe)
    ensures final.hops != [] && final.hops[|final.hops| - 1] == n
  {
    var starts := UserInstalls(org, returnTo, Ok(handoff), at);
    var started := InstallWaits(org, returnTo, handoff, at, safe);
    final := HopsOnAndOn(started, 0, n, org, params, service, at, safe);
    RunsCons(FRESH_TAB, starts, started, Repeated(Redirected(params, service, at), n), final, safe);
  }

  lemma InstallWaits(org: OrgId, returnTo: string, handoff: Handoff, at: Instant, safe: SafeRedirect)
    returns (started: Run)
    requires org != "" && IsSafePath(safe(returnTo), safe) && HasFourDigitYear(at)
    ensures started == Next(FRESH_TAB, UserInstalls(org, returnTo, Ok(handoff), at), safe)
    ensures Waits(started, 0, org, at, safe)
  {
    started := Next(FRESH_TAB, UserInstalls(org, returnTo, Ok(handoff), at), safe);
    InstallSurvives(at, org, returnTo, at, safe);
  }
}
