/**
 What the overview asks a person to look at, most severe first
 (web/src/modules/overview/domain/attention.ts and application/build-attention-list.ts).
 */
module Attention {
  import opened Options
  import opened StableSort

  const MAX_ATTENTION_ITEMS: nat := 5

  datatype AppRef = AppRef(appId: string, appName: string)

  datatype Item =
    | RepositoryDisconnected(app: AppRef, repoFullName: string, reason: string)
    | RepositoryArchived(app: AppRef, repoFullName: string)
    | InstallationSuspended(accountLogin: string)
    | ConnectGitHub
    | LinkRepository(app: AppRef)
    | PendingInvites(count: int)
    | UnreadNotifications(count: int)

  datatype Tone = RED | AMBER | BLUE

  function ToneOf(item: Item): Tone {
    match item
    case RepositoryDisconnected(_, _, _) => RED
    case RepositoryArchived(_, _) => AMBER
    case InstallationSuspended(_) => AMBER
    case _ => BLUE
  }

  /** A repository cut off is red, one archived or an installation suspended amber, and anything else blue. */
  lemma ToneMeaning(item: Item)
    ensures ToneOf(item) == RED <==> item.RepositoryDisconnected?
    ensures ToneOf(item) == AMBER <==> item.RepositoryArchived? || item.InstallationSuspended?
    ensures ToneOf(item) == BLUE
            <==> item.ConnectGitHub? || item.LinkRepository? || item.PendingInvites? || item.UnreadNotifications?
  {
  }

  function Severity(tone: Tone): nat {
    match tone
    case RED => 0
    case AMBER => 1
    case BLUE => 2
  }

  function BySeverity(): Comparator<Item> {
    (a: Item, b: Item) => Severity(ToneOf(a)) - Severity(ToneOf(b))
  }

  function RankAttention(items: seq<Item>): seq<Item> {
    var sorted := Sorted(items, BySeverity());
    if |sorted| <= MAX_ATTENTION_ITEMS then sorted else sorted[..MAX_ATTENTION_ITEMS]
  }

  datatype Repository =
    | Unknown
    | Unlinked
    | Connected(repoFullName: string, archived: bool)
    | Disconnected(repoFullName: string, reason: string)

  datatype RecentApp = RecentApp(app: AppRef, repository: Repository)

  datatype Installation = Installation(accountLogin: string, suspended: bool)

  /** Absent means nothing is known of it. */
  datatype Input = Input(
    apps: Option<seq<RecentApp>>, installations: Option<seq<Installation>>, canManageInstallations: bool,
    pendingInvites: Option<int>, unreadNotifications: Option<int>)

  function FaultOf(recent: RecentApp): seq<Item> {
    match recent.repository
    case Disconnected(repoFullName, reason) => [RepositoryDisconnected(recent.app, repoFullName, reason)]
    case Connected(repoFullName, archived) => if archived then [RepositoryArchived(recent.app, repoFullName)] else []
    case _ => []
  }

  function Faults(apps: seq<RecentApp>): seq<Item> {
    if apps == [] then [] else FaultOf(apps[0]) + Faults(apps[1..])
  }

  function SuspensionOf(installation: Installation): seq<Item> {
    if installation.suspended then [InstallationSuspended(installation.accountLogin)] else []
  }

  function Suspensions(installations: seq<Installation>): seq<Item> {
    if installations == [] then [] else SuspensionOf(installations[0]) + Suspensions(installations[1..])
  }

  predicate AllUnlinked(apps: seq<RecentApp>) { forall k :: 0 <= k < |apps| ==> apps[k].repository.Unlinked? }

  function OrElse<T>(value: Option<T>, other: T): T { if value.Some? then value.value else other }

  function Said(items: seq<Item>, condition: bool, item: Item): seq<Item> {
    if condition then items + [item] else items
  }

  /** Everything worth saying, before ranking. */
  function Candidates(input: Input): seq<Item> {
    var apps := OrElse(input.apps, []);
    var invites, unread := OrElse(input.pendingInvites, 0), OrElse(input.unreadNotifications, 0);
    var problems := Faults(apps) + Suspensions(OrElse(input.installations, []));
    var connect := Said(problems, input.installations == Some([]) && input.canManageInstallations, ConnectGitHub);
    var link := if apps != [] && AllUnlinked(apps) then connect + [LinkRepository(apps[0].app)] else connect;
    Said(Said(link, invites > 0, PendingInvites(invites)), unread > 0, UnreadNotifications(unread))
  }

  lemma {:induction false} FaultsConcat(a: seq<RecentApp>, b: seq<RecentApp>)
    ensures Faults(a + b) == Faults(a) + Faults(b)
  {
    if a == [] {
      assert a + b == b;
    } else {
      assert (a + b)[1..] == a[1..] + b;
      FaultsConcat(a[1..], b);
    }
  }

  lemma {:induction false} SuspensionsConcat(a: seq<Installation>, b: seq<Installation>)
    ensures Suspensions(a + b) == Suspensions(a) + Suspensions(b)
  {
    if a == [] {
      assert a + b == b;
    } else {
      assert (a + b)[1..] == a[1..] + b;
      SuspensionsConcat(a[1..], b);
    }
  }

  lemma UpTo<T>(s: seq<T>, k: nat)
    requires k < |s|
    ensures s[..k + 1] == s[..k] + [s[k]]
  {
  }

  lemma NextFault(apps: seq<RecentApp>, k: nat)
    requires k < |apps|
    ensures Faults(apps[..k + 1]) == Faults(apps[..k]) + FaultOf(apps[k])
  {
    UpTo(apps, k);
    FaultsConcat(apps[..k], [apps[k]]);
    assert Faults([apps[k]]) == FaultOf(apps[k]);
  }

  lemma NextSuspension(installations: seq<Installation>, k: nat)
    requires k < |installations|
    ensures Suspensions(installations[..k + 1]) == Suspensions(installations[..k]) + SuspensionOf(installations[k])
  {
    UpTo(installations, k);
    SuspensionsConcat(installations[..k], [installations[k]]);
    assert Suspensions([installations[k]]) == SuspensionOf(installations[k]);
  }

  method BuildAttentionList(input: Input) returns (ranked: seq<Item>)
    ensures ranked == RankAttention(Candidates(input))
  {
    var items: seq<Item> := [];
    var apps := OrElse(input.apps, []);
    for k := 0 to |apps|
      invariant items == Faults(apps[..k])
    {
      var recent := apps[k];
      NextFault(apps, k);
      if recent.repository.Disconnected? {
        items := items + [RepositoryDisconnected(recent.app, recent.repository.repoFullName, recent.repository.reason)];
      } else if recent.repository.Connected? && recent.repository.archived {
        items := items + [RepositoryArchived(recent.app, recent.repository.repoFullName)];
      }
    }
    assert apps[..|apps|] == apps;
    var installations := OrElse(input.installations, []);
    for k := 0 to |installations|
      invariant items == Faults(apps) + Suspensions(installations[..k])
    {
      NextSuspension(installations, k);
      if installations[k].suspended {
        items := items + [InstallationSuspended(installations[k].accountLogin)];
      }
    }
    assert installations[..|installations|] == installations;
    if input.installations == Some([]) && input.canManageInstallations {
      items := items + [ConnectGitHub];
    }
    if apps != [] && AllUnlinked(apps) {
      items := items + [LinkRepository(apps[0].app)];
    }
    var invites, unread := OrElse(input.pendingInvites, 0), OrElse(input.unreadNotifications, 0);
    if invites > 0 {
      items := items + [PendingInvites(invites)];
    }
    if unread > 0 {
      items := items + [UnreadNotifications(unread)];
    }
    ranked := RankAttention(items);
  }

  // ----- What ranking does.

  function OfTone(items: seq<Item>, tone: Tone): seq<Item> {
    if items == [] then []
    else (if ToneOf(items[0]) == tone then [items[0]] else []) + OfTone(items[1..], tone)
  }

  lemma BySeverityConsistent()
    ensures Consistent(BySeverity())
  {
  }

  lemma {:induction false} EqualsAreOfTone(items: seq<Item>, item: Item)
    ensures Equals(items, item, BySeverity()) == OfTone(items, ToneOf(item))
  {
    if items != [] {
      EqualsAreOfTone(items[1..], item);
      assert BySeverity()(item, items[0]) == 0 <==> ToneOf(items[0]) == ToneOf(item);
    }
  }

  lemma {:induction false} OfToneConcat(a: seq<Item>, b: seq<Item>, tone: Tone)
    ensures OfTone(a + b, tone) == OfTone(a, tone) + OfTone(b, tone)
  {
    if a == [] {
      assert a + b == b;
    } else {
      assert (a + b)[0] == a[0] && (a + b)[1..] == a[1..] + b;
      OfToneConcat(a[1..], b, tone);
      assert OfTone(a, tone) == (if ToneOf(a[0]) == tone then [a[0]] else []) + OfTone(a[1..], tone);
    }
  }

  lemma {:induction false} OfToneOfTone(items: seq<Item>, tone: Tone, other: Tone)
    ensures OfTone(OfTone(items, tone), other) == if tone == other then OfTone(items, tone) else []
    ensures forall k :: 0 <= k < |OfTone(items, tone)| ==> ToneOf(OfTone(items, tone)[k]) == tone
  {
    if items != [] {
      OfToneOfTone(items[1..], tone, other);
      var r, rest := OfTone(items, tone), OfTone(items[1..], tone);
      if ToneOf(items[0]) == tone {
        assert r[0] == items[0] && r[1..] == rest;
      } else {
        assert r == rest;
      }
    }
  }

  function ByTone(items: seq<Item>): seq<Item> {
    OfTone(items, RED) + (OfTone(items, AMBER) + OfTone(items, BLUE))
  }

  /** Ranking takes the first five of: all red, then all amber, then all blue, each as they came. */
  lemma RankedByTone(items: seq<Item>)
    ensures Sorted(items, BySeverity()) == ByTone(items)
    ensures RankAttention(items) == ByTone(items)[..if |ByTone(items)| <= 5 then |ByTone(items)| else 5]
  {
    var cmp := BySeverity();
    var sorted, byTone := Sorted(items, cmp), ByTone(items);
    BySeverityConsistent();
    SortedMeaning(items, cmp);
    ByToneOrdered(items);
    forall y: Item
      ensures Equals(sorted, y, cmp) == Equals(byTone, y, cmp)
    {
      EqualsAreOfTone(items, y);
      EqualsAreOfTone(byTone, y);
      ToneOfByTone(items, ToneOf(y));
    }
    OrderedUnique(sorted, byTone, cmp);
  }

  predicate AllSeverity(items: seq<Item>, low: nat, high: nat) {
    forall k :: 0 <= k < |items| ==> low <= Severity(ToneOf(items[k])) <= high
  }

  lemma ConcatOrdered(a: seq<Item>, b: seq<Item>, middle: nat)
    requires Ordered(a, BySeverity()) && Ordered(b, BySeverity())
    requires AllSeverity(a, 0, middle) && AllSeverity(b, middle, 2)
    ensures Ordered(a + b, BySeverity())
  {
    var r := a + b;
    forall i, j | 0 <= i < j < |r|
      ensures BySeverity()(r[i], r[j]) <= 0
    {
      if i < |a| <= j {
        assert r[j] == b[j - |a|];
      } else if |a| <= i {
        assert r[i] == b[i - |a|] && r[j] == b[j - |a|];
      }
    }
  }

  lemma OneToneOrdered(items: seq<Item>, tone: Tone)
    ensures Ordered(OfTone(items, tone), BySeverity())
    ensures AllSeverity(OfTone(items, tone), Severity(tone), Severity(tone))
  {
    OfToneOfTone(items, tone, tone);
  }

  lemma ByToneOrdered(items: seq<Item>)
    ensures Ordered(ByTone(items), BySeverity())
  {
    OneToneOrdered(items, RED);
    OneToneOrdered(items, AMBER);
    OneToneOrdered(items, BLUE);
    ConcatOrdered(OfTone(items, AMBER), OfTone(items, BLUE), 1);
    ConcatOrdered(OfTone(items, RED), OfTone(items, AMBER) + OfTone(items, BLUE), 0);
  }

  lemma ToneOfByTone(items: seq<Item>, tone: Tone)
    ensures OfTone(ByTone(items), tone) == OfTone(items, tone)
  {
    OfToneConcat(OfTone(items, RED), OfTone(items, AMBER) + OfTone(items, BLUE), tone);
    OfToneConcat(OfTone(items, AMBER), OfTone(items, BLUE), tone);
    OfToneOfTone(items, RED, tone);
    OfToneOfTone(items, AMBER, tone);
    OfToneOfTone(items, BLUE, tone);
  }

  /** Nothing left out is more severe than anything kept, and within a tone the first to come are kept. */
  lemma RankKeepsWorst(items: seq<Item>) returns (dropped: seq<Item>)
    ensures multiset(RankAttention(items)) + multiset(dropped) == multiset(items)
    ensures |RankAttention(items)| <= 5 && (dropped != [] ==> |RankAttention(items)| == 5)
    ensures forall i, j :: 0 <= i < |RankAttention(items)| && 0 <= j < |dropped| ==>
              Severity(ToneOf(RankAttention(items)[i])) <= Severity(ToneOf(dropped[j]))
    ensures forall tone :: OfTone(RankAttention(items), tone) + OfTone(dropped, tone) == OfTone(items, tone)
  {
    var sorted := Sorted(items, BySeverity());
    var kept := RankAttention(items);
    BySeverityConsistent();
    SortedMembers(items, BySeverity());
    SortedOrdered(items, BySeverity());
    dropped := sorted[|kept|..];
    assert sorted == kept + dropped;
    KeptTones(items, kept, dropped);
    OrderedSeverities(sorted, |kept|);
  }

  lemma KeptTones(items: seq<Item>, kept: seq<Item>, dropped: seq<Item>)
    requires kept + dropped == Sorted(items, BySeverity())
    ensures forall tone :: OfTone(kept, tone) + OfTone(dropped, tone) == OfTone(items, tone)
  {
    forall tone
      ensures OfTone(kept, tone) + OfTone(dropped, tone) == OfTone(items, tone)
    {
      OfToneConcat(kept, dropped, tone);
      RankedByTone(items);
      ToneOfByTone(items, tone);
    }
  }

  lemma OrderedSeverities(sorted: seq<Item>, n: nat)
    requires Ordered(sorted, BySeverity()) && n <= |sorted|
    ensures forall i, j :: 0 <= i < n && 0 <= j < |sorted[n..]| ==>
              Severity(ToneOf(sorted[..n][i])) <= Severity(ToneOf(sorted[n..][j]))
  {
    forall i, j | 0 <= i < n && 0 <= j < |sorted[n..]|
      ensures Severity(ToneOf(sorted[..n][i])) <= Severity(ToneOf(sorted[n..][j]))
    {
      assert BySeverity()(sorted[i], sorted[n + j]) <= 0;
    }
  }

  // ----- What is said.

  predicate IsFault(item: Item) { item.RepositoryDisconnected? || item.RepositoryArchived? }

  lemma {:induction false} FaultsMeaning(apps: seq<RecentApp>)
    ensures forall item :: item in Faults(apps) <==> exists k :: 0 <= k < |apps| && item in FaultOf(apps[k])
    ensures forall item :: item in Faults(apps) ==> IsFault(item)
  {
    if apps != [] {
      FaultsMeaning(apps[1..]);
      assert apps == [apps[0]] + apps[1..];
      forall item
        ensures item in Faults(apps) <==> exists k :: 0 <= k < |apps| && item in FaultOf(apps[k])
      {
        if k :| 0 <= k < |apps[1..]| && item in FaultOf(apps[1..][k]) {
          assert item in FaultOf(apps[k + 1]);
        }
      }
    }
  }

  lemma {:induction false} SuspensionsMeaning(installations: seq<Installation>)
    ensures forall item :: item in Suspensions(installations) <==>
              item.InstallationSuspended? && Installation(item.accountLogin, true) in installations
  {
    if installations != [] {
      SuspensionsMeaning(installations[1..]);
      assert installations == [installations[0]] + installations[1..];
    }
  }

  /** Whether an item is worth saying, whatever else is. */
  predicate IsWorthSaying(item: Item, input: Input) {
    var apps := OrElse(input.apps, []);
    match item
    case RepositoryDisconnected(app, repoFullName, reason) => RecentApp(app, Disconnected(repoFullName, reason)) in apps
    case RepositoryArchived(app, repoFullName) => RecentApp(app, Connected(repoFullName, true)) in apps
    case InstallationSuspended(accountLogin) =>
      input.installations.Some? && Installation(accountLogin, true) in input.installations.value
    case ConnectGitHub => input.installations == Some([]) && input.canManageInstallations
    case LinkRepository(app) =>
      apps != [] && app == apps[0].app && forall recent :: recent in apps ==> recent.repository.Unlinked?
    case PendingInvites(count) => input.pendingInvites == Some(count) && count > 0
    case UnreadNotifications(count) => input.unreadNotifications == Some(count) && count > 0
  }

  lemma FaultsWorthSaying(apps: seq<RecentApp>, item: Item)
    ensures item in Faults(apps) <==>
              (item.RepositoryDisconnected?
               && RecentApp(item.app, Disconnected(item.repoFullName, item.reason)) in apps)
              || (item.RepositoryArchived? && RecentApp(item.app, Connected(item.repoFullName, true)) in apps)
  {
    FaultsMeaning(apps);
    if item.RepositoryDisconnected? && RecentApp(item.app, Disconnected(item.repoFullName, item.reason)) in apps {
      var k :| 0 <= k < |apps| && apps[k] == RecentApp(item.app, Disconnected(item.repoFullName, item.reason));
      assert item in FaultOf(apps[k]);
    }
    if item.RepositoryArchived? && RecentApp(item.app, Connected(item.repoFullName, true)) in apps {
      var k :| 0 <= k < |apps| && apps[k] == RecentApp(item.app, Connected(item.repoFullName, true));
      assert item in FaultOf(apps[k]);
    }
  }

  /** The candidates are what the loops and the four conditions say. */
  lemma CandidatesParts(input: Input, item: Item)
    ensures item in Candidates(input) <==>
              || item in Faults(OrElse(input.apps, []))
              || item in Suspensions(OrElse(input.installations, []))
              || (item == ConnectGitHub && input.installations == Some([]) && input.canManageInstallations)
              || (var apps := OrElse(input.apps, []);
                  apps != [] && AllUnlinked(apps) && item == LinkRepository(apps[0].app))
              || (item.PendingInvites? && item.count > 0 && input.pendingInvites == Some(item.count))
              || (item.UnreadNotifications? && item.count > 0 && input.unreadNotifications == Some(item.count))
  {
  }

  /** The candidates are exactly what is worth saying: nothing is said of what is unknown. */
  lemma CandidatesMeaning(input: Input, item: Item)
    ensures item in Candidates(input) <==> IsWorthSaying(item, input)
  {
    var apps := OrElse(input.apps, []);
    CandidatesParts(input, item);
    FaultsWorthSaying(apps, item);
    SuspensionsMeaning(OrElse(input.installations, []));
    assert AllUnlinked(apps) <==> forall recent :: recent in apps ==> recent.repository.Unlinked?;
  }

  // ----- In what order things are said.

  /** Repositories first, then installations, and then each of the others at most once. */
  function Place(item: Item): nat {
    match item
    case RepositoryDisconnected(_, _, _) => 0
    case RepositoryArchived(_, _) => 0
    case InstallationSuspended(_) => 1
    case ConnectGitHub => 2
    case LinkRepository(_) => 3
    case PendingInvites(_) => 4
    case UnreadNotifications(_) => 5
  }

  /** In their places, those from the `n`th on each in a place of its own. */
  predicate InPlace(items: seq<Item>, n: nat) {
    forall i, j :: 0 <= i < j < |items| ==>
      Place(items[i]) <= Place(items[j]) && (j >= n ==> Place(items[i]) < Place(items[j]))
  }

  lemma SaidInPlace(items: seq<Item>, condition: bool, item: Item, n: nat)
    requires InPlace(items, n) && forall i :: 0 <= i < |items| ==> Place(items[i]) < Place(item)
    ensures InPlace(Said(items, condition, item), n) && items <= Said(items, condition, item)
    ensures var said := Said(items, condition, item); forall i :: 0 <= i < |said| ==> Place(said[i]) < Place(item) + 1
  {
  }

  lemma ProblemsInPlace(apps: seq<RecentApp>, installations: seq<Installation>)
    ensures var problems := Faults(apps) + Suspensions(installations);
            InPlace(problems, |problems|) && forall i :: 0 <= i < |problems| ==> Place(problems[i]) < 2
  {
    var faults, suspensions := Faults(apps), Suspensions(installations);
    FaultsMeaning(apps);
    SuspensionsMeaning(installations);
    assert forall i :: 0 <= i < |faults| ==> faults[i] in faults;
    assert forall i :: 0 <= i < |suspensions| ==> suspensions[i] in suspensions;
  }

  /** What the four conditions add to the problems. */
  function OthersSaid(problems: seq<Item>, connect: bool, link: bool, app: AppRef, invites: int,
                      unread: int): seq<Item> {
    Said(Said(Said(Said(problems, connect, ConnectGitHub), link, LinkRepository(app)),
              invites > 0, PendingInvites(invites)),
         unread > 0, UnreadNotifications(unread))
  }

  lemma OthersInPlace(problems: seq<Item>, connect: bool, link: bool, app: AppRef, invites: int, unread: int)
    requires InPlace(problems, |problems|) && forall i :: 0 <= i < |problems| ==> Place(problems[i]) < 2
    ensures var all := OthersSaid(problems, connect, link, app, invites, unread);
            problems <= all && InPlace(all, |problems|)
  {
    var n := |problems|;
    SaidInPlace(problems, connect, ConnectGitHub, n);
    var connected := Said(problems, connect, ConnectGitHub);
    SaidInPlace(connected, link, LinkRepository(app), n);
    var linked := Said(connected, link, LinkRepository(app));
    SaidInPlace(linked, invites > 0, PendingInvites(invites), n);
    SaidInPlace(Said(linked, invites > 0, PendingInvites(invites)), unread > 0, UnreadNotifications(unread), n);
  }

  lemma CandidatesAre(input: Input, app: AppRef)
    requires OrElse(input.apps, []) != [] ==> app == OrElse(input.apps, [])[0].app
    ensures var apps := OrElse(input.apps, []);
            Candidates(input)
            == OthersSaid(Faults(apps) + Suspensions(OrElse(input.installations, [])),
                          input.installations == Some([]) && input.canManageInstallations,
                          apps != [] && AllUnlinked(apps), app,
                          OrElse(input.pendingInvites, 0), OrElse(input.unreadNotifications, 0))
  {
  }

  /**
   The candidates begin with the faults, in the apps' order, and then the suspensions, in the installations'; the
   others follow, each in its place and but once.
   */
  lemma CandidatesInOrder(input: Input)
    ensures var problems := Faults(OrElse(input.apps, [])) + Suspensions(OrElse(input.installations, []));
            problems <= Candidates(input) && InPlace(Candidates(input), |problems|)
  {
    var apps, installations := OrElse(input.apps, []), OrElse(input.installations, []);
    var app := if apps != [] then apps[0].app else AppRef("", "");
    CandidatesAre(input, app);
    ProblemsInPlace(apps, installations);
    OthersInPlace(Faults(apps) + Suspensions(installations),
                  input.installations == Some([]) && input.canManageInstallations,
                  apps != [] && AllUnlinked(apps), app,
                  OrElse(input.pendingInvites, 0), OrElse(input.unreadNotifications, 0));
  }

  /** The prompt to link a repository never appears beside a repository fault. */
  lemma PromptOrFault(input: Input, prompt: Item, fault: Item)
    requires prompt in Candidates(input) && prompt.LinkRepository?
    ensures !(fault in Candidates(input) && IsFault(fault))
  {
    CandidatesMeaning(input, prompt);
    CandidatesMeaning(input, fault);
  }
}
