/**
 What a tab records before leaving for GitHub, and what it reads back
 (web/src/modules/github/domain/return-intent.ts). `safeRedirect` is a parameter: any function of a path.
 */
module ReturnIntents {
  import opened Options
  import opened CivilDates
  import opened InstallationIds

  /** Milliseconds since the epoch. */
  type Instant = int
  type OrgId = string
  type SafeRedirect = string -> string

  const RETURN_INTENT_TTL_MS := 15 * 60 * 1000
  const DEFAULT_SIGNED_IN_PATH := "/orgs"

  datatype PendingLink = PendingLink(orgId: OrgId, installationId: int)

  datatype ReturnIntent =
    | Authorize(returnTo: string, startedAt: Instant, orgId: Option<OrgId>, installationId: Option<int>)
    | Install(org: OrgId, returnTo: string, startedAt: Instant)

  /** Whatever the tab's storage holds. A start time is there only as an ISO date-time. */
  datatype Stored =
    | Nothing
    | Unrecognized
    | AuthorizeRecord(returnTo: string, startedAt: Option<Instant>, orgId: Option<string>, installationId: Option<int>)
    | InstallRecord(org: string, returnTo: string, startedAt: Option<Instant>)

  /** Instants an ISO date-time with a four-digit year names, years 0000 to 9999. */
  predicate HasFourDigitYear(t: Instant) {
    -62167219200000 <= t <= 253402300799999
  }

  function IsoText(t: Instant): Option<Instant> {
    if HasFourDigitYear(t) then Some(t) else None
  }

  /** Saving an intent writes its fields, absent ones left out. */
  function Written(intent: ReturnIntent): Stored {
    match intent
    case Authorize(returnTo, startedAt, orgId, installationId) =>
      AuthorizeRecord(returnTo, IsoText(startedAt), orgId, installationId)
    case Install(org, returnTo, startedAt) => InstallRecord(org, returnTo, IsoText(startedAt))
  }

  function AuthorizeIntent(now: Instant, returnTo: string, pending: Option<PendingLink>,
                           safe: SafeRedirect): ReturnIntent {
    match pending
    case None => Authorize(safe(returnTo), now, None, None)
    case Some(link) => Authorize(safe(returnTo), now, Some(link.orgId), Some(link.installationId))
  }

  function InstallIntent(now: Instant, org: OrgId, returnTo: string, safe: SafeRedirect): ReturnIntent {
    Install(org, safe(returnTo), now)
  }

  predicate IsFresh(startedAt: Instant, now: Instant) {
    var age := now - startedAt;
    0 <= age <= RETURN_INTENT_TTL_MS
  }

  predicate IsSafePath(path: string, safe: SafeRedirect) { safe(path) == path }

  /** A safe integer above zero. */
  predicate IsInstallationNumber(n: int) { 1 <= n <= MAX_SAFE_INTEGER }

  /** What is stored has the shape of an intent and a path on this site. */
  predicate WellFormed(stored: Stored, safe: SafeRedirect) {
    match stored
    case Nothing => false
    case Unrecognized => false
    case AuthorizeRecord(returnTo, startedAt, orgId, installationId) =>
      IsSafePath(returnTo, safe) && startedAt.Some? && (orgId.Some? ==> orgId.value != "")
      && (installationId.Some? ==> IsInstallationNumber(installationId.value))
    case InstallRecord(org, returnTo, startedAt) =>
      org != "" && IsSafePath(returnTo, safe) && startedAt.Some?
  }

  function ReadReturnIntent(stored: Stored, now: Instant, safe: SafeRedirect): Option<ReturnIntent> {
    if !WellFormed(stored, safe) || !IsFresh(stored.startedAt.value, now) then None
    else if stored.InstallRecord? then Some(Install(stored.org, stored.returnTo, stored.startedAt.value))
    else if stored.installationId.Some? && stored.orgId.None? then None
    else Some(Authorize(stored.returnTo, stored.startedAt.value, stored.orgId, stored.installationId))
  }

  function PendingLinkOf(intent: ReturnIntent): Option<PendingLink> {
    if !intent.Authorize? || intent.orgId.None? || intent.installationId.None? then None
    else Some(PendingLink(intent.orgId.value, intent.installationId.value))
  }

  function OrgOf(intent: ReturnIntent): Option<OrgId> {
    match intent
    case Authorize(_, _, orgId, _) => orgId
    case Install(org, _, _) => Some(org)
  }

  function BackPath(intent: Option<ReturnIntent>): string {
    match intent
    case None => DEFAULT_SIGNED_IN_PATH
    case Some(i) => i.returnTo
  }

  // ----- Storage.

  /** What is read back of something saved is that same intent, and fresh. */
  lemma ReadBack(intent: ReturnIntent, now: Instant, safe: SafeRedirect)
    ensures var r := ReadReturnIntent(Written(intent), now, safe);
            r.Some? ==> r.value == intent && IsFresh(intent.startedAt, now) && IsSafePath(intent.returnTo, safe)
  {
  }

  predicate WellFormedPending(pending: Option<PendingLink>) {
    pending.Some? ==> pending.value.orgId != "" && 1 <= pending.value.installationId <= 9007199254740991
  }

  /** Midnight at the start of a date, in milliseconds since the epoch. */
  function MidnightOf(date: CalendarDate): Instant
    requires IsDate(date)
  {
    86400000 * DayNumber(date)
  }

  /** Those are the instants of the years 0000 to 9999. */
  lemma FourDigitYears(t: Instant)
    ensures HasFourDigitYear(t)
            <==> MidnightOf(CalendarDate(0, 1, 1)) <= t < MidnightOf(CalendarDate(9999, 12, 31)) + 86400000
  {
  }

  /** An authorize intent survives storage exactly when it is fresh, its path a fixpoint, and its link well formed. */
  lemma AuthorizeSurvives(started: Instant, returnTo: string, pending: Option<PendingLink>, now: Instant,
                          safe: SafeRedirect)
    ensures var intent := AuthorizeIntent(started, returnTo, pending, safe);
            ReadReturnIntent(Written(intent), now, safe) == Some(intent)
            <==> && HasFourDigitYear(started) && 0 <= now - started <= 900000
                 && safe(safe(returnTo)) == safe(returnTo) && WellFormedPending(pending)
  {
  }

  lemma InstallSurvives(started: Instant, org: OrgId, returnTo: string, now: Instant, safe: SafeRedirect)
    ensures var intent := InstallIntent(started, org, returnTo, safe);
            ReadReturnIntent(Written(intent), now, safe) == Some(intent)
            <==> && HasFourDigitYear(started) && 0 <= now - started <= 900000
                 && safe(safe(returnTo)) == safe(returnTo) && org != ""
  {
  }

  /**
   Whatever the tab's storage holds, by anyone's hand: an intent is read exactly from its own record, fresh, of a path
   on this site, its organization named, and an installation only beside an organization.
   */
  lemma ReadsExactly(stored: Stored, now: Instant, safe: SafeRedirect, intent: ReturnIntent)
    ensures ReadReturnIntent(stored, now, safe) == Some(intent)
            <==> && 0 <= now - intent.startedAt <= 900000 && safe(intent.returnTo) == intent.returnTo
                 && match intent
                    case Install(org, returnTo, startedAt) =>
                      stored == InstallRecord(org, returnTo, Some(startedAt)) && org != ""
                    case Authorize(returnTo, startedAt, org, id) =>
                      && stored == AuthorizeRecord(returnTo, Some(startedAt), org, id)
                      && (org.Some? ==> org.value != "")
                      && (id.Some? ==> org.Some? && 1 <= id.value <= 9007199254740991)
  {
  }

  // ----- Retrying.

  /** The intent setting off again records. */
  function RetryIntent(intent: ReturnIntent, now: Instant, safe: SafeRedirect): ReturnIntent {
    if intent.Install? then InstallIntent(now, intent.org, intent.returnTo, safe)
    else AuthorizeIntent(now, intent.returnTo, PendingLinkOf(intent), safe)
  }

  /**
   Setting off again records the same intent but for its start, exactly for safe paths and when an authorize
   intent names both an organization and an installation or neither.
   */
  lemma RetryRecordsSame(intent: ReturnIntent, now: Instant, safe: SafeRedirect)
    ensures RetryIntent(intent, now, safe) == intent.(startedAt := now)
            <==> safe(intent.returnTo) == intent.returnTo
                 && (intent.Authorize? ==> (intent.orgId.Some? <==> intent.installationId.Some?))
  {
  }
}
