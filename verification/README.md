# Pallet dashboard: verified model

A Dafny 4.11 model of the dashboard's domain and application logic, with proofs of what that logic is for.
`dafny verify dfyconfig.toml` checks all of it.

What is modelled, module by module:

- **Notification feed.** `NotificationCache` edits cached offset pages and lists them without repeats,
  `NotificationFeed` loads pages while the server's list grows at its head and loses items, `NotificationOrder` says
  in what order they show, `MarkRead` holds the optimistic handlers over the query cache, `MarkRuns` interleaves
  single marks, `MarkAllRuns` a mark of everything with them, and `NotificationDays` groups a list under day headings
  over the calendar arithmetic of `CivilDates`.
- **Branch names and root directories.** `Regex` gives look-ahead patterns a denotational match semantics over
  code points (section 22.2 of ECMA-262); `BranchName` and `RootDirectory` hold the pattern and the ordered
  procedure for each, and say exactly where they agree. `JsStrings` and `TextSearch` are UTF-16 strings and
  their searches.
- **Repository links.** `BuildSettings` diffs settings, and `TuneRepoLink` runs any number of clients against a
  versioned server whose links are disconnected, linked again and deleted.
- **GitHub round trip.** `ReturnIntents` and `GitHubCallback` record and read, `GitHubRedirect` settles one
  redirect in one tab, `GitHubRuns` says what every run of that tab keeps, and `InstallationIds` reads ids.
- **Membership.** `Permissions` has the rules beside the service's own, and `Membership` is the transition system
  whose steps are the actions those rules offer.
- **Normal forms.** `CanonicalJson` orders JSON keys over `StableSort`; `Slugs` derives, checks and suggests slugs.
- **Printers and parsers.** `UriComponents` is percent-encoded UTF-8, `LastOrganization` a cookie and a browser's
  jar, `OrgPaths` organization paths.
- **Attention list.** `Attention` builds and ranks it.
- **Session refresh.** `SessionRefresh` is the protocol by which concurrent requests refresh one session under a
  lease, identity's replies lost or not; `SessionRuns` says what every interleaving keeps, `SessionOutcomes` which
  outcome each request is given and what its steps write, `SessionFlight` when a token is exchanged twice, and
  `SessionDeletions` when a request deletes a session not its own.

Objects and handlers that change state are classes and methods, each proved against a function that the lemmas
are about. What the source asks of its surroundings is a parameter: the service's answers, the clock, the time
zone's calendar (any that never gives a later instant an earlier date), the locale's comparison (any consistent
one), `safeRedirect`, and the folding of names (`normalize`, dropping marks, lower-casing).

## Where a promise needs a condition

Each of these has a lemma under the condition, and a second lemma, or the other half of an equivalence, for what
happens without it.

- The two definitions of a branch name, and of a root directory, part on U+2028 and U+2029, which `.` does not
  match: rules broken past such a character escape the pattern (`PatternOnly`, `SeparatorHidesPeriods`). The byte
  and unit limits are the other difference, the one the source's comments name.
- `Date.UTC` counts years 0 to 99 from 1900. As of January 7th 2000 or later that puts no day heading on a list
  twice, whatever its dates; as of any earlier date but those before the year 0 and the first of the year 100, some
  list repeats one (`HeadingsApartExactly`, `EarlyTodayRepeats`).
- The unread count drifts when it was smaller than the number of unread marks in flight, because it is cut off at
  zero (`ShortCountDrifts`).
- Paging misses an item exactly when a deletion ahead of it takes it from the head of the page to come to before that
  page, until arrivals carry it back (`MissedExactly`, `DeletionSkips`).
- A failed mark of everything puts back what the lists showed before it, and so undoes marks made meanwhile unless an
  exact condition on them holds (`RollbackUndoesNothingExactly`, `RollbackUndoesMark`).
- A disconnected link's row is deleted after some months, and a new one counts its versions from zero: a client that
  tunes what it read of the deleted one can change a link it never read (`MadeOnReadExactly`,
  `ForgottenVersionsRepeat`).
- An authorize intent holding an organization without an installation reads back, but a retry of it forgets the
  organization (`RetryRecordsSame`).
- A GitHub authorize page that came back with an installation would make the tab hop again, and could without end
  (`InstallationHopsAgain`, `HopsWithoutEnd`).
- A directory parsed from text with white space before a dropped trailing slash is stored with that white space,
  and parses to something else (`ReparseStable`).
- `localeCompare` takes canonically equivalent names for equal (section 22.1.3.12 of ECMA-262). A document has one
  canonical form for its meaning exactly when no two different names in one of its objects are taken for equal
  (`OneFormExactly`); the form is idempotent regardless.
- A refresh token is exchanged twice, both requests hearing of it, once a lease runs out on a request at any of the four
  stages that need it (`LeaseRunningOutDoubles`, `EveryStageNeedsLease`). It is exchanged again with no lease running
  out when identity's reply was lost or unreadable, or comes of a call long given up (`UnheardRepeats`, `LateRepeats`).
  With the store's compare-and-set each session stored is still made from the one stored right before it
  (`EveryReplacementFollows`).
- A rejected refresh token, or one spent on another user's tokens, deletes the session whatever is stored by then. So
  it ends a session that another request has just renewed, once a lease runs out at any of the five stages of a request
  that holds it (`LeaseRunningOutDeletes`, `EveryStageNeedsUnbroken`), and it undoes a step-up that replaced that token
  while the request was asking (`RejectionEndsStepUp`).
- A request that reads an expired session deletes whatever is stored when it gets to that. The store drops a session at
  its expiry; were its clock behind, a session just renewed would go (`DeletionEndsItsOwn`, `DiscardingEndsRenewed`).

## Model

| member | source | states |
|---|---|---|
| `NotificationCache.LoadedNotifications` | `web/src/modules/notifications/presentation/notification-cache.ts:67-76` | the loop over a growing set and list gives each loaded id's first copy, in page order (`Loaded`) |
| `NotificationCache.DistinctMeaning` | `web/src/modules/notifications/presentation/notification-cache.ts:63-76` | no id is listed twice, and every loaded id is listed |
| `NotificationCache.LoadedWithRead` | `web/src/modules/notifications/presentation/notification-cache.ts:32-38` | marking one read on every page is marking it in the de-duplicated list, however many pages hold it |
| `NotificationCache.LoadedWithNotification` | `web/src/modules/notifications/presentation/notification-cache.ts:20-30` | putting one back on every page is putting it back in the de-duplicated list |
| `NotificationCache.LoadedWithAllRead` | `web/src/modules/notifications/presentation/notification-cache.ts:40-42` | marking everything read on every page is marking the de-duplicated list |
| `NotificationCache.LoadedWithoutNotification` | `web/src/modules/notifications/presentation/notification-cache.ts:44-51` | dropping one from every page is filtering it out of the de-duplicated list |
| `NotificationCache.EmptiedShowsNothing` | `web/src/modules/notifications/presentation/notification-cache.ts:53-61` | an emptied list shows nothing, counts nothing and has no page left to load |
| `NotificationCache.RemovalConservesUnloaded` | `web/src/modules/notifications/presentation/notification-cache.ts:44-51` | removing a loaded notification leaves a page's total minus the number of distinct loaded ones unchanged exactly when that total was positive, for any page's total |
| `NotificationCache.RollbackExact` | `web/src/modules/notifications/presentation/notification-cache.ts:20-38` | putting the given notification back after its mark restores the pages exactly when every loaded copy was that notification |
| `NotificationOrder.NothingMissed` | `web/src/modules/notifications/presentation/queries.ts:24-30` | over every run of arrivals at the head, page loads, deletions and cache edits in which no deletion makes an item slip past a page to come: of what existed at the first load and still does the list shows a gap-free, in-order, duplicate-free prefix, as long as the pages reach, and all of it once a page is the last |
| `NotificationFeed.ServedPageMeaning` | `web/src/modules/notifications/presentation/queries.ts:24-30` | a served page holds 20 items at most, is the first exactly as page 0, and the last exactly when none comes after it |
| `NotificationOrder.StepKeepsInv` | `web/src/modules/notifications/presentation/queries.ts:24-30` | each such arrival, load, deletion, drop or edit keeps the paging invariant |
| `NotificationFeed.MissedStep` | `web/src/modules/notifications/presentation/queries.ts:24-30` | exactly how each step changes whether an item is missed: arrivals can push it back to a page to come, only a deletion ahead of it can make it slip past, loads, edits and drops change nothing |
| `NotificationFeed.MissedExactly` | `web/src/modules/notifications/presentation/queries.ts:24-30` | over every run, what existed at the first load and is still on the server is missed exactly when a deletion ahead of it moved its index below the next offset before it was loaded and no arrival has carried it back since; once a page was the last, just those are not shown |
| `NotificationFeed.SteadyExactly` | `web/src/modules/notifications/presentation/queries.ts:24-30` | the runs in which no deletion makes an item slip past are exactly those in which nothing that existed at the first load is ever missed |
| `NotificationFeed.DeletionSkips` | `web/src/modules/notifications/presentation/notification-cache.ts:63-66` | so it happens in a run: the first page loaded, the newest deleted and dropped, the second page loaded, and one still on the server is missed |
| `MarkRead.NotificationQueries.MarkReadMutate` | `web/src/modules/notifications/presentation/use-notification-mutations.ts:47-54` | the new lists and count are `OnMutate` of the old ones |
| `MarkRead.MutateMeaning` | `web/src/modules/notifications/presentation/use-notification-mutations.ts:47-54` | so every list held shows the same, that one read since then unless it was already, and the count drops by one unless it was read or the count zero |
| `MarkRead.NotificationQueries.MarkReadSuccess` | `web/src/modules/notifications/presentation/use-notification-mutations.ts:55-64` | the new lists and count are `OnSettled` of the old ones: gone drops it everywhere, read changes nothing |
| `MarkRead.SuccessMeaning` | `web/src/modules/notifications/presentation/use-notification-mutations.ts:55-64` | so a mark on what is gone drops it alone from what each list shows, one from each page's total, and leaves the count; a mark that went through changes nothing more |
| `MarkRead.NotificationQueries.MarkReadError` | `web/src/modules/notifications/presentation/use-notification-mutations.ts:65-71` | the new lists and count are `OnSettled` of the old ones: put back everywhere, the count one up if it was unread |
| `MarkRead.FailedMeaning` | `web/src/modules/notifications/presentation/use-notification-mutations.ts:65-71` | so wherever its id is shown the notification is as given, all else as it was, and it is counted again if it was unread |
| `MarkRead.NotificationQueries.MarkAllReadMutate` | `web/src/modules/notifications/presentation/use-notification-mutations.ts:84-96` | the loop leaves the lists and count that `AllRead` makes of the old ones, and answers with a snapshot of exactly what was there; `AllReadMeaning` says what those lists show |
| `MarkRead.AllReadMeaning` | `web/src/modules/notifications/presentation/use-notification-mutations.ts:84-96` | so the count is zero, the unread list shows nothing and has no page left to load, and the list of all shows the same ones in the same order, each read since then unless it was already |
| `MarkRead.NotificationQueries.MarkAllReadError` | `web/src/modules/notifications/presentation/use-notification-mutations.ts:100-104` | the new lists and count are `OnAllFailed` of the old ones |
| `MarkRead.PutAllMeaning` | `web/src/modules/notifications/presentation/use-notification-mutations.ts:100-104` | so every list of the snapshot goes back to what it was; a list the snapshot lacks stays |
| `MarkRead.NotificationQueries.MarkAllReadFails` | `web/src/modules/notifications/presentation/use-notification-mutations.ts:84-104` | a failed mark-all changes nothing |
| `MarkRuns.OutcomesAlone` | `web/src/modules/notifications/presentation/use-notification-mutations.ts:27-73` | after every interleaving of marks on distinct notifications each copy is read, absent or as given according to its own outcome alone; and the count is the first one less the unread marks that have not failed, when it was at least the number of unread marks |
| `MarkRuns.ShortCountDrifts` | `web/src/modules/notifications/domain/notification.ts:32-34` | the condition on the count is needed: from any smaller count, beginning every mark and failing every one leaves the number of marks, not the first count |
| `MarkAllRuns.RollbackUndoesNothingExactly` | `web/src/modules/notifications/presentation/use-notification-mutations.ts:47-104` | whatever marks begin and end while everything is being marked, a failure of that leaves every list to their own outcomes exactly when none of those since changed a loaded copy (none gone, none begun on an unread one unless it failed, none put back but what was there), and the count exactly when as many unread ones count as did before |
| `MarkAllRuns.RollbackUndoesMark` | `web/src/modules/notifications/presentation/use-notification-mutations.ts:100-104` | so it can undo one: a notification marked read while everything was being marked is unread in the list again |
| `NotificationDays.GroupByDay` | `web/src/modules/notifications/domain/notification-days.ts:57-76` | the loop that pushes onto the last group or opens another gives `Grouped` |
| `NotificationDays.GroupedPartition` | `web/src/modules/notifications/domain/notification-days.ts:53-76` | the groups are non-empty, neighbours have different keys, their concatenation is the input in order, and each entry is under its own day, an undated one under that of the entry before |
| `NotificationDays.CalledExactly` | `web/src/modules/notifications/domain/notification-days.ts:36-47` | a date is called today exactly when it is not before it, yesterday exactly one date before it, this week exactly two to six dates before it, by the calendar each is counted in, and else by its own month |
| `NotificationDays.DistinctHeadings` | `web/src/modules/notifications/domain/notification-days.ts:10-14` | for any newest-first list in any monotone calendar all headings are distinct, not just neighbouring ones, as of January 7th 2000 or later (and as of a date before the year 0 or the first of the year 100) |
| `NotificationDays.HeadingsApartExactly` | `web/src/modules/notifications/domain/notification-days.ts:36-49` | those are exactly the dates as of which every newest-first list in every monotone calendar gets each heading once |
| `NotificationDays.EarlyTodayRepeats` | `web/src/modules/notifications/domain/notification-days.ts:36-38` | as of January 2nd 100 to January 6th 2000 some newest-first list repeats a heading, `Date.UTC` counting years 0 to 99 from 1900 |
| `NotificationDays.KeyInjective` | `web/src/modules/notifications/domain/notification-days.ts:49-51` | days as of one date have the same key only when they are the same day or month |
| `CivilDates.NextDateIsNextDay` | `web/src/modules/notifications/domain/notification-days.ts:36-38` | the day number grows by one from each calendar date to the next, across months and leap years |
| `CivilDates.MonthStarts` | `web/src/modules/notifications/domain/notification-days.ts:36-38` | months begin on the days of the year that section 21.4.1 of ECMA-262 lists, one later after February of a leap year |
| `CivilDates.DayNumberMonotone` | `web/src/modules/notifications/domain/notification-days.ts:36-38` | day numbers are ordered exactly as dates |
| `CivilDates.EpochDayMeaning` | `web/src/modules/notifications/domain/notification-days.ts:36-38` | rounding `Date.UTC` by the day gives the day number of the date it counts |
| `CivilDates.EpochDayOrder` | `web/src/modules/notifications/domain/notification-days.ts:36-47` | epoch days are ordered exactly as the dates they are counted as |
| `CivilDates.EpochDayCounts` | `web/src/modules/notifications/domain/notification-days.ts:36-38` | stepping `days` dates on from January 1st 1970 reaches a date whose epoch day is `days` |
| `BranchName.ViolationMeaning` | `web/src/modules/repo-links/domain/branch-name.ts:32-49` | the ordered checker accepts exactly the names that are non-empty, at most 255 UTF-8 bytes, free of forbidden characters and obey every rule, said of code points |
| `BranchName.FirstBroken` | `web/src/modules/repo-links/domain/branch-name.ts:32-49` | what the checker says of a name is the complaint of the first of its nine rules that the name breaks, each said of its code points |
| `BranchName.Utf8LengthMeaning` | `web/src/modules/repo-links/domain/branch-name.ts:34-36` | the length checked is the length of the UTF-8 text, a lone surrogate replaced |
| `BranchName.LookAheadMeaning` | `web/src/modules/repo-links/domain/branch-name.ts:8-12` | each of the ten look-aheads can match exactly when the first line has what it refuses |
| `BranchName.PatternMeaning` | `web/src/modules/repo-links/domain/branch-name.ts:8-12` | the pattern matches exactly the texts of 1 to 255 allowed code points whose first line obeys every rule |
| `BranchName.CheckerImpliesPattern` | `web/src/modules/repo-links/domain/branch-name.ts:4-12` | whatever the checker accepts, the pattern accepts, for every string |
| `BranchName.PatternAndChecker` | `web/src/modules/repo-links/domain/branch-name.ts:4-12` | with no U+2028 or U+2029 in it, a name is accepted by the checker exactly when the pattern matches and it has at most 255 bytes |
| `BranchName.PatternOnly` | `web/src/modules/repo-links/domain/branch-name.ts:8-49` | exactly which names the pattern accepts and the checker refuses: allowed characters and a first line that obeys, but too many bytes or a rule broken past the first line |
| `BranchName.SeparatorHidesPeriods` | `web/src/modules/repo-links/domain/branch-name.ts:8-12` | such a name exists: U+2028 hides a double period from every look-ahead |
| `RootDirectory.ViolationMeaning` | `web/src/modules/repo-links/domain/root-directory.ts:28-44` | the ordered checker accepts exactly the empty string and the strings of at most 255 units of allowed characters that obey every rule on raw slashes and periods |
| `RootDirectory.PlainComplaints` | `web/src/modules/repo-links/domain/root-directory.ts:28-38` | a directory too long is told that first, an absolute one that next, and one with a parent segment that once every character is allowed |
| `RootDirectory.CharacterComplaint` | `web/src/modules/repo-links/domain/root-directory.ts:34-37` | of the others the first forbidden character decides what the checker says |
| `RootDirectory.SegmentComplaint` | `web/src/modules/repo-links/domain/root-directory.ts:39-42` | and of those, last, the first segment that is empty or a period |
| `RootDirectory.PatternMeaning` | `web/src/modules/repo-links/domain/root-directory.ts:5-8` | the pattern matches exactly the empty text and those of at most 255 allowed code points whose first line obeys every rule |
| `RootDirectory.CheckerImpliesPattern` | `web/src/modules/repo-links/domain/root-directory.ts:4-8` | whatever the checker accepts, the pattern accepts, for every string |
| `RootDirectory.PatternAndChecker` | `web/src/modules/repo-links/domain/root-directory.ts:4-8` | with no U+2028 or U+2029 in it, the checker accepts exactly what the pattern matches within 255 UTF-16 units |
| `RootDirectory.PatternOnly` | `web/src/modules/repo-links/domain/root-directory.ts:5-44` | exactly which directories the pattern accepts and the checker refuses |
| `RootDirectory.SeparatorHidesPeriods` | `web/src/modules/repo-links/domain/root-directory.ts:5-8` | such a directory exists: U+2028 hides a climb from every look-ahead |
| `RootDirectory.NormalizeValid` | `web/src/modules/repo-links/domain/root-directory.ts:50-53` | a valid directory stays valid when normalized, has no trailing slash, and normalizing again changes nothing |
| `RootDirectory.SegmentsOfValid` | `web/src/modules/repo-links/domain/root-directory.ts:28-53` | the segments of a valid directory join to it, and none is empty, `.` or contains `..` |
| `RootDirectory.StaysBeneathRoot` | `web/src/modules/repo-links/domain/root-directory.ts:28-53` | walking any number of its first segments from the root, with `..` climbing, only ever descends into them |
| `RootDirectory.ReparseStable` | `web/src/modules/repo-links/domain/root-directory.ts:55-62` | parsing what the schema stored changes nothing exactly unless white space came before a dropped trailing slash |
| `BuildSettings.ChangeLeadsToNext` | `web/src/modules/repo-links/domain/build-settings.ts:31-46` | applying the change gives exactly the settings asked for, and the change is empty exactly when they were already so |
| `BuildSettings.ApplyMerges` | `web/src/modules/repo-links/domain/build-settings.ts:31-38` | applied to any other settings, the change is merged into them field by field: what the form changed of what it was filled from, over the others as they are |
| `BuildSettings.StoredSettingsReparse` | `web/src/modules/repo-links/domain/build-settings.ts:7-11` | settings that were parsed parse to themselves when the directory carries no surrounding white space |
| `BuildSettings.ParsedExactly` | `web/src/modules/repo-links/domain/build-settings.ts:7-11` | what a form is read as, and when it is: its branch trimmed, obeying the rules of one, and its directory trimmed, the root or obeying the rules of one, without one trailing slash |
| `TuneRepoLink.Tune` | `web/src/modules/repo-links/application/tune-repo-link.ts:23-34` | the read, diff, versioned write and re-read on a conflict leave the server and answer as `TuneOutcome` does; `AnswersExactly` says which answer that is |
| `TuneRepoLink.AnswersExactly` | `web/src/modules/repo-links/application/tune-repo-link.ts:23-34` | whatever the server holds, the client read and becomes of both calls: what the server holds afterwards, and an answer is given if and only if it is called for: changed meanwhile with the link as the server has it where the version differs, the refusal of a link missing or disconnected, a lost call's or the re-read's own error, an invalid form's, and else the link updated |
| `TuneRepoLink.RowSteps` | `services/git-integration-service/src/main/java/io/pallet/gitintegration/repolink/RepoLinkRepository.java:161-187` | linking makes a missing or disconnected link active as asked for, from version 0 or one version on, and leaves an active one; only a disconnected row is ever deleted |
| `TuneRepoLink.LinkServer.Tune` | `services/git-integration-service/src/main/java/io/pallet/gitintegration/repolink/RepoLinkService.java:170-205` | a link missing or disconnected is refused with `REPO_LINK_NOT_FOUND` and a stale version with `CONCURRENT_MODIFICATION`, either changing nothing; a change of nothing is answered with the link as it is; any other is applied and bumps the version, whether or not its reply arrives |
| `TuneRepoLink.AcceptedAsSubmitted` | `web/src/modules/repo-links/application/tune-repo-link.ts:23-34` | a change accepted, its reply lost or not, of a client that has read the row there is was made on the very revision of the active link it read, and leaves exactly the submitted settings one version on and all else as it is |
| `TuneRepoLink.NoLostUpdates` | `web/src/modules/repo-links/application/tune-repo-link.ts:8-34` | over every run of any number of clients, with replies lost, upkeep that makes no new version, disconnecting, linking again and deletion of the row, in which nobody tunes what they read of a deleted row: each accepted change was made on the very revision of the active link stored right before it and each re-link on the disconnected one; and the final settings are the last submitted and the fold of all these edits |
| `TuneRepoLink.RowStays` | `services/git-integration-service/src/main/java/io/pallet/gitintegration/repolink/RepoLinkRepository.java:161-187` | while no row is deleted every run is such a run, and its history goes back to the first link |
| `TuneRepoLink.MadeOnReadExactly` | `web/src/modules/repo-links/application/tune-repo-link.ts:23-34` | an accepted change was made on what its client had read always of a client that has read the row there is, and of one that read a deleted row exactly when that revision was the same |
| `TuneRepoLink.ForgottenVersionsRepeat` | `services/git-integration-service/src/main/java/io/pallet/gitintegration/retention/RetentionRepository.java:102-113` | that condition is needed: once a disconnected row is deleted and the app linked anew, versions start over, and a client that read version 0 of the deleted one changes a link it never read, whenever what it sends is not there already |
| `TuneRepoLink.UpdatedHoldsSubmitted` | `web/src/modules/repo-links/application/tune-repo-link.ts:15-29` | an updated outcome holds the settings submitted: those of the server when something was sent, those read when nothing was |
| `InstallationIds.AcceptsExactlyDecimals` | `web/src/modules/github/domain/installation.ts:68-75` | a text gives an id exactly when it is the canonical decimal of one from 1 to 2^53 - 1, double rounding included |
| `ReturnIntents.ReadBack` | `web/src/modules/github/domain/return-intent.ts:91-112` | what is read back of a stored intent is that intent, fresh and safe, or nothing |
| `ReturnIntents.ReadsExactly` | `web/src/modules/github/domain/return-intent.ts:55-112` | whatever storage holds, an intent is read exactly from its own record, 0 to 900000 ms old, with a path `safeRedirect` fixes, its organization named, and an installation only beside an organization |
| `ReturnIntents.AuthorizeSurvives` | `web/src/modules/github/domain/return-intent.ts:73-112` | a recorded authorize intent reads back as itself exactly when it was recorded in the years 0000 to 9999, 0 to 900000 ms have passed, its path is one `safeRedirect` fixes and its pending link is well formed |
| `ReturnIntents.InstallSurvives` | `web/src/modules/github/domain/return-intent.ts:82-112` | a recorded install intent reads back as itself exactly when it was recorded in the years 0000 to 9999, 0 to 900000 ms have passed, its path is one `safeRedirect` fixes and its organization is named |
| `ReturnIntents.RetryRecordsSame` | `web/src/modules/github/application/retry-github-redirect.ts:9-18` | a retry records the same intent up to its start time exactly when its path is safe and, to authorize, it has an organization exactly when it has an installation |
| `GitHubCallback.CallbackQueryFrom` | `web/src/modules/github/domain/callback.ts:33-41` | the loop keeps the first value of each of the five parameters and nothing else |
| `GitHubCallback.QueryMeaning` | `web/src/modules/github/domain/callback.ts:17-41` | those are the first values named `code`, `state`, `installation_id`, `setup_action` and `error` |
| `GitHubCallback.ClassifiedIsWellFormed` | `web/src/modules/github/domain/callback.ts:43-63` | whatever the query text, a link is only asked for with an id of 1 to 2^53 - 1 and, if any, a grant of two opaque tokens |
| `GitHubCallback.ClassifiedExactly` | `web/src/modules/github/domain/callback.ts:43-63` | exactly when each kind of callback is answered, whatever order the checks are made in; everything else is invalid |
| `GitHubCallback.BareInstallation` | `web/src/modules/github/domain/callback.ts:33-63` | a redirect with nothing in it but an installation id from 1 to 2^53 - 1 is a bare installation of that id |
| `GitHubRedirect.GitHubTab.StartsAuthorization` | `web/src/modules/github/application/start-authorization.ts:18-22` | asks for the handoff and saves the intent only when one is given |
| `GitHubRedirect.GitHubTab.StartsInstall` | `web/src/modules/github/application/start-install.ts:18-22` | asks for the handoff and saves the intent only when one is given |
| `GitHubRedirect.StartsExactly` | `web/src/modules/github/application/start-authorization.ts:18-22` | either start asks for a handoff once, for its organization to install, and answers with it; the tab stores the intent, from now and on a safe path, exactly when one is given |
| `GitHubRedirect.GitHubTab.Settles` | `web/src/modules/github/application/finish-github-redirect.ts:54-91` | the calls, the store and the outcome or error of settling are those of `Settle` |
| `GitHubRedirect.GitHubTab.FinishGitHubRedirect` | `web/src/modules/github/application/finish-github-redirect.ts:93-111` | reads, clears, settles and classifies errors as `Finish` does, call by call; `EndingsExactly` says which ending that gives |
| `GitHubRedirect.GitHubTab.RetriesGitHubRedirect` | `web/src/modules/github/application/retry-github-redirect.ts:13-17` | starts the same kind of round trip again |
| `GitHubRedirect.RetriesExactly` | `web/src/modules/github/application/retry-github-redirect.ts:13-17` | a retry asks for an install of the intent's organization, or for an authorization keeping organization and installation only where it had both |
| `GitHubRedirect.StoreAfterFinish` | `web/src/modules/github/application/finish-github-redirect.ts:43-112` | after a redirect is settled the store is non-empty exactly when the outcome is authorizing |
| `GitHubRedirect.HopKeepsIntent` | `web/src/modules/github/application/finish-github-redirect.ts:71-84` | the intent a hop saves keeps the organization and return path of the one read, with the installation that came back |
| `GitHubRedirect.HopsExactly` | `web/src/modules/github/application/finish-github-redirect.ts:71-84` | a redirect hops exactly when an installation came back alone, for an intent with an organization, and its link was refused for want of an authorization, which could be started |
| `GitHubRedirect.FinishCalls` | `web/src/modules/github/application/finish-github-redirect.ts:43-112` | one redirect asks for at most one link, for the organization of the fresh stored intent and the installation GitHub or the intent named, spends GitHub's grant at most once and first, and without such an intent asks for nothing; the outcome shown is true of the service's answers, a retry is the intent itself, and only an expired session is thrown on |
| `GitHubRedirect.EndingsExactly` | `web/src/modules/github/application/finish-github-redirect.ts:54-111` | whatever the store, the query and the service's answers: exactly these calls are made, in order, and an ending is given if and only if the callback, the intent read and the answers of the calls made call for it: a refused state, an expired session and any other failure of the last call apart, each quiet callback its own, starting again without an intent it can use, connected without a link and installed with one, back to the intent's path or `/orgs` |
| `GitHubRuns.EveryRunKeepsInv` | `web/src/modules/github/application/finish-github-redirect.ts:43-112` | over every run of starts, redirects and retries no saved intent is consumed twice or causes two links, and every link is for the organization its intent recorded at most 15 minutes before |
| `GitHubRuns.LinksOfFreshTab` | `web/src/modules/github/application/finish-github-redirect.ts:43-46` | from a fresh tab, every link the service was really asked for is such a link, for an organization some start in this tab named |
| `GitHubRuns.HopsAtMostOnce` | `web/src/modules/github/application/finish-github-redirect.ts:71-84` | while the authorize page sends back no bare installation, no user action leads to more than one automatic hop |
| `GitHubRuns.HopSettles` | `web/src/modules/github/application/finish-github-redirect.ts:54-112` | settling an authorize intent on any callback but a bare installation never hops again and leaves the store empty |
| `GitHubRuns.InstallationHopsAgain` | `web/src/modules/github/application/finish-github-redirect.ts:71-84` | that condition is needed: an installation coming back to a hop's fresh intent, refused for want of authorization, hops once more |
| `GitHubRuns.HopsWithoutEnd` | `web/src/modules/github/application/finish-github-redirect.ts:71-84` | and so without end: were every redirect a bare installation refused for want of authorization, one install started in a fresh tab leads to any number of automatic hops |
| `GitHubRuns.RetriesOffered` | `web/src/modules/github/application/finish-github-redirect.ts:106-110` | over a run a retry is offered exactly once some redirect was refused its state or failed otherwise, and of the intent it had read |
| `Membership.MemberActions` | `web/src/modules/members/domain/member-actions.ts:13-25` | the actions pushed step by step are `Offered`; `OfferedExactly` says which those are |
| `Membership.OfferedExactly` | `web/src/modules/members/domain/member-actions.ts:13-25` | for every member, viewer and role an action is in the menu exactly when the service's check of it throws nothing: leaving for the active viewer, and for another active member removal, any other role and ownership; none twice and in the menu's order |
| `Membership.EnabledExactly` | `services/org-team-service/src/main/java/io/pallet/orgteam/security/MembershipPolicy.java:18-59` | in every state the dashboard offers a step exactly when the service would take it, invites included |
| `Membership.StepChanges` | `web/src/modules/members/application/transfer-ownership.ts:5` | each step changes the roles and invites it names, a transfer both its target's and its actor's role, and no others |
| `Permissions.OffersMirrorChecks` | `services/org-team-service/src/main/java/io/pallet/orgteam/security/MembershipPolicy.java:18-59` | the dashboard offers removal, role change, transfer and invite roles exactly where the service's checks throw nothing |
| `Permissions.InvitableIsGrantable` | `web/src/modules/invites/domain/create-invite.ts:21-24` | filtering to invitable roles drops none of the grantable ones |
| `Membership.OneOwnerAlways` | `web/src/shared/domain/permissions.ts:47-62` | every reachable state has exactly one active owner, no invite is for an owner and every invite for an admin was an owner's |
| `Membership.OwnerAfter` | `web/src/modules/members/application/transfer-ownership.ts:5` | the owner changes only by a transfer, to its target |
| `Membership.OnlyBelowTouched` | `web/src/shared/domain/permissions.ts:47-62` | no step changes or removes an active member other than its actor unless strictly below the actor |
| `Membership.AdminsHaveGrants` | `web/src/modules/members/domain/member-actions.ts:13-25` | an admin of a reachable state was one at the start or was made one on the way by an owner's step or an invite an owner had made |
| `Membership.InvitesHaveOwners` | `web/src/modules/invites/domain/create-invite.ts:21-24` | a pending invite for an admin was there from the start or was made by the owner of that moment |
| `CanonicalJson.CanonicalKeepsMeaning` | `web/scripts/generate-api-types.ts:23-33` | canonicalizing changes no array order, scalar or property at any depth |
| `CanonicalJson.CanonicalUnique` | `web/scripts/generate-api-types.ts:23-33` | documents equal up to key order at every depth have the same canonical form, when the locale's order tells apart the names within each object of one of them |
| `CanonicalJson.NormalForm` | `web/scripts/generate-api-types.ts:23-33` | canonical forms of such a document and any other are equal exactly when the two are equal up to key order |
| `CanonicalJson.OneFormExactly` | `web/scripts/generate-api-types.ts:23-33` | a document shares its canonical form with every document of its meaning exactly when the order tells apart the names within each of its objects; so too when all of them list array indices first, as objects in memory do |
| `CanonicalJson.IndicesLeadExactly` | `web/scripts/generate-api-types.ts:26-30` | entries come with array indices first and ascending exactly when `Object.fromEntries` leaves them as they are |
| `CanonicalJson.CanonicalIsOrdered` | `web/scripts/generate-api-types.ts:26-30` | in every object of the canonical form array indices come first, ascending by value, and the other keys never descend by the order itself |
| `CanonicalJson.CanonicalIdempotent` | `web/scripts/generate-api-types.ts:23-33` | canonicalizing again changes nothing, whatever consistent order the locale gives |
| `CanonicalJson.EqualNamesKeepOrder` | `web/scripts/generate-api-types.ts:28` | in any object any two names the order takes for equal keep the order they came in, so listing them the other way gives another form |
| `CanonicalJson.SortThenMap` | `web/scripts/generate-api-types.ts:26-30` | sorting entries and then mapping them, as the generator does, is mapping and then sorting |
| `StableSort.SortedMeaning` | `web/src/modules/overview/domain/attention.ts:45-48` | sorting permutes, orders and keeps equals in the order given |
| `StableSort.OrderedUnique` | `web/src/modules/overview/domain/attention.ts:45-48` | there is only one such arrangement |
| `Slugs.PatternIsSlug` | `web/src/shared/domain/slug.ts:3-4` | the pattern matches exactly words of lower-case letters and digits with single hyphens between |
| `Slugs.SlugIsJoinedWords` | `web/src/shared/domain/slug.ts:10-20` | a slug is the words of the folded name joined by hyphens, cut to 63 characters, one less when the cut would end in a hyphen |
| `Slugs.SlugFromNameValid` | `web/src/shared/domain/slug.ts:10-20` | every name gives the empty string or a slug of at most 63 characters, the empty one exactly when nothing in it is usable |
| `Slugs.SlugOfSlug` | `web/src/shared/domain/slug.ts:10-20` | every valid slug is its own slug |
| `Slugs.SlugIdempotent` | `web/src/shared/domain/slug.ts:10-20` | deriving again changes nothing |
| `Slugs.ValidSlugMeaning` | `web/src/modules/identity/domain/signup.ts:18-30` | the schema accepts exactly slugs of at most 63 characters |
| `Slugs.SuggestionsMeaning` | `web/src/modules/identity/domain/signup.ts:32-38` | at most two distinct valid slugs from the candidates, none the taken one, the derived one first when it qualifies, and fewer than two only when no other candidate qualifies |
| `Slugs.SuggestedExactly` | `web/src/modules/identity/domain/signup.ts:15-38` | offered are, in this order, the first two of the slug of the organization's name and the taken slug with each of its three suffixes that are valid and not the taken one |
| `Slugs.TakenSlugGetsTwo` | `web/src/modules/identity/domain/signup.ts:32-38` | a taken valid slug of at most 59 characters always gets two alternatives |
| `UriComponents.DecodeEncoded` | `web/src/modules/organizations/presentation/last-organization.ts:10-32` | decoding undoes encoding on every string that can be encoded |
| `UriComponents.DecodesExactly` | `web/src/modules/organizations/presentation/last-organization.ts:25-29` | decoding answers exactly what a text spells, unit by unit but for escaped UTF-8 in digits of either case, and throws at a text that spells nothing: overlong forms, surrogates and broken escapes among them |
| `UriComponents.EncodingFails` | `web/src/modules/organizations/presentation/last-organization.ts:10-14` | encoding fails exactly at a lone surrogate |
| `UriComponents.EncodedComponent` | `web/src/modules/organizations/domain/org-paths.ts:13-16` | encoded text has only unreserved characters and percent signs, and is empty only for the empty string |
| `LastOrganization.Recovered` | `web/src/modules/organizations/presentation/last-organization.ts:10-32` | the id is read back from any cookie string that holds the printed pair after pairs of other names, with anything after it and white space around it |
| `LastOrganization.CookieTexts` | `web/src/modules/organizations/presentation/last-organization.ts:1-18` | the printed texts, character by character: name, encoded id, age, path, same-site and, if secure, secure |
| `LastOrganization.RememberedMeaning` | `web/src/modules/organizations/presentation/last-organization.ts:20-32` | reading the text of a whole jar decodes the jar's own cookie of that name, or gives none |
| `LastOrganization.CookieStores` | `web/src/modules/organizations/presentation/last-organization.ts:10-14` | storing the printed text stores the encoded id under the name and expires nothing |
| `LastOrganization.ClearedRemoves` | `web/src/modules/organizations/presentation/last-organization.ts:16-18` | storing the cleared text removes that cookie |
| `LastOrganization.Document.RememberLastOrganization` | `web/src/modules/organizations/presentation/last-organization.ts:10-14` | afterwards that organization is remembered and other cookies are as before; a lone surrogate in the id throws first |
| `LastOrganization.Document.ForgetLastOrganization` | `web/src/modules/organizations/presentation/last-organization.ts:34-38` | that organization is no longer remembered, any other one still is, and other cookies are as before |
| `OrgPaths.SectionMeaning` | `web/src/modules/organizations/domain/org-paths.ts:7-21` | a path is in a section exactly when it is `/orgs/`, a non-empty segment, a slash and the section's name, then the end, `/`, `?` or `#` |
| `OrgPaths.SectionReadBack` | `web/src/modules/organizations/domain/org-paths.ts:13-21` | the section is read back from every printed path, except that an empty id hides it |
| `OrgPaths.NamesRead` | `web/src/modules/organizations/domain/org-paths.ts:3-16` | the root and the five sections, character by character |
| `OrgPaths.PathsDiffer` | `web/src/modules/organizations/domain/org-paths.ts:13-16` | different organizations or sections have different paths |
| `OrgPaths.SwitchKeepsSection` | `web/src/modules/organizations/domain/org-paths.ts:23-26` | switching to a non-empty id keeps the section, and only the last switch counts |
| `Attention.BuildAttentionList` | `web/src/modules/overview/application/build-attention-list.ts:30-60` | the items pushed by two loops and four conditions, ranked |
| `Attention.CandidatesMeaning` | `web/src/modules/overview/application/build-attention-list.ts:37-57` | an item is a candidate exactly when it is worth saying on its own account: nothing is said of what is unknown |
| `Attention.CandidatesInOrder` | `web/src/modules/overview/application/build-attention-list.ts:39-57` | faults come first in the apps' order, then suspensions in the installations', then each of the others in its place and at most once |
| `Attention.ToneMeaning` | `web/src/modules/overview/domain/attention.ts:29-41` | a repository cut off is red, one archived or an installation suspended amber, and all else blue |
| `Attention.RankedByTone` | `web/src/modules/overview/domain/attention.ts:45-48` | the stable severity sort is all red, then all amber, then all blue, each as they came; ranking takes its first five |
| `Attention.RankKeepsWorst` | `web/src/modules/overview/domain/attention.ts:45-48` | at most five are kept, something is dropped only when five are, nothing dropped is more severe than anything kept, and within a tone the first to come are kept in order |
| `Attention.PromptOrFault` | `web/src/modules/overview/application/build-attention-list.ts:39-55` | the prompt to link a repository never appears beside a repository fault |
| `SessionRuns.EveryReplacementFollows` | `web/src/modules/session/application/replace-tokens.ts:13-20` | over every interleaving, leases running out and replies lost or not: each session stored was made from the very one stored right before it, with the tokens a step-up was given or those its request heard identity issue for that session's own refresh token; no session comes twice, all are of the same user, and a request is only ever answered with a session that was stored |
| `SessionRuns.SameTokenSameSession` | `web/src/modules/session/infrastructure/redis-session-store.ts:13-18` | finding the expected refresh token in the store is finding the very session that was read |
| `SessionRuns.NeverAnsweredOlder` | `web/src/modules/session/application/resolve-session.ts:77-112` | no request is answered with a session older than the one stored when it began |
| `SessionRuns.EveryRequestEnds` | `web/src/modules/session/application/resolve-session.ts:77-112` | a request takes at most 52 steps of its own, asks identity at most once, and is never blocked but by an answer of identity |
| `SessionOutcomes.OutcomesExactly` | `web/src/modules/session/application/resolve-session.ts:48-112` | over every interleaving, leases running out, replies and sessions lost or not: a request that is done was given an outcome if and only if what its own steps met calls for it, said of the store, the lock, the clock and identity's answer at each, with the bounds written out: expired, a session refreshed or not, failed, or timed out after 50 polls |
| `SessionOutcomes.FreshReadAnswered` | `web/src/modules/session/application/resolve-session.ts:105-111` | a first read that finds a session not past refreshing whose access token has more than 30 seconds left is answered with that session, unrefreshed, and changes nothing |
| `SessionOutcomes.RefreshedExactly` | `web/src/modules/session/application/resolve-session.ts:63-66` | over every run a request is answered with a session as refreshed exactly when it put that session in the store, and it puts at most one there |
| `SessionOutcomes.OwnStepWrites` | `web/src/modules/session/application/resolve-session.ts:53-112` | over every run each own step deletes the session exactly where it was past refreshing or identity turned the request down, replaces it exactly where the store still had the token exchanged, and else leaves it; the lock is taken if free, and given back at the end if still its own |
| `SessionOutcomes.AnswerRecords` | `web/src/modules/session/application/resolve-session.ts:53-61` | over every run identity is asked with the refresh token of the session read under the lock, and its answer alone touches neither the store nor the lock |
| `SessionOutcomes.EmptyExactly` | `web/src/modules/session/application/resolve-session.ts:57-74` | over every run the session is gone exactly if it was lost or some request deleted it: no step brings one back |
| `SessionFlight.ExchangedOnce` | `web/src/modules/session/application/resolve-session.ts:87-98` | while no lease runs out on a request that still needs it, at most one request is past taking the lock and short of having done with its exchange, no refresh token is exchanged twice with both requests hearing of it, and no exchange follows one that was heard of unless identity made it for a call long given up |
| `SessionFlight.HeardExchangedOnce` | `web/src/modules/session/application/resolve-session.ts:87-98` | so where no reply is lost no refresh token is exchanged twice at all |
| `SessionFlight.UnheardRepeats` | `web/src/modules/session/infrastructure/identity-token-issuer.ts:39-62` | replies have to be heard for that: from a session just created, no lease running out, identity issues tokens any number of times for one refresh token, each reply but the last lost or unreadable |
| `SessionFlight.LateRepeats` | `web/src/modules/session/application/resolve-session.ts:53-60` | so may a call given up: acted on late, it exchanges a token again after the next request heard of its exchange |
| `SessionFlight.LeaseRunningOutDoubles` | `web/src/modules/session/infrastructure/refresh-lock.ts:16-35` | that a lease lasts is needed: wherever a calm run leaves a request that still needs its lease with the stored session in hand, or about to read it, and that session due, the lease running out lets another request exchange the same token, both hearing of it |
| `SessionFlight.EveryStageNeedsLease` | `web/src/modules/session/application/resolve-session.ts:87-98` | and each of the four stages is reached, by a calm run from a session just created, and doubles the exchange from there |
| `SessionDeletions.RejectionEndsItsOwn` | `web/src/modules/session/application/resolve-session.ts:57-61` | in runs without a step-up where a lease outlasts the deletion too, a request about to delete finds only the session it took its token from |
| `SessionDeletions.DeletionEndsItsOwn` | `web/src/modules/session/application/resolve-session.ts:57-110` | if also nobody reads a session past its expiry, no request deletes but on a rejection, and then only the session it took its token from |
| `SessionDeletions.LeaseRunningOutDeletes` | `web/src/modules/session/application/resolve-session.ts:57-72` | that a lease lasts is needed: wherever a request holding the lock has the stored session in hand, or is about to read it, and that session is due, its lease running out leads to one request deleting the session another has just renewed |
| `SessionDeletions.EveryStageNeedsUnbroken` | `web/src/modules/session/application/resolve-session.ts:57-72` | and so at each of the five stages of a request holding the lock: from a session just created a run without a step-up reaches it, and no more than its lease runs out there |
| `SessionDeletions.RejectionEndsStepUp` | `web/src/modules/session/application/resolve-session.ts:57-61` | with a step-up the deletion is not confined: from a session just created, one that lands while the first request is asking is undone when identity rejects the token it replaced, no lease running out |
| `SessionDeletions.DiscardingEndsRenewed` | `web/src/modules/session/application/resolve-session.ts:107-110` | that nobody reads a session past its expiry is needed too: a request that does so deletes what another has renewed, with no lease running out and no step-up |

## Left out

- React components, copy, routing, toasts, focus and styles: user interface around the functions above.
- HTTP clients, wire schemas, OpenAPI fetching and writing: calls are ports whose answers are parameters.
- React Query's scheduling, refetching and invalidation: only the cache writes the handlers make are steps, each atomic.
- Query keys and `filterOf`: a cached list is named by its filter directly.
- Storage that refuses or clears itself: the intent store and the cookie jar keep what is written.
- `safeRedirect` and the URL parser behind it: a parameter, assumed to fix nothing in particular.
- `returnDestination`'s rewriting of a query string: a destination is its path and its flag.
- Unicode tables, `Intl` and `localeCompare`: parameters with the assumptions stated in the lemmas that need them.
- Regular-expression captures: `sectionOf`'s one capture is a function of its own, greedy and without backtracking.
- Signs and exponents in `Number(text)`: the pattern before it admits digits only.
- JSON numbers as doubles: they are opaque to `canonical`, here reals.
- Who may link, tune or take over a repository link, and what GitHub is asked first: a refusal of that kind changes nothing, and what a client never tunes changes in two steps, one that bumps the version and one, of access checks and accepted heads, that does not.
- Sign-in, sign-out and proxying around the session protocol: signing out and eviction are one step that empties the store.
- Reauthentication's retries and revocation: a step-up is the one accepted replacement, its tokens made at any instant.
- Session encryption and cookie parsing: a session that cannot be read is one that is gone.
- Attributes of a cookie beyond `Max-Age`, and the exact white space a browser trims around a pair: the jar drops what strings call white space.
- Invites of one person twice, expiry and the removed members' list: an invite is a role and who may accept it is anyone not active.
- Email normalization, page-number clamping, viewing removed members and one-line use cases: settled by reading one branch.
