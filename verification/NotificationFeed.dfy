/**
 Loading the ALL list page by page while new notifications keep arriving at its head and old ones are deleted: the
 paging rule of web/src/modules/notifications/presentation/queries.ts over the cache of NotificationCache.
 */
module NotificationFeed {
  import opened Options
  import opened Notifications
  import opened NotificationCache

  const PAGE_SIZE: nat := NOTIFICATIONS_PAGE_SIZE

  function Ids(items: seq<Notification>): (ids: seq<DeliveryId>)
    ensures |ids| == |items| && forall i :: 0 <= i < |items| ==> ids[i] == items[i].id
  {
    seq(|items|, i requires 0 <= i < |items| => items[i].id)
  }

  function Min(a: int, b: int): int { if a < b then a else b }

  /** The ids an offset page of the server's list holds. */
  function Slice(server: seq<DeliveryId>, number: nat): seq<DeliveryId> {
    server[Min(number * PAGE_SIZE, |server|)..Min((number + 1) * PAGE_SIZE, |server|)]
  }

  /** The page a client asks for next; none once the last one said it was the last. */
  function NextPageParam(pages: seq<Page>): Option<nat> {
    if pages == [] then Some(0)
    else
      var last := pages[|pages| - 1];
      if last.isLast then None else Some(last.page + 1)
  }

  /** The server's newest-first ids, what the client has loaded of them, and what the server has deleted. */
  datatype Feed = Feed(server: seq<DeliveryId>, pages: seq<Page>, gone: set<DeliveryId>)

  /** A mark the service answers with "gone" drops its notification from the pages loaded. */
  datatype Step =
    | Arrive(newer: seq<DeliveryId>)
    | Deleted(id: DeliveryId)
    | Load(items: seq<Notification>)
    | MarkRead(id: DeliveryId, at: Instant)
    | PutBack(notification: Notification)
    | MarkAllRead(at: Instant)
    | Dropped(id: DeliveryId)

  predicate NoRepeats(ids: seq<DeliveryId>) {
    forall i, j :: 0 <= i < j < |ids| ==> ids[i] != ids[j]
  }

  predicate Enabled(feed: Feed, step: Step) {
    match step
    case Arrive(newer) => NoRepeats(newer) && forall id :: id in newer ==> id !in feed.server && id !in feed.gone
    case Deleted(id) => id in feed.server
    case Load(items) =>
      // Whatever the service says of them by now, they are the ones of that page.
      NextPageParam(feed.pages).Some? && Ids(items) == Slice(feed.server, NextPageParam(feed.pages).value)
    case Dropped(id) => id in feed.gone
    case _ => true
  }

  function ServedPage(server: seq<DeliveryId>, number: nat, items: seq<Notification>): Page {
    Page(items, number, PAGE_SIZE, |server|, (|server| + PAGE_SIZE - 1) / PAGE_SIZE, number == 0,
         (number + 1) * PAGE_SIZE >= |server|)
  }

  /** A page says it is the last exactly when no item comes after it, and counts as many pages as the items fill. */
  lemma ServedPageMeaning(server: seq<DeliveryId>, number: nat, items: seq<Notification>)
    ensures var page := ServedPage(server, number, items);
            && page.items == items && page.page == number && page.size == 20 && page.totalItems == |server|
            && (page.isFirst <==> number == 0) && (page.isLast <==> |server| <= 20 * number + 20)
            && 20 * page.totalPages >= |server| > 20 * (page.totalPages - 1)
  {
  }

  /** Marks, their rollbacks and a mark of everything may come at any moment. */
  lemma EditsAnyMoment(feed: Feed, id: DeliveryId, notification: Notification, at: Instant)
    ensures Enabled(feed, MarkRead(id, at)) && Enabled(feed, PutBack(notification)) && Enabled(feed, MarkAllRead(at))
  {
  }

  function Removed(ids: seq<DeliveryId>, id: DeliveryId): seq<DeliveryId> {
    if ids == [] then []
    else if ids[0] == id then Removed(ids[1..], id)
    else [ids[0]] + Removed(ids[1..], id)
  }

  function AsCached(pages: seq<Page>): Cached { Some(Pages(pages, [])) }

  function Edited(pages: seq<Page>, step: Step): Cached
    requires step.MarkRead? || step.PutBack? || step.MarkAllRead? || step.Dropped?
  {
    match step
    case MarkRead(id, at) => WithRead(AsCached(pages), id, at)
    case PutBack(notification) => WithNotification(AsCached(pages), notification)
    case MarkAllRead(at) => WithAllRead(AsCached(pages), at)
    case Dropped(id) => WithoutNotification(AsCached(pages), id)
  }

  function Next(feed: Feed, step: Step): Feed
    requires Enabled(feed, step)
  {
    match step
    case Arrive(newer) => feed.(server := newer + feed.server)
    case Deleted(id) => feed.(server := Removed(feed.server, id), gone := feed.gone + {id})
    case Load(items) =>
      feed.(pages := feed.pages + [ServedPage(feed.server, NextPageParam(feed.pages).value, items)])
    case _ => feed.(pages := Edited(feed.pages, step).value.pages)
  }

  predicate CanRun(feed: Feed, steps: seq<Step>)
    decreases |steps|
  {
    steps == [] || (Enabled(feed, steps[0]) && CanRun(Next(feed, steps[0]), steps[1..]))
  }

  /** The feed after the first `n` steps. */
  function At(feed: Feed, steps: seq<Step>, n: nat): Feed
    requires n <= |steps| && CanRun(feed, steps)
    decreases |steps|
  {
    if n == 0 then feed else At(Next(feed, steps[0]), steps[1..], n - 1)
  }

  function After(feed: Feed, steps: seq<Step>): Feed
    requires CanRun(feed, steps)
  {
    At(feed, steps, |steps|)
  }

  /** Nothing loaded yet. */
  function Start(base: seq<DeliveryId>): Feed { Feed(base, [], {}) }

  /** The ids of the list shown. */
  function Shown(pages: seq<Page>): seq<DeliveryId> { Ids(Loaded(AsCached(pages))) }

  // ----- What is missed.

  function Offset(feed: Feed): nat { |feed.pages| * PAGE_SIZE }

  predicate AllLoaded(feed: Feed) { feed.pages != [] && feed.pages[|feed.pages| - 1].isLast }

  function IndexOf(ids: seq<DeliveryId>, id: DeliveryId): (k: nat)
    requires id in ids
    ensures k < |ids| && ids[k] == id
  {
    if ids[0] == id then 0 else 1 + IndexOf(ids[1..], id)
  }

  /** No page still to come starts at or before it. */
  predicate Passed(feed: Feed, id: DeliveryId) {
    id in feed.server && (AllLoaded(feed) || IndexOf(feed.server, id) < Offset(feed))
  }

  predicate Missed(feed: Feed, id: DeliveryId) {
    Passed(feed, id) && id !in Shown(feed.pages)
  }

  /** A deletion ahead of it moves `id`, first of the page to come, to before that page. */
  predicate SlipsPast(feed: Feed, step: Step, id: DeliveryId) {
    && step.Deleted? && step.id in feed.server && !AllLoaded(feed) && id !in Shown(feed.pages)
    && Offset(feed) < |feed.server| && feed.server[Offset(feed)] == id
    && IndexOf(feed.server, step.id) < Offset(feed)
  }

  // ----- Removing an id.

  lemma {:induction false} RemovedMembers(ids: seq<DeliveryId>, id: DeliveryId)
    ensures forall x :: x in Removed(ids, id) <==> x in ids && x != id
  {
    if ids != [] {
      RemovedMembers(ids[1..], id);
      assert ids == [ids[0]] + ids[1..];
    }
  }

  lemma {:induction false} RemovedAbsent(ids: seq<DeliveryId>, id: DeliveryId)
    requires id !in ids
    ensures Removed(ids, id) == ids
  {
    if ids != [] {
      RemovedAbsent(ids[1..], id);
    }
  }

  lemma {:induction false} RemovedAt(ids: seq<DeliveryId>, k: nat)
    requires NoRepeats(ids) && k < |ids|
    ensures Removed(ids, ids[k]) == ids[..k] + ids[k + 1..]
  {
    var rest := ids[1..];
    if k == 0 {
      assert ids[0] !in rest;
      RemovedAbsent(rest, ids[0]);
    } else {
      assert NoRepeats(rest) && rest[k - 1] == ids[k];
      RemovedAt(rest, k - 1);
      assert ids[..k] + ids[k + 1..] == [ids[0]] + (rest[..k - 1] + rest[k..]);
    }
  }

  lemma RemovedNoRepeats(ids: seq<DeliveryId>, k: nat)
    requires NoRepeats(ids) && k < |ids|
    ensures NoRepeats(Removed(ids, ids[k]))
  {
    RemovedAt(ids, k);
  }

  lemma {:induction false} IdsWithout(items: seq<Notification>, id: DeliveryId)
    ensures Ids(Without(items, id)) == Removed(Ids(items), id)
  {
    if items != [] {
      IdsWithout(items[1..], id);
      assert Ids(items)[1..] == Ids(items[1..]);
      IdsConcat([items[0]], Without(items[1..], id));
    }
  }

  lemma IdsConcat(a: seq<Notification>, b: seq<Notification>)
    ensures Ids(a + b) == Ids(a) + Ids(b)
  {
  }

  // ----- What a step does to the list shown.

  lemma {:induction false} FlatConcat(pages: seq<Page>, page: Page)
    ensures Flat(pages + [page]) == Flat(pages) + page.items
  {
    if pages == [] {
      assert pages + [page] == [page];
      assert Flat([]) == [] && page.items + [] == page.items;
    } else {
      assert (pages + [page])[1..] == pages[1..] + [page];
      FlatConcat(pages[1..], page);
    }
  }

  /** The same pages but for their items and counts. */
  predicate Alike(pages: seq<Page>, edited: seq<Page>) {
    && |edited| == |pages|
    && forall k :: 0 <= k < |pages| ==> edited[k].page == pages[k].page && edited[k].isLast == pages[k].isLast
  }

  /** Edits show the same ids, but for one that is dropped. */
  lemma EditShows(feed: Feed, step: Step)
    requires Enabled(feed, step) && !step.Arrive? && !step.Deleted? && !step.Load?
    ensures var edited := Next(feed, step).pages;
            && Alike(feed.pages, edited)
            && Shown(edited) == if step.Dropped? then Removed(Shown(feed.pages), step.id) else Shown(feed.pages)
  {
    EditShowsMapped(feed.pages, step);
    assert Edited(feed.pages, step) == AsCached(Next(feed, step).pages);
  }

  lemma EditShowsMapped(pages: seq<Page>, step: Step)
    requires step.MarkRead? || step.PutBack? || step.MarkAllRead? || step.Dropped?
    ensures var edited := Edited(pages, step);
            && edited.Some? && edited.value.pageParams == [] && Alike(pages, edited.value.pages)
            && Ids(Loaded(edited)) == if step.Dropped? then Removed(Shown(pages), step.id) else Shown(pages)
  {
    EditedAlike(pages, step);
    var data, edited := AsCached(pages), Edited(pages, step);
    match step
    case MarkRead(id, at) =>
      LoadedWithRead(data, id, at);
      IdsOfMapped(Loaded(data), ReadIf(id, at));
    case PutBack(notification) =>
      LoadedWithNotification(data, notification);
      IdsOfMapped(Loaded(data), ReplacedBy(notification));
    case MarkAllRead(at) =>
      LoadedWithAllRead(data, at);
      IdsOfMapped(Loaded(data), ReadAt(at));
    case Dropped(id) =>
      LoadedWithoutNotification(data, id);
      IdsWithout(Loaded(data), id);
  }

  lemma IdsOfMapped(items: seq<Notification>, f: Notification -> Notification)
    requires KeepsIds(f)
    ensures Ids(Mapped(items, f)) == Ids(items)
  {
  }

  lemma EditedAlike(pages: seq<Page>, step: Step)
    requires step.MarkRead? || step.PutBack? || step.MarkAllRead? || step.Dropped?
    ensures var edited := Edited(pages, step);
            edited.Some? && edited.value.pageParams == [] && Alike(pages, edited.value.pages)
  {
  }

  lemma ShownMembers(pages: seq<Page>)
    ensures forall id :: id in Shown(pages) <==> id in Ids(Flat(pages))
  {
    DistinctMeaning(Flat(pages), {});
    forall id
      ensures id in Shown(pages) <==> id in Ids(Flat(pages))
    {
      HasIdMeaning(Flat(pages), id);
      HasIdMeaning(Loaded(AsCached(pages)), id);
    }
  }

  lemma HasIdMeaning(items: seq<Notification>, id: DeliveryId)
    ensures id in Ids(items) <==> HasId(items, id)
  {
    if HasId(items, id) {
      var i :| 0 <= i < |items| && items[i].id == id;
      assert Ids(items)[i] == id;
    }
  }

  lemma PageShows(pages: seq<Page>, page: Page)
    ensures forall id :: id in Shown(pages + [page]) <==> id in Shown(pages) || id in Ids(page.items)
  {
    ShownMembers(pages);
    ShownMembers(pages + [page]);
    FlatConcat(pages, page);
    IdsConcat(Flat(pages), page.items);
  }

  // ----- When an item is missed.

  predicate Sound(feed: Feed) {
    && NoRepeats(feed.server)
    && (forall id :: id in feed.server ==> id !in feed.gone)
    && forall k :: 0 <= k < |feed.pages| ==> feed.pages[k].page == k
  }

  lemma StepKeepsSound(feed: Feed, step: Step)
    requires Sound(feed) && Enabled(feed, step)
    ensures Sound(Next(feed, step))
  {
    match step
    case Arrive(newer) =>
      forall i, j | 0 <= i < j < |newer + feed.server|
        ensures (newer + feed.server)[i] != (newer + feed.server)[j]
      {
        assert i < |newer| <= j ==> newer[i] in newer && feed.server[j - |newer|] in feed.server;
      }
    case Deleted(id) =>
      RemovedNoRepeats(feed.server, IndexOf(feed.server, id));
      RemovedMembers(feed.server, id);
    case Load(_) =>
    case _ => EditShows(feed, step);
  }

  /** The step that shows what is not shown yet, of ids still on the server, is loading their page. */
  lemma LoadMisses(feed: Feed, items: seq<Notification>, id: DeliveryId)
    requires NoRepeats(feed.server) && Enabled(feed, Load(items)) && id in feed.server
    requires NextPageParam(feed.pages) == Some(|feed.pages|)
    ensures Missed(Next(feed, Load(items)), id) <==> Missed(feed, id)
  {
    var number, page := |feed.pages|, ServedPage(feed.server, |feed.pages|, items);
    PageShows(feed.pages, page);
    SliceHolds(feed.server, number, id);
    var next := Next(feed, Load(items));
    assert next.pages == feed.pages + [page] && AllLoaded(next) == page.isLast && !AllLoaded(feed);
  }

  lemma SliceHolds(server: seq<DeliveryId>, number: nat, id: DeliveryId)
    requires NoRepeats(server) && id in server
    ensures id in Slice(server, number) <==> number * PAGE_SIZE <= IndexOf(server, id) < (number + 1) * PAGE_SIZE
  {
    var i, slice := IndexOf(server, id), Slice(server, number);
    var from := Min(number * PAGE_SIZE, |server|);
    if number * PAGE_SIZE <= i < (number + 1) * PAGE_SIZE {
      assert slice[i - from] == id;
    }
  }

  lemma ArriveMisses(feed: Feed, newer: seq<DeliveryId>, id: DeliveryId)
    requires Sound(feed) && Enabled(feed, Arrive(newer)) && id in feed.server
    ensures Missed(Next(feed, Arrive(newer)), id)
            <==> Missed(feed, id) && (AllLoaded(feed) || IndexOf(feed.server, id) + |newer| < Offset(feed))
  {
    StepKeepsSound(feed, Arrive(newer));
    assert (newer + feed.server)[|newer| + IndexOf(feed.server, id)] == id;
    assert IndexOf(newer + feed.server, id) == |newer| + IndexOf(feed.server, id);
  }

  lemma IndexOfRemoved(ids: seq<DeliveryId>, other: DeliveryId, id: DeliveryId)
    requires NoRepeats(ids) && other in ids && id in ids && other != id
    ensures id in Removed(ids, other)
    ensures IndexOf(Removed(ids, other), id)
            == if IndexOf(ids, id) < IndexOf(ids, other) then IndexOf(ids, id) else IndexOf(ids, id) - 1
  {
    var i, d := IndexOf(ids, id), IndexOf(ids, other);
    RemovedAt(ids, d);
    RemovedNoRepeats(ids, d);
    assert Removed(ids, other)[if i < d then i else i - 1] == id;
  }

  /** Where a deletion leaves an id, against an offset. */
  lemma RemovedPasses(server: seq<DeliveryId>, other: DeliveryId, id: DeliveryId, offset: nat)
    requires NoRepeats(server) && other in server && id in server && other != id
    ensures id in Removed(server, other)
    ensures IndexOf(Removed(server, other), id) < offset
            <==> IndexOf(server, id) < offset
                 || (offset < |server| && server[offset] == id && IndexOf(server, other) < offset)
  {
    IndexOfRemoved(server, other, id);
    IndexIs(server, id, offset);
  }

  lemma DeletedMisses(feed: Feed, other: DeliveryId, id: DeliveryId)
    requires NoRepeats(feed.server) && other in feed.server && id in feed.server && other != id
    ensures Missed(Next(feed, Deleted(other)), id) <==> Missed(feed, id) || SlipsPast(feed, Deleted(other), id)
  {
    RemovedPasses(feed.server, other, id, Offset(feed));
    var next := Next(feed, Deleted(other));
    assert AllLoaded(next) == AllLoaded(feed) && Offset(next) == Offset(feed);
  }

  lemma IndexIs(ids: seq<DeliveryId>, id: DeliveryId, k: nat)
    requires NoRepeats(ids) && id in ids
    ensures IndexOf(ids, id) == k <==> k < |ids| && ids[k] == id
  {
  }

  lemma EditMisses(feed: Feed, step: Step, id: DeliveryId)
    requires Enabled(feed, step) && !step.Arrive? && !step.Deleted? && !step.Load?
    requires id in feed.server && !(step.Dropped? && step.id == id)
    ensures Missed(Next(feed, step), id) <==> Missed(feed, id)
  {
    var next := Next(feed, step);
    EditShows(feed, step);
    if step.Dropped? {
      RemovedMembers(Shown(feed.pages), step.id);
    }
    assert next.server == feed.server && AllLoaded(next) == AllLoaded(feed) && Offset(next) == Offset(feed);
    assert id in Shown(next.pages) <==> id in Shown(feed.pages);
  }

  /**
   How a step changes whether an item the server keeps is missed: arrivals can push it back to a page still to
   come, only a deletion can make it slip past, and nothing else makes a difference.
   */
  lemma MissedStep(feed: Feed, step: Step, id: DeliveryId)
    requires Sound(feed) && Enabled(feed, step) && id in feed.server && id in Next(feed, step).server
    ensures Missed(Next(feed, step), id)
            <==> match step
                 case Arrive(newer) =>
                   && Missed(feed, id)
                   && (AllLoaded(feed) || IndexOf(feed.server, id) + |newer| < Offset(feed))
                 case Deleted(_) => Missed(feed, id) || SlipsPast(feed, step, id)
                 case _ => Missed(feed, id)
  {
    match step
    case Arrive(newer) => ArriveMisses(feed, newer, id);
    case Deleted(other) =>
      RemovedMembers(feed.server, other);
      DeletedMisses(feed, other, id);
    case Load(items) =>
      assert NextPageParam(feed.pages) == Some(|feed.pages|);
      LoadMisses(feed, items, id);
    case _ => EditMisses(feed, step, id);
  }

  // ----- What a whole run misses.

  lemma {:induction false} AtStep(feed: Feed, steps: seq<Step>, n: nat)
    requires CanRun(feed, steps) && n < |steps|
    ensures Enabled(At(feed, steps, n), steps[n]) && At(feed, steps, n + 1) == Next(At(feed, steps, n), steps[n])
    decreases n
  {
    if n > 0 {
      AtStep(Next(feed, steps[0]), steps[1..], n - 1);
    }
  }

  lemma {:induction false} SoundAt(feed: Feed, steps: seq<Step>, n: nat)
    requires Sound(feed) && CanRun(feed, steps) && n <= |steps|
    ensures Sound(At(feed, steps, n))
    decreases n
  {
    if n > 0 {
      SoundAt(feed, steps, n - 1);
      AtStep(feed, steps, n - 1);
      StepKeepsSound(At(feed, steps, n - 1), steps[n - 1]);
    }
  }

  /** What the server had it keeps or has deleted. */
  lemma {:induction false} KeptOrGone(feed: Feed, steps: seq<Step>, n: nat, id: DeliveryId)
    requires CanRun(feed, steps) && n <= |steps| && id in feed.server
    ensures id in At(feed, steps, n).server || id in At(feed, steps, n).gone
    decreases n
  {
    if n > 0 {
      KeptOrGone(feed, steps, n - 1, id);
      AtStep(feed, steps, n - 1);
      var before, step := At(feed, steps, n - 1), steps[n - 1];
      if step.Deleted? {
        RemovedMembers(before.server, step.id);
      }
    }
  }

  lemma StillThere(feed: Feed, steps: seq<Step>, n: nat, id: DeliveryId)
    requires CanRun(feed, steps) && n < |steps| && id in feed.server && id in At(feed, steps, n + 1).server
    ensures id in At(feed, steps, n).server
  {
    KeptOrGone(feed, steps, n, id);
    AtStep(feed, steps, n);
    var before, step := At(feed, steps, n), steps[n];
    if step.Deleted? {
      RemovedMembers(before.server, step.id);
    }
  }

  /** Step `k` makes it slip past the page to come, and no arrival carries it back until step `n`. */
  ghost predicate SlipsAt(feed: Feed, steps: seq<Step>, k: nat, n: nat, id: DeliveryId)
    requires CanRun(feed, steps) && k < n <= |steps|
  {
    SlipsPast(At(feed, steps, k), steps[k], id) && forall j :: k < j <= n ==> Passed(At(feed, steps, j), id)
  }

  /** `MissedStep`, at a step of the run. */
  lemma MissedStepAt(feed: Feed, steps: seq<Step>, n: nat, id: DeliveryId)
    requires Sound(feed) && CanRun(feed, steps) && n < |steps| && id in feed.server
    requires Passed(At(feed, steps, n + 1), id)
    ensures Missed(At(feed, steps, n + 1), id)
            <==> Missed(At(feed, steps, n), id) || SlipsPast(At(feed, steps, n), steps[n], id)
  {
    StillThere(feed, steps, n, id);
    AtStep(feed, steps, n);
    SoundAt(feed, steps, n);
    MissedStep(At(feed, steps, n), steps[n], id);
  }

  lemma {:induction false} MissedSlipped(feed: Feed, steps: seq<Step>, n: nat, id: DeliveryId)
    requires Sound(feed) && CanRun(feed, steps) && n <= |steps|
    requires id in feed.server && !Missed(feed, id) && Missed(At(feed, steps, n), id)
    ensures exists k: nat :: k < n && SlipsAt(feed, steps, k, n, id)
    decreases n
  {
    if n > 0 {
      MissedStepAt(feed, steps, n - 1, id);
      if SlipsPast(At(feed, steps, n - 1), steps[n - 1], id) {
        assert SlipsAt(feed, steps, n - 1, n, id);
      } else {
        MissedSlipped(feed, steps, n - 1, id);
        var k: nat :| k < n - 1 && SlipsAt(feed, steps, k, n - 1, id);
        assert SlipsAt(feed, steps, k, n, id);
      }
    }
  }

  lemma {:induction false} SlippedMissed(feed: Feed, steps: seq<Step>, k: nat, n: nat, id: DeliveryId)
    requires Sound(feed) && CanRun(feed, steps) && k < n <= |steps| && id in feed.server
    requires SlipsAt(feed, steps, k, n, id)
    ensures Missed(At(feed, steps, n), id)
    decreases n
  {
    assert Passed(At(feed, steps, n), id);
    MissedStepAt(feed, steps, n - 1, id);
    if k < n - 1 {
      assert SlipsAt(feed, steps, k, n - 1, id);
      SlippedMissed(feed, steps, k, n - 1, id);
    }
  }

  /**
   Exactly what a run misses of what existed when loading began and is still on the server: an item is missed when
   a deletion ahead of it took it from the head of the page to come to before that page, and no arrival has carried
   it back since. Once a page said it was the last, just those are not shown.
   */
  lemma MissedExactly(base: seq<DeliveryId>, steps: seq<Step>, id: DeliveryId)
    requires NoRepeats(base) && CanRun(Start(base), steps)
    requires id in base && id in After(Start(base), steps).server
    ensures var final := After(Start(base), steps);
            var slipped := exists k: nat :: k < |steps| && SlipsAt(Start(base), steps, k, |steps|, id);
            && (Missed(final, id) <==> slipped)
            && (AllLoaded(final) ==> (id in Shown(final.pages) <==> !slipped))
  {
    var start, final := Start(base), After(Start(base), steps);
    assert Sound(start) && !Missed(start, id);
    if Missed(final, id) {
      MissedSlipped(start, steps, |steps|, id);
    }
    if k: nat :| k < |steps| && SlipsAt(start, steps, k, |steps|, id) {
      SlippedMissed(start, steps, k, |steps|, id);
    }
  }

  /** No deletion makes any of `base` slip past a page to come. */
  ghost predicate Steady(feed: Feed, steps: seq<Step>, base: seq<DeliveryId>)
    requires CanRun(feed, steps)
  {
    forall k: nat, id :: k < |steps| && id in base ==> !SlipsPast(At(feed, steps, k), steps[k], id)
  }

  /** Those are the runs in which nothing of `base` is missed at any time. */
  lemma SteadyExactly(base: seq<DeliveryId>, steps: seq<Step>)
    requires NoRepeats(base) && CanRun(Start(base), steps)
    ensures Steady(Start(base), steps, base)
            <==> forall n: nat, id :: n <= |steps| && id in base ==> !Missed(At(Start(base), steps, n), id)
  {
    var start := Start(base);
    assert Sound(start) && forall id :: id in base ==> !Missed(start, id);
    if Steady(start, steps, base) {
      forall n: nat, id | n <= |steps| && id in base
        ensures !Missed(At(start, steps, n), id)
      {
        if Missed(At(start, steps, n), id) {
          MissedSlipped(start, steps, n, id);
        }
      }
    } else {
      var k: nat, id :| k < |steps| && id in base && SlipsPast(At(start, steps, k), steps[k], id);
      AtStep(start, steps, k);
      SoundAt(start, steps, k);
      DeletedMisses(At(start, steps, k), steps[k].id, id);
    }
  }

  /** So it happens: delete the newest after the first page, drop it as well, and load the next. */
  lemma DeletionSkips(base: seq<DeliveryId>, first: seq<Notification>, second: seq<Notification>)
    requires NoRepeats(base) && |base| > PAGE_SIZE
    requires Ids(first) == Slice(base, 0) && Ids(second) == Slice(base[1..], 1)
    ensures var steps := [Load(first), Deleted(base[0]), Dropped(base[0]), Load(second)];
            && CanRun(Start(base), steps) && base[PAGE_SIZE] in After(Start(base), steps).server
            && Missed(After(Start(base), steps), base[PAGE_SIZE])
  {
    var s2 := SecondAhead(base, first);
    assert NoRepeats(s2.server) && NextPageParam(s2.pages) == Some(1);
    var s3 := Next(s2, Dropped(base[0]));
    EditMisses(s2, Dropped(base[0]), base[PAGE_SIZE]);
    EditShows(s2, Dropped(base[0]));
    LoadMisses(s3, second, base[PAGE_SIZE]);
    RunCons(s3, Load(second), []);
    RunCons(s2, Dropped(base[0]), [Load(second)] + []);
    RunCons(Next(Start(base), Load(first)), Deleted(base[0]), [Dropped(base[0])] + ([Load(second)] + []));
    RunCons(Start(base), Load(first), [Deleted(base[0])] + ([Dropped(base[0])] + ([Load(second)] + [])));
    assert [Load(first), Deleted(base[0]), Dropped(base[0]), Load(second)]
           == [Load(first)] + ([Deleted(base[0])] + ([Dropped(base[0])] + ([Load(second)] + [])));
  }

  /** The newest is deleted once the first page is loaded. */
  lemma SecondAhead(base: seq<DeliveryId>, first: seq<Notification>) returns (s2: Feed)
    requires NoRepeats(base) && |base| > PAGE_SIZE && Ids(first) == Slice(base, 0)
    ensures Enabled(Next(Start(base), Load(first)), Deleted(base[0]))
    ensures s2 == Next(Next(Start(base), Load(first)), Deleted(base[0]))
    ensures Missed(s2, base[PAGE_SIZE]) && s2 == Feed(base[1..], [ServedPage(base, 0, first)], {base[0]})
  {
    var s1 := Feed(base, [ServedPage(base, 0, first)], {});
    assert Next(Start(base), Load(first)) == s1;
    RemovedAt(base, 0);
    s2 := Next(s1, Deleted(base[0]));
    FirstPageHides(base, first);
    assert SlipsPast(s1, Deleted(base[0]), base[PAGE_SIZE]);
    DeletedMisses(s1, base[0], base[PAGE_SIZE]);
    assert s2.server == base[1..];
  }

  lemma RunCons(feed: Feed, step: Step, rest: seq<Step>)
    requires Enabled(feed, step) && CanRun(Next(feed, step), rest)
    ensures CanRun(feed, [step] + rest) && After(feed, [step] + rest) == After(Next(feed, step), rest)
  {
    assert ([step] + rest)[1..] == rest;
  }

  /** The item right after the first page is at the next offset and not shown. */
  lemma FirstPageHides(base: seq<DeliveryId>, first: seq<Notification>)
    requires NoRepeats(base) && |base| > PAGE_SIZE && Ids(first) == Slice(base, 0)
    ensures SlipsPast(Feed(base, [ServedPage(base, 0, first)], {}), Deleted(base[0]), base[PAGE_SIZE])
  {
    PageShows([], ServedPage(base, 0, first));
    assert [] + [ServedPage(base, 0, first)] == [ServedPage(base, 0, first)];
    SliceHolds(base, 0, base[PAGE_SIZE]);
    IndexIs(base, base[PAGE_SIZE], PAGE_SIZE);
    IndexIs(base, base[0], 0);
    assert Shown([]) == [];
  }
}
