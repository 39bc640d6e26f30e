/**
 The loaded pages of a notification list, the edits made to them, and the list a person sees
 (web/src/modules/notifications/presentation/notification-cache.ts).
 */
module NotificationCache {
  import opened Options
  import opened Notifications

  datatype Page = Page(
    items: seq<Notification>, page: nat, size: nat, totalItems: int, totalPages: int, isFirst: bool, isLast: bool)

  datatype Pages = Pages(pages: seq<Page>, pageParams: seq<nat>)

  type Cached = Option<Pages>

  function Mapped(items: seq<Notification>, f: Notification -> Notification): (r: seq<Notification>)
    ensures |r| == |items| && forall i :: 0 <= i < |items| ==> r[i] == f(items[i])
  {
    if items == [] then [] else [f(items[0])] + Mapped(items[1..], f)
  }

  function Without(items: seq<Notification>, id: DeliveryId): seq<Notification> {
    if items == [] then []
    else if items[0].id == id then Without(items[1..], id)
    else [items[0]] + Without(items[1..], id)
  }

  function MapPages(data: Cached, f: Page -> Page): (r: Cached)
    ensures r.Some? <==> data.Some?
    ensures data.Some? ==> r.value.pageParams == data.value.pageParams
    ensures data.Some? ==> |r.value.pages| == |data.value.pages|
                           && forall i :: 0 <= i < |data.value.pages| ==> r.value.pages[i] == f(data.value.pages[i])
  {
    match data
    case None => None
    case Some(loaded) =>
      Some(loaded.(pages := seq(|loaded.pages|, i requires 0 <= i < |loaded.pages| => f(loaded.pages[i]))))
  }

  /** Every item of every page, page after page. */
  function Flat(pages: seq<Page>): seq<Notification> {
    if pages == [] then [] else pages[0].items + Flat(pages[1..])
  }

  function Items(data: Cached): seq<Notification> {
    if data.None? then [] else Flat(data.value.pages)
  }

  predicate HasId(items: seq<Notification>, id: DeliveryId) {
    exists i :: 0 <= i < |items| && items[i].id == id
  }

  predicate Contains(data: Cached, id: DeliveryId) {
    data.Some? && exists k :: 0 <= k < |data.value.pages| && HasId(data.value.pages[k].items, id)
  }

  function ReplacedBy(notification: Notification): Notification -> Notification {
    (item: Notification) => if item.id == notification.id then notification else item
  }

  function ReadIf(id: DeliveryId, at: Instant): Notification -> Notification {
    (item: Notification) => if item.id == id then MarkedRead(item, at) else item
  }

  function ReadAt(at: Instant): Notification -> Notification {
    (item: Notification) => MarkedRead(item, at)
  }

  function OnItems(f: Notification -> Notification): Page -> Page {
    (page: Page) => page.(items := Mapped(page.items, f))
  }

  function Max(a: int, b: int): int { if a > b then a else b }

  function Dropping(id: DeliveryId): Page -> Page {
    (page: Page) => page.(items := Without(page.items, id), totalItems := Max(0, page.totalItems - 1))
  }

  function WithNotification(data: Cached, notification: Notification): Cached {
    if !Contains(data, notification.id) then data else MapPages(data, OnItems(ReplacedBy(notification)))
  }

  function WithRead(data: Cached, id: DeliveryId, at: Instant): Cached {
    if !Contains(data, id) then data else MapPages(data, OnItems(ReadIf(id, at)))
  }

  function WithAllRead(data: Cached, at: Instant): Cached {
    MapPages(data, OnItems(ReadAt(at)))
  }

  function WithoutNotification(data: Cached, id: DeliveryId): Cached {
    if !Contains(data, id) then data else MapPages(data, Dropping(id))
  }

  function Emptied(data: Cached): Cached {
    if data.None? || data.value.pages == [] then data
    else
      var first := data.value.pages[0];
      Some(Pages([first.(items := [], page := 0, totalItems := 0, totalPages := 0, isFirst := true, isLast := true)],
                 [0]))
  }

  // ----- The list without repeats.

  /** The items whose id is met for the first time, none of them in `seen`. */
  function Distinct(items: seq<Notification>, seen: set<DeliveryId>): seq<Notification> {
    if items == [] then []
    else if items[0].id in seen then Distinct(items[1..], seen)
    else [items[0]] + Distinct(items[1..], seen + {items[0].id})
  }

  function Loaded(data: Cached): seq<Notification> { Distinct(Items(data), {}) }

  method LoadedNotifications(data: Cached) returns (notifications: seq<Notification>)
    ensures notifications == Loaded(data)
  {
    var seen: set<DeliveryId> := {};
    var items := Items(data);
    notifications := [];
    for k := 0 to |items|
      invariant notifications + Distinct(items[k..], seen) == Loaded(data)
    {
      var item := items[k];
      assert items[k..][1..] == items[k + 1..];
      if item.id in seen {
        continue;
      }
      seen := seen + {item.id};
      assert notifications + ([item] + Distinct(items[k + 1..], seen))
             == notifications + [item] + Distinct(items[k + 1..], seen);
      notifications := notifications + [item];
    }
  }

  /** Every id loaded anywhere is listed exactly once. */
  lemma {:induction false} DistinctMeaning(items: seq<Notification>, seen: set<DeliveryId>)
    ensures var r := Distinct(items, seen);
            && (forall i, j :: 0 <= i < j < |r| ==> r[i].id != r[j].id)
            && (forall id :: HasId(r, id) <==> HasId(items, id) && id !in seen)
  {
    if items != [] {
      var head, rest := items[0], items[1..];
      var next := if head.id in seen then seen else seen + {head.id};
      DistinctMeaning(rest, next);
      HasIdCons(head, rest);
      HasIdCons(head, Distinct(rest, next));
      assert items == [head] + rest;
      var r := Distinct(rest, next);
      forall i | 0 <= i < |r|
        ensures r[i].id !in next
      {
        assert HasId(r, r[i].id);
      }
    }
  }

  lemma HasIdCons(head: Notification, rest: seq<Notification>)
    ensures forall id :: HasId([head] + rest, id) <==> head.id == id || HasId(rest, id)
  {
    forall id
      ensures HasId([head] + rest, id) <==> head.id == id || HasId(rest, id)
    {
      var all := [head] + rest;
      assert all[0] == head && forall i :: 0 <= i < |rest| ==> all[i + 1] == rest[i];
    }
  }

  // ----- Edits reach every copy at once: de-duplicating commutes with them.

  ghost predicate KeepsIds(f: Notification -> Notification) {
    forall item :: f(item).id == item.id
  }

  lemma {:induction false} MappedConcat(a: seq<Notification>, b: seq<Notification>, f: Notification -> Notification)
    ensures Mapped(a + b, f) == Mapped(a, f) + Mapped(b, f)
  {
  }

  lemma {:induction false} FlatMapped(pages: seq<Page>, pages': seq<Page>, f: Notification -> Notification)
    requires |pages'| == |pages| && forall i :: 0 <= i < |pages| ==> pages'[i].items == Mapped(pages[i].items, f)
    ensures Flat(pages') == Mapped(Flat(pages), f)
  {
    if pages != [] {
      FlatMapped(pages[1..], pages'[1..], f);
      MappedConcat(pages[0].items, Flat(pages[1..]), f);
    }
  }

  lemma {:induction false} DistinctMapped(items: seq<Notification>, seen: set<DeliveryId>,
                                          f: Notification -> Notification)
    requires KeepsIds(f)
    ensures Distinct(Mapped(items, f), seen) == Mapped(Distinct(items, seen), f)
  {
    if items != [] {
      var next := if items[0].id in seen then seen else seen + {items[0].id};
      DistinctMapped(items[1..], next, f);
      if items[0].id !in seen {
        MappedConcat([items[0]], Distinct(items[1..], next), f);
      }
    }
  }

  /** Any edit of items that keeps their ids is an edit of the list shown. */
  lemma LoadedMapped(data: Cached, f: Notification -> Notification)
    requires KeepsIds(f)
    ensures Loaded(MapPages(data, OnItems(f))) == Mapped(Loaded(data), f)
  {
    if data.Some? {
      FlatMapped(data.value.pages, MapPages(data, OnItems(f)).value.pages, f);
      DistinctMapped(Items(data), {}, f);
    }
  }

  lemma {:induction false} FlatHasId(pages: seq<Page>, id: DeliveryId)
    ensures HasId(Flat(pages), id) <==> exists k :: 0 <= k < |pages| && HasId(pages[k].items, id)
  {
    if pages != [] {
      FlatHasId(pages[1..], id);
      HasIdConcat(pages[0].items, Flat(pages[1..]), id);
      assert pages == [pages[0]] + pages[1..];
      if exists k :: 0 <= k < |pages[1..]| && HasId(pages[1..][k].items, id) {
        var k :| 0 <= k < |pages[1..]| && HasId(pages[1..][k].items, id);
        assert pages[k + 1] == pages[1..][k];
      }
    }
  }

  lemma HasIdConcat(a: seq<Notification>, b: seq<Notification>, id: DeliveryId)
    ensures HasId(a + b, id) <==> HasId(a, id) || HasId(b, id)
  {
    assert forall i :: 0 <= i < |a| ==> (a + b)[i] == a[i];
    assert forall i :: 0 <= i < |b| ==> (a + b)[|a| + i] == b[i];
  }

  lemma ContainsMeaning(data: Cached, id: DeliveryId)
    ensures Contains(data, id) <==> HasId(Items(data), id)
  {
    if data.Some? {
      FlatHasId(data.value.pages, id);
    }
  }

  /** An edit that only touches an id the list lacks leaves it as it is. */
  lemma UntouchedMapped(items: seq<Notification>, f: Notification -> Notification)
    requires forall i :: 0 <= i < |items| ==> f(items[i]) == items[i]
    ensures Mapped(items, f) == items
  {
  }

  /** Marking one read shows as marking it in the de-duplicated list, however many pages hold it. */
  lemma LoadedWithRead(data: Cached, id: DeliveryId, at: Instant)
    ensures Loaded(WithRead(data, id, at)) == Mapped(Loaded(data), ReadIf(id, at))
  {
    if Contains(data, id) {
      LoadedMapped(data, ReadIf(id, at));
    } else {
      NotLoaded(data, id);
      UntouchedMapped(Loaded(data), ReadIf(id, at));
    }
  }

  lemma NotLoaded(data: Cached, id: DeliveryId)
    ensures Contains(data, id) <==> HasId(Loaded(data), id)
  {
    ContainsMeaning(data, id);
    DistinctMeaning(Items(data), {});
  }

  lemma LoadedWithNotification(data: Cached, notification: Notification)
    ensures Loaded(WithNotification(data, notification)) == Mapped(Loaded(data), ReplacedBy(notification))
  {
    if Contains(data, notification.id) {
      LoadedMapped(data, ReplacedBy(notification));
    } else {
      NotLoaded(data, notification.id);
      UntouchedMapped(Loaded(data), ReplacedBy(notification));
    }
  }

  lemma LoadedWithAllRead(data: Cached, at: Instant)
    ensures Loaded(WithAllRead(data, at)) == Mapped(Loaded(data), ReadAt(at))
  {
    LoadedMapped(data, ReadAt(at));
  }

  /** The same pages but for what their items say. */
  predicate SamePaging(was: Cached, now: Cached) {
    match was
    case None => now.None?
    case Some(loaded) =>
      && now.Some? && now.value.pageParams == loaded.pageParams && |now.value.pages| == |loaded.pages|
      && forall k :: 0 <= k < |loaded.pages| ==>
           var page := now.value.pages[k];
           page == loaded.pages[k].(items := page.items) && |page.items| == |loaded.pages[k].items|
  }

  lemma EditsKeepPaging(data: Cached, f: Notification -> Notification)
    ensures SamePaging(data, data) && SamePaging(data, MapPages(data, OnItems(f)))
  {
  }

  /** Emptied, a list shows nothing, says so, and has no page left to load. */
  lemma EmptiedShowsNothing(data: Cached)
    ensures Loaded(Emptied(data)) == []
    ensures Emptied(data).Some? <==> data.Some?
    ensures data.Some? && data.value.pages != [] ==>
              Emptied(data).value == Pages([Page([], 0, data.value.pages[0].size, 0, 0, true, true)], [0])
  {
    if data.Some? && data.value.pages != [] {
      var pages := Emptied(data).value.pages;
      assert Flat(pages[1..]) == [];
      assert Flat(pages) == [];
    }
  }

  lemma {:induction false} WithoutConcat(a: seq<Notification>, b: seq<Notification>, id: DeliveryId)
    ensures Without(a + b, id) == Without(a, id) + Without(b, id)
  {
    if a == [] {
      assert a + b == b;
    } else {
      assert (a + b)[1..] == a[1..] + b;
      WithoutConcat(a[1..], b, id);
    }
  }

  lemma {:induction false} FlatWithout(pages: seq<Page>, pages': seq<Page>, id: DeliveryId)
    requires |pages'| == |pages| && forall i :: 0 <= i < |pages| ==> pages'[i].items == Without(pages[i].items, id)
    ensures Flat(pages') == Without(Flat(pages), id)
  {
    if pages != [] {
      FlatWithout(pages[1..], pages'[1..], id);
      WithoutConcat(pages[0].items, Flat(pages[1..]), id);
    }
  }

  lemma {:induction false} WithoutAbsent(items: seq<Notification>, id: DeliveryId)
    requires !HasId(items, id)
    ensures Without(items, id) == items
  {
    if items != [] {
      HasIdCons(items[0], items[1..]);
      assert items == [items[0]] + items[1..];
      assert items[0].id != id;
      WithoutAbsent(items[1..], id);
    }
  }

  /** Ids that do not occur may be taken as seen. */
  lemma {:induction false} SeenOrGone(items: seq<Notification>, id: DeliveryId, seen: set<DeliveryId>)
    ensures Distinct(Without(items, id), seen + {id}) == Distinct(Without(items, id), seen)
  {
    if items != [] {
      SeenOrGone(items[1..], id, seen);
      if items[0].id != id && items[0].id !in seen {
        var next := seen + {items[0].id};
        SeenOrGone(items[1..], id, next);
        assert seen + {id} + {items[0].id} == next + {id};
      }
    }
  }

  lemma {:induction false} DistinctWithout(items: seq<Notification>, id: DeliveryId, seen: set<DeliveryId>)
    ensures Distinct(Without(items, id), seen) == Without(Distinct(items, seen), id)
  {
    if items != [] {
      var head, rest := items[0], items[1..];
      if head.id in seen {
        DistinctWithout(rest, id, seen);
      } else {
        DistinctWithout(rest, id, seen + {head.id});
        WithoutConcat([head], Distinct(rest, seen + {head.id}), id);
        if head.id == id {
          SeenOrGone(rest, id, seen);
        }
      }
    }
  }

  /** Dropping one shows as dropping it from the de-duplicated list. */
  lemma LoadedWithoutNotification(data: Cached, id: DeliveryId)
    ensures Loaded(WithoutNotification(data, id)) == Without(Loaded(data), id)
  {
    if Contains(data, id) {
      FlatWithout(data.value.pages, WithoutNotification(data, id).value.pages, id);
      DistinctWithout(Items(data), id, {});
    } else {
      NotLoaded(data, id);
      WithoutAbsent(Loaded(data), id);
    }
  }

  lemma {:induction false} WithoutOne(items: seq<Notification>, id: DeliveryId)
    requires forall i, j :: 0 <= i < j < |items| ==> items[i].id != items[j].id
    requires HasId(items, id)
    ensures |Without(items, id)| == |items| - 1
  {
    HasIdCons(items[0], items[1..]);
    assert items == [items[0]] + items[1..];
    if items[0].id == id {
      WithoutAbsent(items[1..], id);
    } else {
      WithoutOne(items[1..], id);
    }
  }

  /**
   Dropping a loaded one keeps "how many are not loaded yet" on exactly those pages that counted any:
   zero is not counted below.
   */
  lemma RemovalConservesUnloaded(data: Cached, id: DeliveryId, k: nat)
    requires Contains(data, id) && k < |data.value.pages|
    ensures WithoutNotification(data, id).Some? && |WithoutNotification(data, id).value.pages| == |data.value.pages|
    ensures WithoutNotification(data, id).value.pages[k].totalItems - |Loaded(WithoutNotification(data, id))|
            == data.value.pages[k].totalItems - |Loaded(data)|
            <==> data.value.pages[k].totalItems >= 1
  {
    LoadedWithoutNotification(data, id);
    NotLoaded(data, id);
    DistinctMeaning(Items(data), {});
    WithoutOne(Loaded(data), id);
  }

  lemma MappedItems(data: Cached, f: Notification -> Notification)
    ensures Items(MapPages(data, OnItems(f))) == Mapped(Items(data), f)
  {
    if data.Some? {
      FlatMapped(data.value.pages, MapPages(data, OnItems(f)).value.pages, f);
    }
  }

  lemma MappedHasId(items: seq<Notification>, f: Notification -> Notification, id: DeliveryId)
    requires KeepsIds(f)
    ensures HasId(Mapped(items, f), id) <==> HasId(items, id)
  {
  }

  /** A rollback reaches every copy its mark reached. */
  lemma RollbackReaches(data: Cached, notification: Notification, at: Instant)
    requires Contains(data, notification.id)
    ensures Contains(WithRead(data, notification.id, at), notification.id)
  {
    var f := ReadIf(notification.id, at);
    ContainsMeaning(data, notification.id);
    MappedItems(data, f);
    MappedHasId(Items(data), f, notification.id);
    ContainsMeaning(MapPages(data, OnItems(f)), notification.id);
  }

  ghost predicate EveryCopyIs(data: Cached, notification: Notification) {
    forall i :: 0 <= i < |Items(data)| && Items(data)[i].id == notification.id ==> Items(data)[i] == notification
  }

  lemma RollbackItems(items: seq<Notification>, notification: Notification, at: Instant)
    ensures Mapped(Mapped(items, ReadIf(notification.id, at)), ReplacedBy(notification)) == items
            <==> forall i :: 0 <= i < |items| && items[i].id == notification.id ==> items[i] == notification
  {
    var back := Mapped(Mapped(items, ReadIf(notification.id, at)), ReplacedBy(notification));
    forall i | 0 <= i < |items|
      ensures back[i] == if items[i].id == notification.id then notification else items[i]
    {
    }
  }

  /** A rollback puts the list back exactly when every copy was the notification it was given. */
  lemma RollbackExact(data: Cached, notification: Notification, at: Instant)
    ensures WithNotification(WithRead(data, notification.id, at), notification) == data
            <==> EveryCopyIs(data, notification)
  {
    ContainsMeaning(data, notification.id);
    if Contains(data, notification.id) {
      RollbackReaches(data, notification, at);
      BothEdits(data, notification, at);
    }
  }

  /** The mark and its rollback as one edit of every page. */
  lemma BothEdits(data: Cached, notification: Notification, at: Instant)
    requires data.Some?
    ensures MapPages(MapPages(data, OnItems(ReadIf(notification.id, at))), OnItems(ReplacedBy(notification))) == data
            <==> EveryCopyIs(data, notification)
  {
    var f, g := ReadIf(notification.id, at), ReplacedBy(notification);
    var read := MapPages(data, OnItems(f));
    MappedItems(data, f);
    MappedItems(read, g);
    RollbackItems(Items(data), notification, at);
    if EveryCopyIs(data, notification) {
      SamePages(data.value.pages, MapPages(read, OnItems(g)).value.pages, f, g);
    }
  }

  /** Pages whose every item an edit and its undoing leave alone are the same pages. */
  lemma SamePages(pages: seq<Page>, pages': seq<Page>, f: Notification -> Notification, g: Notification -> Notification)
    requires |pages'| == |pages|
    requires forall k :: 0 <= k < |pages| ==> pages'[k] == OnItems(g)(OnItems(f)(pages[k]))
    requires forall i :: 0 <= i < |Flat(pages)| ==> g(f(Flat(pages)[i])) == Flat(pages)[i]
    ensures pages' == pages
  {
    forall k | 0 <= k < |pages|
      ensures pages'[k] == pages[k]
    {
      forall i | 0 <= i < |pages[k].items|
        ensures g(f(pages[k].items[i])) == pages[k].items[i]
      {
        InFlat(pages, k, i);
      }
      assert pages'[k].items == pages[k].items;
    }
  }

  lemma {:induction false} InFlat(pages: seq<Page>, k: nat, i: nat)
    requires k < |pages| && i < |pages[k].items|
    ensures pages[k].items[i] in Flat(pages)
  {
    if k > 0 {
      InFlat(pages[1..], k - 1, i);
    }
  }
}
