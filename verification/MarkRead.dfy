/**
 Optimistic marks over the cached lists and the bell's count, in any order, each rolled back on its own
 (web/src/modules/notifications/presentation/use-notification-mutations.ts).
 */
module MarkRead {
  import opened Options
  import opened Notifications
  import opened NotificationCache

  /** What the query client holds of notifications: the lists it has, and the count if it has one. */
  datatype Client = Client(lists: map<ReadFilter, Cached>, unread: Option<int>)

  /** How the service answered a mark: read, no longer there for the caller, or not at all. */
  datatype Outcome = Read | Gone | Failed

  function Counted(unread: Option<int>, change: int -> int): Option<int> {
    match unread
    case None => None
    case Some(count) => Some(change(count))
  }

  function OnMutate(client: Client, notification: Notification, at: Instant): Client {
    Client(map f | f in client.lists :: WithRead(client.lists[f], notification.id, at),
           if notification.read then client.unread else Counted(client.unread, DecrementedUnread))
  }

  function OnSettled(client: Client, notification: Notification, outcome: Outcome): Client {
    match outcome
    case Read => client
    case Gone => client.(lists := map f | f in client.lists :: WithoutNotification(client.lists[f], notification.id))
    case Failed =>
      Client(map f | f in client.lists :: WithNotification(client.lists[f], notification),
             if notification.read then client.unread else Counted(client.unread, (count: int) => count + 1))
  }

  /** The unread list empties; any other has everything in it read. */
  function ReadThroughout(filter: ReadFilter, data: Cached, at: Instant): Cached {
    if filter == UNREAD then Emptied(data) else WithAllRead(data, at)
  }

  function AllRead(client: Client, at: Instant): Client {
    Client(map f | f in client.lists :: ReadThroughout(f, client.lists[f], at), Some(0))
  }

  /** What marking everything keeps, to be put back on failure. */
  datatype Snapshot = Snapshot(lists: seq<(ReadFilter, Cached)>, unreadCount: Option<int>)

  /** Every list held, with its key. */
  function EntriesOf(lists: map<ReadFilter, Cached>): (entries: seq<(ReadFilter, Cached)>)
    ensures forall f :: f in lists ==> (f, lists[f]) in entries
    ensures forall k :: 0 <= k < |entries| ==> entries[k].0 in lists && entries[k].1 == lists[entries[k].0]
    ensures forall i, j :: 0 <= i < j < |entries| ==> entries[i].0 != entries[j].0
  {
    assert forall f :: f in lists ==> f == ALL || f == UNREAD;
    (if ALL in lists then [(ALL, lists[ALL])] else [])
    + (if UNREAD in lists then [(UNREAD, lists[UNREAD])] else [])
  }

  function SnapshotOf(client: Client): Snapshot { Snapshot(EntriesOf(client.lists), client.unread) }

  function PutAll(lists: map<ReadFilter, Cached>, entries: seq<(ReadFilter, Cached)>): map<ReadFilter, Cached>
    decreases |entries|
  {
    if entries == [] then lists else PutAll(lists[entries[0].0 := entries[0].1], entries[1..])
  }

  /** Every list the snapshot names goes back to what it was then, and the count with them. */
  function OnAllFailed(client: Client, snapshot: Snapshot): Client {
    Client(PutAll(client.lists, snapshot.lists), snapshot.unreadCount)
  }

  lemma {:induction false} PutAllMeaning(lists: map<ReadFilter, Cached>, entries: seq<(ReadFilter, Cached)>)
    requires forall i, j :: 0 <= i < j < |entries| ==> entries[i].0 != entries[j].0
    ensures var put := PutAll(lists, entries);
            && (forall k :: 0 <= k < |entries| ==> entries[k].0 in put && put[entries[k].0] == entries[k].1)
            && forall f :: (forall k :: 0 <= k < |entries| ==> entries[k].0 != f) ==>
                 (f in put <==> f in lists) && (f in put ==> put[f] == lists[f])
    decreases |entries|
  {
    if entries != [] {
      PutAllMeaning(lists[entries[0].0 := entries[0].1], entries[1..]);
      assert entries == [entries[0]] + entries[1..];
    }
  }

  /** Entries that name every list there is make the lists just what they say. */
  lemma PutAllIs(lists: map<ReadFilter, Cached>, entries: seq<(ReadFilter, Cached)>, target: map<ReadFilter, Cached>)
    requires lists.Keys == target.Keys
    requires forall i, j :: 0 <= i < j < |entries| ==> entries[i].0 != entries[j].0
    requires forall f :: f in target ==> (f, target[f]) in entries
    requires forall k :: 0 <= k < |entries| ==> entries[k].0 in target
    ensures PutAll(lists, entries) == target
  {
    var put := PutAll(lists, entries);
    PutAllMeaning(lists, entries);
    forall f
      ensures f in put <==> f in target
      ensures f in target ==> put[f] == target[f]
    {
      if f in target {
        var k :| 0 <= k < |entries| && entries[k] == (f, target[f]);
      }
    }
  }

  /** With no list cached since, a client goes back to just what it was. */
  lemma BackToSnapshot(client: Client, before: Client)
    requires client.lists.Keys == before.lists.Keys
    ensures OnAllFailed(client, SnapshotOf(before)) == before
  {
    PutAllIs(client.lists, EntriesOf(before.lists), before.lists);
  }

  /** The entries as marking everything leaves them. */
  function ReadEntries(entries: seq<(ReadFilter, Cached)>, at: Instant): (read: seq<(ReadFilter, Cached)>)
    ensures |read| == |entries|
    ensures forall k :: 0 <= k < |entries| ==>
              read[k] == (entries[k].0, ReadThroughout(entries[k].0, entries[k].1, at))
  {
    if entries == [] then []
    else [(entries[0].0, ReadThroughout(entries[0].0, entries[0].1, at))] + ReadEntries(entries[1..], at)
  }

  /** Once every entry's list is read throughout, every list is. */
  lemma AllListsRead(client: Client, at: Instant)
    ensures PutAll(client.lists, ReadEntries(EntriesOf(client.lists), at)) == AllRead(client, at).lists
  {
    var entries := EntriesOf(client.lists);
    var read, target := ReadEntries(entries, at), AllRead(client, at).lists;
    forall f | f in target
      ensures (f, target[f]) in read
    {
      var k :| 0 <= k < |entries| && entries[k] == (f, client.lists[f]);
      assert read[k] == (f, target[f]);
    }
    PutAllIs(client.lists, read, target);
  }

  // ----- What each handler shows.

  /** Read, and since `at` unless it was so already. */
  function ReadSince(item: Notification, at: Instant): Notification {
    if item.read then item else Notification(item.id, item.title, item.body, true, item.sentAt, Some(at))
  }

  /** The same ones shown, that one read since `at`, and all else as it was. */
  predicate MarksOne(was: seq<Notification>, now: seq<Notification>, id: DeliveryId, at: Instant) {
    && |now| == |was|
    && forall k :: 0 <= k < |was| ==> now[k] == if was[k].id == id then ReadSince(was[k], at) else was[k]
  }

  lemma MappedMarksOne(items: seq<Notification>, id: DeliveryId, at: Instant)
    ensures MarksOne(items, Mapped(items, ReadIf(id, at)), id, at)
  {
  }

  lemma WithReadMarksOne(data: Cached, notification: Notification, at: Instant)
    ensures SamePaging(data, WithRead(data, notification.id, at))
    ensures MarksOne(Loaded(data), Loaded(WithRead(data, notification.id, at)), notification.id, at)
  {
    EditsKeepPaging(data, ReadIf(notification.id, at));
    LoadedWithRead(data, notification.id, at);
    MappedMarksOne(Loaded(data), notification.id, at);
  }

  /** Marking one: it alone becomes read in every list held, and the count drops by one unless it was read or zero. */
  lemma MutateMeaning(client: Client, notification: Notification, at: Instant)
    ensures var after := OnMutate(client, notification, at);
            && after.lists.Keys == client.lists.Keys
            && after.unread == (match client.unread
                                case None => None
                                case Some(n) => Some(if notification.read then n else if n > 1 then n - 1 else 0))
            && forall f :: f in client.lists ==>
                 && SamePaging(client.lists[f], after.lists[f])
                 && MarksOne(Loaded(client.lists[f]), Loaded(after.lists[f]), notification.id, at)
  {
    forall f | f in client.lists
      ensures var now := WithRead(client.lists[f], notification.id, at);
              SamePaging(client.lists[f], now) && MarksOne(Loaded(client.lists[f]), Loaded(now), notification.id, at)
    {
      WithReadMarksOne(client.lists[f], notification, at);
    }
  }

  /** The same ones shown, the one of that id just as given, and all else as it was. */
  predicate PutsBack(was: seq<Notification>, now: seq<Notification>, notification: Notification) {
    && |now| == |was|
    && forall k :: 0 <= k < |was| ==> now[k] == if was[k].id == notification.id then notification else was[k]
  }

  lemma MappedPutsBack(items: seq<Notification>, notification: Notification)
    ensures PutsBack(items, Mapped(items, ReplacedBy(notification)), notification)
  {
  }

  lemma WithNotificationPutsBack(data: Cached, notification: Notification)
    ensures SamePaging(data, WithNotification(data, notification))
    ensures PutsBack(Loaded(data), Loaded(WithNotification(data, notification)), notification)
  {
    EditsKeepPaging(data, ReplacedBy(notification));
    LoadedWithNotification(data, notification);
    MappedPutsBack(Loaded(data), notification);
  }

  /** A mark that failed: the notification as given is back wherever its id is shown, and counted again if unread. */
  lemma FailedMeaning(client: Client, notification: Notification)
    ensures var after := OnSettled(client, notification, Failed);
            && after.lists.Keys == client.lists.Keys
            && after.unread == (match client.unread
                                case None => None
                                case Some(n) => Some(if notification.read then n else n + 1))
            && forall f :: f in client.lists ==>
                 && SamePaging(client.lists[f], after.lists[f])
                 && PutsBack(Loaded(client.lists[f]), Loaded(after.lists[f]), notification)
  {
    forall f | f in client.lists
      ensures var now := WithNotification(client.lists[f], notification);
              SamePaging(client.lists[f], now) && PutsBack(Loaded(client.lists[f]), Loaded(now), notification)
    {
      WithNotificationPutsBack(client.lists[f], notification);
    }
  }

  /** The list without the one of that id, if it had it; all else stays, in order. */
  ghost predicate DropsOnly(was: seq<Notification>, now: seq<Notification>, id: DeliveryId) {
    && (forall k :: 0 <= k < |was| && was[k].id == id ==> now == was[..k] + was[k + 1..])
    && (!HasId(was, id) ==> now == was)
  }

  /** Each page of a list that held the one dropped counts one fewer, if it counted any. */
  predicate CountsFewer(was: Cached, now: Cached, id: DeliveryId) {
    if !Contains(was, id) then now == was
    else
      && now.Some? && now.value.pageParams == was.value.pageParams && |now.value.pages| == |was.value.pages|
      && forall k :: 0 <= k < |was.value.pages| ==>
           var page, total := now.value.pages[k], was.value.pages[k].totalItems;
           page == was.value.pages[k].(items := page.items, totalItems := if total > 0 then total - 1 else 0)
  }

  lemma {:induction false} WithoutDropsOnly(items: seq<Notification>, id: DeliveryId, k: nat)
    requires forall i, j :: 0 <= i < j < |items| ==> items[i].id != items[j].id
    requires k < |items| && items[k].id == id
    ensures Without(items, id) == items[..k] + items[k + 1..]
  {
    if k == 0 {
      WithoutAbsent(items[1..], id);
    } else {
      WithoutDropsOnly(items[1..], id, k - 1);
      assert items[0].id != id;
      assert [items[0]] + (items[1..][..k - 1] + items[1..][k..]) == items[..k] + items[k + 1..];
    }
  }

  lemma LoadedDropsOnly(data: Cached, id: DeliveryId)
    ensures DropsOnly(Loaded(data), Loaded(WithoutNotification(data, id)), id)
  {
    var was := Loaded(data);
    LoadedWithoutNotification(data, id);
    DistinctMeaning(Items(data), {});
    forall k | 0 <= k < |was| && was[k].id == id
      ensures Without(was, id) == was[..k] + was[k + 1..]
    {
      WithoutDropsOnly(was, id, k);
    }
    if !HasId(was, id) {
      WithoutAbsent(was, id);
    }
  }

  lemma WithoutCountsFewer(data: Cached, id: DeliveryId)
    ensures CountsFewer(data, WithoutNotification(data, id), id)
  {
  }

  /** A mark that went through changes nothing more; one on what is gone drops it alone, and leaves the count. */
  lemma SuccessMeaning(client: Client, notification: Notification)
    ensures OnSettled(client, notification, Read) == client
    ensures var after := OnSettled(client, notification, Gone);
            && after.lists.Keys == client.lists.Keys && after.unread == client.unread
            && forall f :: f in client.lists ==>
                 && CountsFewer(client.lists[f], after.lists[f], notification.id)
                 && DropsOnly(Loaded(client.lists[f]), Loaded(after.lists[f]), notification.id)
  {
    forall f | f in client.lists
      ensures var was, now := client.lists[f], WithoutNotification(client.lists[f], notification.id);
              CountsFewer(was, now, notification.id) && DropsOnly(Loaded(was), Loaded(now), notification.id)
    {
      WithoutCountsFewer(client.lists[f], notification.id);
      LoadedDropsOnly(client.lists[f], notification.id);
    }
  }

  /** The same ones shown in the same order, each read since `at`, unless it was so already. */
  predicate MarksAll(was: seq<Notification>, now: seq<Notification>, at: Instant) {
    |now| == |was| && forall k :: 0 <= k < |was| ==> now[k] == ReadSince(was[k], at)
  }

  lemma MappedMarksAll(items: seq<Notification>, at: Instant)
    ensures MarksAll(items, Mapped(items, ReadAt(at)), at)
  {
  }

  lemma WithAllReadMarksAll(data: Cached, at: Instant)
    ensures SamePaging(data, WithAllRead(data, at))
    ensures MarksAll(Loaded(data), Loaded(WithAllRead(data, at)), at)
  {
    EditsKeepPaging(data, ReadAt(at));
    LoadedWithAllRead(data, at);
    MappedMarksAll(Loaded(data), at);
  }

  /**
   Marking everything: the bell is at zero, the unread list shows nothing and has no page left to load, and the list
   of all shows the same ones in the same order, each read, since `at` unless it was so already.
   */
  lemma AllReadMeaning(client: Client, at: Instant)
    ensures var after := AllRead(client, at);
            && after.lists.Keys == client.lists.Keys && after.unread == Some(0)
            && (UNREAD in client.lists ==>
                  && Loaded(after.lists[UNREAD]) == []
                  && (after.lists[UNREAD].Some? ==>
                        forall page :: page in after.lists[UNREAD].value.pages ==> page.isLast && page.totalItems == 0))
            && (ALL in client.lists ==>
                  && SamePaging(client.lists[ALL], after.lists[ALL])
                  && MarksAll(Loaded(client.lists[ALL]), Loaded(after.lists[ALL]), at))
  {
    if UNREAD in client.lists {
      EmptiedShowsNothing(client.lists[UNREAD]);
    }
    if ALL in client.lists {
      WithAllReadMarksAll(client.lists[ALL], at);
    }
  }

  /** The handlers of both mutations over the query client's notification entries. */
  class NotificationQueries {
    var lists: map<ReadFilter, Cached>
    var unread: Option<int>

    constructor (client: Client)
      ensures State() == client
    {
      lists, unread := client.lists, client.unread;
    }

    function State(): Client
      reads this
    {
      Client(lists, unread)
    }

    method MarkReadMutate(notification: Notification, at: Instant)
      modifies this
      ensures State() == OnMutate(old(State()), notification, at)
    {
      lists := map f | f in lists :: WithRead(lists[f], notification.id, at);
      if !notification.read {
        unread := Counted(unread, DecrementedUnread);
      }
    }

    method MarkReadSuccess(outcome: Outcome, notification: Notification)
      requires outcome != Failed
      modifies this
      ensures State() == OnSettled(old(State()), notification, outcome)
    {
      if outcome == Gone {
        lists := map f | f in lists :: WithoutNotification(lists[f], notification.id);
        return;
      }
    }

    method MarkReadError(notification: Notification)
      modifies this
      ensures State() == OnSettled(old(State()), notification, Failed)
    {
      lists := map f | f in lists :: WithNotification(lists[f], notification);
      if !notification.read {
        unread := Counted(unread, (count: int) => count + 1);
      }
    }

    method MarkAllReadMutate(at: Instant) returns (snapshot: Snapshot)
      modifies this
      ensures State() == AllRead(old(State()), at)
      ensures snapshot == SnapshotOf(old(State()))
    {
      snapshot := SnapshotOf(State());
      AllListsRead(State(), at);
      ghost var read := ReadEntries(snapshot.lists, at);
      for k := 0 to |snapshot.lists|
        invariant PutAll(lists, read[k..]) == PutAll(old(lists), read)
      {
        var (key, data) := snapshot.lists[k];
        assert read[k..][0] == read[k] && read[k..][1..] == read[k + 1..];
        lists := lists[key := if key == UNREAD then Emptied(data) else WithAllRead(data, at)];
      }
      unread := Some(0);
    }

    /** Every list the snapshot names goes back to what it was then; a list cached since stays. */
    method MarkAllReadError(snapshot: Snapshot)
      modifies this
      ensures State() == OnAllFailed(old(State()), snapshot)
    {
      for k := 0 to |snapshot.lists|
        invariant PutAll(lists, snapshot.lists[k..]) == PutAll(old(lists), snapshot.lists)
      {
        var (key, data) := snapshot.lists[k];
        assert snapshot.lists[k..][0] == snapshot.lists[k] && snapshot.lists[k..][1..] == snapshot.lists[k + 1..];
        lists := lists[key := data];
      }
      unread := snapshot.unreadCount;
    }

    /** A failed mark-all restores everything it changed. */
    method MarkAllReadFails(at: Instant)
      modifies this
      ensures State() == old(State())
    {
      ghost var before := State();
      var snapshot := MarkAllReadMutate(at);
      BackToSnapshot(State(), before);
      MarkAllReadError(snapshot);
    }
  }
}
