/**
 Every interleaving of marks on distinct notifications: the cache and the count depend only on how each
 mark turned out, never on the order things happened in.
 */
module MarkRuns {
  import opened Options
  import opened Notifications
  import opened NotificationCache
  import opened MarkRead

  /** One mark: what it was given, when, and its outcome once it has one. */
  datatype Mark = Mark(notification: Notification, at: Instant, settled: Option<Outcome>)

  type Marks = map<DeliveryId, Mark>

  datatype Marking = Marking(client: Client, marks: Marks)

  datatype Event = Mutated(notification: Notification, at: Instant) | Settled(id: DeliveryId, outcome: Outcome)

  predicate Enabled(s: Marking, e: Event) {
    match e
    case Mutated(notification, _) => notification.id !in s.marks
    case Settled(id, _) => id in s.marks && s.marks[id].settled.None?
  }

  function Next(s: Marking, e: Event): Marking
    requires Enabled(s, e)
  {
    match e
    case Mutated(notification, at) =>
      Marking(OnMutate(s.client, notification, at), s.marks[notification.id := Mark(notification, at, None)])
    case Settled(id, outcome) =>
      Marking(OnSettled(s.client, s.marks[id].notification, outcome),
              s.marks[id := s.marks[id].(settled := Some(outcome))])
  }

  ghost predicate Runs(s: Marking, events: seq<Event>, final: Marking)
    decreases |events|
  {
    if events == [] then s == final
    else Enabled(s, events[0]) && Runs(Next(s, events[0]), events[1..], final)
  }

  ghost predicate Named(marks: Marks) {
    forall id :: id in marks ==> marks[id].notification.id == id
  }

  // ----- What the marks alone make of a list.

  /** What is left of one copy. */
  function Copy(item: Notification, marks: Marks): Option<Notification> {
    if item.id !in marks then Some(item)
    else
      match marks[item.id].settled
      case None => Some(MarkedRead(item, marks[item.id].at))
      case Some(Read) => Some(MarkedRead(item, marks[item.id].at))
      case Some(Gone) => None
      case Some(Failed) => Some(marks[item.id].notification)
  }

  function Copies(items: seq<Notification>, marks: Marks): seq<Notification> {
    if items == [] then []
    else
      var copy := Copy(items[0], marks);
      (if copy.Some? then [copy.value] else []) + Copies(items[1..], marks)
  }

  predicate IsGone(marks: Marks, id: DeliveryId) {
    id in marks && marks[id].settled == Some(Gone)
  }

  /** The loaded notifications that turned out to be gone. */
  ghost function GoneIn(data: Cached, marks: Marks): set<DeliveryId> {
    set id | id in marks && IsGone(marks, id) && Contains(data, id)
  }

  ghost function Showing(marks: Marks, gone: nat): Page -> Page {
    (page: Page) => page.(items := Copies(page.items, marks),
                          totalItems := if gone == 0 then page.totalItems else Max(0, page.totalItems - gone))
  }

  ghost function Shown(data: Cached, marks: Marks): Cached {
    MapPages(data, Showing(marks, |GoneIn(data, marks)|))
  }

  /** Unread notifications whose mark has not failed: what the bell is short of. */
  ghost function Counting(marks: Marks): set<DeliveryId> {
    set id | id in marks && !marks[id].notification.read && marks[id].settled != Some(Failed)
  }

  ghost function UnreadMarks(marks: Marks): set<DeliveryId> {
    set id | id in marks && !marks[id].notification.read
  }

  // ----- One copy at a time.

  lemma {:induction false} CopiesOfOthers(items: seq<Notification>, marks: Marks, marks': Marks, id: DeliveryId)
    requires !HasId(items, id)
    requires id in marks' && marks' == marks[id := marks'[id]]
    ensures Copies(items, marks') == Copies(items, marks)
  {
    if items != [] {
      assert items[0].id != id;
      HasIdCons(items[0], items[1..]);
      assert items == [items[0]] + items[1..];
      CopiesOfOthers(items[1..], marks, marks', id);
    }
  }

  lemma {:induction false} CopiesHasId(items: seq<Notification>, marks: Marks, id: DeliveryId)
    requires Named(marks) && !IsGone(marks, id)
    ensures HasId(Copies(items, marks), id) <==> HasId(items, id)
  {
    if items != [] {
      var head, rest := items[0], items[1..];
      CopiesHasId(rest, marks, id);
      HasIdCons(head, rest);
      assert items == [head] + rest;
      var copy := Copy(head, marks);
      if copy.Some? {
        assert copy.value.id == head.id;
        HasIdCons(copy.value, Copies(rest, marks));
        assert Copies(items, marks) == [copy.value] + Copies(rest, marks);
      } else {
        assert head.id != id && Copies(items, marks) == Copies(rest, marks);
      }
    }
  }

  lemma {:induction false} CopiesMapped(items: seq<Notification>, marks: Marks, marks': Marks,
                                        f: Notification -> Notification)
    requires forall i :: 0 <= i < |items| ==>
               match Copy(items[i], marks)
               case None => Copy(items[i], marks') == None
               case Some(copy) => Copy(items[i], marks') == Some(f(copy))
    ensures Copies(items, marks') == Mapped(Copies(items, marks), f)
  {
    if items != [] {
      var head, rest := items[0], items[1..];
      CopiesMapped(rest, marks, marks', f);
      if Copy(head, marks).Some? {
        MappedConcat([Copy(head, marks).value], Copies(rest, marks), f);
      }
    }
  }

  lemma {:induction false} CopiesWithout(items: seq<Notification>, marks: Marks, marks': Marks, id: DeliveryId)
    requires Named(marks) && !IsGone(marks, id) && IsGone(marks', id)
    requires id in marks' && marks' == marks[id := marks'[id]]
    ensures Copies(items, marks') == Without(Copies(items, marks), id)
  {
    if items != [] {
      var head, rest := items[0], items[1..];
      CopiesWithout(rest, marks, marks', id);
      var copy := Copy(head, marks);
      if copy.Some? {
        assert copy.value.id == head.id;
        WithoutConcat([copy.value], Copies(rest, marks), id);
        assert Copies(items, marks) == [copy.value] + Copies(rest, marks);
      } else {
        assert head.id != id && Copies(items, marks) == Copies(rest, marks);
      }
    }
  }

  // ----- One list at a time.

  lemma ShownContains(data: Cached, marks: Marks, id: DeliveryId)
    requires Named(marks) && !IsGone(marks, id)
    ensures Contains(Shown(data, marks), id) <==> Contains(data, id)
  {
    if data.Some? {
      forall k | 0 <= k < |data.value.pages|
        ensures HasId(Shown(data, marks).value.pages[k].items, id) <==> HasId(data.value.pages[k].items, id)
      {
        CopiesHasId(data.value.pages[k].items, marks, id);
      }
    }
  }

  /** A mark's beginning or ending changes no list that lacks its notification. */
  lemma ShownOfOthers(data: Cached, marks: Marks, marks': Marks, id: DeliveryId)
    requires !Contains(data, id)
    requires id in marks' && marks' == marks[id := marks'[id]]
    ensures Shown(data, marks') == Shown(data, marks)
  {
    assert GoneIn(data, marks') == GoneIn(data, marks);
    if data.Some? {
      forall k | 0 <= k < |data.value.pages|
        ensures Copies(data.value.pages[k].items, marks') == Copies(data.value.pages[k].items, marks)
      {
        CopiesOfOthers(data.value.pages[k].items, marks, marks', id);
      }
      assert Shown(data, marks').value.pages == Shown(data, marks).value.pages;
    }
  }

  /** An edit of every copy that takes each to what the new marks make of it. */
  lemma ShownMapped(data: Cached, marks: Marks, marks': Marks, f: Notification -> Notification)
    requires GoneIn(data, marks') == GoneIn(data, marks)
    requires forall item :: match Copy(item, marks)
                            case None => Copy(item, marks') == None
                            case Some(copy) => Copy(item, marks') == Some(f(copy))
    ensures MapPages(Shown(data, marks), OnItems(f)) == Shown(data, marks')
  {
    if data.Some? {
      forall k | 0 <= k < |data.value.pages|
        ensures OnItems(f)(Shown(data, marks).value.pages[k]) == Shown(data, marks').value.pages[k]
      {
        CopiesMapped(data.value.pages[k].items, marks, marks', f);
      }
      assert MapPages(Shown(data, marks), OnItems(f)).value.pages == Shown(data, marks').value.pages;
    }
  }

  lemma ShownWithRead(data: Cached, marks: Marks, notification: Notification, at: Instant)
    requires Named(marks) && notification.id !in marks
    ensures WithRead(Shown(data, marks), notification.id, at)
            == Shown(data, marks[notification.id := Mark(notification, at, None)])
  {
    var id, marks' := notification.id, marks[notification.id := Mark(notification, at, None)];
    ShownContains(data, marks, id);
    if Contains(data, id) {
      assert GoneIn(data, marks') == GoneIn(data, marks);
      ShownMapped(data, marks, marks', ReadIf(id, at));
    } else {
      ShownOfOthers(data, marks, marks', id);
    }
  }

  lemma ShownWithNotification(data: Cached, marks: Marks, id: DeliveryId)
    requires Named(marks) && id in marks && marks[id].settled.None?
    ensures WithNotification(Shown(data, marks), marks[id].notification)
            == Shown(data, marks[id := marks[id].(settled := Some(Failed))])
  {
    var marks' := marks[id := marks[id].(settled := Some(Failed))];
    ShownContains(data, marks, id);
    if Contains(data, id) {
      assert GoneIn(data, marks') == GoneIn(data, marks);
      ShownMapped(data, marks, marks', ReplacedBy(marks[id].notification));
    } else {
      ShownOfOthers(data, marks, marks', id);
    }
  }

  lemma ShownAfterRead(data: Cached, marks: Marks, id: DeliveryId)
    requires id in marks && marks[id].settled.None?
    ensures Shown(data, marks[id := marks[id].(settled := Some(Read))]) == Shown(data, marks)
  {
    var marks' := marks[id := marks[id].(settled := Some(Read))];
    assert GoneIn(data, marks') == GoneIn(data, marks);
    ShownMapped(data, marks, marks', (item: Notification) => item);
    if data.Some? {
      var same := (item: Notification) => item;
      forall k | 0 <= k < |data.value.pages|
        ensures OnItems(same)(Shown(data, marks).value.pages[k]) == Shown(data, marks).value.pages[k]
      {
        UntouchedMapped(Shown(data, marks).value.pages[k].items, same);
      }
      assert MapPages(Shown(data, marks), OnItems(same)).value.pages == Shown(data, marks).value.pages;
    }
  }

  lemma GoneGrows(data: Cached, marks: Marks, id: DeliveryId)
    requires id in marks && marks[id].settled.None?
    ensures var marks' := marks[id := marks[id].(settled := Some(Gone))];
            |GoneIn(data, marks')| == |GoneIn(data, marks)| + (if Contains(data, id) then 1 else 0)
  {
    var marks' := marks[id := marks[id].(settled := Some(Gone))];
    if Contains(data, id) {
      assert GoneIn(data, marks') - {id} == GoneIn(data, marks);
    } else {
      assert GoneIn(data, marks') == GoneIn(data, marks);
    }
  }

  lemma ShownWithout(data: Cached, marks: Marks, id: DeliveryId)
    requires Named(marks) && id in marks && marks[id].settled.None?
    ensures WithoutNotification(Shown(data, marks), id)
            == Shown(data, marks[id := marks[id].(settled := Some(Gone))])
  {
    var marks' := marks[id := marks[id].(settled := Some(Gone))];
    ShownContains(data, marks, id);
    if Contains(data, id) {
      GoneGrows(data, marks, id);
      forall k | 0 <= k < |data.value.pages|
        ensures Dropping(id)(Shown(data, marks).value.pages[k]) == Shown(data, marks').value.pages[k]
      {
        CopiesWithout(data.value.pages[k].items, marks, marks', id);
      }
      assert MapPages(Shown(data, marks), Dropping(id)).value.pages == Shown(data, marks').value.pages;
    } else {
      ShownOfOthers(data, marks, marks', id);
    }
  }

  // ----- Every run.

  /** The lists are what the marks alone make of the lists there were. */
  ghost predicate ListsFollow(start: Client, s: Marking) {
    && s.client.lists.Keys == start.lists.Keys
    && forall f :: f in start.lists ==> s.client.lists[f] == Shown(start.lists[f], s.marks)
  }

  /** The count is short of exactly the unread ones whose mark has not failed. */
  ghost predicate CountFollows(start: Client, s: Marking) {
    && (s.client.unread.Some? <==> start.unread.Some?)
    && (start.unread.Some? ==> s.client.unread.value == start.unread.value - |Counting(s.marks)|)
  }

  lemma StepKeepsLists(start: Client, s: Marking, e: Event)
    requires Named(s.marks) && ListsFollow(start, s) && Enabled(s, e)
    ensures Named(Next(s, e).marks) && ListsFollow(start, Next(s, e))
  {
    forall f | f in start.lists
      ensures f in Next(s, e).client.lists && Next(s, e).client.lists[f] == Shown(start.lists[f], Next(s, e).marks)
    {
      match e
      case Mutated(notification, at) => ShownWithRead(start.lists[f], s.marks, notification, at);
      case Settled(id, outcome) =>
        match outcome
        case Read => ShownAfterRead(start.lists[f], s.marks, id);
        case Gone => ShownWithout(start.lists[f], s.marks, id);
        case Failed => ShownWithNotification(start.lists[f], s.marks, id);
    }
  }

  lemma {:induction false} RunKeepsLists(start: Client, s: Marking, events: seq<Event>, final: Marking)
    requires Named(s.marks) && ListsFollow(start, s) && Runs(s, events, final)
    ensures Named(final.marks) && ListsFollow(start, final)
    decreases |events|
  {
    if events != [] {
      StepKeepsLists(start, s, events[0]);
      RunKeepsLists(start, Next(s, events[0]), events[1..], final);
    }
  }

  lemma StepKeepsCount(start: Client, s: Marking, e: Event)
    requires CountFollows(start, s) && Enabled(s, e)
    requires start.unread.Some? ==> start.unread.value >= |UnreadMarks(Next(s, e).marks)|
    ensures CountFollows(start, Next(s, e))
  {
    match e
    case Mutated(notification, at) => MutateCounts(s.marks, Mark(notification, at, None));
    case Settled(id, outcome) => SettleCounts(s.marks, id, outcome);
  }

  lemma MutateCounts(marks: Marks, mark: Mark)
    requires mark.notification.id !in marks && mark.settled.None?
    ensures var next := marks[mark.notification.id := mark];
            |Counting(next)| == |Counting(marks)| + (if mark.notification.read then 0 else 1)
            && |Counting(next)| <= |UnreadMarks(next)|
  {
    var id := mark.notification.id;
    var next := marks[id := mark];
    assert Counting(next) == if mark.notification.read then Counting(marks) else Counting(marks) + {id};
    Subset(Counting(next), UnreadMarks(next));
  }

  lemma SettleCounts(marks: Marks, id: DeliveryId, outcome: Outcome)
    requires id in marks && marks[id].settled.None?
    ensures |Counting(marks[id := marks[id].(settled := Some(outcome))])|
            == |Counting(marks)| - (if outcome == Failed && !marks[id].notification.read then 1 else 0)
  {
    var next := marks[id := marks[id].(settled := Some(outcome))];
    if outcome == Failed && !marks[id].notification.read {
      assert Counting(next) == Counting(marks) - {id};
    } else {
      assert Counting(next) == Counting(marks);
    }
  }

  lemma {:induction false} Subset(a: set<DeliveryId>, b: set<DeliveryId>)
    requires a <= b
    ensures |a| <= |b|
  {
    if a != {} {
      var x :| x in a;
      Subset(a - {x}, b - {x});
    }
  }

  lemma {:induction false} MarksGrow(s: Marking, events: seq<Event>, final: Marking)
    requires Runs(s, events, final)
    ensures UnreadMarks(s.marks) <= UnreadMarks(final.marks)
    decreases |events|
  {
    if events != [] {
      MarksGrow(Next(s, events[0]), events[1..], final);
      assert UnreadMarks(s.marks) <= UnreadMarks(Next(s, events[0]).marks);
    }
  }

  lemma {:induction false} RunKeepsCount(start: Client, s: Marking, events: seq<Event>, final: Marking)
    requires CountFollows(start, s) && Runs(s, events, final)
    requires start.unread.Some? ==> start.unread.value >= |UnreadMarks(final.marks)|
    ensures CountFollows(start, final)
    decreases |events|
  {
    if events != [] {
      var next := Next(s, events[0]);
      MarksGrow(next, events[1..], final);
      Subset(UnreadMarks(next.marks), UnreadMarks(final.marks));
      StepKeepsCount(start, s, events[0]);
      RunKeepsCount(start, next, events[1..], final);
    }
  }

  /**
   Whatever the interleaving: every list is the one the marks' own outcomes make of it, and, given a count
   no smaller than the marks on unread ones, the count is short by exactly those that did not fail.
   */
  lemma OutcomesAlone(start: Client, events: seq<Event>, final: Marking)
    requires Runs(Marking(start, map[]), events, final)
    ensures ListsFollow(start, final)
    ensures start.unread.Some? && start.unread.value >= |UnreadMarks(final.marks)| ==> CountFollows(start, final)
  {
    var s := Marking(start, map[]);
    forall f | f in start.lists
      ensures Shown(start.lists[f], map[]) == start.lists[f]
    {
      NothingMarked(start.lists[f]);
    }
    RunKeepsLists(start, s, events, final);
    assert Counting(s.marks) == {};
    if start.unread.Some? && start.unread.value >= |UnreadMarks(final.marks)| {
      RunKeepsCount(start, s, events, final);
    }
  }

  lemma {:induction false} NothingCopied(items: seq<Notification>)
    ensures Copies(items, map[]) == items
  {
    if items != [] {
      NothingCopied(items[1..]);
    }
  }

  lemma NothingMarked(data: Cached)
    ensures Shown(data, map[]) == data
  {
    assert GoneIn(data, map[]) == {};
    if data.Some? {
      forall k | 0 <= k < |data.value.pages|
        ensures Showing(map[], 0)(data.value.pages[k]) == data.value.pages[k]
      {
        NothingCopied(data.value.pages[k].items);
      }
      assert Shown(data, map[]).value.pages == data.value.pages;
    }
  }

  // ----- The count's condition is exact.

  /** Marks made one after another, then all refused. */
  function AllMutated(ns: seq<Notification>, at: Instant): seq<Event> {
    if ns == [] then [] else [Mutated(ns[0], at)] + AllMutated(ns[1..], at)
  }

  function AllFailed(ns: seq<Notification>): seq<Event> {
    if ns == [] then [] else [Settled(ns[0].id, Failed)] + AllFailed(ns[1..])
  }

  ghost predicate DistinctUnread(ns: seq<Notification>) {
    && (forall i :: 0 <= i < |ns| ==> !ns[i].read)
    && (forall i, j :: 0 <= i < j < |ns| ==> ns[i].id != ns[j].id)
  }

  lemma {:induction false} RunsConcat(s: Marking, a: seq<Event>, mid: Marking, b: seq<Event>, final: Marking)
    requires Runs(s, a, mid) && Runs(mid, b, final)
    ensures Runs(s, a + b, final)
    decreases |a|
  {
    if a == [] {
      assert a + b == b;
    } else {
      assert (a + b)[0] == a[0] && (a + b)[1..] == a[1..] + b;
      RunsConcat(Next(s, a[0]), a[1..], mid, b, final);
    }
  }

  lemma MutateOne(s: Marking, ns: seq<Notification>, at: Instant) returns (next: Marking)
    requires ns != [] && DistinctUnread(ns) && s.client.unread.Some? && s.client.unread.value >= 0
    requires forall i :: 0 <= i < |ns| ==> ns[i].id !in s.marks
    ensures Enabled(s, Mutated(ns[0], at)) && next == Next(s, Mutated(ns[0], at))
    ensures next.client.unread == Some(Max(0, s.client.unread.value - 1))
    ensures next.marks == s.marks[ns[0].id := Mark(ns[0], at, None)] && DistinctUnread(ns[1..])
    ensures forall i :: 0 <= i < |ns[1..]| ==> ns[1..][i].id !in next.marks
  {
    next := Next(s, Mutated(ns[0], at));
  }

  lemma {:induction false} MutateEach(s: Marking, ns: seq<Notification>, at: Instant) returns (mid: Marking)
    requires DistinctUnread(ns) && s.client.unread.Some? && s.client.unread.value >= 0
    requires forall i :: 0 <= i < |ns| ==> ns[i].id !in s.marks
    ensures Runs(s, AllMutated(ns, at), mid)
    ensures mid.client.unread == Some(Max(0, s.client.unread.value - |ns|))
    ensures forall i :: 0 <= i < |ns| ==> ns[i].id in mid.marks && mid.marks[ns[i].id] == Mark(ns[i], at, None)
    ensures forall id :: id in s.marks ==> id in mid.marks && mid.marks[id] == s.marks[id]
    decreases |ns|
  {
    mid := s;
    if ns != [] {
      var next := MutateOne(s, ns, at);
      mid := MutateEach(next, ns[1..], at);
      assert forall i :: 1 <= i < |ns| ==> ns[i] == ns[1..][i - 1];
    }
  }

  lemma {:induction false} FailEach(s: Marking, ns: seq<Notification>, at: Instant) returns (final: Marking)
    requires DistinctUnread(ns) && s.client.unread.Some?
    requires forall i :: 0 <= i < |ns| ==> ns[i].id in s.marks && s.marks[ns[i].id] == Mark(ns[i], at, None)
    ensures Runs(s, AllFailed(ns), final)
    ensures final.client.unread == Some(s.client.unread.value + |ns|)
    decreases |ns|
  {
    final := s;
    if ns != [] {
      final := FailEach(Next(s, Settled(ns[0].id, Failed)), ns[1..], at);
    }
  }

  /** With a smaller count the bell drifts: begin every mark, have every one refused, and it says `|ns|`. */
  lemma ShortCountDrifts(start: Client, ns: seq<Notification>, at: Instant) returns (final: Marking)
    requires DistinctUnread(ns) && start.unread.Some? && 0 <= start.unread.value < |ns|
    ensures Runs(Marking(start, map[]), AllMutated(ns, at) + AllFailed(ns), final)
    ensures final.client.unread == Some(|ns|) && final.client.unread != start.unread
  {
    var mid := MutateEach(Marking(start, map[]), ns, at);
    final := FailEach(mid, ns, at);
    RunsConcat(Marking(start, map[]), AllMutated(ns, at), mid, AllFailed(ns), final);
  }
}
