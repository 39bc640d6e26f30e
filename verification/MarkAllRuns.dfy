/**
 Marking everything read while single marks begin and end: what its rollback, should it fail, does to theirs
 (web/src/modules/notifications/presentation/use-notification-mutations.ts).
 */
module MarkAllRuns {
  import opened Notifications
  import opened NotificationCache
  import opened MarkRead
  import opened MarkRuns

  /** Marks as they are some events later: more of them, and more of them settled. */
  ghost predicate Later(marks: Marks, later: Marks) {
    forall id :: id in marks ==>
      && id in later && later[id].notification == marks[id].notification && later[id].at == marks[id].at
      && (marks[id].settled.Some? ==> later[id] == marks[id])
  }

  lemma {:induction false} RunLater(s: Marking, events: seq<Event>, final: Marking)
    requires Runs(s, events, final) && Named(s.marks)
    ensures Later(s.marks, final.marks) && Named(final.marks)
    ensures final.client.lists.Keys == s.client.lists.Keys
    decreases |events|
  {
    if events != [] {
      var next := Next(s, events[0]);
      assert Later(s.marks, next.marks);
      RunLater(next, events[1..], final);
    }
  }

  /**
   What came of the marks since makes no difference to this copy: it was not marked, or its mark had ended already; or
   one begun before has not, or was read; or one begun since found it read; or what a failure put back was there.
   */
  predicate LeavesCopy(item: Notification, marks: Marks, later: Marks) {
    item.id !in later || (item.id in marks && marks[item.id].settled.Some?)
    || match later[item.id].settled
       case Some(Gone) => false
       case Some(Failed) =>
         later[item.id].notification == (if item.id in marks then MarkedRead(item, later[item.id].at) else item)
       case _ => item.id in marks || item.read
  }

  lemma LeavesCopyMeaning(item: Notification, marks: Marks, later: Marks)
    requires Later(marks, later)
    ensures LeavesCopy(item, marks, later) <==> Copy(item, marks) == Copy(item, later)
    ensures Copy(item, marks).None? ==> Copy(item, later).None?
  {
  }

  ghost predicate LeavesCopies(data: Cached, marks: Marks, later: Marks) {
    forall item :: item in Items(data) ==> LeavesCopy(item, marks, later)
  }

  // ----- What the marks since leave of a list.

  lemma {:induction false} CopiesFewer(items: seq<Notification>, marks: Marks, later: Marks)
    requires Later(marks, later)
    ensures |Copies(items, later)| <= |Copies(items, marks)|
  {
    if items != [] {
      CopiesFewer(items[1..], marks, later);
      LeavesCopyMeaning(items[0], marks, later);
    }
  }

  lemma {:induction false} CopiesSame(items: seq<Notification>, marks: Marks, later: Marks)
    requires Later(marks, later)
    ensures Copies(items, marks) == Copies(items, later)
            <==> forall item :: item in items ==> LeavesCopy(item, marks, later)
  {
    if items != [] {
      var head, rest := items[0], items[1..];
      assert items == [head] + rest;
      CopiesSame(rest, marks, later);
      CopiesFewer(rest, marks, later);
      LeavesCopyMeaning(head, marks, later);
      CopiesCons(head, rest, marks);
      CopiesCons(head, rest, later);
      var was, now := Copy(head, marks), Copy(head, later);
      if was == now {
        var first := if was.Some? then [was.value] else [];
        SameTails(first, Copies(rest, marks), Copies(rest, later));
      } else {
        assert was.Some? && Copies(items, marks)[0] == was.value;
        assert now.Some? ==> Copies(items, later)[0] == now.value;
        assert head in items;
      }
      assert (forall item :: item in items ==> LeavesCopy(item, marks, later))
             <==> LeavesCopy(head, marks, later) && forall item :: item in rest ==> LeavesCopy(item, marks, later);
    }
  }

  lemma SameTails(first: seq<Notification>, a: seq<Notification>, b: seq<Notification>)
    ensures first + a == first + b <==> a == b
  {
    assert a == (first + a)[|first|..] && b == (first + b)[|first|..];
  }

  lemma CopiesCons(head: Notification, rest: seq<Notification>, marks: Marks)
    ensures var copy := Copy(head, marks);
            Copies([head] + rest, marks) == (if copy.Some? then [copy.value] else []) + Copies(rest, marks)
  {
    assert ([head] + rest)[1..] == rest;
  }

  lemma {:induction false} FlatMembers(pages: seq<Page>)
    ensures forall item :: item in Flat(pages) <==> exists k :: 0 <= k < |pages| && item in pages[k].items
  {
    if pages != [] {
      FlatMembers(pages[1..]);
      forall item
        ensures item in Flat(pages) <==> exists k :: 0 <= k < |pages| && item in pages[k].items
      {
        if k :| 0 <= k < |pages[1..]| && item in pages[1..][k].items {
          assert item in pages[k + 1].items;
        }
        if k :| 0 <= k < |pages| && item in pages[k].items {
          assert k > 0 ==> item in pages[1..][k - 1].items;
        }
      }
    }
  }

  /** Copies all left alone, nothing loaded has turned out to be gone since. */
  lemma SameGone(data: Cached, marks: Marks, later: Marks)
    requires Later(marks, later) && LeavesCopies(data, marks, later)
    ensures GoneIn(data, later) == GoneIn(data, marks)
  {
    forall id
      ensures id in GoneIn(data, later) <==> id in GoneIn(data, marks)
    {
      if IsGone(later, id) && Contains(data, id) {
        ContainsMeaning(data, id);
        var i :| 0 <= i < |Items(data)| && Items(data)[i].id == id;
        assert LeavesCopy(Items(data)[i], marks, later);
      }
    }
  }

  lemma ShownPage(data: Cached, marks: Marks, k: nat)
    requires data.Some? && k < |data.value.pages|
    ensures Shown(data, marks).Some? && k < |Shown(data, marks).value.pages|
    ensures Shown(data, marks).value.pages[k] == Showing(marks, |GoneIn(data, marks)|)(data.value.pages[k])
    ensures Shown(data, marks).value.pages[k].items == Copies(data.value.pages[k].items, marks)
  {
  }

  /** A list is the same for the marks since exactly when they leave each of its copies alone. */
  lemma ShownSame(data: Cached, marks: Marks, later: Marks)
    requires Later(marks, later)
    ensures Shown(data, marks) == Shown(data, later) <==> LeavesCopies(data, marks, later)
  {
    if data.Some? {
      var pages := data.value.pages;
      FlatMembers(pages);
      if LeavesCopies(data, marks, later) {
        SameGone(data, marks, later);
        forall k | 0 <= k < |pages|
          ensures Shown(data, marks).value.pages[k] == Shown(data, later).value.pages[k]
        {
          CopiesSame(pages[k].items, marks, later);
        }
        assert Shown(data, marks).value.pages == Shown(data, later).value.pages;
      } else {
        var item :| item in Items(data) && !LeavesCopy(item, marks, later);
        var k :| 0 <= k < |pages| && item in pages[k].items;
        CopiesSame(pages[k].items, marks, later);
        ShownPage(data, marks, k);
        ShownPage(data, later, k);
      }
    }
  }

  // ----- A mark of everything that fails.

  /**
   Exactly when the rollback of a failed mark-all undoes nothing that marks begun or ended meanwhile did: every list
   follows the marks' own outcomes still when they leave alone each copy loaded, and the count does when as many
   unread ones count now as did then.
   */
  lemma RollbackUndoesNothingExactly(start: Client, before: seq<Event>, s: Marking, at: Instant, during: seq<Event>,
                                     later: Marking)
    requires Runs(Marking(start, map[]), before, s)
    requires Runs(Marking(AllRead(s.client, at), s.marks), during, later)
    ensures var after := Marking(OnAllFailed(later.client, SnapshotOf(s.client)), later.marks);
            && (ListsFollow(start, after)
                <==> forall f :: f in start.lists ==> LeavesCopies(start.lists[f], s.marks, later.marks))
            && (start.unread.Some? && start.unread.value >= |UnreadMarks(s.marks)| ==>
                  (CountFollows(start, after) <==> |Counting(s.marks)| == |Counting(later.marks)|))
  {
    var after := Marking(OnAllFailed(later.client, SnapshotOf(s.client)), later.marks);
    OutcomesAlone(start, before, s);
    RunLater(Marking(start, map[]), before, s);
    RunLater(Marking(AllRead(s.client, at), s.marks), during, later);
    BackToSnapshot(later.client, s.client);
    forall f | f in start.lists
      ensures s.client.lists[f] == Shown(start.lists[f], later.marks)
              <==> LeavesCopies(start.lists[f], s.marks, later.marks)
    {
      ShownSame(start.lists[f], s.marks, later.marks);
    }
  }

  /** So it can undo one: marked read while everything was being marked, a notification is shown unread again. */
  lemma RollbackUndoesMark(start: Client, f: ReadFilter, item: Notification, all: Instant, at: Instant)
    requires f in start.lists && item in Items(start.lists[f]) && !item.read
    ensures var begun := Marking(AllRead(start, all), map[]);
            var marked := Next(Next(begun, Mutated(item, at)), Settled(item.id, Read));
            var after := Marking(OnAllFailed(marked.client, SnapshotOf(start)), marked.marks);
            Runs(begun, [Mutated(item, at), Settled(item.id, Read)], marked) && !ListsFollow(start, after)
  {
    var begun := Marking(AllRead(start, all), map[]);
    var next := Next(begun, Mutated(item, at));
    var marked := Next(next, Settled(item.id, Read));
    assert [Mutated(item, at), Settled(item.id, Read)][1..] == [Settled(item.id, Read)];
    assert [Settled(item.id, Read)][1..] == [];
    assert Runs(marked, [], marked) && Runs(next, [Settled(item.id, Read)], marked);
    RollbackUndoesNothingExactly(start, [], Marking(start, map[]), all,
                                 [Mutated(item, at), Settled(item.id, Read)], marked);
    assert !LeavesCopy(item, map[], marked.marks);
  }
}
