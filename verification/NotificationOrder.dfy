/** In what order the list of NotificationFeed shows what existed when loading began. */
module NotificationOrder {
  import opened Options
  import opened Notifications
  import opened NotificationCache
  import opened NotificationFeed

  /** What of `base` the server has not deleted. */
  function Surviving(base: seq<DeliveryId>, gone: set<DeliveryId>): seq<DeliveryId> {
    if base == [] then []
    else if base[0] in gone then Surviving(base[1..], gone)
    else [base[0]] + Surviving(base[1..], gone)
  }

  lemma {:induction false} SurvivingMore(base: seq<DeliveryId>, gone: set<DeliveryId>, id: DeliveryId)
    ensures Surviving(base, gone + {id}) == Removed(Surviving(base, gone), id)
  {
    if base != [] {
      SurvivingMore(base[1..], gone, id);
    }
  }

  lemma {:induction false} SurvivingAll(base: seq<DeliveryId>)
    ensures Surviving(base, {}) == base
  {
    if base != [] {
      SurvivingAll(base[1..]);
    }
  }

  lemma {:induction false} SurvivingMembers(base: seq<DeliveryId>, gone: set<DeliveryId>)
    ensures forall id :: id in Surviving(base, gone) <==> id in base && id !in gone
  {
    if base != [] {
      SurvivingMembers(base[1..], gone);
      assert base == [base[0]] + base[1..];
    }
  }

  lemma {:induction false} SurvivingNoRepeats(base: seq<DeliveryId>, gone: set<DeliveryId>)
    requires NoRepeats(base)
    ensures NoRepeats(Surviving(base, gone))
  {
    if base != [] {
      SurvivingNoRepeats(base[1..], gone);
      SurvivingMembers(base[1..], gone);
    }
  }

  /** The members of `base` among `ids`, in the order of `ids`. */
  function Among(ids: seq<DeliveryId>, base: seq<DeliveryId>): seq<DeliveryId> {
    if ids == [] then []
    else if ids[0] in base then [ids[0]] + Among(ids[1..], base)
    else Among(ids[1..], base)
  }

  /** Of `base`, the list shown holds exactly the first `n`, in order. */
  predicate ShowsFirst(pages: seq<Page>, base: seq<DeliveryId>, n: nat) {
    n <= |base| && Among(Shown(pages), base) == base[..n]
  }

  /**
   The server's list is `base` behind what arrived since, and what is shown of `base` is a prefix no shorter than
   the offset of the next page reaches.
   */
  ghost predicate Inv(feed: Feed, base: seq<DeliveryId>) {
    && Sound(feed)
    && Behind(feed.server, base)
    && exists n: nat :: ShowsFirst(feed.pages, base, n) && ReachesOffset(feed, base, n)
  }

  predicate Behind(server: seq<DeliveryId>, base: seq<DeliveryId>) {
    && |base| <= |server| && server[|server| - |base|..] == base
    && forall i :: 0 <= i < |server| - |base| ==> server[i] !in base
  }

  predicate ReachesOffset(feed: Feed, base: seq<DeliveryId>, n: nat) {
    && (n == |base| || n >= Offset(feed) - (|feed.server| - |base|))
    && (AllLoaded(feed) ==> n == |base|)
  }

  /** De-duplication of ids alone. */
  function DistinctIds(ids: seq<DeliveryId>, seen: set<DeliveryId>): seq<DeliveryId> {
    if ids == [] then []
    else if ids[0] in seen then DistinctIds(ids[1..], seen)
    else [ids[0]] + DistinctIds(ids[1..], seen + {ids[0]})
  }

  lemma {:induction false} IdsOfDistinct(items: seq<Notification>, seen: set<DeliveryId>)
    ensures Ids(Distinct(items, seen)) == DistinctIds(Ids(items), seen)
  {
    if items != [] {
      assert Ids(items)[1..] == Ids(items[1..]);
      IdsOfDistinct(items[1..], seen);
      IdsOfDistinct(items[1..], seen + {items[0].id});
    }
  }

  function Members(ids: seq<DeliveryId>): set<DeliveryId> { set id | id in ids }

  lemma {:induction false} DistinctIdsConcat(a: seq<DeliveryId>, b: seq<DeliveryId>, seen: set<DeliveryId>)
    ensures DistinctIds(a + b, seen) == DistinctIds(a, seen) + DistinctIds(b, seen + Members(a))
  {
    if a == [] {
      assert a + b == b && seen + Members(a) == seen;
    } else {
      var next := seen + {a[0]};
      assert (a + b)[1..] == a[1..] + b;
      assert a == [a[0]] + a[1..];
      assert Members(a) == {a[0]} + Members(a[1..]);
      if a[0] in seen {
        DistinctIdsConcat(a[1..], b, seen);
        assert seen + Members(a) == seen + Members(a[1..]);
      } else {
        DistinctIdsConcat(a[1..], b, next);
        assert seen + Members(a) == next + Members(a[1..]);
      }
    }
  }

  lemma {:induction false} AmongConcat(a: seq<DeliveryId>, b: seq<DeliveryId>, base: seq<DeliveryId>)
    ensures Among(a + b, base) == Among(a, base) + Among(b, base)
  {
    if a == [] {
      assert a + b == b;
    } else {
      assert (a + b)[1..] == a[1..] + b;
      AmongConcat(a[1..], b, base);
    }
  }

  lemma {:induction false} AmongStrangers(ids: seq<DeliveryId>, base: seq<DeliveryId>, seen: set<DeliveryId>)
    requires forall id :: id in ids ==> id !in base
    ensures Among(DistinctIds(ids, seen), base) == []
  {
    if ids != [] {
      AmongStrangers(ids[1..], base, seen);
      AmongStrangers(ids[1..], base, seen + {ids[0]});
    }
  }

  /** A stretch of `base` adds what lies beyond its first `n`, when those are all that was seen of it. */
  lemma {:induction false} AmongStretch(base: seq<DeliveryId>, i: nat, j: nat, n: nat, seen: set<DeliveryId>)
    requires NoRepeats(base) && i <= j <= |base| && i <= n <= |base|
    requires forall k :: i <= k < |base| ==> (base[k] in seen <==> k < n)
    ensures Among(DistinctIds(base[i..j], seen), base) == if j <= n then [] else base[n..j]
    decreases j - i
  {
    if i < j {
      assert base[i..j][1..] == base[i + 1..j] && base[i..j][0] == base[i];
      if i < n {
        AmongStretch(base, i + 1, j, n, seen);
      } else {
        AmongStretch(base, i + 1, j, i + 1, seen + {base[i]});
        assert base[n..j] == [base[i]] + base[i + 1..j];
      }
    }
  }

  lemma {:induction false} AmongMembers(ids: seq<DeliveryId>, base: seq<DeliveryId>, seen: set<DeliveryId>,
                                        id: DeliveryId)
    requires id in base && id !in seen
    ensures id in Among(DistinctIds(ids, seen), base) <==> id in ids
  {
    if ids != [] {
      assert ids == [ids[0]] + ids[1..];
      if ids[0] == id {
      } else if ids[0] in seen {
        AmongMembers(ids[1..], base, seen, id);
      } else {
        AmongMembers(ids[1..], base, seen + {ids[0]}, id);
      }
    }
  }

  lemma AmongAfter(known: seq<DeliveryId>, strangers: seq<DeliveryId>, base: seq<DeliveryId>, i: nat, j: nat, n: nat)
    requires NoRepeats(base) && i <= j <= |base| && i <= n <= |base|
    requires Among(DistinctIds(known, {}), base) == base[..n]
    requires forall id :: id in strangers ==> id !in base
    ensures Among(DistinctIds(known + (strangers + base[i..j]), {}), base) == base[..if j > n then j else n]
  {
    var seen := Members(known) + Members(strangers);
    var stretch := DistinctIds(base[i..j], seen);
    DistinctIdsConcat(known, strangers + base[i..j], {});
    DistinctIdsConcat(strangers, base[i..j], Members(known));
    assert {} + Members(known) == Members(known);
    AmongConcat(DistinctIds(known, {}), DistinctIds(strangers, Members(known)) + stretch, base);
    AmongConcat(DistinctIds(strangers, Members(known)), stretch, base);
    AmongStrangers(strangers, base, Members(known));
    forall k | 0 <= k < |base|
      ensures base[k] in seen <==> k < n
    {
      AmongMembers(known, base, {}, base[k]);
      assert base[k] in base[..n] <==> k < n;
    }
    AmongStretch(base, i, j, n, seen);
    assert [] + Among(stretch, base) == Among(stretch, base);
    assert j > n ==> base[..n] + base[n..j] == base[..j];
    assert base[..n] + [] == base[..n];
  }

  /** Adding a page: what arrived since, then the stretch of `base` from `i` to `j`. */
  lemma ShowsAfterPage(pages: seq<Page>, page: Page, base: seq<DeliveryId>, strangers: seq<DeliveryId>, i: nat,
                       j: nat, n: nat)
    requires NoRepeats(base) && ShowsFirst(pages, base, n) && i <= j <= |base| && i <= n
    requires Ids(page.items) == strangers + base[i..j]
    requires forall id :: id in strangers ==> id !in base
    ensures ShowsFirst(pages + [page], base, if j > n then j else n)
  {
    IdsOfDistinct(Flat(pages), {});
    IdsOfDistinct(Flat(pages + [page]), {});
    FlatConcat(pages, page);
    IdsConcat(Flat(pages), page.items);
    AmongAfter(Ids(Flat(pages)), strangers, base, i, j, n);
  }

  /** The stretch of `base` an offset page holds, when `arrived` came before it. */
  lemma SliceShape(server: seq<DeliveryId>, base: seq<DeliveryId>, number: nat)
    returns (strangers: seq<DeliveryId>, i: nat, j: nat)
    requires Behind(server, base)
    ensures i <= j <= |base| && Slice(server, number) == strangers + base[i..j]
    ensures forall id :: id in strangers ==> id !in base
    ensures i == 0 || i <= number * PAGE_SIZE - (|server| - |base|)
    ensures j == |base| || j >= (number + 1) * PAGE_SIZE - (|server| - |base|)
  {
    var arrived := |server| - |base|;
    var from, to := Min(number * PAGE_SIZE, |server|), Min((number + 1) * PAGE_SIZE, |server|);
    if to <= arrived {
      strangers, i, j := server[from..to], 0, 0;
    } else if from >= arrived {
      strangers, i, j := [], from - arrived, to - arrived;
      assert base[i..j] == server[from..to];
    } else {
      strangers, i, j := server[from..arrived], 0, to - arrived;
      assert base[i..j] == server[arrived..to];
    }
  }

  // ----- Every step that lets none slip past keeps it so.

  lemma LoadShows(feed: Feed, base: seq<DeliveryId>, items: seq<Notification>, n: nat) returns (j: nat)
    requires NoRepeats(base) && Behind(feed.server, base)
    requires ShowsFirst(feed.pages, base, n) && ReachesOffset(feed, base, n)
    requires Ids(items) == Slice(feed.server, |feed.pages|)
    ensures j <= |base|
    ensures ShowsFirst(feed.pages + [ServedPage(feed.server, |feed.pages|, items)], base, if j > n then j else n)
    ensures j == |base| || j >= (|feed.pages| + 1) * PAGE_SIZE - (|feed.server| - |base|)
  {
    var strangers, i, j' := SliceShape(feed.server, base, |feed.pages|);
    j := j';
    ShowsAfterPage(feed.pages, ServedPage(feed.server, |feed.pages|, items), base, strangers, i, j, n);
  }

  lemma LoadKeepsInv(feed: Feed, base: seq<DeliveryId>, items: seq<Notification>)
    requires NoRepeats(base) && Inv(feed, base) && Enabled(feed, Load(items))
    ensures Inv(Next(feed, Load(items)), base)
  {
    var n: nat :| ShowsFirst(feed.pages, base, n) && ReachesOffset(feed, base, n);
    assert NextPageParam(feed.pages) == Some(|feed.pages|);
    var j := LoadShows(feed, base, items, n);
    PageReaches(feed, base, items, j, n);
    StepKeepsSound(feed, Load(items));
  }

  lemma PageReaches(feed: Feed, base: seq<DeliveryId>, items: seq<Notification>, j: nat, n: nat)
    requires |base| <= |feed.server| && j <= |base| && n <= |base| && Enabled(feed, Load(items))
    requires NextPageParam(feed.pages) == Some(|feed.pages|)
    requires j == |base| || j >= (|feed.pages| + 1) * PAGE_SIZE - (|feed.server| - |base|)
    ensures ReachesOffset(Next(feed, Load(items)), base, if j > n then j else n)
  {
  }

  lemma ArriveKeepsInv(feed: Feed, base: seq<DeliveryId>, newer: seq<DeliveryId>)
    requires Inv(feed, base) && Enabled(feed, Arrive(newer))
    ensures Inv(Next(feed, Arrive(newer)), base)
  {
    var n: nat :| ShowsFirst(feed.pages, base, n) && ReachesOffset(feed, base, n);
    var server := newer + feed.server;
    assert server[|server| - |base|..] == base;
    forall k | 0 <= k < |server| - |base|
      ensures server[k] !in base
    {
      if k < |newer| {
        assert server[k] in newer;
        assert forall id :: id in base ==> id in feed.server;
      }
    }
    assert ReachesOffset(Next(feed, Arrive(newer)), base, n);
    StepKeepsSound(feed, Arrive(newer));
  }

  /** Edits show the same of it; one dropped was no longer part of it. */
  lemma EditKeepsFirst(feed: Feed, base: seq<DeliveryId>, step: Step, n: nat)
    requires Enabled(feed, step) && !step.Arrive? && !step.Deleted? && !step.Load?
    requires step.Dropped? ==> step.id !in base
    requires ShowsFirst(feed.pages, base, n) && ReachesOffset(feed, base, n)
    ensures ShowsFirst(Next(feed, step).pages, base, n) && ReachesOffset(Next(feed, step), base, n)
  {
    EditShows(feed, step);
    if step.Dropped? {
      AmongWithout(Shown(feed.pages), step.id, base);
    }
  }

  lemma EditKeepsInv(feed: Feed, base: seq<DeliveryId>, step: Step)
    requires Inv(feed, base) && Enabled(feed, step) && !step.Arrive? && !step.Deleted? && !step.Load?
    ensures Inv(Next(feed, step), base)
  {
    var n: nat :| ShowsFirst(feed.pages, base, n) && ReachesOffset(feed, base, n);
    assert forall id :: id in base ==> id in feed.server;
    EditKeepsFirst(feed, base, step, n);
    StepKeepsSound(feed, step);
  }

  lemma {:induction false} AmongWithout(ids: seq<DeliveryId>, id: DeliveryId, base: seq<DeliveryId>)
    requires id !in base
    ensures Among(Removed(ids, id), base) == Among(ids, base)
  {
    if ids != [] {
      AmongWithout(ids[1..], id, base);
    }
  }

  /** One member fewer. */
  lemma {:induction false} AmongFewer(ids: seq<DeliveryId>, base: seq<DeliveryId>, id: DeliveryId)
    ensures Among(ids, Removed(base, id)) == Removed(Among(ids, base), id)
  {
    if ids != [] {
      AmongFewer(ids[1..], base, id);
      RemovedMembers(base, id);
    }
  }

  lemma {:induction false} RemovedConcat(a: seq<DeliveryId>, b: seq<DeliveryId>, id: DeliveryId)
    ensures Removed(a + b, id) == Removed(a, id) + Removed(b, id)
  {
    if a == [] {
      assert a + b == b;
    } else {
      assert (a + b)[1..] == a[1..] + b;
      RemovedConcat(a[1..], b, id);
    }
  }

  /** What a deletion leaves behind what arrived. */
  lemma DeletedBehind(server: seq<DeliveryId>, base: seq<DeliveryId>, id: DeliveryId)
    requires Behind(server, base)
    ensures Behind(Removed(server, id), Removed(base, id))
  {
    var arrived := server[..|server| - |base|];
    assert server == arrived + base;
    RemovedConcat(arrived, base, id);
    RemovedMembers(arrived, id);
    RemovedMembers(base, id);
    forall x | x in Removed(arrived, id)
      ensures x !in Removed(base, id)
    {
      assert x in arrived;
    }
    ConcatBehind(Removed(arrived, id), Removed(base, id));
  }

  lemma ConcatBehind(arrived: seq<DeliveryId>, base: seq<DeliveryId>)
    requires forall id :: id in arrived ==> id !in base
    ensures Behind(arrived + base, base)
  {
  }

  lemma RemovedLength(ids: seq<DeliveryId>, id: DeliveryId)
    requires NoRepeats(ids)
    ensures |Removed(ids, id)| == if id in ids then |ids| - 1 else |ids|
  {
    if id in ids {
      RemovedAt(ids, IndexOf(ids, id));
    } else {
      RemovedAbsent(ids, id);
    }
  }

  /** Where the server lists an id, against what is shown of `base`. */
  lemma IndexBehind(server: seq<DeliveryId>, base: seq<DeliveryId>, id: DeliveryId, n: nat)
    requires NoRepeats(server) && Behind(server, base) && id in server && n <= |base|
    ensures IndexOf(server, id) < |server| - |base| + n <==> id !in base || id in base[..n]
  {
    var arrived, k := |server| - |base|, IndexOf(server, id);
    assert forall i :: 0 <= i < |base| ==> server[arrived + i] == server[arrived..][i] == base[i];
    if id in base {
      var i := IndexOf(base, id);
      assert k == arrived + i;
      assert i < n ==> base[..n][i] == id;
    } else {
      assert forall i :: arrived <= i < |server| ==> server[i] == base[i - arrived];
    }
  }

  lemma DeletedShows(pages: seq<Page>, base: seq<DeliveryId>, id: DeliveryId, n: nat)
    requires NoRepeats(base) && ShowsFirst(pages, base, n)
    ensures ShowsFirst(pages, Removed(base, id), if id in base[..n] then n - 1 else n)
  {
    AmongFewer(Shown(pages), base, id);
    if id in base {
      var k := IndexOf(base, id);
      RemovedAt(base, k);
      if k < n {
        assert base[..n][k] == id && NoRepeats(base[..n]);
        RemovedAt(base[..n], k);
      } else {
        RemovedAbsent(base[..n], id);
      }
    } else {
      RemovedAbsent(base, id);
      RemovedAbsent(base[..n], id);
    }
  }

  /** A deletion that makes nothing slip past, when the next offset is at what is shown first, is of one further on. */
  lemma DeletedFurther(feed: Feed, base: seq<DeliveryId>, id: DeliveryId, n: nat)
    requires Sound(feed) && NoRepeats(base) && Behind(feed.server, base) && id in feed.server && !AllLoaded(feed)
    requires ShowsFirst(feed.pages, base, n) && n < |base| && n == Offset(feed) - (|feed.server| - |base|)
    requires !SlipsPast(feed, Deleted(id), base[n])
    ensures id in base && id !in base[..n]
  {
    IndexBehind(feed.server, base, id, n);
    assert feed.server[|feed.server| - |base|..][n] == base[n];
    NotShown(feed.pages, base, n);
  }

  lemma DeletedReaches(feed: Feed, base: seq<DeliveryId>, id: DeliveryId, n: nat)
    requires NoRepeats(feed.server) && NoRepeats(base) && Behind(feed.server, base) && id in feed.server
    requires n <= |base| && ReachesOffset(feed, base, n)
    requires !AllLoaded(feed) && n < |base| && n == Offset(feed) - (|feed.server| - |base|)
             ==> id in base && id !in base[..n]
    ensures ReachesOffset(Next(feed, Deleted(id)), Removed(base, id), if id in base[..n] then n - 1 else n)
  {
    RemovedLength(feed.server, id);
    RemovedLength(base, id);
    var next := Next(feed, Deleted(id));
    assert AllLoaded(next) == AllLoaded(feed) && Offset(next) == Offset(feed);
    assert base[..|base|] == base;
    if id in base[..n] {
      assert id in base;
    }
  }

  lemma NotShown(pages: seq<Page>, base: seq<DeliveryId>, n: nat)
    requires NoRepeats(base) && ShowsFirst(pages, base, n) && n < |base|
    ensures base[n] !in Shown(pages)
  {
    AmongHas(Shown(pages), base, base[n]);
    assert base[n] !in base[..n];
  }

  lemma {:induction false} AmongHas(ids: seq<DeliveryId>, base: seq<DeliveryId>, id: DeliveryId)
    requires id in base
    ensures id in Among(ids, base) <==> id in ids
  {
    if ids != [] {
      AmongHas(ids[1..], base, id);
      assert ids == [ids[0]] + ids[1..];
    }
  }

  lemma DeletedKeepsInv(feed: Feed, base: seq<DeliveryId>, id: DeliveryId)
    requires NoRepeats(base) && Inv(feed, base) && id in feed.server
    requires forall x :: x in base ==> !SlipsPast(feed, Deleted(id), x)
    ensures Inv(Next(feed, Deleted(id)), Removed(base, id))
  {
    var n: nat :| ShowsFirst(feed.pages, base, n) && ReachesOffset(feed, base, n);
    StepKeepsSound(feed, Deleted(id));
    DeletedBehind(feed.server, base, id);
    DeletedShows(feed.pages, base, id, n);
    if !AllLoaded(feed) && n < |base| && n == Offset(feed) - (|feed.server| - |base|) {
      DeletedFurther(feed, base, id, n);
    }
    DeletedReaches(feed, base, id, n);
  }

  lemma StepKeepsInv(feed: Feed, base: seq<DeliveryId>, step: Step)
    requires NoRepeats(base) && Inv(feed, Surviving(base, feed.gone)) && Enabled(feed, step)
    requires forall id :: id in base ==> !SlipsPast(feed, step, id)
    ensures Inv(Next(feed, step), Surviving(base, Next(feed, step).gone))
  {
    var survivors := Surviving(base, feed.gone);
    SurvivingNoRepeats(base, feed.gone);
    match step
    case Arrive(newer) => ArriveKeepsInv(feed, survivors, newer);
    case Deleted(id) =>
      SurvivingMembers(base, feed.gone);
      SurvivingMore(base, feed.gone, id);
      DeletedKeepsInv(feed, survivors, id);
    case Load(items) => LoadKeepsInv(feed, survivors, items);
    case _ => EditKeepsInv(feed, survivors, step);
  }

  lemma {:induction false} InvAt(base: seq<DeliveryId>, steps: seq<Step>, n: nat)
    requires NoRepeats(base) && CanRun(Start(base), steps) && Steady(Start(base), steps, base) && n <= |steps|
    ensures var feed := At(Start(base), steps, n); Inv(feed, Surviving(base, feed.gone))
    decreases n
  {
    if n == 0 {
      SurvivingAll(base);
      assert ShowsFirst([], base, 0) && ReachesOffset(Start(base), base, 0);
    } else {
      InvAt(base, steps, n - 1);
      AtStep(Start(base), steps, n - 1);
      StepKeepsInv(At(Start(base), steps, n - 1), base, steps[n - 1]);
    }
  }

  /**
   However many notifications arrive between page loads, however loaded ones are marked, and whatever is deleted
   without making one slip past: of what existed when loading began and still does, the list shows a gap-free,
   in-order, repeat-free prefix, and all of it once a page said it was the last.
   */
  lemma NothingMissed(base: seq<DeliveryId>, steps: seq<Step>) returns (n: nat)
    requires NoRepeats(base) && CanRun(Start(base), steps) && Steady(Start(base), steps, base)
    ensures var final := After(Start(base), steps);
            var survivors := Surviving(base, final.gone);
            && ShowsFirst(final.pages, survivors, n)
            && (AllLoaded(final) ==> n == |survivors|)
            && (n == |survivors| || n >= Offset(final) - (|final.server| - |survivors|))
  {
    InvAt(base, steps, |steps|);
    var final := After(Start(base), steps);
    n :| ShowsFirst(final.pages, Surviving(base, final.gone), n)
         && ReachesOffset(final, Surviving(base, final.gone), n);
  }
}
