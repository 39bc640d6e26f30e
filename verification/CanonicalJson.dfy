/**
 The key order the API generator gives a JSON document before writing it (`canonical` in
 web/scripts/generate-api-types.ts).
 */
module CanonicalJson {
  import opened Decimals
  import opened StableSort

  datatype Json =
    | Null
    | Bool(b: bool)
    | Number(n: real)
    | Text(s: string)
    | Array(items: seq<Json>)
    | Object(entries: seq<Entry>)

  /** A property; an object's entries come in the order `Object.entries` lists them. */
  datatype Entry = Entry(key: string, value: Json)

  /** `a.localeCompare(b)` of the machine's locale. */
  type KeyOrder = Comparator<string>

  function ByKey(order: KeyOrder): Comparator<Entry> {
    (a: Entry, b: Entry) => order(a.key, b.key)
  }

  /** An array index, which every object lists first, in ascending order (section 10.1.11.1 of ECMA-262). */
  predicate IsIndex(key: string) {
    IsCanonical(key) && Value(key) < 0xFFFF_FFFF
  }

  /** Printed, the numbers up to 2^32 - 2. */
  lemma IndexMeaning(key: string)
    ensures IsIndex(key) <==> exists n: nat :: n <= 4294967294 && key == Decimal(n)
  {
    if IsIndex(key) {
      DecimalOfValue(key);
    }
    if n: nat :| n <= 4294967294 && key == Decimal(n) {
      ValueOfDecimal(n);
    }
  }

  function IndexOrder(): Comparator<Entry> {
    (a: Entry, b: Entry) => (if IsIndex(a.key) then Value(a.key) else 0) - (if IsIndex(b.key) then Value(b.key) else 0)
  }

  function Indices(entries: seq<Entry>): seq<Entry> {
    if entries == [] then []
    else (if IsIndex(entries[0].key) then [entries[0]] else []) + Indices(entries[1..])
  }

  function Names(entries: seq<Entry>): seq<Entry> {
    if entries == [] then []
    else (if IsIndex(entries[0].key) then [] else [entries[0]]) + Names(entries[1..])
  }

  /** `Object.fromEntries`, no key twice: the entries in the order the new object lists them. */
  function FromEntries(entries: seq<Entry>): seq<Entry> {
    Sorted(Indices(entries), IndexOrder()) + Names(entries)
  }

  /**
   Each child made canonical, and an object's entries ordered by key. The generator orders them first;
   `SortThenMap` says that comes to the same.
   */
  function Canonical(value: Json, order: KeyOrder): Json
    decreases value, 1
  {
    match value
    case Array(items) => Array(CanonicalItems(items, order))
    case Object(entries) => Object(FromEntries(Sorted(CanonicalEntries(entries, order), ByKey(order))))
    case _ => value
  }

  function CanonicalItems(items: seq<Json>, order: KeyOrder): (r: seq<Json>)
    ensures |r| == |items|
    decreases items, 0
  {
    if items == [] then [] else [Canonical(items[0], order)] + CanonicalItems(items[1..], order)
  }

  function CanonicalEntries(entries: seq<Entry>, order: KeyOrder): (r: seq<Entry>)
    ensures |r| == |entries| && forall i :: 0 <= i < |r| ==> r[i].key == entries[i].key
    decreases entries, 0
  {
    if entries == [] then []
    else [Entry(entries[0].key, Canonical(entries[0].value, order))] + CanonicalEntries(entries[1..], order)
  }

  // ----- What a document means, the order of keys apart.

  datatype Meaning =
    | MNull
    | MBool(b: bool)
    | MNumber(n: real)
    | MText(s: string)
    | MArray(items: seq<Meaning>)
    | MObject(properties: map<string, Meaning>)

  function MeaningOf(value: Json): Meaning
    decreases value, 1
  {
    match value
    case Null => MNull
    case Bool(b) => MBool(b)
    case Number(n) => MNumber(n)
    case Text(s) => MText(s)
    case Array(items) => MArray(MeaningOfItems(items))
    case Object(entries) => MObject(Properties(entries))
  }

  function MeaningOfItems(items: seq<Json>): (r: seq<Meaning>)
    ensures |r| == |items|
    decreases items, 0
  {
    if items == [] then [] else [MeaningOf(items[0])] + MeaningOfItems(items[1..])
  }

  function Properties(entries: seq<Entry>): map<string, Meaning>
    decreases entries, 0
  {
    if entries == [] then map[] else Properties(entries[1..])[entries[0].key := MeaningOf(entries[0].value)]
  }

  predicate DistinctKeys(entries: seq<Entry>) {
    forall i, j :: 0 <= i < j < |entries| ==> entries[i].key != entries[j].key
  }

  /** No object anywhere in it has a key twice, as none does in memory. */
  predicate IsDocument(value: Json)
    decreases value, 1
  {
    match value
    case Array(items) => AreDocuments(items)
    case Object(entries) => DistinctKeys(entries) && HoldDocuments(entries)
    case _ => true
  }

  predicate AreDocuments(items: seq<Json>)
    decreases items, 0
  {
    items != [] ==> IsDocument(items[0]) && AreDocuments(items[1..])
  }

  predicate HoldDocuments(entries: seq<Entry>)
    decreases entries, 0
  {
    entries != [] ==> IsDocument(entries[0].value) && HoldDocuments(entries[1..])
  }

  /** Array indices first and ascending, as an object in memory lists its keys. */
  predicate IndicesLead(entries: seq<Entry>) {
    forall i, j :: 0 <= i < j < |entries| && IsIndex(entries[j].key) ==>
      IsIndex(entries[i].key) && Value(entries[i].key) < Value(entries[j].key)
  }

  /** Every object in it lists its keys so. */
  predicate IsListed(value: Json)
    decreases value
  {
    match value
    case Array(items) => forall item :: item in items ==> IsListed(item)
    case Object(entries) => IndicesLead(entries) && forall e :: e in entries ==> IsListed(e.value)
    case _ => true
  }

  // ----- Rearranging entries.

  lemma {:induction false} HoldDocumentsMeaning(entries: seq<Entry>)
    ensures HoldDocuments(entries) <==> forall e :: e in entries ==> IsDocument(e.value)
  {
    if entries != [] {
      HoldDocumentsMeaning(entries[1..]);
      assert entries == [entries[0]] + entries[1..];
    }
  }

  lemma {:induction false} AreDocumentsMeaning(items: seq<Json>)
    ensures AreDocuments(items) <==> forall item :: item in items ==> IsDocument(item)
  {
    if items != [] {
      AreDocumentsMeaning(items[1..]);
      assert items[0] in items && items == [items[0]] + items[1..];
      assert forall item :: item in items[1..] ==> item in items;
    }
  }

  /** With no key twice, an object's properties are its entries. */
  lemma {:induction false} PropertiesMeaning(entries: seq<Entry>)
    requires DistinctKeys(entries)
    ensures forall k :: k in Properties(entries) ==> exists e :: e in entries && e.key == k
    ensures forall e :: e in entries ==>
              e.key in Properties(entries) && Properties(entries)[e.key] == MeaningOf(e.value)
  {
    if entries != [] {
      var head, rest := entries[0], entries[1..];
      PropertiesMeaning(rest);
      assert entries == [head] + rest;
      forall e | e in rest
        ensures e.key != head.key
      {
      }
    }
  }

  lemma PropertiesOfSame(a: seq<Entry>, b: seq<Entry>)
    requires DistinctKeys(a) && DistinctKeys(b) && forall e :: e in a <==> e in b
    ensures Properties(a) == Properties(b)
  {
    PropertiesMeaning(a);
    PropertiesMeaning(b);
    assert forall k :: k in Properties(a) <==> k in Properties(b);
  }

  lemma {:induction false} SplitMembers(entries: seq<Entry>)
    ensures forall e :: e in Indices(entries) <==> e in entries && IsIndex(e.key)
    ensures forall e :: e in Names(entries) <==> e in entries && !IsIndex(e.key)
  {
    if entries != [] {
      SplitMembers(entries[1..]);
      assert entries == [entries[0]] + entries[1..];
    }
  }

  lemma {:induction false} SplitCounts(entries: seq<Entry>)
    ensures multiset(Indices(entries)) + multiset(Names(entries)) == multiset(entries)
  {
    if entries != [] {
      SplitCounts(entries[1..]);
      assert entries == [entries[0]] + entries[1..];
    }
  }

  /** Keys as a multiset decide whether one comes twice. */
  lemma DistinctKeysOfPermutation(a: seq<Entry>, b: seq<Entry>)
    requires multiset(a) == multiset(b) && DistinctKeys(a)
    ensures DistinctKeys(b)
  {
    forall i, j | 0 <= i < j < |b|
      ensures b[i].key != b[j].key
    {
      if b[i].key == b[j].key {
        TwiceInPermutation(a, b, i, j);
      }
    }
  }

  lemma TwiceInPermutation(a: seq<Entry>, b: seq<Entry>, i: nat, j: nat)
    requires multiset(a) == multiset(b) && i < j < |b| && b[i].key == b[j].key
    ensures !DistinctKeys(a)
  {
    SameMembers(a, b);
    assert b[i] in b && b[j] in b;
    var m :| 0 <= m < |a| && a[m] == b[i];
    var n :| 0 <= n < |a| && a[n] == b[j];
    if m == n {
      TwiceCounted(b, i, j);
      if DistinctKeys(a) {
        OnceIn(a, m);
        assert false;
      }
    } else {
      assert a[m].key == a[n].key;
    }
  }

  lemma TwiceCounted(b: seq<Entry>, i: nat, j: nat)
    requires i < j < |b| && b[i] == b[j]
    ensures multiset(b)[b[i]] >= 2
  {
    assert b == b[..j] + b[j..];
    assert b[i] in b[..j] && b[j] in b[j..];
    assert b[..j][i] == b[i] && b[j..][0] == b[j];
  }

  lemma OnceIn(a: seq<Entry>, m: nat)
    requires DistinctKeys(a) && m < |a|
    ensures multiset(a)[a[m]] == 1
  {
    assert a == a[..m] + [a[m]] + a[m + 1..];
    assert a[m] !in a[..m] && a[m] !in a[m + 1..];
  }

  lemma ByKeyConsistent(order: KeyOrder)
    requires Consistent(order)
    ensures Consistent(ByKey(order))
  {
    var c := ByKey(order);
    forall x: Entry
      ensures c(x, x) == 0
    {
      assert order(x.key, x.key) == 0;
    }
    forall x: Entry, y: Entry
      ensures c(x, y) < 0 <==> c(y, x) > 0
    {
      assert order(x.key, y.key) < 0 <==> order(y.key, x.key) > 0;
    }
    forall x: Entry, y: Entry, z: Entry
      ensures Chains(c, x, y, z)
    {
      assert Chains(order, x.key, y.key, z.key);
    }
  }

  lemma IndexOrderConsistent()
    ensures Consistent(IndexOrder())
  {
  }

  /** An object's canonical listing, before its children are made canonical. */
  function Arranged(entries: seq<Entry>, order: KeyOrder): seq<Entry> { FromEntries(Sorted(entries, ByKey(order))) }

  lemma ArrangedPermutes(entries: seq<Entry>, order: KeyOrder)
    requires Consistent(order)
    ensures multiset(Arranged(entries, order)) == multiset(entries)
    ensures forall e :: e in Arranged(entries, order) <==> e in entries
  {
    ByKeyConsistent(order);
    IndexOrderConsistent();
    var sorted := Sorted(entries, ByKey(order));
    SortedMeaning(entries, ByKey(order));
    SplitCounts(sorted);
    SortedMeaning(Indices(sorted), IndexOrder());
    SameMembers(Arranged(entries, order), entries);
  }

  // ----- Nothing but the order of keys changes.

  /** Made canonical, a document means what it meant: no array order, scalar or property changes. */
  lemma {:induction false} CanonicalKeepsMeaning(value: Json, order: KeyOrder)
    requires IsDocument(value) && Consistent(order)
    ensures IsDocument(Canonical(value, order)) && MeaningOf(Canonical(value, order)) == MeaningOf(value)
    decreases value, 1
  {
    match value
    case Array(items) => CanonicalItemsKeepMeaning(items, order);
    case Object(entries) =>
      var mapped := CanonicalEntries(entries, order);
      CanonicalEntriesKeepMeaning(entries, order);
      ArrangedPermutes(mapped, order);
      DistinctKeysOfPermutation(mapped, Arranged(mapped, order));
      PropertiesOfSame(mapped, Arranged(mapped, order));
      HoldDocumentsMeaning(mapped);
      HoldDocumentsMeaning(Arranged(mapped, order));
    case _ =>
  }

  lemma {:induction false} CanonicalItemsKeepMeaning(items: seq<Json>, order: KeyOrder)
    requires AreDocuments(items) && Consistent(order)
    ensures AreDocuments(CanonicalItems(items, order))
    ensures MeaningOfItems(CanonicalItems(items, order)) == MeaningOfItems(items)
    decreases items, 0
  {
    if items != [] {
      CanonicalKeepsMeaning(items[0], order);
      CanonicalItemsKeepMeaning(items[1..], order);
    }
  }

  lemma {:induction false} CanonicalEntriesKeepMeaning(entries: seq<Entry>, order: KeyOrder)
    requires HoldDocuments(entries) && Consistent(order)
    ensures HoldDocuments(CanonicalEntries(entries, order))
    ensures Properties(CanonicalEntries(entries, order)) == Properties(entries)
    decreases entries, 0
  {
    if entries != [] {
      CanonicalKeepsMeaning(entries[0].value, order);
      CanonicalEntriesKeepMeaning(entries[1..], order);
    }
  }

  // ----- One form for each meaning.

  /** The order tells apart any two keys of one object that are not array indices. */
  ghost predicate NamesApart(entries: seq<Entry>, order: KeyOrder) {
    forall x, y :: x in entries && y in entries && EqualNames(x, y, order) ==> x.key == y.key
  }

  predicate EqualNames(x: Entry, y: Entry, order: KeyOrder) {
    !IsIndex(x.key) && !IsIndex(y.key) && order(x.key, y.key) == 0
  }

  /** So it does in every object of the document. */
  ghost predicate KeysApart(value: Json, order: KeyOrder)
    decreases value
  {
    match value
    case Array(items) => forall item :: item in items ==> KeysApart(item, order)
    case Object(entries) => NamesApart(entries, order) && forall e :: e in entries ==> KeysApart(e.value, order)
    case _ => true
  }

  lemma {:induction false} NamesOrdered(entries: seq<Entry>, cmp: Comparator<Entry>)
    requires Ordered(entries, cmp) && DistinctKeys(entries)
    ensures Ordered(Names(entries), cmp) && DistinctKeys(Names(entries)) && DistinctKeys(Indices(entries))
  {
    if entries != [] {
      var head, rest := entries[0], entries[1..];
      TailOrdered(entries, cmp);
      NamesOrdered(rest, cmp);
      SplitMembers(rest);
      if IsIndex(head.key) {
        PrependNew(head, Indices(rest));
      } else {
        PrependOrdered(head, Names(rest), cmp);
        PrependNew(head, Names(rest));
      }
    }
  }

  lemma TailOrdered(entries: seq<Entry>, cmp: Comparator<Entry>)
    requires Ordered(entries, cmp) && DistinctKeys(entries) && entries != []
    ensures Ordered(entries[1..], cmp) && DistinctKeys(entries[1..])
    ensures forall e :: e in entries[1..] ==> cmp(entries[0], e) <= 0 && e.key != entries[0].key
  {
    var rest := entries[1..];
    forall e | e in rest
      ensures cmp(entries[0], e) <= 0 && e.key != entries[0].key
    {
      var j :| 0 <= j < |rest| && rest[j] == e;
      assert entries[j + 1] == e;
    }
  }

  lemma PrependOrdered(head: Entry, s: seq<Entry>, cmp: Comparator<Entry>)
    requires Ordered(s, cmp) && forall e :: e in s ==> cmp(head, e) <= 0
    ensures Ordered([head] + s, cmp)
  {
    var r := [head] + s;
    forall i, j | 0 <= i < j < |r|
      ensures cmp(r[i], r[j]) <= 0
    {
      assert r[j] in s;
    }
  }

  lemma PrependNew(head: Entry, s: seq<Entry>)
    requires DistinctKeys(s) && forall e :: e in s ==> e.key != head.key
    ensures DistinctKeys([head] + s)
  {
  }

  lemma NoRepeatsOfPermutation(a: seq<Entry>, b: seq<Entry>)
    requires multiset(a) == multiset(b) && DistinctKeys(a)
    ensures DistinctKeys(b) && NoRepeats(b)
  {
    DistinctKeysOfPermutation(a, b);
  }

  /** Listings of the same entries are arranged the same. */
  lemma ArrangedUnique(a: seq<Entry>, b: seq<Entry>, order: KeyOrder)
    requires Consistent(order) && NamesApart(a, order)
    requires DistinctKeys(a) && DistinctKeys(b) && forall e :: e in a <==> e in b
    ensures Arranged(a, order) == Arranged(b, order)
  {
    var cmp := ByKey(order);
    var sa, sb := Sorted(a, cmp), Sorted(b, cmp);
    SortedDistinct(a, order);
    SortedDistinct(b, order);
    NamesOrdered(sa, cmp);
    NamesOrdered(sb, cmp);
    SplitMembers(sa);
    SplitMembers(sb);
    ByKeyConsistent(order);
    NamesSeparated(sa, order);
    OrderedSameMembers(Names(sa), Names(sb), cmp);
    IndicesUnique(Indices(sa), Indices(sb));
  }

  lemma SortedDistinct(a: seq<Entry>, order: KeyOrder)
    requires Consistent(order) && DistinctKeys(a)
    ensures var s := Sorted(a, ByKey(order));
            Ordered(s, ByKey(order)) && DistinctKeys(s) && forall e :: e in s <==> e in a
  {
    ByKeyConsistent(order);
    var s := Sorted(a, ByKey(order));
    SortedMeaning(a, ByKey(order));
    NoRepeatsOfPermutation(a, s);
    SameMembers(s, a);
  }

  lemma NamesSeparated(entries: seq<Entry>, order: KeyOrder)
    requires NamesApart(entries, order) && DistinctKeys(entries)
    ensures Separated(Names(entries), ByKey(order))
  {
    SplitMembers(entries);
    forall x, y | x in Names(entries) && y in Names(entries) && ByKey(order)(x, y) == 0
      ensures x == y
    {
      assert EqualNames(x, y, order);
    }
  }

  lemma IndicesUnique(a: seq<Entry>, b: seq<Entry>)
    requires DistinctKeys(a) && DistinctKeys(b) && (forall e :: e in a <==> e in b)
    requires forall e :: e in a ==> IsIndex(e.key)
    ensures Sorted(a, IndexOrder()) == Sorted(b, IndexOrder())
  {
    var cmp := IndexOrder();
    IndexOrderConsistent();
    SortedMeaning(a, cmp);
    SortedMeaning(b, cmp);
    var sa, sb := Sorted(a, cmp), Sorted(b, cmp);
    SameMembers(sa, a);
    SameMembers(sb, b);
    NoRepeatsOfPermutation(a, sa);
    NoRepeatsOfPermutation(b, sb);
    forall x, y | x in sa && y in sa && cmp(x, y) == 0
      ensures x == y
    {
      DecimalOfValue(x.key);
      DecimalOfValue(y.key);
    }
    OrderedSameMembers(sa, sb, cmp);
  }

  /** Documents that mean the same have the same canonical form, once the keys of one are told apart. */
  lemma {:induction false} CanonicalUnique(a: Json, b: Json, order: KeyOrder)
    requires IsDocument(a) && IsDocument(b) && MeaningOf(a) == MeaningOf(b)
    requires Consistent(order) && KeysApart(a, order)
    ensures Canonical(a, order) == Canonical(b, order)
    decreases a, 1
  {
    match a
    case Array(items) => CanonicalItemsUnique(items, b.items, order);
    case Object(entries) =>
      var ca, cb := CanonicalEntries(entries, order), CanonicalEntries(b.entries, order);
      CanonicalEntriesUnique(entries, b.entries, order);
      MappedNamesApart(entries, order);
      ArrangedUnique(ca, cb, order);
    case _ =>
  }

  lemma {:induction false} CanonicalItemsUnique(a: seq<Json>, b: seq<Json>, order: KeyOrder)
    requires AreDocuments(a) && AreDocuments(b) && MeaningOfItems(a) == MeaningOfItems(b)
    requires Consistent(order) && forall item :: item in a ==> KeysApart(item, order)
    ensures CanonicalItems(a, order) == CanonicalItems(b, order)
    decreases a, 0
  {
    assert |a| == |b|;
    if a != [] {
      assert MeaningOfItems(a)[0] == MeaningOfItems(b)[0];
      assert MeaningOfItems(a)[1..] == MeaningOfItems(a[1..]) && MeaningOfItems(b)[1..] == MeaningOfItems(b[1..]);
      CanonicalUnique(a[0], b[0], order);
      CanonicalItemsUnique(a[1..], b[1..], order);
    }
  }

  lemma {:induction false} CanonicalEntriesMeaning(entries: seq<Entry>, order: KeyOrder)
    ensures forall i :: 0 <= i < |entries| ==>
              CanonicalEntries(entries, order)[i] == Entry(entries[i].key, Canonical(entries[i].value, order))
  {
    if entries != [] {
      CanonicalEntriesMeaning(entries[1..], order);
    }
  }

  lemma MappedNamesApart(entries: seq<Entry>, order: KeyOrder)
    requires NamesApart(entries, order)
    ensures NamesApart(CanonicalEntries(entries, order), order)
  {
    var mapped := CanonicalEntries(entries, order);
    forall x, y | x in mapped && y in mapped && EqualNames(x, y, order)
      ensures x.key == y.key
    {
      var i :| 0 <= i < |mapped| && mapped[i] == x;
      var j :| 0 <= j < |mapped| && mapped[j] == y;
      assert entries[i] in entries && entries[j] in entries && EqualNames(entries[i], entries[j], order);
    }
  }

  lemma {:induction false} CanonicalEntriesUnique(a: seq<Entry>, b: seq<Entry>, order: KeyOrder)
    requires DistinctKeys(a) && DistinctKeys(b) && HoldDocuments(a) && HoldDocuments(b)
    requires Properties(a) == Properties(b) && Consistent(order) && forall e :: e in a ==> KeysApart(e.value, order)
    ensures DistinctKeys(CanonicalEntries(a, order)) && DistinctKeys(CanonicalEntries(b, order))
    ensures forall e :: e in CanonicalEntries(a, order) <==> e in CanonicalEntries(b, order)
    decreases a, 0
  {
    CanonicalEntriesMeaning(a, order);
    CanonicalEntriesMeaning(b, order);
    PropertiesMeaning(a);
    PropertiesMeaning(b);
    HoldDocumentsMeaning(a);
    HoldDocumentsMeaning(b);
    forall i, j | 0 <= i < |a| && 0 <= j < |b| && a[i].key == b[j].key
      ensures CanonicalEntries(a, order)[i] == CanonicalEntries(b, order)[j]
    {
      assert a[i] in a && b[j] in b;
      assert Properties(a)[a[i].key] == MeaningOf(a[i].value) && Properties(b)[b[j].key] == MeaningOf(b[j].value);
      CanonicalUnique(a[i].value, b[j].value, order);
    }
    var ca, cb := CanonicalEntries(a, order), CanonicalEntries(b, order);
    forall i | 0 <= i < |a|
      ensures ca[i] in cb
    {
      var j := Counterpart(a, b, i);
      assert ca[i] == cb[j];
    }
    forall j | 0 <= j < |b|
      ensures cb[j] in ca
    {
      var i := Counterpart(b, a, j);
      assert ca[i] == cb[j];
    }
  }

  /** Objects of the same properties list the same keys. */
  lemma Counterpart(a: seq<Entry>, b: seq<Entry>, i: nat) returns (j: nat)
    requires DistinctKeys(a) && DistinctKeys(b) && Properties(a) == Properties(b) && i < |a|
    ensures j < |b| && b[j].key == a[i].key
  {
    PropertiesMeaning(a);
    PropertiesMeaning(b);
    assert a[i] in a && a[i].key in Properties(b);
    var f :| f in b && f.key == a[i].key;
    j :| 0 <= j < |b| && b[j] == f;
  }

  // ----- How objects in memory list their keys.

  lemma LeadingTail(entries: seq<Entry>)
    requires IndicesLead(entries) && entries != []
    ensures IndicesLead(entries[1..])
    ensures forall e :: e in entries[1..] && IsIndex(e.key) ==>
              IsIndex(entries[0].key) && Value(entries[0].key) < Value(e.key)
  {
    var rest := entries[1..];
    forall e | e in rest && IsIndex(e.key)
      ensures IsIndex(entries[0].key) && Value(entries[0].key) < Value(e.key)
    {
      var j :| 0 <= j < |rest| && rest[j] == e;
      assert entries[j + 1] == e;
    }
  }

  /** Listed so already, entries stay as they are. */
  lemma {:induction false} LeadingSplits(entries: seq<Entry>)
    requires IndicesLead(entries)
    ensures Indices(entries) + Names(entries) == entries
  {
    if entries != [] {
      var head, rest := entries[0], entries[1..];
      LeadingTail(entries);
      LeadingSplits(rest);
      assert entries == [head] + rest;
      if IsIndex(head.key) {
        SplitsCons(head, rest);
      } else {
        NoneLead(entries);
      }
    }
  }

  lemma SplitsCons(head: Entry, rest: seq<Entry>)
    requires IsIndex(head.key) && Indices(rest) + Names(rest) == rest
    ensures Indices([head] + rest) + Names([head] + rest) == [head] + rest
  {
    IndicesCons(head, rest);
    NamesCons(head, rest);
    Reassociated([head], Indices(rest), Names(rest));
  }

  lemma Reassociated(a: seq<Entry>, b: seq<Entry>, c: seq<Entry>)
    ensures (a + b) + c == a + (b + c)
  {
  }

  lemma {:induction false} LeadingOrdered(entries: seq<Entry>)
    requires IndicesLead(entries)
    ensures Ordered(Indices(entries), IndexOrder())
  {
    if entries != [] {
      var head, rest := entries[0], entries[1..];
      LeadingTail(entries);
      LeadingOrdered(rest);
      assert entries == [head] + rest;
      IndicesCons(head, rest);
      if IsIndex(head.key) {
        SplitMembers(rest);
        PrependOrdered(head, Indices(rest), IndexOrder());
      }
    }
  }

  lemma IndicesCons(head: Entry, rest: seq<Entry>)
    ensures Indices([head] + rest) == if IsIndex(head.key) then [head] + Indices(rest) else Indices(rest)
  {
    assert ([head] + rest)[1..] == rest;
  }

  lemma NoneLead(names: seq<Entry>)
    requires forall e :: e in names ==> !IsIndex(e.key)
    ensures Indices(names) == [] && Names(names) == names
  {
    OnlyNames(names, []);
    SplitMembers(names);
    if Indices(names) != [] {
      assert Indices(names)[0] in Indices(names);
    }
  }

  predicate AreIndices(entries: seq<Entry>) { forall i :: 0 <= i < |entries| ==> IsIndex(entries[i].key) }

  lemma SortedIndicesLead(indices: seq<Entry>)
    requires DistinctKeys(indices) && forall e :: e in indices ==> IsIndex(e.key)
    ensures AreIndices(Sorted(indices, IndexOrder())) && IndicesLead(Sorted(indices, IndexOrder()))
  {
    var sorted := Sorted(indices, IndexOrder());
    IndexOrderConsistent();
    SortedMeaning(indices, IndexOrder());
    SameMembers(sorted, indices);
    NoRepeatsOfPermutation(indices, sorted);
    forall i | 0 <= i < |sorted|
      ensures IsIndex(sorted[i].key)
    {
      assert sorted[i] in indices;
    }
    forall i, j | 0 <= i < j < |sorted|
      ensures Value(sorted[i].key) < Value(sorted[j].key)
    {
      OrderedIndices(sorted[i], sorted[j]);
    }
  }

  lemma OrderedIndices(x: Entry, y: Entry)
    requires IsIndex(x.key) && IsIndex(y.key) && x.key != y.key && IndexOrder()(x, y) <= 0
    ensures Value(x.key) < Value(y.key)
  {
    DecimalOfValue(x.key);
    DecimalOfValue(y.key);
  }

  lemma FromEntriesLead(entries: seq<Entry>)
    requires DistinctKeys(entries)
    ensures IndicesLead(FromEntries(entries))
  {
    SplitMembers(entries);
    DistinctIndices(entries);
    SortedIndicesLead(Indices(entries));
    LeadConcat(Sorted(Indices(entries), IndexOrder()), Names(entries));
  }

  lemma LeadConcat(indices: seq<Entry>, names: seq<Entry>)
    requires AreIndices(indices) && IndicesLead(indices) && forall e :: e in names ==> !IsIndex(e.key)
    ensures IndicesLead(indices + names)
  {
    var all := indices + names;
    assert forall j :: |indices| <= j < |all| ==> all[j] in names;
  }

  lemma {:induction false} DistinctIndices(entries: seq<Entry>)
    requires DistinctKeys(entries)
    ensures DistinctKeys(Indices(entries))
  {
    if entries != [] {
      var head, rest := entries[0], entries[1..];
      DistinctIndices(rest);
      SplitMembers(rest);
      forall e | e in rest
        ensures e.key != head.key
      {
        var j :| 0 <= j < |rest| && rest[j] == e;
        assert entries[j + 1] == e;
      }
      PrependNew(head, Indices(rest));
    }
  }

  /** Entries come listed so exactly when making an object of them leaves them as they are. */
  lemma IndicesLeadExactly(entries: seq<Entry>)
    requires DistinctKeys(entries)
    ensures IndicesLead(entries) <==> FromEntries(entries) == entries
  {
    if IndicesLead(entries) {
      LeadingSplits(entries);
      LeadingOrdered(entries);
      OrderedIsSorted(Indices(entries), IndexOrder());
    } else {
      FromEntriesLead(entries);
    }
  }

  // ----- Made canonical, every object lists its keys in order.

  /** The keys that are not array indices, as they come, never descend. */
  predicate NamesAscend(entries: seq<Entry>, order: KeyOrder) {
    forall i, j :: 0 <= i < j < |entries| && !IsIndex(entries[i].key) && !IsIndex(entries[j].key) ==>
      order(entries[i].key, entries[j].key) <= 0
  }

  /** Every object in it lists its array indices first, ascending by value, and then its names, as they compare. */
  predicate IsOrdered(value: Json, order: KeyOrder)
    decreases value
  {
    match value
    case Array(items) => forall item :: item in items ==> IsOrdered(item, order)
    case Object(entries) =>
      IndicesLead(entries) && NamesAscend(entries, order) && forall e :: e in entries ==> IsOrdered(e.value, order)
    case _ => true
  }

  lemma ArrangedAscends(entries: seq<Entry>, order: KeyOrder)
    requires Consistent(order) && DistinctKeys(entries)
    ensures IndicesLead(Arranged(entries, order)) && NamesAscend(Arranged(entries, order), order)
  {
    var sorted := Sorted(entries, ByKey(order));
    SortedDistinct(entries, order);
    FromEntriesLead(sorted);
    NamesOrdered(sorted, ByKey(order));
    SplitMembers(sorted);
    SortedIndicesLead(Indices(sorted));
    NamesLast(Sorted(Indices(sorted), IndexOrder()), Names(sorted), order);
  }

  lemma NamesLast(indices: seq<Entry>, names: seq<Entry>, order: KeyOrder)
    requires AreIndices(indices) && Ordered(names, ByKey(order))
    ensures NamesAscend(indices + names, order)
  {
    var all := indices + names;
    forall i, j | 0 <= i < j < |all| && !IsIndex(all[i].key) && !IsIndex(all[j].key)
      ensures order(all[i].key, all[j].key) <= 0
    {
      assert all[i] == names[i - |indices|] && all[j] == names[j - |indices|];
      assert ByKey(order)(all[i], all[j]) <= 0;
    }
  }

  /** What comes out is in order at every depth, by the order itself. */
  lemma {:induction false} CanonicalIsOrdered(value: Json, order: KeyOrder)
    requires IsDocument(value) && Consistent(order)
    ensures IsOrdered(Canonical(value, order), order)
    decreases value, 1
  {
    match value
    case Array(items) => CanonicalItemsAreOrdered(items, order);
    case Object(entries) =>
      var mapped := CanonicalEntries(entries, order);
      CanonicalEntriesHoldOrdered(entries, order);
      ArrangedPermutes(mapped, order);
      ArrangedAscends(mapped, order);
    case _ =>
  }

  lemma {:induction false} CanonicalItemsAreOrdered(items: seq<Json>, order: KeyOrder)
    requires AreDocuments(items) && Consistent(order)
    ensures forall item :: item in CanonicalItems(items, order) ==> IsOrdered(item, order)
    decreases items, 0
  {
    if items != [] {
      CanonicalIsOrdered(items[0], order);
      CanonicalItemsAreOrdered(items[1..], order);
    }
  }

  lemma {:induction false} CanonicalEntriesHoldOrdered(entries: seq<Entry>, order: KeyOrder)
    requires HoldDocuments(entries) && Consistent(order)
    ensures forall e :: e in CanonicalEntries(entries, order) ==> IsOrdered(e.value, order)
    decreases entries, 0
  {
    if entries != [] {
      CanonicalIsOrdered(entries[0].value, order);
      CanonicalEntriesHoldOrdered(entries[1..], order);
    }
  }

  // ----- Made canonical twice.

  lemma NamesCons(head: Entry, rest: seq<Entry>)
    ensures Names([head] + rest) == if IsIndex(head.key) then Names(rest) else [head] + Names(rest)
  {
    assert ([head] + rest)[1..] == rest;
    assert [] + Names(rest) == Names(rest);
  }

  lemma InsertCons(x: Entry, head: Entry, rest: seq<Entry>, cmp: Comparator<Entry>)
    ensures Insert(x, [head] + rest, cmp)
            == if cmp(x, head) <= 0 then [x] + ([head] + rest) else [head] + Insert(x, rest, cmp)
  {
    assert ([head] + rest)[1..] == rest;
  }

  lemma FirstNameNoLess(x: Entry, sorted: seq<Entry>, cmp: Comparator<Entry>)
    requires Consistent(cmp) && Ordered(sorted, cmp) && sorted != [] && cmp(x, sorted[0]) <= 0
    ensures Insert(x, Names(sorted), cmp) == [x] + Names(sorted)
  {
    SplitMembers(sorted);
    if Names(sorted) != [] {
      var first := Names(sorted)[0];
      assert first in sorted && Chains(cmp, x, sorted[0], first);
      var j :| 0 <= j < |sorted| && sorted[j] == first;
      assert cmp(sorted[0], sorted[j]) <= 0;
    }
  }

  lemma {:induction false} InsertNames(x: Entry, sorted: seq<Entry>, cmp: Comparator<Entry>)
    requires Consistent(cmp) && Ordered(sorted, cmp)
    ensures Names(Insert(x, sorted, cmp)) == if IsIndex(x.key) then Names(sorted) else Insert(x, Names(sorted), cmp)
  {
    NamesCons(x, sorted);
    if sorted != [] {
      var head, rest := sorted[0], sorted[1..];
      assert sorted == [head] + rest;
      InsertCons(x, head, rest, cmp);
      if cmp(x, head) <= 0 {
        FirstNameNoLess(x, sorted, cmp);
      } else {
        InsertNames(x, rest, cmp);
        NamesCons(head, rest);
        NamesCons(head, Insert(x, rest, cmp));
        InsertCons(x, head, Names(rest), cmp);
      }
    }
  }

  /** Sorting and then leaving out the indices is leaving them out and then sorting. */
  lemma {:induction false} SortedNames(entries: seq<Entry>, cmp: Comparator<Entry>)
    requires Consistent(cmp)
    ensures Names(Sorted(entries, cmp)) == Sorted(Names(entries), cmp)
  {
    if entries != [] {
      var head, rest := entries[0], entries[1..];
      assert entries == [head] + rest;
      NamesCons(head, rest);
      SortedNames(rest, cmp);
      SortedOrdered(rest, cmp);
      InsertNames(head, Sorted(rest, cmp), cmp);
      assert ([head] + Names(rest))[1..] == Names(rest);
    }
  }

  lemma {:induction false} NamesConcat(a: seq<Entry>, b: seq<Entry>)
    ensures Names(a + b) == Names(a) + Names(b)
  {
    if a == [] {
      assert a + b == b;
    } else {
      assert (a + b)[1..] == a[1..] + b;
      NamesConcat(a[1..], b);
    }
  }

  lemma {:induction false} OnlyNames(names: seq<Entry>, indices: seq<Entry>)
    requires forall e :: e in names ==> !IsIndex(e.key)
    requires forall e :: e in indices ==> IsIndex(e.key)
    ensures Names(names) == names && Names(indices) == []
  {
    if names != [] {
      OnlyNames(names[1..], indices);
    } else if indices != [] {
      OnlyNames(names, indices[1..]);
    }
  }

  lemma NamesArranged(entries: seq<Entry>, order: KeyOrder)
    requires Consistent(order)
    ensures Names(Arranged(entries, order)) == Sorted(Names(entries), ByKey(order))
  {
    var cmp, sorted := ByKey(order), Sorted(entries, ByKey(order));
    ByKeyConsistent(order);
    IndexOrderConsistent();
    SplitMembers(sorted);
    SortedMembers(Indices(sorted), IndexOrder());
    SameMembers(Sorted(Indices(sorted), IndexOrder()), Indices(sorted));
    NamesConcat(Sorted(Indices(sorted), IndexOrder()), Names(sorted));
    OnlyNames(Names(sorted), Sorted(Indices(sorted), IndexOrder()));
    SortedNames(entries, cmp);
  }

  /** A listing once arranged stays, whatever the order makes of its names. */
  lemma ArrangedTwice(entries: seq<Entry>, order: KeyOrder)
    requires Consistent(order) && DistinctKeys(entries)
    ensures Arranged(Arranged(entries, order), order) == Arranged(entries, order)
  {
    var cmp, once := ByKey(order), Arranged(entries, order);
    ByKeyConsistent(order);
    ArrangedPermutes(entries, order);
    DistinctKeysOfPermutation(entries, once);
    NamesArranged(entries, order);
    SortedNames(once, cmp);
    SortedNames(entries, cmp);
    SortedOrdered(Names(entries), cmp);
    OrderedIsSorted(Sorted(Names(entries), cmp), cmp);
    var sorted, again := Sorted(entries, cmp), Sorted(once, cmp);
    SortedDistinct(entries, order);
    SortedDistinct(once, order);
    NamesOrdered(sorted, cmp);
    NamesOrdered(again, cmp);
    SplitMembers(sorted);
    SplitMembers(again);
    IndicesUnique(Indices(again), Indices(sorted));
  }

  /** Canonicalizing again changes nothing, whatever consistent order the machine's locale gives. */
  lemma {:induction false} CanonicalIdempotent(value: Json, order: KeyOrder)
    requires IsDocument(value) && Consistent(order)
    ensures Canonical(Canonical(value, order), order) == Canonical(value, order)
    decreases value, 1
  {
    match value
    case Array(items) => CanonicalItemsIdempotent(items, order);
    case Object(entries) =>
      var mapped := CanonicalEntries(entries, order);
      var once := Arranged(mapped, order);
      CanonicalEntriesFixed(entries, order);
      ArrangedPermutes(mapped, order);
      EntriesFixed(once, order);
      ArrangedTwice(mapped, order);
    case _ =>
  }

  lemma {:induction false} CanonicalItemsIdempotent(items: seq<Json>, order: KeyOrder)
    requires AreDocuments(items) && Consistent(order)
    ensures CanonicalItems(CanonicalItems(items, order), order) == CanonicalItems(items, order)
    decreases items, 0
  {
    if items != [] {
      CanonicalIdempotent(items[0], order);
      CanonicalItemsIdempotent(items[1..], order);
      assert CanonicalItems(items, order)[1..] == CanonicalItems(items[1..], order);
    }
  }

  lemma {:induction false} CanonicalEntriesFixed(entries: seq<Entry>, order: KeyOrder)
    requires HoldDocuments(entries) && Consistent(order)
    ensures forall e :: e in CanonicalEntries(entries, order) ==> Canonical(e.value, order) == e.value
    decreases entries, 0
  {
    if entries != [] {
      CanonicalIdempotent(entries[0].value, order);
      CanonicalEntriesFixed(entries[1..], order);
    }
  }

  lemma {:induction false} EntriesFixed(entries: seq<Entry>, order: KeyOrder)
    requires forall e :: e in entries ==> Canonical(e.value, order) == e.value
    ensures CanonicalEntries(entries, order) == entries
  {
    if entries != [] {
      EntriesFixed(entries[1..], order);
    }
  }

  // ----- When there is one form for each meaning.

  /** A name that compares equal to `x` comes, among those, after the ones listed before it. */
  lemma AmongEquals(entries: seq<Entry>, x: Entry, i: nat, order: KeyOrder)
    requires i < |entries| && EqualNames(x, entries[i], order)
    ensures var equals, k := Equals(Names(entries), x, ByKey(order)), |Equals(Names(entries[..i]), x, ByKey(order))|;
            k < |equals| && equals[k] == entries[i]
  {
    var before, head, rest := entries[..i], entries[i], entries[i + 1..];
    assert entries == before + ([head] + rest);
    NamesConcat(before, [head] + rest);
    NamesCons(head, rest);
    EqualsConcat(Names(before), [head] + Names(rest), x, ByKey(order));
    EqualsConcat([head], Names(rest), x, ByKey(order));
    assert Equals([head], x, ByKey(order)) == [head];
  }

  /** So it does once the listing is arranged. */
  lemma ArrangedAmongEquals(entries: seq<Entry>, x: Entry, i: nat, order: KeyOrder)
    requires Consistent(order) && i < |entries| && EqualNames(x, entries[i], order)
    ensures var equals := Equals(Names(Arranged(entries, order)), x, ByKey(order));
            var k := |Equals(Names(entries[..i]), x, ByKey(order))|;
            k < |equals| && equals[k] == entries[i]
  {
    AmongEquals(entries, x, i, order);
    ByKeyConsistent(order);
    NamesArranged(entries, order);
    SortedEquals(Names(entries), x, ByKey(order));
  }

  function Swapped(entries: seq<Entry>, i: nat, j: nat): seq<Entry>
    requires i < |entries| && j < |entries|
  {
    entries[i := entries[j]][j := entries[i]]
  }

  /** An object means the same whichever of two properties it lists first. */
  lemma SwapKeepsMeaning(entries: seq<Entry>, i: nat, j: nat)
    requires i < |entries| && j < |entries| && IsDocument(Object(entries))
    ensures IsDocument(Object(Swapped(entries, i, j)))
    ensures MeaningOf(Object(Swapped(entries, i, j))) == MeaningOf(Object(entries))
  {
    var swapped := Swapped(entries, i, j);
    forall e
      ensures e in swapped <==> e in entries
    {
      if e in entries {
        var k :| 0 <= k < |entries| && entries[k] == e;
        assert swapped[if k == i then j else if k == j then i else k] == e;
      }
    }
    PropertiesOfSame(entries, swapped);
    HoldDocumentsMeaning(entries);
    HoldDocumentsMeaning(swapped);
  }

  /** Two names the order takes for equal keep the order they come in, so listing them the other way shows. */
  lemma EqualNamesKeepOrder(entries: seq<Entry>, i: nat, j: nat, order: KeyOrder)
    requires Consistent(order) && i < |entries| && j < |entries| && entries[i].key != entries[j].key
    requires EqualNames(entries[i], entries[j], order)
    ensures Canonical(Object(Swapped(entries, i, j)), order) != Canonical(Object(entries), order)
  {
    if i < j {
      FirstOfTwoShows(entries, i, j, order);
    } else {
      assert Swapped(entries, i, j) == Swapped(entries, j, i);
      FirstOfTwoShows(entries, j, i, order);
    }
  }

  lemma {:induction false} CanonicalEntriesTake(entries: seq<Entry>, n: nat, order: KeyOrder)
    requires n <= |entries|
    ensures CanonicalEntries(entries[..n], order) == CanonicalEntries(entries, order)[..n]
  {
    if n > 0 {
      assert entries[..n][1..] == entries[1..][..n - 1];
      CanonicalEntriesTake(entries[1..], n - 1, order);
    }
  }

  lemma FirstOfTwoShows(entries: seq<Entry>, i: nat, j: nat, order: KeyOrder)
    requires Consistent(order) && i < j < |entries| && entries[i].key != entries[j].key
    requires EqualNames(entries[i], entries[j], order)
    ensures Canonical(Object(Swapped(entries, i, j)), order) != Canonical(Object(entries), order)
  {
    assert order(entries[i].key, entries[i].key) == 0;
    var swapped := Swapped(entries, i, j);
    var was, now := CanonicalEntries(entries, order), CanonicalEntries(swapped, order);
    SwapMapped(entries, i, j, order);
    ArrangedShows(was, now, entries[i], i, order);
    CanonicalObject(entries, order);
    CanonicalObject(swapped, order);
  }

  lemma SwapMapped(entries: seq<Entry>, i: nat, j: nat, order: KeyOrder)
    requires i < j < |entries|
    ensures var was, now := CanonicalEntries(entries, order), CanonicalEntries(Swapped(entries, i, j), order);
            was[..i] == now[..i] && was[i].key == entries[i].key && now[i].key == entries[j].key
  {
    SwapBefore(entries, i, j);
    SameBefore(entries, Swapped(entries, i, j), i, order);
  }

  lemma SwapBefore(entries: seq<Entry>, i: nat, j: nat)
    requires i < j < |entries|
    ensures Swapped(entries, i, j)[..i] == entries[..i] && Swapped(entries, i, j)[i] == entries[j]
  {
  }

  lemma SameBefore(a: seq<Entry>, b: seq<Entry>, n: nat, order: KeyOrder)
    requires n <= |a| && n <= |b| && a[..n] == b[..n]
    ensures CanonicalEntries(a, order)[..n] == CanonicalEntries(b, order)[..n]
  {
    CanonicalEntriesTake(a, n, order);
    CanonicalEntriesTake(b, n, order);
  }

  lemma CanonicalObject(entries: seq<Entry>, order: KeyOrder)
    ensures Canonical(Object(entries), order) == Object(Arranged(CanonicalEntries(entries, order), order))
  {
  }

  /** Listings that differ first in names that compare equal are arranged differently. */
  lemma ArrangedShows(was: seq<Entry>, now: seq<Entry>, x: Entry, i: nat, order: KeyOrder)
    requires Consistent(order) && i < |was| && i < |now| && was[..i] == now[..i] && was[i] != now[i]
    requires EqualNames(x, was[i], order) && EqualNames(x, now[i], order)
    ensures Arranged(was, order) != Arranged(now, order)
  {
    ArrangedAmongEquals(was, x, i, order);
    ArrangedAmongEquals(now, x, i, order);
  }

  /** Names that change places leave the array indices where they stand. */
  lemma SwapKeepsListed(entries: seq<Entry>, i: nat, j: nat)
    requires i < |entries| && j < |entries| && IsListed(Object(entries))
    requires !IsIndex(entries[i].key) && !IsIndex(entries[j].key)
    ensures IsListed(Object(Swapped(entries, i, j)))
  {
    var swapped := Swapped(entries, i, j);
    assert forall k :: 0 <= k < |entries| && k != i && k != j ==> swapped[k] == entries[k];
    assert IndicesLead(swapped);
    forall e | e in swapped
      ensures IsListed(e.value)
    {
      var k :| 0 <= k < |swapped| && swapped[k] == e;
      assert e == entries[if k == i then j else if k == j then i else k];
    }
  }

  lemma {:induction false} CanonicalItemsMeaning(items: seq<Json>, order: KeyOrder)
    ensures forall k :: 0 <= k < |items| ==> CanonicalItems(items, order)[k] == Canonical(items[k], order)
    ensures forall k :: 0 <= k < |items| ==> MeaningOfItems(items)[k] == MeaningOf(items[k])
  {
    if items != [] {
      CanonicalItemsMeaning(items[1..], order);
    }
  }

  /** One item written another way gives an array of the same meaning and another form. */
  lemma OtherItem(items: seq<Json>, k: nat, other: Json, order: KeyOrder)
    requires IsDocument(Array(items)) && k < |items| && IsDocument(other) && MeaningOf(other) == MeaningOf(items[k])
    requires Canonical(other, order) != Canonical(items[k], order)
    ensures var b := Array(items[k := other]);
            && IsDocument(b) && MeaningOf(b) == MeaningOf(Array(items))
            && Canonical(b, order) != Canonical(Array(items), order)
  {
    var changed := items[k := other];
    CanonicalItemsMeaning(items, order);
    CanonicalItemsMeaning(changed, order);
    AreDocumentsMeaning(items);
    AreDocumentsMeaning(changed);
    assert MeaningOfItems(changed) == MeaningOfItems(items);
    assert CanonicalItems(changed, order)[k] != CanonicalItems(items, order)[k];
  }

  /** So does one property's value, in an object. */
  lemma OtherValue(entries: seq<Entry>, k: nat, other: Json, order: KeyOrder)
    requires IsDocument(Object(entries)) && k < |entries| && IsDocument(other) && Consistent(order)
    requires MeaningOf(other) == MeaningOf(entries[k].value)
    requires Canonical(other, order) != Canonical(entries[k].value, order)
    ensures var b := Object(entries[k := Entry(entries[k].key, other)]);
            && IsDocument(b) && MeaningOf(b) == MeaningOf(Object(entries))
            && Canonical(b, order) != Canonical(Object(entries), order)
  {
    OtherValueMeans(entries, k, other);
    var was := CanonicalEntries(entries, order);
    var now := CanonicalEntries(entries[k := Entry(entries[k].key, other)], order);
    OtherValueUnmatched(entries, k, other, order);
    ArrangedPermutes(was, order);
    ArrangedPermutes(now, order);
    assert now[k] in Arranged(now, order) && now[k] !in Arranged(was, order);
  }

  lemma OtherValueListed(entries: seq<Entry>, k: nat, other: Json)
    requires k < |entries| && IsListed(Object(entries)) && IsListed(other)
    ensures IsListed(Object(entries[k := Entry(entries[k].key, other)]))
  {
    var changed := entries[k := Entry(entries[k].key, other)];
    assert forall i :: 0 <= i < |entries| ==> changed[i].key == entries[i].key;
    assert forall e :: e in changed ==> e in entries || e == changed[k];
  }

  lemma OtherValueUnmatched(entries: seq<Entry>, k: nat, other: Json, order: KeyOrder)
    requires DistinctKeys(entries) && k < |entries| && Canonical(other, order) != Canonical(entries[k].value, order)
    ensures var now := CanonicalEntries(entries[k := Entry(entries[k].key, other)], order);
            now[k] in now && now[k] !in CanonicalEntries(entries, order)
  {
    var changed := entries[k := Entry(entries[k].key, other)];
    CanonicalEntriesMeaning(entries, order);
    CanonicalEntriesMeaning(changed, order);
    var was, now := CanonicalEntries(entries, order), CanonicalEntries(changed, order);
    forall i | 0 <= i < |was|
      ensures was[i] != now[k]
    {
      assert entries[i].key == entries[k].key ==> i == k;
    }
  }

  lemma {:induction false} OtherValueMeans(entries: seq<Entry>, k: nat, other: Json)
    requires DistinctKeys(entries) && HoldDocuments(entries) && k < |entries|
    requires IsDocument(other) && MeaningOf(other) == MeaningOf(entries[k].value)
    ensures var changed := entries[k := Entry(entries[k].key, other)];
            DistinctKeys(changed) && HoldDocuments(changed) && Properties(changed) == Properties(entries)
  {
    var changed := entries[k := Entry(entries[k].key, other)];
    if k > 0 {
      OtherValueMeans(entries[1..], k - 1, other);
      assert changed[1..] == entries[1..][k - 1 := Entry(entries[k].key, other)];
    } else {
      assert changed[1..] == entries[1..];
    }
  }

  /**
   A document whose keys are not all told apart has another of its meaning with another form: two names in one of
   its objects change places, and every array index stays where it stands.
   */
  lemma {:induction false} OtherForm(a: Json, order: KeyOrder) returns (b: Json)
    requires IsDocument(a) && Consistent(order) && !KeysApart(a, order)
    ensures IsDocument(b) && MeaningOf(b) == MeaningOf(a) && Canonical(b, order) != Canonical(a, order)
    ensures IsListed(a) ==> IsListed(b)
    decreases a
  {
    match a
    case Array(items) =>
      AreDocumentsMeaning(items);
      var k :| 0 <= k < |items| && !KeysApart(items[k], order);
      assert items[k] in items && IsDocument(items[k]);
      var other := OtherForm(items[k], order);
      OtherItem(items, k, other, order);
      b := Array(items[k := other]);
      assert IsListed(a) ==> IsListed(items[k]);
      assert forall item :: item in items[k := other] ==> item in items || item == other;
    case Object(entries) =>
      HoldDocumentsMeaning(entries);
      if NamesApart(entries, order) {
        var k :| 0 <= k < |entries| && !KeysApart(entries[k].value, order);
        assert entries[k] in entries && IsDocument(entries[k].value);
        var other := OtherForm(entries[k].value, order);
        OtherValue(entries, k, other, order);
        b := Object(entries[k := Entry(entries[k].key, other)]);
        assert IsListed(a) ==> IsListed(entries[k].value);
        if IsListed(a) {
          OtherValueListed(entries, k, other);
        }
      } else {
        b := OtherListing(entries, order);
      }
  }

  lemma OtherListing(entries: seq<Entry>, order: KeyOrder) returns (b: Json)
    requires IsDocument(Object(entries)) && Consistent(order) && !NamesApart(entries, order)
    ensures var a := Object(entries);
            && IsDocument(b) && MeaningOf(b) == MeaningOf(a) && Canonical(b, order) != Canonical(a, order)
            && (IsListed(a) ==> IsListed(b))
  {
    var x, y :| x in entries && y in entries && EqualNames(x, y, order) && x.key != y.key;
    var i :| 0 <= i < |entries| && entries[i] == x;
    var j :| 0 <= j < |entries| && entries[j] == y;
    SwapKeepsMeaning(entries, i, j);
    EqualNamesKeepOrder(entries, i, j, order);
    b := Object(Swapped(entries, i, j));
    if IsListed(Object(entries)) {
      SwapKeepsListed(entries, i, j);
    }
  }

  /**
   A document's meaning has one canonical form exactly when the order tells apart the names in each object; it makes
   no difference that objects in memory list their array indices first.
   */
  lemma OneFormExactly(a: Json, order: KeyOrder)
    requires IsDocument(a) && Consistent(order)
    ensures KeysApart(a, order)
            <==> forall b :: IsDocument(b) && MeaningOf(b) == MeaningOf(a)
                   ==> Canonical(b, order) == Canonical(a, order)
    ensures IsListed(a) ==>
              (KeysApart(a, order)
               <==> forall b :: IsDocument(b) && IsListed(b) && MeaningOf(b) == MeaningOf(a)
                      ==> Canonical(b, order) == Canonical(a, order))
  {
    if KeysApart(a, order) {
      forall b | IsDocument(b) && MeaningOf(b) == MeaningOf(a)
        ensures Canonical(b, order) == Canonical(a, order)
      {
        CanonicalUnique(a, b, order);
      }
    } else {
      var b := OtherForm(a, order);
    }
  }

  /** A normal form of such documents: the same exactly for those equal up to the order of keys at every depth. */
  lemma NormalForm(a: Json, b: Json, order: KeyOrder)
    requires IsDocument(a) && IsDocument(b) && Consistent(order) && KeysApart(a, order)
    ensures Canonical(a, order) == Canonical(b, order) <==> MeaningOf(a) == MeaningOf(b)
  {
    CanonicalKeepsMeaning(a, order);
    CanonicalKeepsMeaning(b, order);
    if MeaningOf(a) == MeaningOf(b) {
      CanonicalUnique(a, b, order);
    }
  }

  /** Ordering first and then mapping, as the generator does, comes to the same. */
  lemma {:induction false} SortThenMap(entries: seq<Entry>, order: KeyOrder)
    ensures CanonicalEntries(Sorted(entries, ByKey(order)), order)
            == Sorted(CanonicalEntries(entries, order), ByKey(order))
  {
    if entries != [] {
      SortThenMap(entries[1..], order);
      InsertThenMap(entries[0], Sorted(entries[1..], ByKey(order)), order);
    }
  }

  lemma {:induction false} InsertThenMap(x: Entry, sorted: seq<Entry>, order: KeyOrder)
    ensures CanonicalEntries(Insert(x, sorted, ByKey(order)), order)
            == Insert(Entry(x.key, Canonical(x.value, order)), CanonicalEntries(sorted, order), ByKey(order))
  {
    if sorted != [] && ByKey(order)(x, sorted[0]) > 0 {
      InsertThenMap(x, sorted[1..], order);
      var r := Insert(x, sorted, ByKey(order));
      assert r[0] == sorted[0] && r[1..] == Insert(x, sorted[1..], ByKey(order));
    } else {
      assert ([x] + sorted)[1..] == sorted;
    }
  }
}
