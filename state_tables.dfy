/** The lookup tables of hidapi/state.go that initializeStates builds once from the data
    items: which data item holds each usage, for activations (usage sets) and for values
    and deltas (usage values). */
module StateTables {
  import opened Common
  import opened Bits
  import opened Descriptor
  import opened Usages
  import UsageSets
  import Values
  import opened Events
  import opened ItemGroups
  import opened DataItems
  import opened Fields
  import opened Codec

  // ---------------------------------------------------------------- lookup tables

  /** A field of a report: the report ID and the index of its data item. */
  datatype Address = Address(reportID: uint8, itemIdx: nat)

  /** The usage range of an ordered usage set (a flag range or a selector) with the
      report size of its data item, by which the ranges of a page are sorted. */
  datatype UsageRange = UsageRange(start: uint16, end: uint16, addr: Address, reportSize: uint32)

  /** usageRange.Contains. */
  predicate InRange(r: UsageRange, id: uint16)
  {
    r.start <= id <= r.end
  }

  /** The tables initializeStates builds once: the usage sets and usage values of every
      report's items, the ranges of the ordered sets of each page, the address of every
      usage of an unordered set (by page, then ID) and of every usage value. */
  datatype Tables = Tables(
    sets: map<uint8, map<nat, UsageSets.UsageSet>>,
    values: map<uint8, map<nat, Values.UsageValues>>,
    ranges: map<uint16, seq<UsageRange>>,
    setMap: map<uint16, map<uint16, Address>>,
    valuesIndex: map<Usage, Address>)

  function ItemsOf(es: seq<TypedItem>, id: uint8): seq<DataItem>
  {
    Items(Of(es, id))
  }

  /** NewUsageSets of a report's items. */
  function SetsOf(items: seq<DataItem>): map<nat, UsageSets.UsageSet>
  {
    map i: nat | i < |items| && UsageSets.Classify(items[i]).Some? :: UsageSets.Classify(items[i]).value
  }

  /** NewUsageValuesItems of a report's items. */
  function ValuesOfItems(items: seq<DataItem>): map<nat, Values.UsageValues>
  {
    map i: nat | i < |items| && Values.ValuesOf(items[i]).Some? :: Values.ValuesOf(items[i]).value
  }

  function PageMap(m: map<uint16, map<uint16, Address>>, page: uint16): map<uint16, Address>
  {
    if page in m then m[page] else map[]
  }

  function PageRanges(m: map<uint16, seq<UsageRange>>, page: uint16): seq<UsageRange>
  {
    if page in m then m[page] else []
  }

  /** Every key of the list mapped to the address, over the entries of m. */
  function PutAll<K>(m: map<K, Address>, keys: seq<K>, a: Address): map<K, Address>
  {
    m + map k | k in keys :: a
  }

  /** The entries of the usage set of item idx of report id: each usage ID of an
      unordered set (a flag map) maps to the item; an ordered set adds its range. */
  function SetEntry(t: Tables, id: uint8, idx: nat, s: UsageSets.UsageSet, size: uint32): Tables
  {
    if s.FlagMap? then
      t.(setMap := t.setMap[s.page := PutAll(PageMap(t.setMap, s.page), s.ids, Address(id, idx))])
    else
      t.(ranges := t.ranges[s.page := PageRanges(t.ranges, s.page) + [UsageRange(s.minimum, s.maximum, Address(id, idx), size)]])
  }

  /** The usage-set entries of items[..n] of report id, in index order. */
  function SetEntries(t: Tables, id: uint8, items: seq<DataItem>, n: nat): Tables
    requires n <= |items|
  {
    if n == 0 then t
    else
      var t1 := SetEntries(t, id, items, n - 1);
      match UsageSets.Classify(items[n - 1])
      case Some(s) => SetEntry(t1, id, n - 1, s, items[n - 1].reportSize)
      case None => t1
  }

  /** The usage-value entries of items[..n] of report id: each usage maps to its item. */
  function ValueEntries(t: Tables, id: uint8, items: seq<DataItem>, n: nat): Tables
    requires n <= |items|
  {
    if n == 0 then t
    else
      var t1 := ValueEntries(t, id, items, n - 1);
      match Values.ValuesOf(items[n - 1])
      case Some(v) => t1.(valuesIndex := PutAll(t1.valuesIndex, v.usages, Address(id, n - 1)))
      case None => t1
  }

  /** The tables of one report: its sets and values, then the entries of its sets, then
      those of its values. */
  function ReportTables(t: Tables, rd: ReportItems): Tables
  {
    var items := rd.dataItems;
    var t1 := t.(sets := t.sets[rd.id := SetsOf(items)], values := t.values[rd.id := ValuesOfItems(items)]);
    ValueEntries(SetEntries(t1, rd.id, items, |items|), rd.id, items, |items|)
  }

  function TablesOver(rds: seq<ReportItems>): Tables
  {
    if rds == [] then Tables(map[], map[], map[], map[], map[])
    else ReportTables(TablesOver(rds[..|rds| - 1]), rds[|rds| - 1])
  }

  /** initializeStates: the tables of every report, then each page's ranges sorted. */
  function InitTables(rds: seq<ReportItems>): Tables
  {
    SortAll(TablesOver(rds))
  }

  /** Every page's ranges sorted, as initializeStates does once the tables are built. */
  function SortAll(t: Tables): Tables
  {
    t.(ranges := map p | p in t.ranges :: SortRanges(t.ranges[p]))
  }

  // ---------------------------------------------------------------- sorting ranges

  /** The order of the sort in initializeStates: by report size, then by start. */
  predicate Before(a: UsageRange, b: UsageRange)
  {
    a.reportSize < b.reportSize || (a.reportSize == b.reportSize && a.start <= b.start)
  }

  predicate Sorted(rs: seq<UsageRange>)
  {
    forall i, j :: 0 <= i < j < |rs| ==> Before(rs[i], rs[j])
  }

  function Insert(x: UsageRange, rs: seq<UsageRange>): (r: seq<UsageRange>)
    ensures multiset(r) == multiset(rs) + multiset{x}
  {
    if rs == [] then [x]
    else if Before(x, rs[0]) then [x] + rs
    else
      assert rs == [rs[0]] + rs[1..];
      [rs[0]] + Insert(x, rs[1..])
  }

  lemma {:induction false} InsertSorted(x: UsageRange, rs: seq<UsageRange>)
    requires Sorted(rs)
    ensures Sorted(Insert(x, rs))
  {
    if rs != [] && !Before(x, rs[0]) {
      var tail := Insert(x, rs[1..]);
      InsertSorted(x, rs[1..]);
      forall y | y in tail
        ensures Before(rs[0], y)
      {
        assert y in multiset(tail);
        if y != x {
          assert y in multiset(rs[1..]);
          var j :| 0 <= j < |rs[1..]| && rs[1..][j] == y;
          assert rs[j + 1] == y;
        }
      }
      var r := Insert(x, rs);
      assert r == [rs[0]] + tail;
      forall i, j | 0 <= i < j < |r|
        ensures Before(r[i], r[j])
      {
        assert r[j] == tail[j - 1];
        if i > 0 {
          assert r[i] == tail[i - 1];
        }
      }
    }
  }

  /** slices.SortFunc with the comparison of initializeStates. */
  function SortRanges(rs: seq<UsageRange>): (r: seq<UsageRange>)
    ensures Sorted(r) && multiset(r) == multiset(rs)
  {
    if rs == [] then []
    else
      assert rs == rs[..|rs| - 1] + [rs[|rs| - 1]];
      var init := SortRanges(rs[..|rs| - 1]);
      InsertSorted(rs[|rs| - 1], init);
      Insert(rs[|rs| - 1], init)
  }

  // ---------------------------------------------------------------- lookup

  /** The position of the first range holding the ID, |rs| when none does. */
  function FirstContaining(rs: seq<UsageRange>, id: uint16): (k: nat)
    ensures k <= |rs|
    ensures forall j :: 0 <= j < k ==> !InRange(rs[j], id)
    ensures k < |rs| ==> InRange(rs[k], id)
  {
    if rs == [] then 0
    else if InRange(rs[0], id) then 0
    else 1 + FirstContaining(rs[1..], id)
  }

  /** The field an activation of the usage goes to: its entry in the unordered map of
      its page, else the first range of its page holding its ID, else none. */
  function SetAddress(t: Tables, u: Usage): Option<Address>
  {
    if Page(u) in t.setMap && ID(u) in t.setMap[Page(u)] then Some(t.setMap[Page(u)][ID(u)])
    else
      var rs := PageRanges(t.ranges, Page(u));
      var k := FirstContaining(rs, ID(u));
      if k < |rs| then Some(rs[k].addr) else None
  }

  /** The field an entry of an event is written to: an activation or deactivation goes
      to a usage set, a delta or value to the item of the usage's value; an entry with
      no action, or a usage with no field, is skipped. */
  function AddressOf(t: Tables, e: UsageEvent): Option<Address>
  {
    if e.activate.Some? then SetAddress(t, e.usage)
    else if e.delta.Some? || e.value.Some? then
      (if e.usage in t.valuesIndex then Some(t.valuesIndex[e.usage]) else None)
    else None
  }

  /** With sorted ranges, the range a usage with no unordered entry is looked up in is
      the least, by report size and then start, of those holding its ID: a bitmap range
      (size 1) wins over a selector, and of two selectors the one starting first. */
  lemma LookupTakesLeastRange(t: Tables, u: Usage, r: UsageRange)
    requires Page(u) in t.ranges ==> Sorted(t.ranges[Page(u)])
    requires !(Page(u) in t.setMap && ID(u) in t.setMap[Page(u)])
    requires r in PageRanges(t.ranges, Page(u)) && InRange(r, ID(u))
    ensures SetAddress(t, u).Some?
    ensures var rs := PageRanges(t.ranges, Page(u));
            var k := FirstContaining(rs, ID(u));
            k < |rs| && SetAddress(t, u) == Some(rs[k].addr) && Before(rs[k], r)
  {
    var rs := PageRanges(t.ranges, Page(u));
    var k := FirstContaining(rs, ID(u));
    var j :| 0 <= j < |rs| && rs[j] == r;
    assert k <= j;
  }

  // ---------------------------------------------------------------- soundness of the tables

  predicate SetAt(t: Tables, a: Address)
  {
    a.reportID in t.sets && a.itemIdx in t.sets[a.reportID]
  }

  predicate ValueAt(t: Tables, a: Address)
  {
    a.reportID in t.values && a.itemIdx in t.values[a.reportID]
  }

  /** The unordered entry (p, x) names a flag map of page p listing x. */
  predicate MapEntryHolds(t: Tables, a: Address, p: uint16, x: uint16)
  {
    SetAt(t, a)
    && var s := t.sets[a.reportID][a.itemIdx];
       s.FlagMap? && s.page == p && x in s.ids
  }

  /** A range of page p names an ordered set of page p with the range's bounds. */
  predicate RangeHolds(t: Tables, r: UsageRange, p: uint16)
  {
    SetAt(t, r.addr)
    && var s := t.sets[r.addr.reportID][r.addr.itemIdx];
       !s.FlagMap? && s.page == p && s.minimum == r.start && s.maximum == r.end
  }

  /** The values index names an item whose values hold the usage. */
  predicate IndexHolds(t: Tables, a: Address, u: Usage)
  {
    ValueAt(t, a) && Values.Contains(t.values[a.reportID][a.itemIdx], u)
  }

  /** Every address of the tables names an item that holds the usage it is found by. */
  predicate AddressesSound(t: Tables)
  {
    (forall p, x :: p in t.setMap && x in t.setMap[p] ==> MapEntryHolds(t, t.setMap[p][x], p, x))
    && (forall p, r :: p in t.ranges && r in t.ranges[p] ==> RangeHolds(t, r, p))
    && (forall u :: u in t.valuesIndex ==> IndexHolds(t, t.valuesIndex[u], u))
  }

  /** The sets and values of the tables are those of the items of the reports in ids. */
  predicate ItemsSound(t: Tables, es: seq<TypedItem>, ids: seq<uint8>)
  {
    (forall id :: id in t.sets ==> id in ids && t.sets[id] == SetsOf(ItemsOf(es, id)))
    && (forall id :: id in t.values ==> id in ids && t.values[id] == ValuesOfItems(ItemsOf(es, id)))
  }

  predicate Sound(t: Tables, es: seq<TypedItem>, ids: seq<uint8>)
  {
    ItemsSound(t, es, ids) && AddressesSound(t)
  }

  lemma SetEntrySound(t: Tables, id: uint8, idx: nat, s: UsageSets.UsageSet, size: uint32)
    requires AddressesSound(t) && SetAt(t, Address(id, idx)) && t.sets[id][idx] == s
    ensures AddressesSound(SetEntry(t, id, idx, s, size))
    ensures SetEntry(t, id, idx, s, size).sets == t.sets && SetEntry(t, id, idx, s, size).values == t.values
    ensures SetEntry(t, id, idx, s, size).valuesIndex == t.valuesIndex
  {
    var r := SetEntry(t, id, idx, s, size);
    if s.FlagMap? {
      forall p, x | p in r.setMap && x in r.setMap[p]
        ensures MapEntryHolds(r, r.setMap[p][x], p, x)
      {
        if p != s.page || x !in s.ids {
          assert x in PageMap(t.setMap, p);
        }
      }
    } else {
      forall p, q | p in r.ranges && q in r.ranges[p]
        ensures RangeHolds(r, q, p)
      {
        if p == s.page && q in PageRanges(t.ranges, p) {
          assert p in t.ranges;
        }
      }
    }
  }

  lemma {:induction false} SetEntriesSound(t: Tables, id: uint8, items: seq<DataItem>, n: nat)
    requires n <= |items| && AddressesSound(t)
    requires id in t.sets && t.sets[id] == SetsOf(items)
    ensures AddressesSound(SetEntries(t, id, items, n))
    ensures SetEntries(t, id, items, n).sets == t.sets && SetEntries(t, id, items, n).values == t.values
    ensures SetEntries(t, id, items, n).valuesIndex == t.valuesIndex
  {
    if n > 0 {
      SetEntriesSound(t, id, items, n - 1);
      var t1 := SetEntries(t, id, items, n - 1);
      match UsageSets.Classify(items[n - 1])
      case Some(s) =>
        assert n - 1 in SetsOf(items);
        SetEntrySound(t1, id, n - 1, s, items[n - 1].reportSize);
      case None =>
    }
  }

  lemma {:induction false} ValueEntriesSound(t: Tables, id: uint8, items: seq<DataItem>, n: nat)
    requires n <= |items| && AddressesSound(t)
    requires id in t.values && t.values[id] == ValuesOfItems(items)
    ensures AddressesSound(ValueEntries(t, id, items, n))
    ensures ValueEntries(t, id, items, n).sets == t.sets && ValueEntries(t, id, items, n).values == t.values
    ensures ValueEntries(t, id, items, n).ranges == t.ranges && ValueEntries(t, id, items, n).setMap == t.setMap
  {
    if n > 0 {
      ValueEntriesSound(t, id, items, n - 1);
      var t1 := ValueEntries(t, id, items, n - 1);
      match Values.ValuesOf(items[n - 1])
      case Some(v) =>
        assert n - 1 in ValuesOfItems(items);
        ValueEntrySound(t1, id, n - 1, v);
      case None =>
    }
  }

  lemma ValueEntrySound(t: Tables, id: uint8, idx: nat, v: Values.UsageValues)
    requires AddressesSound(t) && ValueAt(t, Address(id, idx)) && t.values[id][idx] == v
    ensures AddressesSound(t.(valuesIndex := PutAll(t.valuesIndex, v.usages, Address(id, idx))))
  {
    var r := t.(valuesIndex := PutAll(t.valuesIndex, v.usages, Address(id, idx)));
    forall u | u in r.valuesIndex
      ensures IndexHolds(r, r.valuesIndex[u], u)
    {
      if u !in v.usages {
        assert u in t.valuesIndex;
      }
    }
  }

  /** t1 has the entries of t and the sets and values of t under the same report IDs. */
  predicate Extends(t: Tables, t1: Tables)
  {
    t1.setMap == t.setMap && t1.ranges == t.ranges && t1.valuesIndex == t.valuesIndex
    && (forall id :: id in t.sets ==> id in t1.sets && t1.sets[id] == t.sets[id])
    && (forall id :: id in t.values ==> id in t1.values && t1.values[id] == t.values[id])
  }

  lemma ExtendsSound(t: Tables, t1: Tables)
    requires AddressesSound(t) && Extends(t, t1)
    ensures AddressesSound(t1)
  {
    forall p, x | p in t1.setMap && x in t1.setMap[p]
      ensures MapEntryHolds(t1, t1.setMap[p][x], p, x)
    {
      assert MapEntryHolds(t, t.setMap[p][x], p, x);
    }
    forall p, r | p in t1.ranges && r in t1.ranges[p]
      ensures RangeHolds(t1, r, p)
    {
      assert RangeHolds(t, r, p);
    }
    forall u | u in t1.valuesIndex
      ensures IndexHolds(t1, t1.valuesIndex[u], u)
    {
      assert IndexHolds(t, t.valuesIndex[u], u);
    }
  }

  lemma ReportTablesSound(t: Tables, rd: ReportItems, es: seq<TypedItem>, ids: seq<uint8>)
    requires Sound(t, es, ids)
    requires rd.id in ids && rd.dataItems == ItemsOf(es, rd.id)
    ensures Sound(ReportTables(t, rd), es, ids)
    ensures rd.id in ReportTables(t, rd).sets && rd.id in ReportTables(t, rd).values
    ensures forall id :: id in t.sets ==> id in ReportTables(t, rd).sets
    ensures forall id :: id in t.values ==> id in ReportTables(t, rd).values
  {
    var items := rd.dataItems;
    var t1 := t.(sets := t.sets[rd.id := SetsOf(items)], values := t.values[rd.id := ValuesOfItems(items)]);
    assert Extends(t, t1) by {
      forall id | id in t.sets
        ensures id in t1.sets && t1.sets[id] == t.sets[id]
      {
      }
      forall id | id in t.values
        ensures id in t1.values && t1.values[id] == t.values[id]
      {
      }
    }
    ExtendsSound(t, t1);
    var t2 := SetEntries(t1, rd.id, items, |items|);
    SetEntriesSound(t1, rd.id, items, |items|);
    ValueEntriesSound(t2, rd.id, items, |items|);
  }

  lemma {:induction false} TablesOverSound(rds: seq<ReportItems>, es: seq<TypedItem>, ids: seq<uint8>)
    requires forall k :: 0 <= k < |rds| ==> rds[k].id in ids && rds[k].dataItems == ItemsOf(es, rds[k].id)
    ensures Sound(TablesOver(rds), es, ids)
    ensures forall k :: 0 <= k < |rds| ==> rds[k].id in TablesOver(rds).sets
    ensures forall k :: 0 <= k < |rds| ==> rds[k].id in TablesOver(rds).values
  {
    if rds != [] {
      var init := rds[..|rds| - 1];
      var rd := rds[|rds| - 1];
      TablesOverSound(init, es, ids);
      ReportTablesSound(TablesOver(init), rd, es, ids);
      forall k | 0 <= k < |rds| - 1
        ensures rds[k].id in TablesOver(rds).sets && rds[k].id in TablesOver(rds).values
      {
        assert init[k] == rds[k];
      }
    }
  }

  /** With sound tables, the field an event entry is written to belongs to an item that
      holds the entry's usage: a usage set for an activation, usage values for a delta
      or a value. */
  lemma AddressHolds(t: Tables, e: UsageEvent)
    requires AddressesSound(t) && AddressOf(t, e).Some?
    ensures var a := AddressOf(t, e).value;
            if e.activate.Some? then SetAt(t, a) && UsageSets.Contains(t.sets[a.reportID][a.itemIdx], e.usage)
            else IndexHolds(t, a, e.usage)
  {
    var u := e.usage;
    if e.activate.Some? {
      if Page(u) in t.setMap && ID(u) in t.setMap[Page(u)] {
        assert MapEntryHolds(t, t.setMap[Page(u)][ID(u)], Page(u), ID(u));
      } else {
        var rs := PageRanges(t.ranges, Page(u));
        var k := FirstContaining(rs, ID(u));
        assert rs[k] in t.ranges[Page(u)];
        assert RangeHolds(t, rs[k], Page(u));
      }
    }
  }

  /** Sorting the ranges keeps the tables sound and leaves every page sorted. */
  lemma SortKeepsSound(t: Tables)
    requires AddressesSound(t)
    ensures AddressesSound(SortAll(t)) && forall p :: p in SortAll(t).ranges ==> Sorted(SortAll(t).ranges[p])
  {
    var s := SortAll(t);
    forall p, r | p in s.ranges && r in s.ranges[p]
      ensures RangeHolds(s, r, p)
    {
      assert r in multiset(SortRanges(t.ranges[p]));
      assert r in t.ranges[p];
    }
  }

  /** The tables initializeStates builds are sound, hold the sets of exactly the
      reports, and keep every page's ranges sorted. */
  lemma InitTablesSound(ids: seq<uint8>, es: seq<TypedItem>)
    ensures var t := InitTables(ReportsOf(ids, es));
            Sound(t, es, ids)
            && (forall id :: id in t.sets <==> id in ids)
            && (forall id :: id in t.values <==> id in ids)
            && (forall p :: p in t.ranges ==> Sorted(t.ranges[p]))
  {
    var rds := ReportsOf(ids, es);
    forall k | 0 <= k < |rds|
      ensures rds[k].id in ids && rds[k].dataItems == ItemsOf(es, rds[k].id)
    {
      ReportsOfAt(ids, es, k);
    }
    TablesOverSound(rds, es, ids);
    SortKeepsSound(TablesOver(rds));
    forall id | id in ids
      ensures id in TablesOver(rds).sets && id in TablesOver(rds).values
    {
      var k :| 0 <= k < |ids| && ids[k] == id;
      ReportsOfAt(ids, es, k);
    }
  }

  // ---------------------------------------------------------------- building the tables

  /** Every key of the list set to the address, one at a time. */
  method PutEach<K>(m: map<K, Address>, keys: seq<K>, a: Address) returns (r: map<K, Address>)
    ensures r == PutAll(m, keys, a)
  {
    r := m;
    var j := 0;
    while j < |keys|
      invariant 0 <= j <= |keys|
      invariant r == PutAll(m, keys[..j], a)
    {
      assert PutAll(m, keys[..j + 1], a) == PutAll(m, keys[..j], a)[keys[j] := a] by {
        assert keys[..j + 1] == keys[..j] + [keys[j]];
      }
      r := r[keys[j] := a];
      j := j + 1;
    }
    assert keys[..j] == keys;
  }

  /** One report's part of initializeStates: its usage sets and values, then the
      entries of its sets in index order, then those of its values. */
  method AddReportTables(t: Tables, rd: ReportItems) returns (r: Tables)
    ensures r == ReportTables(t, rd)
  {
    var items := rd.dataItems;
    var sets: map<nat, UsageSets.UsageSet> := UsageSets.NewUsageSets(items);
    var values: map<nat, Values.UsageValues> := Values.NewUsageValuesItems(items);
    assert sets == SetsOf(items);
    assert values == ValuesOfItems(items);
    r := t.(sets := t.sets[rd.id := sets], values := t.values[rd.id := values]);
    r := AddSetEntries(r, rd.id, items, sets);
    r := AddValueEntries(r, rd.id, items, values);
  }

  /** The entries of a report's usage sets, in index order. */
  method AddSetEntries(t: Tables, id: uint8, items: seq<DataItem>, sets: map<nat, UsageSets.UsageSet>) returns (r: Tables)
    requires sets == SetsOf(items)
    ensures r == SetEntries(t, id, items, |items|)
  {
    r := t;
    var idx := 0;
    while idx < |items|
      invariant 0 <= idx <= |items|
      invariant r == SetEntries(t, id, items, idx)
    {
      if idx in sets {
        var s := sets[idx];
        if s.FlagMap? {
          var m := PutEach(PageMap(r.setMap, s.page), s.ids, Address(id, idx));
          r := r.(setMap := r.setMap[s.page := m]);
        } else {
          var rang := UsageRange(s.minimum, s.maximum, Address(id, idx), items[idx].reportSize);
          r := r.(ranges := r.ranges[s.page := PageRanges(r.ranges, s.page) + [rang]]);
        }
      }
      idx := idx + 1;
    }
  }

  /** The entries of a report's usage values, in index order. */
  method AddValueEntries(t: Tables, id: uint8, items: seq<DataItem>, values: map<nat, Values.UsageValues>) returns (r: Tables)
    requires values == ValuesOfItems(items)
    ensures r == ValueEntries(t, id, items, |items|)
  {
    r := t;
    var idx := 0;
    while idx < |items|
      invariant 0 <= idx <= |items|
      invariant r == ValueEntries(t, id, items, idx)
    {
      if idx in values {
        var index := PutEach(r.valuesIndex, values[idx].usages, Address(id, idx));
        r := r.(valuesIndex := index);
      }
      idx := idx + 1;
    }
  }

  /** getUsageSet's search: the first of the page's sorted ranges that contains the ID. */
  method GetUsageSet(rs: seq<UsageRange>, id: uint16) returns (found: bool, rang: UsageRange)
    ensures found <==> FirstContaining(rs, id) < |rs|
    ensures found ==> rang == rs[FirstContaining(rs, id)]
  {
    var i := 0;
    while i < |rs|
      invariant 0 <= i <= |rs|
      invariant forall j :: 0 <= j < i ==> !InRange(rs[j], id)
    {
      if InRange(rs[i], id) {
        FirstIs(rs, id, i);
        return true, rs[i];
      }
      i := i + 1;
    }
    FirstIs(rs, id, |rs|);
    return false, UsageRange(0, 0, Address(0, 0), 0);
  }

  lemma FirstIs(rs: seq<UsageRange>, id: uint16, k: nat)
    requires k <= |rs| && (k < |rs| ==> InRange(rs[k], id))
    requires forall j :: 0 <= j < k ==> !InRange(rs[j], id)
    ensures FirstContaining(rs, id) == k
  {
  }
}
