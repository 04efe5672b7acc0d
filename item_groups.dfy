/** The grouping of hidapi/data_items.go as functions of the sequence of Add calls:
    the entries of each report ID, the report IDs in order of first use, and the
    descriptor built back from them. */
module ItemGroups {
  import opened Common
  import opened Descriptor

  /** One call of Add: a data item and the type of the main item that held it. */
  datatype TypedItem = TypedItem(typ: MainItemType, item: DataItem)

  /** One element of Reports: a report ID and its data items in order. */
  datatype ReportItems = ReportItems(id: uint8, dataItems: seq<DataItem>)

  // ---------------------------------------------------------------- grouping

  /** The entries with the given report ID, in the order they were added. */
  function Of(es: seq<TypedItem>, id: uint8): (r: seq<TypedItem>)
    ensures |r| <= |es|
    ensures forall k :: 0 <= k < |r| ==> r[k].item.reportID == id
  {
    if es == [] then []
    else Of(es[..|es| - 1], id) + (if es[|es| - 1].item.reportID == id then [es[|es| - 1]] else [])
  }

  /** The report IDs in the order of their first entry. */
  function IDs(es: seq<TypedItem>): seq<uint8>
  {
    if es == [] then []
    else
      var p := IDs(es[..|es| - 1]);
      var id := es[|es| - 1].item.reportID;
      if id in p then p else p + [id]
  }

  predicate DistinctIDs(ids: seq<uint8>)
  {
    forall i, j :: 0 <= i < j < |ids| ==> ids[i] != ids[j]
  }

  function Items(es: seq<TypedItem>): (r: seq<DataItem>)
    ensures |r| == |es|
  {
    seq(|es|, k requires 0 <= k < |es| => es[k].item)
  }

  function Types(es: seq<TypedItem>): (r: seq<MainItemType>)
    ensures |r| == |es|
  {
    seq(|es|, k requires 0 <= k < |es| => es[k].typ)
  }

  /** The entries of the given report IDs, report by report. */
  function GroupOver(ids: seq<uint8>, es: seq<TypedItem>): seq<TypedItem>
  {
    if ids == [] then [] else GroupOver(ids[..|ids| - 1], es) + Of(es, ids[|ids| - 1])
  }

  /** All entries, report by report in the order of the report IDs. */
  function Grouped(es: seq<TypedItem>): seq<TypedItem>
  {
    GroupOver(IDs(es), es)
  }

  /** The entries of the given main item type. */
  function OfType(es: seq<TypedItem>, typ: MainItemType): (r: seq<TypedItem>)
    ensures forall k :: 0 <= k < |r| ==> r[k].typ == typ
  {
    if es == [] then []
    else OfType(es[..|es| - 1], typ) + (if es[|es| - 1].typ == typ then [es[|es| - 1]] else [])
  }

  lemma {:induction false} OfAppend(a: seq<TypedItem>, b: seq<TypedItem>, id: uint8)
    ensures Of(a + b, id) == Of(a, id) + Of(b, id)
  {
    if b == [] {
      assert a + b == a;
    } else {
      var init := b[..|b| - 1];
      OfAppend(a, init, id);
      assert (a + b)[..|a + b| - 1] == a + init;
    }
  }

  lemma {:induction false} OfTypeAppend(a: seq<TypedItem>, b: seq<TypedItem>, typ: MainItemType)
    ensures OfType(a + b, typ) == OfType(a, typ) + OfType(b, typ)
  {
    if b == [] {
      assert a + b == a;
    } else {
      var init := b[..|b| - 1];
      OfTypeAppend(a, init, typ);
      assert (a + b)[..|a + b| - 1] == a + init;
    }
  }

  /** Selecting one report ID from the entries of another keeps all or nothing. */
  lemma {:induction false} OfOf(es: seq<TypedItem>, x: uint8, id: uint8)
    ensures Of(Of(es, x), id) == if x == id then Of(es, id) else []
  {
    if es != [] {
      var init := es[..|es| - 1];
      var e := es[|es| - 1];
      OfOf(init, x, id);
      OfAppend(Of(init, x), if e.item.reportID == x then [e] else [], id);
      assert Of([e], id) == Of([], id) + (if e.item.reportID == id then [e] else []) by {
        assert [e][..0] == [];
      }
    }
  }

  /** Selecting by report ID and by type commute. */
  lemma {:induction false} OfOfType(es: seq<TypedItem>, id: uint8, typ: MainItemType)
    ensures Of(OfType(es, typ), id) == OfType(Of(es, id), typ)
  {
    if es != [] {
      var init := es[..|es| - 1];
      var e := es[|es| - 1];
      OfOfType(init, id, typ);
      var t := if e.typ == typ then [e] else [];
      var o := if e.item.reportID == id then [e] else [];
      OfAppend(OfType(init, typ), t, id);
      OfTypeAppend(Of(init, id), o, typ);
      assert Of(t, id) == OfType(o, typ) by {
        assert [e][..0] == [];
      }
    }
  }

  /** The report IDs are distinct and are exactly those with entries. */
  lemma {:induction false} IDsOf(es: seq<TypedItem>, id: uint8)
    ensures DistinctIDs(IDs(es))
    ensures id in IDs(es) <==> Of(es, id) != []
  {
    if es != [] {
      var init := es[..|es| - 1];
      IDsOf(init, id);
      IDsOf(init, es[|es| - 1].item.reportID);
    }
  }

  /** Appending a block of entries of one new report ID appends that ID. */
  lemma {:induction false} IDsAppendBlock(a: seq<TypedItem>, b: seq<TypedItem>, x: uint8)
    requires b != [] && forall k :: 0 <= k < |b| ==> b[k].item.reportID == x
    requires x !in IDs(a)
    ensures IDs(a + b) == IDs(a) + [x]
  {
    var init := b[..|b| - 1];
    assert (a + b)[..|a + b| - 1] == a + init;
    if init != [] {
      IDsAppendBlock(a, init, x);
    } else {
      assert a + init == a;
    }
  }

  lemma {:induction false} OfGroupOver(ids: seq<uint8>, es: seq<TypedItem>, id: uint8)
    requires DistinctIDs(ids)
    ensures Of(GroupOver(ids, es), id) == if id in ids then Of(es, id) else []
  {
    if ids != [] {
      var init := ids[..|ids| - 1];
      var last := ids[|ids| - 1];
      assert DistinctIDs(init);
      OfGroupOver(init, es, id);
      OfAppend(GroupOver(init, es), Of(es, last), id);
      OfOf(es, last, id);
      LastOf(ids, id);
    }
  }

  lemma LastOf(ids: seq<uint8>, id: uint8)
    requires DistinctIDs(ids) && ids != []
    ensures DistinctIDs(ids[..|ids| - 1])
    ensures id in ids <==> id in ids[..|ids| - 1] || id == ids[|ids| - 1]
    ensures ids[|ids| - 1] !in ids[..|ids| - 1]
  {
    assert ids == ids[..|ids| - 1] + [ids[|ids| - 1]];
  }

  lemma {:induction false} IDsGroupOver(ids: seq<uint8>, es: seq<TypedItem>)
    requires DistinctIDs(ids)
    requires forall k :: 0 <= k < |ids| ==> Of(es, ids[k]) != []
    ensures IDs(GroupOver(ids, es)) == ids
  {
    if ids != [] {
      var init := ids[..|ids| - 1];
      var last := ids[|ids| - 1];
      assert DistinctIDs(init);
      IDsGroupOver(init, es);
      assert last !in init;
      IDsAppendBlock(GroupOver(init, es), Of(es, last), last);
    }
  }

  /** Regrouping keeps the report IDs, their order, and the entries of each report. */
  lemma GroupedKeeps(es: seq<TypedItem>, id: uint8)
    ensures IDs(Grouped(es)) == IDs(es)
    ensures Of(Grouped(es), id) == Of(es, id)
  {
    var ids := IDs(es);
    IDsOf(es, id);
    forall k | 0 <= k < |ids|
      ensures Of(es, ids[k]) != []
    {
      IDsOf(es, ids[k]);
    }
    IDsGroupOver(ids, es);
    OfGroupOver(ids, es, id);
  }

  // ---------------------------------------------------------------- descriptors

  /** The entries NewDataItemSet adds for a collection: its data items, depth first, each
      with its main item's type. */
  function TypedOf(c: Collection): seq<TypedItem>
    decreases c, 2
  {
    TypedItems(c.items)
  }

  function TypedItems(items: seq<MainItem>): seq<TypedItem>
    decreases items, 1
  {
    if items == [] then [] else TypedOfItem(items[0]) + TypedItems(items[1..])
  }

  function TypedOfItem(item: MainItem): seq<TypedItem>
    decreases item, 0
  {
    if item.collection.Some? then TypedOf(item.collection.value)
    else if item.dataItem.Some? then [TypedItem(item.itemType, item.dataItem.value)] else []
  }

  /** The entries of several top-level collections, in order. */
  function TypedOfAll(cs: seq<Collection>): seq<TypedItem>
  {
    if cs == [] then [] else TypedOfAll(cs[..|cs| - 1]) + TypedOf(cs[|cs| - 1])
  }

  /** One more item of a collection adds that item's entries. */
  lemma TypedItemsStep(items: seq<MainItem>, i: nat)
    requires i < |items|
    ensures TypedItems(items[..i + 1]) == TypedItems(items[..i]) + TypedOfItem(items[i])
  {
    TypedItemsAppend(items[..i], [items[i]]);
    assert items[..i + 1] == items[..i] + [items[i]];
    assert TypedItems([items[i]]) == TypedOfItem(items[i]) + TypedItems([]);
  }

  lemma {:induction false} TypedItemsAppend(a: seq<MainItem>, b: seq<MainItem>)
    ensures TypedItems(a + b) == TypedItems(a) + TypedItems(b)
  {
    if a != [] {
      assert (a + b)[1..] == a[1..] + b;
      TypedItemsAppend(a[1..], b);
    } else {
      assert a + b == b;
    }
  }

  /** The data items of the entries are the collection's data items (Descriptor's
      DataItemsOf), in the same order. */
  lemma {:induction false} TypedOfData(c: Collection)
    ensures Items(TypedOf(c)) == DataItemsOf(c)
    decreases c, 2
  {
    TypedItemsData(c.items);
  }

  lemma {:induction false} TypedItemsData(items: seq<MainItem>)
    ensures Items(TypedItems(items)) == ItemsDataItems(items)
    decreases items, 1
  {
    if items != [] {
      TypedItemData(items[0]);
      TypedItemsData(items[1..]);
      ItemsAppend(TypedOfItem(items[0]), TypedItems(items[1..]));
    }
  }

  lemma {:induction false} TypedItemData(item: MainItem)
    ensures Items(TypedOfItem(item)) == ItemDataItems(item)
    decreases item, 0
  {
    if item.collection.Some? {
      TypedOfData(item.collection.value);
    }
  }

  lemma ItemsAppend(a: seq<TypedItem>, b: seq<TypedItem>)
    ensures Items(a + b) == Items(a) + Items(b)
  {
  }

  /** The main items MakeDescriptor writes for one report. */
  function MainItemsOf(es: seq<TypedItem>): (r: seq<MainItem>)
    ensures |r| == |es|
  {
    seq(|es|, k requires 0 <= k < |es| => MainItem(es[k].typ, Some(es[k].item), None))
  }

  /** The collection MakeDescriptor writes for one report: Go's zero collection type and
      usage, holding the report's items. */
  function ReportCollection(es: seq<TypedItem>): Collection
  {
    Collection(0, 0, 0, MainItemsOf(es))
  }

  function CollectionsOf(ids: seq<uint8>, es: seq<TypedItem>): (r: seq<Collection>)
    ensures |r| == |ids|
  {
    if ids == [] then [] else CollectionsOf(ids[..|ids| - 1], es) + [ReportCollection(Of(es, ids[|ids| - 1]))]
  }

  /** The descriptor MakeDescriptor builds from the set's entries. */
  function DescriptorOf(es: seq<TypedItem>): ReportDescriptor
  {
    ReportDescriptor(CollectionsOf(IDs(es), es))
  }

  lemma {:induction false} TypedOfMainItems(es: seq<TypedItem>)
    ensures TypedItems(MainItemsOf(es)) == es
    ensures WellFormed(ReportCollection(es))
  {
    if es != [] {
      TypedOfMainItems(es[1..]);
      assert MainItemsOf(es)[1..] == MainItemsOf(es[1..]);
    }
  }

  lemma {:induction false} TypedOfCollections(ids: seq<uint8>, es: seq<TypedItem>)
    ensures TypedOfAll(CollectionsOf(ids, es)) == GroupOver(ids, es)
    ensures forall k :: 0 <= k < |ids| ==> WellFormed(CollectionsOf(ids, es)[k])
  {
    if ids != [] {
      var init := ids[..|ids| - 1];
      var cs := CollectionsOf(ids, es);
      TypedOfCollections(init, es);
      assert cs[..|cs| - 1] == CollectionsOf(init, es);
      TypedOfMainItems(Of(es, ids[|ids| - 1]));
    }
  }

  /** MakeDescriptor round trip: the descriptor of a set is well formed, and a set built
      from it has the same report IDs in the same order, and the same items with the same
      types under each report ID. */
  lemma MakeDescriptorRoundTrip(es: seq<TypedItem>, id: uint8)
    ensures forall c :: c in DescriptorOf(es).collections ==> WellFormed(c)
    ensures IDs(TypedOfAll(DescriptorOf(es).collections)) == IDs(es)
    ensures Of(TypedOfAll(DescriptorOf(es).collections), id) == Of(es, id)
  {
    TypedOfCollections(IDs(es), es);
    GroupedKeeps(es, id);
  }

  /** Reports: each report ID in order with its data items. */
  function ReportsOf(ids: seq<uint8>, es: seq<TypedItem>): (r: seq<ReportItems>)
    ensures |r| == |ids|
  {
    if ids == [] then [] else ReportsOf(ids[..|ids| - 1], es) + [ReportItems(ids[|ids| - 1], Items(Of(es, ids[|ids| - 1])))]
  }

  /** The k-th report names the k-th report ID and holds exactly its data items. */
  lemma {:induction false} ReportsOfAt(ids: seq<uint8>, es: seq<TypedItem>, k: nat)
    requires k < |ids|
    ensures ReportsOf(ids, es)[k] == ReportItems(ids[k], Items(Of(es, ids[k])))
  {
    if k < |ids| - 1 {
      ReportsOfAt(ids[..|ids| - 1], es, k);
    }
  }

  /** One more report ID adds that report's entries of the type. */
  lemma GroupOverStep(ids: seq<uint8>, es: seq<TypedItem>, r: nat, typ: MainItemType)
    requires r < |ids|
    ensures OfType(GroupOver(ids[..r + 1], es), typ) == OfType(GroupOver(ids[..r], es), typ) + OfType(Of(es, ids[r]), typ)
  {
    assert ids[..r + 1][..r] == ids[..r];
    OfTypeAppend(GroupOver(ids[..r], es), Of(es, ids[r]), typ);
  }

  /** WithType keeps, under each report ID, exactly the items of the given type, in the
      order they were added. */
  lemma WithTypeReports(es: seq<TypedItem>, typ: MainItemType, id: uint8)
    ensures Of(OfType(Grouped(es), typ), id) == OfType(Of(es, id), typ)
  {
    OfOfType(Grouped(es), id, typ);
    GroupedKeeps(es, id);
  }

  /** One more entry extends its own report's entries and no other's. */
  lemma OfSnoc(es: seq<TypedItem>, e: TypedItem, x: uint8)
    ensures Of(es + [e], x) == Of(es, x) + (if e.item.reportID == x then [e] else [])
    ensures Items(Of(es + [e], x)) == Items(Of(es, x)) + (if e.item.reportID == x then [e.item] else [])
    ensures Types(Of(es + [e], x)) == Types(Of(es, x)) + (if e.item.reportID == x then [e.typ] else [])
  {
    assert (es + [e])[..|es|] == es;
  }

  lemma {:induction false} OfZero(es: seq<TypedItem>)
    ensures Of(es, 0) == [] <==> forall k :: 0 <= k < |es| ==> es[k].item.reportID != 0
  {
    if es != [] {
      OfZero(es[..|es| - 1]);
    }
  }

}
