/** The data item set of hidapi/data_items.go: the data items of a report descriptor
    grouped by report ID, each with the main item type it came from. */
module DataItems {
  import opened Common
  import opened Descriptor
  import opened ItemGroups

  // ---------------------------------------------------------------- DataItemSet

  class DataItemSet {
    var reportIDs: seq<uint8>
    var dataItems: map<uint8, seq<DataItem>>
    /** types[id][idx] is the type of dataItems[id][idx] (a map keyed by index in Go). */
    var types: map<uint8, seq<MainItemType>>
    /** Every (type, item) pair added so far, in order. */
    ghost var added: seq<TypedItem>

    ghost predicate Valid()
      reads this
    {
      reportIDs == IDs(added)
      && (forall id :: id in dataItems <==> id in reportIDs)
      && (forall id :: id in types <==> id in reportIDs)
      && (forall id :: id in dataItems ==> dataItems[id] == Items(Of(added, id)))
      && (forall id :: id in types ==> types[id] == Types(Of(added, id)))
    }

    constructor ()
      ensures Valid() && added == []
    {
      reportIDs := [];
      dataItems := map[];
      types := map[];
      added := [];
    }

    /** Add. */
    method Add(typ: MainItemType, item: DataItem)
      requires Valid()
      modifies this
      ensures Valid() && added == old(added) + [TypedItem(typ, item)]
    {
      var id := item.reportID;
      ghost var e := TypedItem(typ, item);
      IDsOf(added, id);
      if id !in dataItems {
        reportIDs := reportIDs + [id];
        dataItems := dataItems[id := []];
        types := types[id := []];
      }
      dataItems := dataItems[id := dataItems[id] + [item]];
      types := types[id := types[id] + [typ]];
      added := added + [e];
      assert added[..|added| - 1] == old(added);
      forall x | x in dataItems
        ensures dataItems[x] == Items(Of(added, x)) && types[x] == Types(Of(added, x))
      {
        OfSnoc(old(added), e, x);
      }
    }

    /** Report: the data items of a report ID, none for an unknown one. */
    method Report(id: uint8) returns (items: seq<DataItem>)
      requires Valid()
      ensures items == Items(Of(added, id))
    {
      IDsOf(added, id);
      if id in dataItems {
        items := dataItems[id];
      } else {
        items := [];
      }
    }

    /** Type: the main item type of an item, Go's zero type (Input) when there is none. */
    function Type(id: uint8, idx: int): (t: MainItemType)
      requires Valid()
      reads this
      ensures 0 <= idx < |Of(added, id)| ==> t == Of(added, id)[idx].typ
      ensures !(0 <= idx < |Of(added, id)|) ==> t == Input
    {
      IDsOf(added, id);
      if id in types && 0 <= idx < |types[id]| then types[id][idx] else Input
    }

    /** HasReportID: true when no item uses report ID 0. */
    function HasReportID(): (has: bool)
      requires Valid()
      reads this
      ensures has <==> forall k :: 0 <= k < |added| ==> added[k].item.reportID != 0
    {
      OfZero(added);
      IDsOf(added, 0);
      0 !in dataItems
    }

    /** Reports. */
    method Reports() returns (reports: seq<ReportItems>)
      requires Valid()
      ensures reports == ReportsOf(reportIDs, added)
    {
      reports := [];
      var i := 0;
      while i < |reportIDs|
        invariant 0 <= i <= |reportIDs|
        invariant reports == ReportsOf(reportIDs[..i], added)
      {
        assert reportIDs[..i + 1][..i] == reportIDs[..i];
        var id := reportIDs[i];
        reports := reports + [ReportItems(id, dataItems[id])];
        i := i + 1;
      }
      assert reportIDs[..i] == reportIDs;
    }

    /** WithType: a new set holding, report by report, the items of one type. */
    method WithType(typ: MainItemType) returns (result: DataItemSet)
      requires Valid()
      ensures fresh(result) && result.Valid()
      ensures result.added == OfType(Grouped(added), typ)
    {
      result := new DataItemSet();
      var reports := Reports();
      var r := 0;
      while r < |reports|
        invariant 0 <= r <= |reports|
        invariant result.Valid() && fresh(result)
        invariant result.added == OfType(GroupOver(reportIDs[..r], added), typ)
      {
        AddReportOfType(result, reports, r, typ);
        GroupOverStep(reportIDs, added, r, typ);
        r := r + 1;
      }
      assert reportIDs[..r] == reportIDs;
    }

    /** The body of WithType's outer loop: the items of the r-th report whose type is
        typ, added to result. */
    method AddReportOfType(result: DataItemSet, reports: seq<ReportItems>, r: nat, typ: MainItemType)
      requires Valid() && reports == ReportsOf(reportIDs, added) && r < |reports|
      requires result.Valid() && result != this
      modifies result
      ensures result.Valid() && result.added == old(result.added) + OfType(Of(added, reportIDs[r]), typ)
    {
      ReportsOfAt(reportIDs, added, r);
      var id := reports[r].id;
      IDsOf(added, id);
      AddOfType(result, Of(added, id), reports[r].dataItems, types[id], typ);
    }

    /** MakeDescriptor: one collection per report ID, in order. */
    method MakeDescriptor() returns (desc: ReportDescriptor)
      requires Valid()
      ensures desc == DescriptorOf(added)
    {
      var collections: seq<Collection> := [];
      var i := 0;
      while i < |reportIDs|
        invariant 0 <= i <= |reportIDs|
        invariant collections == CollectionsOf(reportIDs[..i], added)
      {
        assert reportIDs[..i + 1][..i] == reportIDs[..i];
        var id := reportIDs[i];
        IDsOf(added, id);
        var mainItems := ReportMainItems(Of(added, id), dataItems[id], types[id]);
        collections := collections + [Collection(0, 0, 0, mainItems)];
        i := i + 1;
      }
      assert reportIDs[..i] == reportIDs;
      desc := ReportDescriptor(collections);
    }

    /** drill: adds the entries of one collection, descending into nested ones. */
    method Drill(c: Collection)
      requires Valid() && WellFormed(c)
      modifies this
      ensures Valid() && added == old(added) + TypedOf(c)
      decreases c
    {
      var i := 0;
      while i < |c.items|
        invariant 0 <= i <= |c.items|
        invariant Valid() && added == old(added) + TypedItems(c.items[..i])
      {
        var item := c.items[i];
        assert WellFormedItem(item);
        ghost var before := added;
        if item.collection.None? {
          Add(item.itemType, item.dataItem.value);
        } else {
          Drill(item.collection.value);
        }
        assert added == before + TypedOfItem(item);
        TypedItemsStep(c.items, i);
        TypedAssoc(old(added), TypedItems(c.items[..i]), TypedOfItem(item));
        i := i + 1;
      }
      assert c.items[..i] == c.items;
    }
  }

  lemma TypedAssoc(a: seq<TypedItem>, b: seq<TypedItem>, c: seq<TypedItem>)
    ensures a + b + c == a + (b + c)
  {
  }

  /** The inner loop of WithType: adds, in order, the items of one report whose type is
      typ. */
  method AddOfType(result: DataItemSet, ghost es: seq<TypedItem>, items: seq<DataItem>,
                   types: seq<MainItemType>, typ: MainItemType)
    requires result.Valid() && items == Items(es) && types == Types(es)
    modifies result
    ensures result.Valid() && result.added == old(result.added) + OfType(es, typ)
  {
    var idx := 0;
    while idx < |items|
      invariant 0 <= idx <= |items|
      invariant result.Valid() && result.added == old(result.added) + OfType(es[..idx], typ)
    {
      OfTypeStep(es, idx, typ);
      AddIfOfType(result, types[idx], items[idx], typ);
      idx := idx + 1;
    }
    assert es[..idx] == es;
  }

  method AddIfOfType(result: DataItemSet, itemType: MainItemType, item: DataItem, typ: MainItemType)
    requires result.Valid()
    modifies result
    ensures result.Valid()
    ensures result.added == old(result.added) + (if itemType == typ then [TypedItem(typ, item)] else [])
  {
    if itemType == typ {
      result.Add(typ, item);
    }
  }

  lemma OfTypeStep(es: seq<TypedItem>, idx: nat, typ: MainItemType)
    requires idx < |es|
    ensures OfType(es[..idx + 1], typ)
            == OfType(es[..idx], typ) + (if Types(es)[idx] == typ then [TypedItem(typ, Items(es)[idx])] else [])
  {
    assert es[..idx + 1][..idx] == es[..idx];
  }

  /** The inner loop of MakeDescriptor: a main item for each item of one report. */
  method ReportMainItems(ghost es: seq<TypedItem>, items: seq<DataItem>, types: seq<MainItemType>)
    returns (mainItems: seq<MainItem>)
    requires items == Items(es) && types == Types(es)
    ensures mainItems == MainItemsOf(es)
  {
    mainItems := [];
    var idx := 0;
    while idx < |items|
      invariant 0 <= idx <= |items|
      invariant mainItems == MainItemsOf(es[..idx])
    {
      mainItems := mainItems + [MainItem(types[idx], Some(items[idx]), None)];
      idx := idx + 1;
    }
    assert es[..idx] == es;
  }

  /** NewDataItemSet: a set holding every data item of the descriptor, collection by
      collection, depth first. */
  method NewDataItemSet(desc: ReportDescriptor) returns (result: DataItemSet)
    requires forall c :: c in desc.collections ==> WellFormed(c)
    ensures fresh(result) && result.Valid()
    ensures result.added == TypedOfAll(desc.collections)
  {
    result := new DataItemSet();
    var cs := desc.collections;
    var i := 0;
    while i < |cs|
      invariant 0 <= i <= |cs|
      invariant fresh(result) && result.Valid() && result.added == TypedOfAll(cs[..i])
    {
      assert cs[..i + 1][..i] == cs[..i];
      result.Drill(cs[i]);
      i := i + 1;
    }
    assert cs[..i] == cs;
  }
}
