/** The decoded report descriptor of hidapi/hiddesc: collections of main items, the data
    flags of Input/Output/Feature items (section 6.2.2.5 of the USB Device Class
    Definition for HID 1.11), and the recursive size, clone and walk operations. */
module Descriptor {
  import opened Common

  // ---------------------------------------------------------------- data flags

  /** The 32-bit flag word of an Input, Output or Feature item. */
  type DataFlags = bv32

  const DataFlagConstant: DataFlags := 1
  const DataFlagVariable: DataFlags := 2
  const DataFlagRelative: DataFlags := 4
  const DataFlagWrap: DataFlags := 8
  const DataFlagNonLinear: DataFlags := 16
  const DataFlagNoPreferred: DataFlags := 32
  const DataFlagNullState: DataFlags := 64
  const DataFlagVolatile: DataFlags := 128
  const DataFlagBufferedBytes: DataFlags := 256

  predicate IsConstant(d: DataFlags) { d & DataFlagConstant != 0 }
  predicate IsVariable(d: DataFlags) { d & DataFlagVariable != 0 }
  predicate IsArray(d: DataFlags) { !IsVariable(d) }
  predicate IsRelative(d: DataFlags) { d & DataFlagRelative != 0 }
  predicate IsWrap(d: DataFlags) { d & DataFlagWrap != 0 }
  predicate IsNonLinear(d: DataFlags) { d & DataFlagNonLinear != 0 }
  predicate IsNoPreferred(d: DataFlags) { d & DataFlagNoPreferred != 0 }
  predicate IsNullState(d: DataFlags) { d & DataFlagNullState != 0 }
  predicate IsVolatile(d: DataFlags) { d & DataFlagVolatile != 0 }
  predicate IsBufferedBytes(d: DataFlags) { d & DataFlagBufferedBytes != 0 }

  /** The nine flag bits as named booleans, in the order of the standard. */
  datatype FlagSet = FlagSet(constant: bool, variable: bool, relative: bool, wrap: bool,
                             nonLinear: bool, noPreferred: bool, nullState: bool,
                             volatile: bool, bufferedBytes: bool)

  function Bit(on: bool, flag: DataFlags): DataFlags
  {
    if on then flag else 0
  }

  /** The flag word with exactly the named bits set. */
  function FlagsOf(f: FlagSet): DataFlags
  {
    Bit(f.constant, DataFlagConstant) | Bit(f.variable, DataFlagVariable)
    | Bit(f.relative, DataFlagRelative) | Bit(f.wrap, DataFlagWrap)
    | Bit(f.nonLinear, DataFlagNonLinear) | Bit(f.noPreferred, DataFlagNoPreferred)
    | Bit(f.nullState, DataFlagNullState) | Bit(f.volatile, DataFlagVolatile)
    | Bit(f.bufferedBytes, DataFlagBufferedBytes)
  }

  /** Each predicate reads back exactly its own bit, whatever the other bits are; an item
      is an array item exactly when it is not a variable one. */
  lemma FlagsRoundTrip(f: FlagSet)
    ensures IsConstant(FlagsOf(f)) == f.constant
    ensures IsVariable(FlagsOf(f)) == f.variable
    ensures IsArray(FlagsOf(f)) == !f.variable
    ensures IsRelative(FlagsOf(f)) == f.relative
    ensures IsWrap(FlagsOf(f)) == f.wrap
  {
  }

  /** The same for the high five bits. */
  lemma FlagsRoundTripHigh(f: FlagSet)
    ensures IsNonLinear(FlagsOf(f)) == f.nonLinear
    ensures IsNoPreferred(FlagsOf(f)) == f.noPreferred
    ensures IsNullState(FlagsOf(f)) == f.nullState
    ensures IsVolatile(FlagsOf(f)) == f.volatile
    ensures IsBufferedBytes(FlagsOf(f)) == f.bufferedBytes
  {
  }

  // ---------------------------------------------------------------- items

  datatype MainItemType = Input | Output | Feature | CollectionItem

  /** The fields a data item carries from the global and local state. */
  datatype DataItem = DataItem(
    flags: DataFlags,
    usagePage: uint16,
    usageIDs: seq<uint16>,
    usageMinimum: uint16,
    usageMaximum: uint16,
    reportCount: uint32,
    reportSize: uint32,
    reportID: uint8,
    designatorIndex: uint8,
    designatorMinimum: uint8,
    designatorMaximum: uint8,
    logicalMinimum: int32,
    logicalMaximum: int32,
    physicalMinimum: int32,
    physicalMaximum: int32,
    unitExponent: uint32,
    unit: uint32)

  /** A main item: a data item, a nested collection, or (as Go allows) both or neither. */
  datatype MainItem = MainItem(itemType: MainItemType, dataItem: Option<DataItem>,
                               collection: Option<Collection>)

  datatype Collection = Collection(collectionType: uint8, usagePage: uint16, usageID: uint16,
                                   items: seq<MainItem>)

  datatype ReportDescriptor = ReportDescriptor(collections: seq<Collection>)

  /** Every item holds exactly one of a data item and a collection, at every depth; the
      decoder only builds such items. */
  predicate WellFormed(c: Collection)
    decreases c
  {
    forall i :: 0 <= i < |c.items| ==> WellFormedItem(c.items[i])
  }

  predicate WellFormedItem(item: MainItem)
    decreases item
  {
    match item.collection
    case Some(sub) => item.dataItem.None? && WellFormed(sub)
    case None => item.dataItem.Some?
  }

  // ---------------------------------------------------------------- size

  /** Collection.MaxReportSize: the ReportSize of every data item, at every depth. */
  function CollectionSize(c: Collection): (n: nat)
    decreases c
  {
    ItemsSize(c.items)
  }

  function ItemsSize(items: seq<MainItem>): (n: nat)
    decreases items
  {
    if items == [] then 0
    else ItemSize(items[0]) + ItemsSize(items[1..])
  }

  function ItemSize(item: MainItem): (n: nat)
    decreases item
  {
    (if item.dataItem.Some? then item.dataItem.value.reportSize else 0)
    + (if item.collection.Some? then CollectionSize(item.collection.value) else 0)
  }

  /** ReportDescriptor.MaxReportSize: the sum over the top-level collections. */
  function MaxReportSize(r: ReportDescriptor): (n: nat)
  {
    CollectionsSize(r.collections)
  }

  function CollectionsSize(cs: seq<Collection>): (n: nat)
  {
    if cs == [] then 0 else CollectionSize(cs[0]) + CollectionsSize(cs[1..])
  }

  /** The data items of a collection, depth first in item order. */
  function DataItemsOf(c: Collection): seq<DataItem>
    decreases c
  {
    ItemsDataItems(c.items)
  }

  function ItemsDataItems(items: seq<MainItem>): seq<DataItem>
    decreases items
  {
    if items == [] then [] else ItemDataItems(items[0]) + ItemsDataItems(items[1..])
  }

  /** A nested collection's data items, else the item's own data item, else nothing. */
  function ItemDataItems(item: MainItem): seq<DataItem>
    decreases item
  {
    if item.collection.Some? then DataItemsOf(item.collection.value)
    else if item.dataItem.Some? then [item.dataItem.value] else []
  }

  function SumSizes(ds: seq<DataItem>): nat
  {
    if ds == [] then 0 else ds[0].reportSize + SumSizes(ds[1..])
  }

  lemma {:induction false} SumSizesAppend(a: seq<DataItem>, b: seq<DataItem>)
    ensures SumSizes(a + b) == SumSizes(a) + SumSizes(b)
  {
    if a == [] {
      assert a + b == b;
    } else {
      assert (a + b)[0] == a[0] && (a + b)[1..] == a[1..] + b;
      SumSizesAppend(a[1..], b);
    }
  }

  /** On a well-formed collection the size is the sum of ReportSize over its data items
      (ReportCount plays no part). */
  lemma {:induction false} SizeIsSumOfReportSizes(c: Collection)
    requires WellFormed(c)
    ensures CollectionSize(c) == SumSizes(DataItemsOf(c))
    decreases c, 2
  {
    ItemsSizeIsSum(c.items);
  }

  lemma {:induction false} ItemsSizeIsSum(items: seq<MainItem>)
    requires forall i :: 0 <= i < |items| ==> WellFormedItem(items[i])
    ensures ItemsSize(items) == SumSizes(ItemsDataItems(items))
    decreases items, 1
  {
    if items != [] {
      ItemsSizeIsSum(items[1..]);
      SumSizesAppend(ItemDataItems(items[0]), ItemsDataItems(items[1..]));
      ItemSizeIsSum(items[0]);
    }
  }

  lemma {:induction false} ItemSizeIsSum(item: MainItem)
    requires WellFormedItem(item)
    ensures ItemSize(item) == SumSizes(ItemDataItems(item))
    decreases item, 0
  {
    if item.collection.Some? {
      SizeIsSumOfReportSizes(item.collection.value);
    }
  }

  /** A single Input item of size 8 and count 4 has a maximum report size of 8, not 32. */
  lemma SizeIgnoresCount(d: DataItem)
    requires d.reportSize == 8 && d.reportCount == 4
    ensures MaxReportSize(ReportDescriptor([Collection(1, 1, 6, [MainItem(Input, Some(d), None)])]))
         == 8
  {
    var c := Collection(1, 1, 6, [MainItem(Input, Some(d), None)]);
    assert c.items[1..] == [];
    assert ItemsSize(c.items) == ItemSize(c.items[0]) + ItemsSize(c.items[1..]) == 8;
    assert [c][1..] == [];
    assert CollectionsSize([c]) == CollectionSize(c) + CollectionsSize([]);
  }

  // ---------------------------------------------------------------- clone

  /** Collection.Clone: copies each item's type and data item and clones nested
      collections; the clone's UsagePage and UsageID are left zero. An item with neither
      part becomes the zero MainItem, an Input with nothing. */
  function Clone(c: Collection): (r: Collection)
    decreases c
  {
    Collection(c.collectionType, 0, 0, CloneItems(c.items))
  }

  function CloneItems(items: seq<MainItem>): (r: seq<MainItem>)
    ensures |r| == |items|
    decreases items
  {
    if items == [] then [] else [CloneItem(items[0])] + CloneItems(items[1..])
  }

  function CloneItem(item: MainItem): MainItem
    decreases item
  {
    if item.collection.Some? then MainItem(item.itemType, None, Some(Clone(item.collection.value)))
    else if item.dataItem.Some? then MainItem(item.itemType, item.dataItem, None)
    else MainItem(Input, None, None)
  }

  /** ReportDescriptor.Clone: each top-level collection cloned the same way. */
  function CloneDescriptor(r: ReportDescriptor): (s: ReportDescriptor)
    ensures |s.collections| == |r.collections|
    ensures forall i :: 0 <= i < |r.collections| ==> s.collections[i] == Clone(r.collections[i])
  {
    ReportDescriptor(seq(|r.collections|, i requires 0 <= i < |r.collections| => Clone(r.collections[i])))
  }

  /** A clone of a well-formed collection is well formed, keeps every data item in
      order, and so keeps the report size; its usage is zero at every depth. */
  lemma {:induction false} CloneKeepsData(c: Collection)
    requires WellFormed(c)
    ensures WellFormed(Clone(c))
    ensures DataItemsOf(Clone(c)) == DataItemsOf(c)
    ensures CollectionSize(Clone(c)) == CollectionSize(c)
    ensures Clone(c).usagePage == 0 && Clone(c).usageID == 0
    ensures Clone(c).collectionType == c.collectionType
    decreases c, 2
  {
    CloneItemsKeepData(c.items);
    SizeIsSumOfReportSizes(c);
    SizeIsSumOfReportSizes(Clone(c));
  }

  lemma {:induction false} CloneItemsKeepData(items: seq<MainItem>)
    requires forall i :: 0 <= i < |items| ==> WellFormedItem(items[i])
    ensures forall i :: 0 <= i < |items| ==> WellFormedItem(CloneItems(items)[i])
    ensures forall i :: 0 <= i < |items| ==> CloneItems(items)[i].itemType == items[i].itemType
    ensures ItemsDataItems(CloneItems(items)) == ItemsDataItems(items)
    decreases items, 1
  {
    if items != [] {
      CloneItemsKeepData(items[1..]);
      CloneItemKeepsData(items[0]);
      var r := CloneItems(items);
      assert r[1..] == CloneItems(items[1..]);
      forall i | 0 <= i < |items|
        ensures WellFormedItem(r[i]) && r[i].itemType == items[i].itemType
      {
        if i > 0 {
          assert r[i] == CloneItems(items[1..])[i - 1];
        }
      }
    }
  }

  lemma {:induction false} CloneItemKeepsData(item: MainItem)
    requires WellFormedItem(item)
    ensures WellFormedItem(CloneItem(item))
    ensures CloneItem(item).itemType == item.itemType
    ensures ItemDataItems(CloneItem(item)) == ItemDataItems(item)
    decreases item, 0
  {
    if item.collection.Some? {
      CloneKeepsData(item.collection.value);
    }
  }

  /** Cloning a clone changes nothing. */
  lemma {:induction false} CloneIdempotent(c: Collection)
    ensures Clone(Clone(c)) == Clone(c)
    decreases c, 2
  {
    CloneItemsIdempotent(c.items);
  }

  lemma {:induction false} CloneItemsIdempotent(items: seq<MainItem>)
    ensures CloneItems(CloneItems(items)) == CloneItems(items)
    decreases items, 1
  {
    if items != [] {
      CloneItemsIdempotent(items[1..]);
      CloneItemIdempotent(items[0]);
      assert CloneItems(items)[1..] == CloneItems(items[1..]);
    }
  }

  lemma {:induction false} CloneItemIdempotent(item: MainItem)
    ensures CloneItem(CloneItem(item)) == CloneItem(item)
    decreases item, 0
  {
    if item.collection.Some? {
      CloneIdempotent(item.collection.value);
    }
  }

  // ---------------------------------------------------------------- walk

  /** The items Collection.Walk hands to fn, in order: each item is visited; when fn
      returns false the rest of that collection's items are skipped (the walk of the
      enclosing collection goes on); otherwise a nested collection is walked next. */
  function Walk(c: Collection, fn: MainItem -> bool): seq<MainItem>
    decreases c
  {
    WalkItems(c.items, fn)
  }

  function WalkItems(items: seq<MainItem>, fn: MainItem -> bool): seq<MainItem>
    decreases items
  {
    if items == [] then []
    else if !fn(items[0]) then [items[0]]
    else WalkItem(items[0], fn) + WalkItems(items[1..], fn)
  }

  /** An item fn accepted, followed by the walk of its collection if it has one. */
  function WalkItem(item: MainItem, fn: MainItem -> bool): seq<MainItem>
    decreases item
  {
    [item] + if item.collection.Some? then Walk(item.collection.value, fn) else []
  }

  /** ReportDescriptor.Walk: each top-level collection walked in turn. */
  function WalkDescriptor(cs: seq<Collection>, fn: MainItem -> bool): seq<MainItem>
  {
    if cs == [] then [] else Walk(cs[0], fn) + WalkDescriptor(cs[1..], fn)
  }

  /** Every item of a collection, nested ones included, in depth-first order. */
  function AllItems(c: Collection): seq<MainItem>
    decreases c
  {
    AllOfItems(c.items)
  }

  function AllOfItems(items: seq<MainItem>): seq<MainItem>
    decreases items
  {
    if items == [] then [] else AllOfItem(items[0]) + AllOfItems(items[1..])
  }

  function AllOfItem(item: MainItem): seq<MainItem>
    decreases item
  {
    [item] + if item.collection.Some? then AllItems(item.collection.value) else []
  }

  /** With a callback that always continues, Walk visits every item depth first. */
  lemma {:induction false} WalkAll(c: Collection, fn: MainItem -> bool)
    requires forall item :: fn(item)
    ensures Walk(c, fn) == AllItems(c)
    decreases c, 2
  {
    WalkAllItems(c.items, fn);
  }

  lemma {:induction false} WalkAllItems(items: seq<MainItem>, fn: MainItem -> bool)
    requires forall item :: fn(item)
    ensures WalkItems(items, fn) == AllOfItems(items)
    decreases items, 1
  {
    if items != [] {
      WalkAllItems(items[1..], fn);
      WalkAllItem(items[0], fn);
    }
  }

  lemma {:induction false} WalkAllItem(item: MainItem, fn: MainItem -> bool)
    requires forall item :: fn(item)
    ensures WalkItem(item, fn) == AllOfItem(item)
    decreases item, 0
  {
    if item.collection.Some? {
      WalkAll(item.collection.value, fn);
    }
  }

  /** A callback that rejects a collection's first item ends that collection's walk
      there: nothing else of it is visited. */
  lemma WalkStopsAtFirst(c: Collection, fn: MainItem -> bool)
    requires |c.items| > 0 && !fn(c.items[0])
    ensures Walk(c, fn) == [c.items[0]]
  {
  }

  /** The walk visits nothing but items of the collection: it is never longer than the
      full depth-first listing. */
  lemma {:induction false} WalkBounded(c: Collection, fn: MainItem -> bool)
    ensures |Walk(c, fn)| <= |AllItems(c)|
    decreases c, 2
  {
    WalkItemsBounded(c.items, fn);
  }

  lemma {:induction false} WalkItemsBounded(items: seq<MainItem>, fn: MainItem -> bool)
    ensures |WalkItems(items, fn)| <= |AllOfItems(items)|
    decreases items, 1
  {
    if items != [] {
      WalkItemsBounded(items[1..], fn);
      WalkItemBounded(items[0], fn);
    }
  }

  lemma {:induction false} WalkItemBounded(item: MainItem, fn: MainItem -> bool)
    ensures |WalkItem(item, fn)| <= |AllOfItem(item)|
    decreases item, 0
  {
    if item.collection.Some? {
      WalkBounded(item.collection.value, fn);
    }
  }
}
