/** The item handlers of the report-descriptor decoder (hidapi/hiddesc/commands.go):
    payload conversions and one handler per Main, Global and Local item tag (sections
    6.2.2.4 to 6.2.2.8 of the USB Device Class Definition for HID 1.11). A handler takes
    the parser's state and the item's payload and gives the next state or an error. */
module Commands {
  import opened Common
  import opened Tags
  import opened Descriptor

  // ---------------------------------------------------------------- payloads

  /** The payload padded with zero bytes up to n bytes. */
  function ZeroPad(payload: seq<bv8>, n: nat): (p: seq<bv8>)
    requires |payload| <= n
    ensures |p| == n && p[..|payload|] == payload
  {
    payload + seq(n - |payload|, _ => 0 as bv8)
  }

  /** Trailing zero bytes do not change a little-endian value. */
  lemma {:induction false} ZeroPadValue(payload: seq<bv8>, n: nat)
    requires |payload| <= n
    ensures LittleEndian(ZeroPad(payload, n)) == LittleEndian(payload)
    decreases |payload|, n
  {
    var p := ZeroPad(payload, n);
    if payload == [] {
      if n > 0 {
        assert p[1..] == ZeroPad([], n - 1);
        ZeroPadValue([], n - 1);
        LittleEndianCons(p);
        ByteValueInt(p[0]);
      }
    } else {
      assert p[1..] == ZeroPad(payload[1..], n - 1);
      ZeroPadValue(payload[1..], n - 1);
      LittleEndianCons(p);
      LittleEndianCons(payload);
    }
  }

  /** toUint16: one or two bytes, little-endian, a single byte zero-extended. */
  function ToUint16(payload: seq<bv8>): (r: Result<uint16>)
    ensures r.Ok? <==> 1 <= |payload| <= 2
    ensures r.Ok? ==> r.value == LittleEndian(payload)
    ensures !r.Panic?
  {
    if |payload| > 2 then Err("uint16 payload too long")
    else if |payload| == 0 then Err("uint16 payload is missing")
    else
      var padded := ZeroPad(payload, 2);
      ZeroPadValue(payload, 2);
      Ok(LittleEndian(padded))
  }

  /** toUint32: one to four bytes, little-endian, zero-extended. */
  function ToUint32(payload: seq<bv8>): (r: Result<uint32>)
    ensures r.Ok? <==> 1 <= |payload| <= 4
    ensures r.Ok? ==> r.value == LittleEndian(payload)
    ensures !r.Panic?
  {
    if |payload| > 4 then Err("uint32 payload too long")
    else if |payload| == 0 then Err("uint32 payload is missing")
    else
      var padded := ZeroPad(payload, 4);
      ZeroPadValue(payload, 4);
      Ok(LittleEndian(padded))
  }

  /** toInt32: a 1-, 2- or 4-byte payload read as a signed integer of that width. */
  function ToInt32(payload: seq<bv8>): (r: Result<int32>)
    ensures r.Ok? <==> |payload| in {1, 2, 4}
    ensures r.Ok? ==> r.value == SignedOf(LittleEndian(payload), |payload|)
    ensures !r.Panic?
  {
    if |payload| == 1 then
      LittleEndianCons(payload);
      ByteValueInt(payload[0]);
      SignedFits(1);
      var x: int32 := SignedOf(payload[0] as int, 1);
      Ok(x)
    else if |payload| == 2 then
      var v := ToUint16(payload).value;
      SignedFits(2);
      var x: int32 := SignedOf(v, 2);
      Ok(x)
    else if |payload| == 4 then
      var v := ToUint32(payload).value;
      SignedFits(4);
      var x: int32 := SignedOf(v, 4);
      Ok(x)
    else Err("int32: payload length is not 1, 2 or 4")
  }

  /** A signed value of one, two or four bytes fits an int32. */
  lemma SignedFits(n: nat)
    requires n in {1, 2, 4}
    ensures Pow256(n) / 2 <= 0x8000_0000
  {
    assert Pow256(1) == 0x100;
    assert Pow256(2) == 0x1_0000;
    assert Pow256(4) == 0x1_0000_0000 by { assert Pow256(3) == 0x100_0000; }
  }

  lemma ToInt32RoundTrip(v: int, n: nat)
    requires n in {1, 2, 4} && 0 - Pow256(n) / 2 <= v < Pow256(n) / 2
    ensures ToInt32(LittleEndianBytes(v % Pow256(n), n)) == Ok(v)
  {
    LittleEndianRoundTrip(v % Pow256(n), n);
    SignedOfMod(v, n);
  }

  // ---------------------------------------------------------------- state

  /** The Global items in force (globalState). */
  datatype GlobalState = GlobalState(
    usagePage: uint16,
    logicalMinimum: int32,
    logicalMaximum: int32,
    physicalMinimum: int32,
    physicalMaximum: int32,
    unitExponent: uint32,
    unit: uint32,
    reportID: uint8,
    reportCount: uint32,
    reportSize: uint32)

  /** The Local items gathered since the last Main item (localState). */
  datatype LocalState = LocalState(
    usage: seq<uint16>,
    usageMinimum: uint16,
    usageMaximum: uint16,
    designatorIndex: uint8,
    designatorMinimum: uint8,
    designatorMaximum: uint8,
    stringIndex: uint8,
    stringMinimum: uint8,
    stringMaximum: uint8)

  const EmptyGlobal := GlobalState(0, 0, 0, 0, 0, 0, 0, 0, 0, 0)
  const EmptyLocal := LocalState([], 0, 0, 0, 0, 0, 0, 0, 0)

  /** The part of reportDescriptorState the handlers change: the global state and its
      Push/Pop stack, the local state, the open collection, the stack of collections it
      is nested in, and the closed top-level collections. */
  datatype DescriptorState = DescriptorState(
    global: GlobalState,
    local: LocalState,
    globalStack: seq<GlobalState>,
    collection: Option<Collection>,
    collections: seq<Collection>,
    collectionStack: seq<Collection>)

  const InitialState := DescriptorState(EmptyGlobal, EmptyLocal, [], None, [], [])

  /** What every reachable state satisfies: collections are stacked only while one is
      open, and every collection built so far holds well-formed items. */
  predicate Inv(s: DescriptorState)
  {
    (s.collection.None? ==> s.collectionStack == [])
    && (s.collection.Some? ==> WellFormed(s.collection.value))
    && (forall i :: 0 <= i < |s.collections| ==> WellFormed(s.collections[i]))
    && (forall i :: 0 <= i < |s.collectionStack| ==> WellFormed(s.collectionStack[i]))
  }

  // ---------------------------------------------------------------- main items

  /** newDataItem: the data item an Input, Output or Feature item records. */
  function NewDataItem(s: DescriptorState, flags: DataFlags): DataItem
  {
    DataItem(flags, s.global.usagePage, s.local.usage, s.local.usageMinimum,
             s.local.usageMaximum, s.global.reportCount, s.global.reportSize,
             s.global.reportID, s.local.designatorIndex, s.local.designatorMinimum,
             s.local.designatorMaximum, s.global.logicalMinimum, s.global.logicalMaximum,
             s.global.physicalMinimum, s.global.physicalMaximum, s.global.unitExponent,
             s.global.unit)
  }

  /** cmdInput, cmdOutput and cmdFeature: with a collection open and a one-byte payload,
      append a data item carrying the current global and local state, and clear the local
      state; otherwise an error. */
  function CmdData(t: MainItemType, s: DescriptorState, payload: seq<bv8>): (r: Result<DescriptorState>)
    requires t != CollectionItem
    ensures r.Ok? <==> s.collection.Some? && |payload| == 1
    ensures !r.Panic?
    ensures r.Ok? ==> r.value == s.(collection := Some(s.collection.value.(items :=
              s.collection.value.items + [MainItem(t, Some(NewDataItem(s, payload[0] as bv32)), None)])),
              local := EmptyLocal)
  {
    if s.collection.None? then Err("no open collection")
    else if |payload| != 1 then Err("payload length is not 1")
    else
      var c := s.collection.value;
      var item := MainItem(t, Some(NewDataItem(s, payload[0] as bv32)), None);
      Ok(s.(collection := Some(c.(items := c.items + [item])), local := EmptyLocal))
  }

  /** cmdCollection: a one-byte payload opens a collection of that type, with the current
      usage page and the first pending usage; an already open collection is pushed onto
      the stack. With no pending usage Go indexes an empty slice and panics. */
  function CmdCollection(s: DescriptorState, payload: seq<bv8>): (r: Result<DescriptorState>)
    ensures r.Err? <==> |payload| != 1
    ensures r.Panic? <==> |payload| == 1 && s.local.usage == []
    ensures r.Ok? ==> r.value.collection == Some(Collection(payload[0] as int, s.global.usagePage, s.local.usage[0], []))
    ensures r.Ok? ==> r.value.collectionStack
                      == s.collectionStack + (if s.collection.Some? then [s.collection.value] else [])
    ensures r.Ok? ==> r.value.local == EmptyLocal && r.value.global == s.global
                      && r.value.globalStack == s.globalStack && r.value.collections == s.collections
  {
    if |payload| != 1 then Err("collection: payload length is not 1")
    else if s.local.usage == [] then Panic("index out of range [0] with length 0")
    else
      var c := Collection(payload[0] as int, s.global.usagePage, s.local.usage[0], []);
      var stack := if s.collection.Some? then s.collectionStack + [s.collection.value]
                   else s.collectionStack;
      Ok(s.(collectionStack := stack, collection := Some(c), local := EmptyLocal))
  }

  /** cmdEndCollection: with an empty payload and a collection open, closes it: into the
      top-level list when nothing is stacked, otherwise as the last item of the popped
      parent, which becomes the open collection again. */
  function CmdEndCollection(s: DescriptorState, payload: seq<bv8>): (r: Result<DescriptorState>)
    ensures r.Ok? <==> |payload| == 0 && s.collection.Some?
    ensures !r.Panic?
    ensures r.Ok? && s.collectionStack == [] ==>
              r.value == s.(collections := s.collections + [s.collection.value],
                            collection := None, local := EmptyLocal)
    ensures r.Ok? && s.collectionStack != [] ==>
              var parent := s.collectionStack[|s.collectionStack| - 1];
              r.value == s.(collection := Some(parent.(items := parent.items
                              + [MainItem(CollectionItem, None, s.collection)])),
                            collectionStack := s.collectionStack[..|s.collectionStack| - 1],
                            local := EmptyLocal)
  {
    if |payload| != 0 then Err("end collection: payload length is not 0")
    else if s.collection.None? then Err("end collection: no open collection")
    else if s.collectionStack == [] then
      Ok(s.(collections := s.collections + [s.collection.value], collection := None,
            local := EmptyLocal))
    else
      var n := |s.collectionStack|;
      var parent := s.collectionStack[n - 1];
      var nested := parent.(items := parent.items + [MainItem(CollectionItem, None, s.collection)]);
      Ok(s.(collection := Some(nested), collectionStack := s.collectionStack[..n - 1],
            local := EmptyLocal))
  }

  /** Opening a collection inside an open one and closing it again leaves the outer
      collection open with the new, empty collection as its last item, and the stack as
      it was. */
  lemma CollectionThenEnd(s: DescriptorState, ctype: bv8)
    requires s.collection.Some? && s.local.usage != []
    ensures CmdCollection(s, [ctype]).Ok?
    ensures CmdEndCollection(CmdCollection(s, [ctype]).value, []) ==
            Ok(s.(collection := Some(s.collection.value.(items := s.collection.value.items
                    + [MainItem(CollectionItem, None,
                         Some(Collection(ctype as int, s.global.usagePage, s.local.usage[0], [])))])),
                  local := EmptyLocal))
  {
    var s1 := CmdCollection(s, [ctype]).value;
    assert s1.collectionStack[..|s1.collectionStack| - 1] == s.collectionStack;
  }

  /** With nothing open, Collection then End Collection appends one empty top-level
      collection. */
  lemma TopLevelCollectionThenEnd(s: DescriptorState, ctype: bv8)
    requires s.collection.None? && s.collectionStack == [] && s.local.usage != []
    ensures CmdCollection(s, [ctype]).Ok?
    ensures CmdEndCollection(CmdCollection(s, [ctype]).value, []) ==
            Ok(s.(collections := s.collections
                    + [Collection(ctype as int, s.global.usagePage, s.local.usage[0], [])],
                  local := EmptyLocal))
  {
  }

  // ---------------------------------------------------------------- global items

  /** cmdUsagePage, cmdLogicalMinimum … cmdReportCount: convert the payload and set one
      global field. Report ID keeps only the low byte of the 32-bit value. */
  function CmdGlobal(prefix: Tag, s: DescriptorState, payload: seq<bv8>): (r: Result<DescriptorState>)
    requires prefix in {TagUsagePage, TagLogicalMinimum, TagLogicalMaximum, TagPhysicalMinimum,
                        TagPhysicalMaximum, TagUnitExponent, TagUnit, TagReportSize,
                        TagReportID, TagReportCount}
    ensures !r.Panic?
    ensures r.Ok? ==> r.value == s.(global := r.value.global)
  {
    var g := s.global;
    if prefix == TagUsagePage then
      var v :- ToUint16(payload); Ok(s.(global := g.(usagePage := v)))
    else if prefix == TagLogicalMinimum then
      var v :- ToInt32(payload); Ok(s.(global := g.(logicalMinimum := v)))
    else if prefix == TagLogicalMaximum then
      var v :- ToInt32(payload); Ok(s.(global := g.(logicalMaximum := v)))
    else if prefix == TagPhysicalMinimum then
      var v :- ToInt32(payload); Ok(s.(global := g.(physicalMinimum := v)))
    else if prefix == TagPhysicalMaximum then
      var v :- ToInt32(payload); Ok(s.(global := g.(physicalMaximum := v)))
    else if prefix == TagUnitExponent then
      var v :- ToUint32(payload); Ok(s.(global := g.(unitExponent := v)))
    else if prefix == TagUnit then
      var v :- ToUint32(payload); Ok(s.(global := g.(unit := v)))
    else if prefix == TagReportSize then
      var v :- ToUint32(payload); Ok(s.(global := g.(reportSize := v)))
    else if prefix == TagReportID then
      var v :- ToUint32(payload); Ok(s.(global := g.(reportID := v % 256)))
    else
      var v :- ToUint32(payload); Ok(s.(global := g.(reportCount := v)))
  }

  /** Usage Page stores the payload's unsigned value and rejects more than two bytes. */
  lemma UsagePageValue(s: DescriptorState, payload: seq<bv8>)
    requires 1 <= |payload|
    ensures |payload| <= 2 ==> CmdGlobal(TagUsagePage, s, payload)
                               == Ok(s.(global := s.global.(usagePage := LittleEndian(payload))))
    ensures |payload| > 2 ==> CmdGlobal(TagUsagePage, s, payload).Err?
  {
  }

  /** Logical Minimum stores the payload's signed value at the payload's own width. */
  lemma LogicalMinimumValue(s: DescriptorState, payload: seq<bv8>)
    requires |payload| in {1, 2, 4}
    ensures CmdGlobal(TagLogicalMinimum, s, payload)
            == Ok(s.(global := s.global.(logicalMinimum := SignedOf(LittleEndian(payload), |payload|))))
  {
  }

  /** Report ID keeps the low byte of the payload's value. */
  lemma ReportIDValue(s: DescriptorState, payload: seq<bv8>)
    requires 1 <= |payload| <= 4
    ensures CmdGlobal(TagReportID, s, payload)
            == Ok(s.(global := s.global.(reportID := LittleEndian(payload) % 256)))
  {
  }

  /** cmdPush: save a copy of the global state; the payload is ignored. */
  function CmdPush(s: DescriptorState, payload: seq<bv8>): (r: Result<DescriptorState>)
    ensures r.Ok? && r.value.globalStack == s.globalStack + [s.global]
    ensures r.Ok? && r.value == s.(globalStack := r.value.globalStack)
  {
    Ok(s.(globalStack := s.globalStack + [s.global]))
  }

  /** cmdPop: restore the most recently pushed global state; an error on an empty stack. */
  function CmdPop(s: DescriptorState, payload: seq<bv8>): (r: Result<DescriptorState>)
    ensures r.Ok? <==> s.globalStack != []
    ensures !r.Panic?
    ensures r.Ok? ==> r.value.global == s.globalStack[|s.globalStack| - 1]
                      && r.value.globalStack == s.globalStack[..|s.globalStack| - 1]
                      && r.value == s.(global := r.value.global, globalStack := r.value.globalStack)
  {
    if s.globalStack == [] then Err("pop: stack is empty")
    else
      var n := |s.globalStack|;
      Ok(s.(global := s.globalStack[n - 1], globalStack := s.globalStack[..n - 1]))
  }

  /** Push followed, after any change to the global state, by Pop gives back the state
      as it was at the Push. */
  lemma PushThenPop(s: DescriptorState, changed: GlobalState, p: seq<bv8>, q: seq<bv8>)
    ensures CmdPop(CmdPush(s, p).value.(global := changed), q) == Ok(s)
  {
    var pushed := CmdPush(s, p).value.(global := changed);
    assert pushed.globalStack[..|pushed.globalStack| - 1] == s.globalStack;
  }

  // ---------------------------------------------------------------- local items

  /** cmdUsage: append a usage ID to the pending list. */
  function CmdUsage(s: DescriptorState, payload: seq<bv8>): (r: Result<DescriptorState>)
    ensures r.Ok? <==> 1 <= |payload| <= 2
    ensures !r.Panic?
    ensures r.Ok? ==> r.value == s.(local := s.local.(usage := s.local.usage + [LittleEndian(payload)]))
  {
    var v :- ToUint16(payload);
    Ok(s.(local := s.local.(usage := s.local.usage + [v])))
  }

  /** cmdDelimiter: not implemented, always an error. */
  function CmdDelimiter(s: DescriptorState, payload: seq<bv8>): (r: Result<DescriptorState>)
    ensures r.Err?
  {
    Err("not implemented")
  }

  /** cmdUsageMinimum, cmdUsageMaximum and the one-byte designator and string items:
      set one local field. */
  function CmdLocal(prefix: Tag, s: DescriptorState, payload: seq<bv8>): (r: Result<DescriptorState>)
    requires prefix in {TagUsageMinimum, TagUsageMaximum, TagDesignatorIndex,
                        TagDesignatorMinimum, TagDesignatorMaximum, TagStringIndex,
                        TagStringMinimum, TagStringMaximum}
    ensures !r.Panic?
    ensures prefix !in {TagUsageMinimum, TagUsageMaximum} ==> (r.Ok? <==> |payload| == 1)
    ensures prefix in {TagUsageMinimum, TagUsageMaximum} ==> (r.Ok? <==> 1 <= |payload| <= 2)
    ensures r.Ok? ==> r.value == s.(local := r.value.local)
    ensures r.Ok? ==> r.value.local.usage == s.local.usage
  {
    var l := s.local;
    if prefix == TagUsageMinimum then
      var v :- ToUint16(payload); Ok(s.(local := l.(usageMinimum := v)))
    else if prefix == TagUsageMaximum then
      var v :- ToUint16(payload); Ok(s.(local := l.(usageMaximum := v)))
    else if |payload| != 1 then Err("payload length is not 1")
    else
      var b := payload[0] as int;
      if prefix == TagDesignatorIndex then Ok(s.(local := l.(designatorIndex := b)))
      else if prefix == TagDesignatorMinimum then Ok(s.(local := l.(designatorMinimum := b)))
      else if prefix == TagDesignatorMaximum then Ok(s.(local := l.(designatorMaximum := b)))
      else if prefix == TagStringIndex then Ok(s.(local := l.(stringIndex := b)))
      else if prefix == TagStringMinimum then Ok(s.(local := l.(stringMinimum := b)))
      else Ok(s.(local := l.(stringMaximum := b)))
  }

  // ---------------------------------------------------------------- dispatch

  /** The tag prefixes commandMap has a handler for. */
  predicate HasHandler(prefix: Tag)
  {
    prefix in MainTags || prefix in GlobalTags || prefix in LocalTags
  }

  /** The handler commandMap holds for a tag prefix, applied to the state and payload. */
  function Execute(prefix: Tag, s: DescriptorState, payload: seq<bv8>): (r: Result<DescriptorState>)
    requires HasHandler(prefix)
  {
    if prefix == TagInput then CmdData(Input, s, payload)
    else if prefix == TagOutput then CmdData(Output, s, payload)
    else if prefix == TagFeature then CmdData(Feature, s, payload)
    else if prefix == TagCollection then CmdCollection(s, payload)
    else if prefix == TagEndCollection then CmdEndCollection(s, payload)
    else if prefix == TagPush then CmdPush(s, payload)
    else if prefix == TagPop then CmdPop(s, payload)
    else if prefix in GlobalTags then CmdGlobal(prefix, s, payload)
    else if prefix == TagUsage then CmdUsage(s, payload)
    else if prefix == TagDelimiter then CmdDelimiter(s, payload)
    else CmdLocal(prefix, s, payload)
  }

  /** Every handler keeps the state invariant: the collection stack stays empty while no
      collection is open, and collections stay well formed. */
  lemma ExecuteKeepsInv(prefix: Tag, s: DescriptorState, payload: seq<bv8>)
    requires HasHandler(prefix) && Inv(s)
    ensures Execute(prefix, s, payload).Ok? ==> Inv(Execute(prefix, s, payload).value)
  {
    if prefix == TagInput {
      DataKeepsInv(Input, s, payload);
    } else if prefix == TagOutput {
      DataKeepsInv(Output, s, payload);
    } else if prefix == TagFeature {
      DataKeepsInv(Feature, s, payload);
    } else if prefix == TagEndCollection {
      EndCollectionKeepsInv(s, payload);
    }
  }

  lemma DataKeepsInv(kind: MainItemType, s: DescriptorState, payload: seq<bv8>)
    requires Inv(s) && kind != CollectionItem
    ensures CmdData(kind, s, payload).Ok? ==> Inv(CmdData(kind, s, payload).value)
  {
    var r := CmdData(kind, s, payload);
    if r.Ok? {
      var t := r.value;
      var c := s.collection.value;
      assert forall i :: 0 <= i < |c.items| ==> t.collection.value.items[i] == c.items[i];
    }
  }

  lemma EndCollectionKeepsInv(s: DescriptorState, payload: seq<bv8>)
    requires Inv(s)
    ensures CmdEndCollection(s, payload).Ok? ==> Inv(CmdEndCollection(s, payload).value)
  {
    var r := CmdEndCollection(s, payload);
    if r.Ok? {
      var t := r.value;
      if s.collectionStack != [] {
        var parent := s.collectionStack[|s.collectionStack| - 1];
        assert WellFormed(parent);
        assert forall i :: 0 <= i < |parent.items| ==> t.collection.value.items[i] == parent.items[i];
        assert WellFormedItem(MainItem(CollectionItem, None, s.collection));
      } else {
        assert forall i :: 0 <= i < |s.collections| ==> t.collections[i] == s.collections[i];
      }
    }
  }
}
