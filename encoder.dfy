/** The report-descriptor encoder (pkg/usbhid/hiddesc/encoder.go): writes a descriptor
    back as short items (section 6.2.2.2 of the USB Device Class Definition for HID
    1.11), each payload in the fewest bytes that hold it, and a Global or Local item only
    when its value differs from the one last written. */
module DescriptorEncoder {
  import opened Common
  import opened Tags
  import opened Descriptor
  import opened Commands

  // ---------------------------------------------------------------- items

  /** The size code of a payload of n bytes. */
  function SizeCode(n: nat): (code: bv8)
    requires n in {0, 1, 2, 4}
    ensures code <= 3 && PayloadLen(code) == n
  {
    if n == 0 then TagItemSize0 else if n == 1 then TagItemSize8
    else if n == 2 then TagItemSize16 else TagItemSize32
  }

  /** A short item: the tag byte with the payload's size code, then the payload. */
  function ShortItem(t: Tag, payload: seq<bv8>): (bs: seq<bv8>)
    requires |payload| in {0, 1, 2, 4}
    ensures |bs| == 1 + |payload| && bs[1..] == payload
  {
    [WithItemSize(t, SizeCode(|payload|))] + payload
  }

  /** encodeTag: the tag with no payload. */
  function Tag0(t: Tag): (bs: seq<bv8>)
    ensures bs == ShortItem(t, [])
  {
    [WithItemSize(t, TagItemSize0)]
  }

  /** encodeTag8: the tag and one payload byte. */
  function Tag8(t: Tag, v: uint8): (bs: seq<bv8>)
    ensures |bs| == 2 && bs == ShortItem(t, bs[1..]) && LittleEndian(bs[1..]) == v
  {
    ByteRoundTrip(v, 0);
    [WithItemSize(t, TagItemSize8), ByteOf(v)]
  }

  /** encodeTag16: one payload byte when the value fits in it, else two, little-endian. */
  function Tag16(t: Tag, v: uint16): (bs: seq<bv8>)
    ensures |bs| >= 2 && |bs[1..]| in {1, 2} && bs == ShortItem(t, bs[1..]) && LittleEndian(bs[1..]) == v
    ensures |bs[1..]| == 1 <==> v < 0x100
  {
    if v < 0x100 then Tag8(t, v)
    else
      LittleEndianRoundTrip(v, 2);
      ShortItem(t, LittleEndianBytes(v, 2))
  }

  /** encodeTag32: one, two or four payload bytes, the fewest that hold the value. */
  function Tag32(t: Tag, v: uint32): (bs: seq<bv8>)
    ensures |bs| >= 2 && |bs[1..]| in {1, 2, 4} && bs == ShortItem(t, bs[1..]) && LittleEndian(bs[1..]) == v
    ensures |bs[1..]| == 1 <==> v < 0x100
    ensures |bs[1..]| == 2 <==> 0x100 <= v < 0x1_0000
  {
    if v < 0x100 then Tag8(t, v)
    else if v < 0x1_0000 then Tag16(t, v)
    else
      assert Pow256(4) == 0x1_0000_0000 by { assert Pow256(2) == 0x1_0000; }
      LittleEndianRoundTrip(v, 4);
      ShortItem(t, LittleEndianBytes(v, 4))
  }

  /** The fewest bytes, 1, 2 or 4, whose two's-complement range holds v. */
  function SignedWidth(v: int32): (n: nat)
    ensures n in {1, 2, 4} && 0 - Pow256(n) / 2 <= v < Pow256(n) / 2
    ensures n == 1 <==> -0x80 <= v < 0x80
    ensures n == 2 <==> (-0x8000 <= v < 0x8000 && !(-0x80 <= v < 0x80))
  {
    assert Pow256(1) == 0x100 && Pow256(2) == 0x1_0000;
    assert Pow256(4) == 0x1_0000_0000;
    if -0x80 <= v < 0x80 then 1 else if -0x8000 <= v < 0x8000 then 2 else 4
  }

  /** encodeTagi32 as evidently intended: the value in the fewest two's-complement bytes
      that hold it, so that toInt32 reads the same value back. */
  function TagI32(t: Tag, v: int32): (bs: seq<bv8>)
    ensures |bs| >= 2 && |bs[1..]| == SignedWidth(v) && bs == ShortItem(t, bs[1..])
    ensures ToInt32(bs[1..]) == Ok(v)
  {
    var n := SignedWidth(v);
    var payload := LittleEndianBytes(v % Pow256(n), n);
    ToInt32RoundTrip(v, n);
    ShortItem(t, payload)
  }

  /** encodeTagi32 as written: the four bytes of uint32(value) are cut to one or two when
      the dropped bytes equal the sign pad, without checking the sign bit of the byte
      that is kept. */
  function TagI32AsWritten(t: Tag, v: int32): (bs: seq<bv8>)
    ensures |bs| >= 2 && |bs[1..]| in {1, 2, 4} && bs == ShortItem(t, bs[1..])
  {
    var data := LittleEndianBytes(v % 0x1_0000_0000, 4);
    var pad: bv8 := if v < 0 then 0xFF else 0;
    if data[1] == pad && data[2] == pad && data[3] == pad then ShortItem(t, data[..1])
    else if data[2] == pad && data[3] == pad then ShortItem(t, data[..2])
    else ShortItem(t, data)
  }

  /** As written, Logical Maximum 255 is written as the single byte 0xFF, which toInt32
      reads back as -1; 128 and 32768 fail the same way. */
  lemma TagI32AsWrittenLosesSign()
    ensures TagI32AsWritten(TagLogicalMaximum, 255) == [0x25, 0xFF]
    ensures ToInt32(TagI32AsWritten(TagLogicalMaximum, 255)[1..]) == Ok(-1)
  {
    var data := LittleEndianBytes(255 % 0x1_0000_0000, 4);
    assert data == [0xFF, 0, 0, 0] by { Bytes255(); }
    assert SignedOf(255, 1) == -1 by {
      assert Pow256(0) == 1 && Pow256(1) == 256;
      assert 255 % (2 * (128 * Pow256(0))) == 255;
    }
  }

  /** The intended encoding writes 255 in two bytes, so the sign bit is clear. */
  lemma TagI32KeepsSign()
    ensures TagI32(TagLogicalMaximum, 255) == [0x26, 0xFF, 0x00]
  {
    assert SignedWidth(255) == 2;
    TwoBytes255();
    assert TagI32(TagLogicalMaximum, 255) == ShortItem(TagLogicalMaximum, [0xFF, 0]);
  }

  lemma TwoBytes255()
    ensures LittleEndianBytes(255 % Pow256(2), 2) == [0xFF, 0]
  {
    assert Pow256(2) == 0x1_0000 by { assert Pow256(1) == 256; }
    var x := 255 % Pow256(2);
    assert x == 255;
    var zero := LittleEndianBytes(0, 1);
    assert zero == [0] by { assert LittleEndianBytes(0, 0) == []; }
    var low: bv8 := (x % 256) as bv8;
    assert low == 0xFF;
    assert LittleEndianBytes(x, 2) == [low] + zero;
  }

  lemma Bytes255()
    ensures LittleEndianBytes(255 % 0x1_0000_0000, 4) == [0xFF, 0, 0, 0]
  {
    var x := 255 % 0x1_0000_0000;
    assert x == 255;
    Zeros3();
    assert x % 256 == 255 && x / 256 == 0;
    assert LittleEndianBytes(x, 4) == [ByteOf(255)] + LittleEndianBytes(0, 3);
  }

  lemma Zeros3()
    ensures LittleEndianBytes(0, 3) == [0, 0, 0]
  {
    assert LittleEndianBytes(0, 0) == [];
    assert LittleEndianBytes(0, 1) == [0];
    assert LittleEndianBytes(0, 2) == [0, 0];
  }

  // ---------------------------------------------------------------- encoder state

  /** The Global and Local values last written (Encoder.global and Encoder.local). */
  datatype EncState = EncState(global: GlobalState, local: LocalState)

  const InitialEnc := EncState(EmptyGlobal, EmptyLocal)

  /** Bytes written and the state after writing them. */
  datatype Emit = Emit(bytes: seq<bv8>, st: EncState)

  /** Two writes one after the other. */
  function Then(e: Emit, f: Emit): (r: Emit)
  {
    Emit(e.bytes + f.bytes, f.st)
  }

  /** encodeUsagePage: written only when it differs from the page last written. */
  function EmitUsagePage(st: EncState, page: uint16): (e: Emit)
    ensures e.st == st.(global := st.global.(usagePage := page))
    ensures e.bytes == [] <==> page == st.global.usagePage
  {
    if page == st.global.usagePage then Emit([], st)
    else Emit(Tag16(TagUsagePage, page), st.(global := st.global.(usagePage := page)))
  }

  /** encodeUsageID: usage 0 and a repeat of the usage last written are skipped; a usage
      written becomes the only one remembered. */
  function EmitUsageID(st: EncState, id: uint16): (e: Emit)
    ensures e.bytes == [] <==> id == 0 || (st.local.usage != [] && st.local.usage[|st.local.usage| - 1] == id)
    ensures e.bytes != [] ==> e.bytes == Tag16(TagUsage, id) && e.st == st.(local := st.local.(usage := [id]))
    ensures e.bytes == [] ==> e.st == st
  {
    if id == 0 then Emit([], st)
    else if |st.local.usage| > 0 && st.local.usage[|st.local.usage| - 1] == id then Emit([], st)
    else Emit(Tag16(TagUsage, id), st.(local := st.local.(usage := [id])))
  }

  /** encodeUsages: each usage ID in turn. */
  function EmitUsages(st: EncState, ids: seq<uint16>): (e: Emit)
    ensures e.st == st.(local := st.local.(usage := e.st.local.usage))
    decreases |ids|
  {
    if ids == [] then Emit([], st)
    else Then(EmitUsageID(st, ids[0]), EmitUsages(EmitUsageID(st, ids[0]).st, ids[1..]))
  }

  /** A list with no 0 and no usage twice in a row is written as one Usage item per
      entry, and the last one is remembered. */
  lemma EmitUsagesCount(st: EncState, ids: seq<uint16>)
    requires forall i :: 0 <= i < |ids| ==> ids[i] != 0
    requires forall i :: 0 < i < |ids| ==> ids[i - 1] != ids[i]
    requires ids != [] && st.local.usage != [] ==> st.local.usage[|st.local.usage| - 1] != ids[0]
    ensures ids != [] ==> EmitUsages(st, ids).st == st.(local := st.local.(usage := [ids[|ids| - 1]]))
    ensures ids == [] ==> EmitUsages(st, ids).st == st
  {
    if ids != [] {
      LastUsage(st, ids);
    }
  }

  /** The usage remembered after a nonempty list is its last entry. */
  lemma {:induction false} LastUsage(st: EncState, ids: seq<uint16>)
    requires ids != [] && forall i :: 0 <= i < |ids| ==> ids[i] != 0
    requires forall i, j :: 0 <= i < j < |ids| && j == i + 1 ==> ids[i] != ids[j]
    requires st.local.usage != [] ==> st.local.usage[|st.local.usage| - 1] != ids[0]
    ensures EmitUsages(st, ids).st.local.usage == [ids[|ids| - 1]]
    decreases |ids|
  {
    var first := EmitUsageID(st, ids[0]);
    var rest := ids[1..];
    FirstUsage(st, ids[0], rest);
    if rest != [] {
      LastUsage(first.st, rest);
      assert rest[|rest| - 1] == ids[|ids| - 1];
    }
  }

  lemma FirstUsage(st: EncState, id: uint16, rest: seq<uint16>)
    requires id != 0 && (st.local.usage != [] ==> st.local.usage[|st.local.usage| - 1] != id)
    ensures EmitUsageID(st, id).st.local.usage == [id]
    ensures EmitUsages(st, [id] + rest).st == EmitUsages(EmitUsageID(st, id).st, rest).st
  {
    assert ([id] + rest)[1..] == rest;
  }

  /** The Local and Global items of a data item, each written only when its value (or,
      for a minimum and maximum, either of the pair) differs from the value last
      written; then the Main item with the flags; then the local state is cleared. */
  function EmitDataItem(st: EncState, t: MainItemType, d: DataItem): (e: Emit)
    ensures e.st.local == EmptyLocal
    ensures e.st.global == st.global.(usagePage := d.usagePage,
              logicalMinimum := d.logicalMinimum, logicalMaximum := d.logicalMaximum,
              physicalMinimum := d.physicalMinimum, physicalMaximum := d.physicalMaximum,
              unitExponent := d.unitExponent, unit := d.unit, reportID := d.reportID,
              reportCount := d.reportCount, reportSize := d.reportSize)
  {
    var e1 := EmitUsagePage(st, d.usagePage);
    var e2 := Then(e1, EmitUsages(e1.st, d.usageIDs));
    var e3 := Then(e2, EmitUsageRange(e2.st, d.usageMinimum, d.usageMaximum));
    var e4 := Then(e3, EmitDesignators(e3.st, d));
    var e5 := Then(e4, EmitExtents(e4.st, d));
    var e6 := Then(e5, EmitReportFields(e5.st, d));
    var main := if t == CollectionItem then [] else Tag32(MainTag(t), d.flags as int);
    Emit(e6.bytes + main, e6.st.(local := EmptyLocal))
  }

  function MainTag(t: MainItemType): Tag
    requires t != CollectionItem
  {
    if t == Input then TagInput else if t == Output then TagOutput else TagFeature
  }

  /** Usage Minimum and Usage Maximum, together, when either differs. */
  function EmitUsageRange(st: EncState, min: uint16, max: uint16): (e: Emit)
    ensures e.st == st.(local := st.local.(usageMinimum := min, usageMaximum := max))
    ensures e.st.global == st.global
  {
    if min != st.local.usageMinimum || max != st.local.usageMaximum then
      Emit(Tag16(TagUsageMinimum, min) + Tag16(TagUsageMaximum, max),
           st.(local := st.local.(usageMinimum := min, usageMaximum := max)))
    else Emit([], st)
  }

  /** Designator Index when it differs; Designator Minimum and Maximum together when
      either differs. */
  function EmitDesignators(st: EncState, d: DataItem): (e: Emit)
    ensures e.st == st.(local := st.local.(designatorIndex := d.designatorIndex,
              designatorMinimum := d.designatorMinimum, designatorMaximum := d.designatorMaximum))
  {
    var e1 := if d.designatorIndex != st.local.designatorIndex then
      Emit(Tag8(TagDesignatorIndex, d.designatorIndex),
           st.(local := st.local.(designatorIndex := d.designatorIndex)))
      else Emit([], st);
    var s1 := e1.st;
    if d.designatorMinimum != s1.local.designatorMinimum || d.designatorMaximum != s1.local.designatorMaximum then
      Then(e1, Emit(Tag8(TagDesignatorMinimum, d.designatorMinimum) + Tag8(TagDesignatorMaximum, d.designatorMaximum),
                    s1.(local := s1.local.(designatorMinimum := d.designatorMinimum,
                                           designatorMaximum := d.designatorMaximum))))
    else e1
  }

  /** Logical and Physical Minimum and Maximum, signed, each pair together when either
      differs. */
  function EmitExtents(st: EncState, d: DataItem): (e: Emit)
    ensures e.st == st.(global := st.global.(logicalMinimum := d.logicalMinimum,
              logicalMaximum := d.logicalMaximum, physicalMinimum := d.physicalMinimum,
              physicalMaximum := d.physicalMaximum))
  {
    var e1 := EmitLogical(st, d);
    Then(e1, EmitPhysical(e1.st, d))
  }

  function EmitLogical(st: EncState, d: DataItem): (e: Emit)
    ensures e.st == st.(global := st.global.(logicalMinimum := d.logicalMinimum,
              logicalMaximum := d.logicalMaximum))
  {
    var g := st.global;
    if d.logicalMinimum != g.logicalMinimum || d.logicalMaximum != g.logicalMaximum then
      Emit(TagI32AsWritten(TagLogicalMinimum, d.logicalMinimum) + TagI32AsWritten(TagLogicalMaximum, d.logicalMaximum),
           st.(global := g.(logicalMinimum := d.logicalMinimum, logicalMaximum := d.logicalMaximum)))
    else Emit([], st)
  }

  function EmitPhysical(st: EncState, d: DataItem): (e: Emit)
    ensures e.st == st.(global := st.global.(physicalMinimum := d.physicalMinimum,
              physicalMaximum := d.physicalMaximum))
  {
    var g := st.global;
    if d.physicalMinimum != g.physicalMinimum || d.physicalMaximum != g.physicalMaximum then
      Emit(TagI32AsWritten(TagPhysicalMinimum, d.physicalMinimum) + TagI32AsWritten(TagPhysicalMaximum, d.physicalMaximum),
           st.(global := g.(physicalMinimum := d.physicalMinimum, physicalMaximum := d.physicalMaximum)))
    else Emit([], st)
  }

  /** One Global item: written when v differs from the value last written. */
  function EmitGlobal32(st: EncState, t: Tag, last: uint32, v: uint32, next: EncState): (e: Emit)
    ensures e.st == next
    ensures e.bytes == [] <==> v == last
  {
    if v != last then Emit(Tag32(t, v), next) else Emit([], next)
  }

  /** Unit Exponent, Unit, Report ID, Report Count and Report Size, each when it differs. */
  function EmitReportFields(st: EncState, d: DataItem): (e: Emit)
    ensures e.st == st.(global := st.global.(unitExponent := d.unitExponent, unit := d.unit,
              reportID := d.reportID, reportCount := d.reportCount, reportSize := d.reportSize))
  {
    var e1 := EmitUnits(st, d);
    Then(e1, EmitReportShape(e1.st, d))
  }

  /** Unit Exponent and Unit. */
  function EmitUnits(st: EncState, d: DataItem): (e: Emit)
    ensures e.st == st.(global := st.global.(unitExponent := d.unitExponent, unit := d.unit))
  {
    var e1 := EmitUnitExponent(st, d);
    Then(e1, EmitUnit(e1.st, d))
  }

  /** Report ID, Report Count and Report Size. */
  function EmitReportShape(st: EncState, d: DataItem): (e: Emit)
    ensures e.st == st.(global := st.global.(reportID := d.reportID,
              reportCount := d.reportCount, reportSize := d.reportSize))
  {
    var e1 := EmitReportID(st, d);
    var e2 := Then(e1, EmitReportCount(e1.st, d));
    Then(e2, EmitReportSize(e2.st, d))
  }

  function EmitUnitExponent(st: EncState, d: DataItem): (e: Emit)
    ensures e.st == st.(global := st.global.(unitExponent := d.unitExponent))
  {
    EmitGlobal32(st, TagUnitExponent, st.global.unitExponent, d.unitExponent,
                 st.(global := st.global.(unitExponent := d.unitExponent)))
  }

  function EmitUnit(st: EncState, d: DataItem): (e: Emit)
    ensures e.st == st.(global := st.global.(unit := d.unit))
  {
    EmitGlobal32(st, TagUnit, st.global.unit, d.unit, st.(global := st.global.(unit := d.unit)))
  }

  function EmitReportID(st: EncState, d: DataItem): (e: Emit)
    ensures e.st == st.(global := st.global.(reportID := d.reportID))
    ensures e.bytes == [] <==> d.reportID == st.global.reportID
  {
    if d.reportID != st.global.reportID then
      Emit(Tag8(TagReportID, d.reportID), st.(global := st.global.(reportID := d.reportID)))
    else Emit([], st)
  }

  function EmitReportCount(st: EncState, d: DataItem): (e: Emit)
    ensures e.st == st.(global := st.global.(reportCount := d.reportCount))
  {
    EmitGlobal32(st, TagReportCount, st.global.reportCount, d.reportCount,
                 st.(global := st.global.(reportCount := d.reportCount)))
  }

  function EmitReportSize(st: EncState, d: DataItem): (e: Emit)
    ensures e.st == st.(global := st.global.(reportSize := d.reportSize))
  {
    EmitGlobal32(st, TagReportSize, st.global.reportSize, d.reportSize,
                 st.(global := st.global.(reportSize := d.reportSize)))
  }

  /** encodeCollection: usage page, usage, the Collection item, then the items, then End
      Collection; the local state is cleared after the Collection item and again at the
      end. */
  function EmitCollection(st: EncState, c: Collection): (e: Emit)
    ensures e.st.local == EmptyLocal
    decreases c
  {
    var e1 := EmitUsagePage(st, c.usagePage);
    var e2 := Then(e1, EmitUsageID(e1.st, c.usageID));
    var inside := e2.st.(local := EmptyLocal);
    var body := EmitItems(inside, c.items);
    Emit(e2.bytes + Tag8(TagCollection, c.collectionType) + body.bytes + Tag0(TagEndCollection),
         body.st.(local := EmptyLocal))
  }

  function EmitItems(st: EncState, items: seq<MainItem>): (e: Emit)
    decreases items
  {
    if items == [] then Emit([], st)
    else Then(EmitItem(st, items[0]), EmitItems(EmitItem(st, items[0]).st, items[1..]))
  }

  /** encodeMainItem: a nested collection when there is one, else the data item, else
      nothing. */
  function EmitItem(st: EncState, item: MainItem): (e: Emit)
    decreases item
  {
    if item.collection.Some? then EmitCollection(st, item.collection.value)
    else if item.dataItem.Some? then EmitDataItem(st, item.itemType, item.dataItem.value)
    else Emit([], st)
  }

  /** Encode: every top-level collection in order, starting from the zero state. */
  function EmitDescriptor(st: EncState, cs: seq<Collection>): (e: Emit)
    decreases |cs|
  {
    if cs == [] then Emit([], st)
    else Then(EmitCollection(st, cs[0]), EmitDescriptor(EmitCollection(st, cs[0]).st, cs[1..]))
  }

  /** The bytes of a collection begin with its optional Usage Page and Usage items, then
      the Collection item with its type, and end with End Collection. */
  lemma CollectionFraming(st: EncState, c: Collection)
    ensures var bs := EmitCollection(st, c).bytes;
            var pre := Then(EmitUsagePage(st, c.usagePage),
                            EmitUsageID(EmitUsagePage(st, c.usagePage).st, c.usageID)).bytes;
            |bs| >= |pre| + 3
            && bs[..|pre|] == pre
            && bs[|pre|..|pre| + 2] == [WithItemSize(TagCollection, TagItemSize8), ByteOf(c.collectionType)]
            && bs[|bs| - 1] == WithItemSize(TagEndCollection, TagItemSize0)
  {
  }

  lemma AppendAssoc(a: seq<bv8>, b: seq<bv8>, c: seq<bv8>)
    ensures a + (b + c) == (a + b) + c
  {
  }

  /** Writing acc and then next from o0 is writing Then(acc, next). */
  lemma Extend(o0: seq<bv8>, acc: Emit, o1: seq<bv8>, next: Emit)
    requires o1 == o0 + acc.bytes
    ensures o1 + next.bytes == o0 + Then(acc, next).bytes
  {
    AppendAssoc(o0, acc.bytes, next.bytes);
  }

  // ---------------------------------------------------------------- the encoder object

  /** Encoder: the descriptor, the bytes written so far, and the Global and Local values
      last written. The writer never fails. */
  class Encoder {
    const desc: ReportDescriptor
    var out: seq<bv8>
    var global: GlobalState
    var local: LocalState

    function St(): EncState
      reads this
    {
      EncState(global, local)
    }

    /** NewDescriptorEncoder: nothing written, zero state. */
    constructor (d: ReportDescriptor)
      ensures desc == d && out == [] && St() == InitialEnc
    {
      desc := d;
      out := [];
      global := EmptyGlobal;
      local := EmptyLocal;
    }

    method Write(bs: seq<bv8>)
      modifies this
      ensures out == old(out) + bs && St() == old(St())
    {
      out := out + bs;
    }

    method EncodeUsagePage(page: uint16)
      modifies this
      ensures out == old(out) + EmitUsagePage(old(St()), page).bytes
      ensures St() == EmitUsagePage(old(St()), page).st
    {
      if page == global.usagePage {
        return;
      }
      Write(Tag16(TagUsagePage, page));
      global := global.(usagePage := page);
    }

    method EncodeUsageID(id: uint16)
      modifies this
      ensures out == old(out) + EmitUsageID(old(St()), id).bytes
      ensures St() == EmitUsageID(old(St()), id).st
    {
      if id == 0 {
        return;
      }
      if |local.usage| > 0 && local.usage[|local.usage| - 1] == id {
        return;
      }
      Write(Tag16(TagUsage, id));
      local := local.(usage := [id]);
    }

    method EncodeUsages(ids: seq<uint16>)
      modifies this
      ensures out == old(out) + EmitUsages(old(St()), ids).bytes
      ensures St() == EmitUsages(old(St()), ids).st
    {
      var i := 0;
      while i < |ids|
        invariant 0 <= i <= |ids|
        invariant out + EmitUsages(St(), ids[i..]).bytes == old(out) + EmitUsages(old(St()), ids).bytes
        invariant EmitUsages(St(), ids[i..]).st == EmitUsages(old(St()), ids).st
      {
        assert ids[i..][0] == ids[i] && ids[i..][1..] == ids[i + 1..];
        ghost var oi, si := out, St();
        ghost var one := EmitUsageID(si, ids[i]);
        EncodeUsageID(ids[i]);
        AppendAssoc(oi, one.bytes, EmitUsages(one.st, ids[i + 1..]).bytes);
        i := i + 1;
      }
    }

    /** encodeMainItem for a data item. */
    method EncodeDataItem(t: MainItemType, d: DataItem)
      modifies this
      ensures out == old(out) + EmitDataItem(old(St()), t, d).bytes
      ensures St() == EmitDataItem(old(St()), t, d).st
    {
      ghost var o0, s0 := out, St();
      EncodeUsagePage(d.usagePage);
      ghost var acc := EmitUsagePage(s0, d.usagePage);
      ghost var o := out;
      EncodeUsages(d.usageIDs);
      ghost var next := EmitUsages(acc.st, d.usageIDs);
      Extend(o0, acc, o, next);
      acc, o := Then(acc, next), out;
      EncodeUsageRange(d.usageMinimum, d.usageMaximum);
      next := EmitUsageRange(acc.st, d.usageMinimum, d.usageMaximum);
      Extend(o0, acc, o, next);
      acc, o := Then(acc, next), out;
      EncodeDesignators(d);
      next := EmitDesignators(acc.st, d);
      Extend(o0, acc, o, next);
      acc, o := Then(acc, next), out;
      EncodeExtents(d);
      next := EmitExtents(acc.st, d);
      Extend(o0, acc, o, next);
      acc, o := Then(acc, next), out;
      EncodeReportFields(d);
      next := EmitReportFields(acc.st, d);
      Extend(o0, acc, o, next);
      acc, o := Then(acc, next), out;
      if t != CollectionItem {
        Write(Tag32(MainTag(t), d.flags as int));
      }
      local := EmptyLocal;
      ghost var main := if t == CollectionItem then [] else Tag32(MainTag(t), d.flags as int);
      assert out == o + main;
      AppendAssoc(o0, acc.bytes, main);
    }

    method EncodeUsageRange(minimum: uint16, maximum: uint16)
      modifies this
      ensures out == old(out) + EmitUsageRange(old(St()), minimum, maximum).bytes
      ensures St() == EmitUsageRange(old(St()), minimum, maximum).st
    {
      if minimum != local.usageMinimum || maximum != local.usageMaximum {
        Write(Tag16(TagUsageMinimum, minimum) + Tag16(TagUsageMaximum, maximum));
        local := local.(usageMinimum := minimum, usageMaximum := maximum);
      }
    }

    method EncodeDesignators(d: DataItem)
      modifies this
      ensures out == old(out) + EmitDesignators(old(St()), d).bytes
      ensures St() == EmitDesignators(old(St()), d).st
    {
      if d.designatorIndex != local.designatorIndex {
        Write(Tag8(TagDesignatorIndex, d.designatorIndex));
        local := local.(designatorIndex := d.designatorIndex);
      }
      if d.designatorMinimum != local.designatorMinimum || d.designatorMaximum != local.designatorMaximum {
        Write(Tag8(TagDesignatorMinimum, d.designatorMinimum) + Tag8(TagDesignatorMaximum, d.designatorMaximum));
        local := local.(designatorMinimum := d.designatorMinimum, designatorMaximum := d.designatorMaximum);
      }
    }

    method EncodeExtents(d: DataItem)
      modifies this
      ensures out == old(out) + EmitExtents(old(St()), d).bytes
      ensures St() == EmitExtents(old(St()), d).st
    {
      ghost var o0, s0 := out, St();
      if d.logicalMinimum != global.logicalMinimum || d.logicalMaximum != global.logicalMaximum {
        Write(TagI32AsWritten(TagLogicalMinimum, d.logicalMinimum) + TagI32AsWritten(TagLogicalMaximum, d.logicalMaximum));
        global := global.(logicalMinimum := d.logicalMinimum, logicalMaximum := d.logicalMaximum);
      }
      ghost var e1 := EmitLogical(s0, d);
      assert out == o0 + e1.bytes && St() == e1.st;
      ghost var o1 := out;
      if d.physicalMinimum != global.physicalMinimum || d.physicalMaximum != global.physicalMaximum {
        Write(TagI32AsWritten(TagPhysicalMinimum, d.physicalMinimum) + TagI32AsWritten(TagPhysicalMaximum, d.physicalMaximum));
        global := global.(physicalMinimum := d.physicalMinimum, physicalMaximum := d.physicalMaximum);
      }
      ghost var e2 := EmitPhysical(e1.st, d);
      assert out == o1 + e2.bytes;
      AppendAssoc(o0, e1.bytes, e2.bytes);
    }

    method EncodeReportFields(d: DataItem)
      modifies this
      ensures out == old(out) + EmitReportFields(old(St()), d).bytes
      ensures St() == EmitReportFields(old(St()), d).st
    {
      ghost var o0, s0 := out, St();
      EncodeUnits(d);
      ghost var e1 := EmitUnits(s0, d);
      ghost var o1 := out;
      EncodeReportShape(d);
      Extend(o0, e1, o1, EmitReportShape(e1.st, d));
    }

    method EncodeUnits(d: DataItem)
      modifies this
      ensures out == old(out) + EmitUnits(old(St()), d).bytes
      ensures St() == EmitUnits(old(St()), d).st
    {
      ghost var o0, s0 := out, St();
      if d.unitExponent != global.unitExponent {
        Write(Tag32(TagUnitExponent, d.unitExponent));
        global := global.(unitExponent := d.unitExponent);
      }
      ghost var e1 := EmitUnitExponent(s0, d);
      assert out == o0 + e1.bytes && St() == e1.st;
      ghost var o1 := out;
      if d.unit != global.unit {
        Write(Tag32(TagUnit, d.unit));
        global := global.(unit := d.unit);
      }
      ghost var e2 := EmitUnit(e1.st, d);
      assert out == o1 + e2.bytes && St() == e2.st;
      Extend(o0, e1, o1, e2);
    }

    method EncodeReportShape(d: DataItem)
      modifies this
      ensures out == old(out) + EmitReportShape(old(St()), d).bytes
      ensures St() == EmitReportShape(old(St()), d).st
    {
      ghost var o0, s0 := out, St();
      if d.reportID != global.reportID {
        Write(Tag8(TagReportID, d.reportID));
        global := global.(reportID := d.reportID);
      }
      ghost var acc := EmitReportID(s0, d);
      assert out == o0 + acc.bytes && St() == acc.st;
      ghost var o := out;
      if d.reportCount != global.reportCount {
        Write(Tag32(TagReportCount, d.reportCount));
        global := global.(reportCount := d.reportCount);
      }
      ghost var next := EmitReportCount(acc.st, d);
      assert out == o + next.bytes && St() == next.st;
      Extend(o0, acc, o, next);
      acc, o := Then(acc, next), out;
      if d.reportSize != global.reportSize {
        Write(Tag32(TagReportSize, d.reportSize));
        global := global.(reportSize := d.reportSize);
      }
      next := EmitReportSize(acc.st, d);
      assert out == o + next.bytes && St() == next.st;
      Extend(o0, acc, o, next);
    }

    /** encodeMainItem. */
    method EncodeMainItem(item: MainItem)
      modifies this
      ensures out == old(out) + EmitItem(old(St()), item).bytes
      ensures St() == EmitItem(old(St()), item).st
      decreases item, 0
    {
      if item.collection.Some? {
        EncodeCollection(item.collection.value);
      } else if item.dataItem.Some? {
        EncodeDataItem(item.itemType, item.dataItem.value);
      }
    }

    /** encodeCollection. */
    method EncodeCollection(c: Collection)
      modifies this
      ensures out == old(out) + EmitCollection(old(St()), c).bytes
      ensures St() == EmitCollection(old(St()), c).st
      decreases c, 1
    {
      ghost var o0, s0 := out, St();
      EncodeUsagePage(c.usagePage);
      ghost var e1 := EmitUsagePage(s0, c.usagePage);
      ghost var o := out;
      EncodeUsageID(c.usageID);
      ghost var e2 := EmitUsageID(e1.st, c.usageID);
      Extend(o0, e1, o, e2);
      ghost var head := Then(e1, e2).bytes;
      o := out;
      Write(Tag8(TagCollection, c.collectionType));
      AppendAssoc(o0, head, Tag8(TagCollection, c.collectionType));
      head := head + Tag8(TagCollection, c.collectionType);
      local := EmptyLocal;
      ghost var inside := St();
      ghost var o1 := out;
      var i := 0;
      while i < |c.items|
        invariant 0 <= i <= |c.items|
        invariant out + EmitItems(St(), c.items[i..]).bytes == o1 + EmitItems(inside, c.items).bytes
        invariant EmitItems(St(), c.items[i..]).st == EmitItems(inside, c.items).st
      {
        assert c.items[i..][0] == c.items[i] && c.items[i..][1..] == c.items[i + 1..];
        ghost var oi, si := out, St();
        ghost var item := EmitItem(si, c.items[i]);
        EncodeMainItem(c.items[i]);
        AppendAssoc(oi, item.bytes, EmitItems(item.st, c.items[i + 1..]).bytes);
        i := i + 1;
      }
      ghost var body := EmitItems(inside, c.items);
      assert out == o1 + body.bytes;
      AppendAssoc(o0, head, body.bytes);
      Write(Tag0(TagEndCollection));
      AppendAssoc(o0, head + body.bytes, Tag0(TagEndCollection));
      local := EmptyLocal;
    }

    /** Encode: every collection of the descriptor, in order. */
    method Encode()
      modifies this
      ensures out == old(out) + EmitDescriptor(old(St()), desc.collections).bytes
      ensures St() == EmitDescriptor(old(St()), desc.collections).st
    {
      var cs := desc.collections;
      var i := 0;
      while i < |cs|
        invariant 0 <= i <= |cs|
        invariant out + EmitDescriptor(St(), cs[i..]).bytes == old(out) + EmitDescriptor(old(St()), cs).bytes
        invariant EmitDescriptor(St(), cs[i..]).st == EmitDescriptor(old(St()), cs).st
      {
        assert cs[i..][0] == cs[i] && cs[i..][1..] == cs[i + 1..];
        ghost var oi, si := out, St();
        ghost var col := EmitCollection(si, cs[i]);
        EncodeCollection(cs[i]);
        AppendAssoc(oi, col.bytes, EmitDescriptor(col.st, cs[i + 1..]).bytes);
        i := i + 1;
      }
    }
  }
}
