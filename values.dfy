/** Usage values of internal/hidparse/values.go: a variable data item whose usages each
    own one signed 8-, 16- or 32-bit word of the report field, in usage order. */
module Values {
  import opened Common
  import opened Bits
  import opened Descriptor
  import opened Usages
  import UsageSets

  datatype UsageValues = UsageValues(usages: seq<Usage>, size: uint32, minimum: int32, maximum: int32)

  predicate Contains(v: UsageValues, u: Usage)
  {
    u in v.usages
  }

  /** The word width in bytes of a value of the given report size; 0 for a size the
      source has no case for. */
  function ValueWidth(size: uint32): (w: nat)
    ensures w == 0 || w == 1 || w == 2 || w == 4
  {
    if size == 8 then 1 else if size == 16 then 2 else if size == 32 then 4 else 0
  }

  /** Every usage's word lies inside the field; Uint8/16/32 and SetUint8/16/32 panic on
      a word past its end. */
  predicate InField(v: UsageValues, bytes: seq<bv8>)
  {
    var n, w := |v.usages|, ValueWidth(v.size);
    (w == 1 ==> n <= |bytes|) && (w == 2 ==> 2 * n <= |bytes|) && (w == 4 ==> 4 * n <= |bytes|)
  }

  lemma WidthPowers()
    ensures Pow256(1) == 0x100 && Pow256(2) == 0x1_0000 && Pow256(4) == 0x1_0000_0000
  {
    assert Pow256(3) == 0x100_0000;
  }

  lemma WordInField(v: UsageValues, bytes: seq<bv8>, i: nat)
    requires InField(v, bytes) && i < |v.usages|
    ensures i * ValueWidth(v.size) + ValueWidth(v.size) <= |bytes|
  {
    var w := ValueWidth(v.size);
    if w == 2 {
      assert i * w == 2 * i;
    } else if w == 4 {
      assert i * w == 4 * i;
    }
  }

  /** The word index of a usage: usageIndex keeps the last position of each usage. */
  function Index(v: UsageValues, u: Usage): nat
    requires Contains(v, u)
  {
    LastIndex(v.usages, u)
  }

  /** GetValue: the usage's word read as a signed integer of the field's width; 0 for a
      usage the item does not hold or a size with no case. */
  function GetValue(v: UsageValues, b: Bits, u: Usage): (r: int32)
    requires InField(v, b.bytes)
  {
    var w := ValueWidth(v.size);
    if !Contains(v, u) || w == 0 then 0
    else
      var i := Index(v, u);
      WordInField(v, b.bytes, i);
      WidthPowers();
      SignedOf(LittleEndian(b.bytes[i * w..i * w + w]), w)
  }

  /** The field's bytes after SetValue: the usage's word holds the value truncated to the
      width (uint8(int8(v)), uint16(int16(v)), uint32(v)); nothing changes for a usage
      the item does not hold or a size with no case. */
  function ValueBytes(v: UsageValues, bytes: seq<bv8>, u: Usage, value: int32): (r: seq<bv8>)
    requires InField(v, bytes)
    ensures |r| == |bytes|
  {
    var w := ValueWidth(v.size);
    if !Contains(v, u) || w == 0 then bytes
    else
      var i := Index(v, u);
      WordInField(v, bytes, i);
      PutWord(bytes, i * w, w, value % Pow256(w))
  }

  /** SetValue. */
  method SetValue(v: UsageValues, buf: array<bv8>, u: Usage, value: int32)
    requires InField(v, buf[..])
    modifies buf
    ensures buf[..] == ValueBytes(v, old(buf[..]), u, value)
  {
    var w := ValueWidth(v.size);
    if !Contains(v, u) || w == 0 {
      return;
    }
    var i := Index(v, u);
    WordInField(v, buf[..], i);
    WidthPowers();
    SetUint(buf, i, w, value % Pow256(w));
  }

  /** A value written with SetValue reads back through GetValue as its two's-complement
      truncation to the field's width, which is the value itself when it fits; every
      other usage keeps its value. */
  lemma SetThenGet(v: UsageValues, b: Bits, u: Usage, value: int32, x: Usage)
    requires InField(v, b.bytes) && Contains(v, u) && ValueWidth(v.size) > 0
    ensures var after := Bits(b.missingBits, ValueBytes(v, b.bytes, u, value));
            GetValue(v, after, u) == SignedOf(value, ValueWidth(v.size))
            && (x != u ==> GetValue(v, after, x) == GetValue(v, b, x))
    ensures var w := ValueWidth(v.size);
            0 - Pow256(w) / 2 <= value < Pow256(w) / 2 ==> SignedOf(value, w) == value
  {
    SetThenGetSame(v, b, u, value);
    if x != u {
      SetThenGetOther(v, b, u, value, x);
    }
    var w := ValueWidth(v.size);
    if 0 - Pow256(w) / 2 <= value < Pow256(w) / 2 {
      SignedOfMod(value, w);
      SignedOfResidue(value, w);
    }
  }

  lemma SetThenGetSame(v: UsageValues, b: Bits, u: Usage, value: int32)
    requires InField(v, b.bytes) && Contains(v, u) && ValueWidth(v.size) > 0
    ensures GetValue(v, Bits(b.missingBits, ValueBytes(v, b.bytes, u, value)), u)
            == SignedOf(value, ValueWidth(v.size))
  {
    var w := ValueWidth(v.size);
    var i := Index(v, u);
    WordInField(v, b.bytes, i);
    WidthPowers();
    PutWordThenRead(b.bytes, i * w, w, value % Pow256(w));
    SignedOfResidue(value, w);
  }

  lemma SetThenGetOther(v: UsageValues, b: Bits, u: Usage, value: int32, x: Usage)
    requires InField(v, b.bytes) && Contains(v, u) && ValueWidth(v.size) > 0 && x != u
    ensures GetValue(v, Bits(b.missingBits, ValueBytes(v, b.bytes, u, value)), x) == GetValue(v, b, x)
  {
    var w := ValueWidth(v.size);
    var i := Index(v, u);
    WordInField(v, b.bytes, i);
    WidthPowers();
    if Contains(v, x) {
      var j := Index(v, x);
      WordInField(v, b.bytes, j);
      OtherWordKept(b.bytes, w, i, j, value % Pow256(w));
    }
  }

  /** Writing word i leaves the bytes of every other word j as they were. */
  lemma OtherWordKept(bytes: seq<bv8>, w: nat, i: nat, j: nat, x: nat)
    requires w == 1 || w == 2 || w == 4
    requires i != j && i * w + w <= |bytes| && j * w + w <= |bytes| && x < Pow256(w)
    ensures PutWord(bytes, i * w, w, x)[j * w..j * w + w] == bytes[j * w..j * w + w]
  {
    Disjoint(i, j, w);
    WordKept(bytes, i * w, j * w, w, x);
  }

  /** Writing a word leaves every byte of a word that does not overlap it. */
  lemma WordKept(bytes: seq<bv8>, lo: nat, hi: nat, w: nat, x: nat)
    requires lo + w <= |bytes| && hi + w <= |bytes| && (hi + w <= lo || lo + w <= hi)
    ensures PutWord(bytes, lo, w, x)[hi..hi + w] == bytes[hi..hi + w]
  {
    var r := PutWord(bytes, lo, w, x);
    assert r == bytes[..lo] + LittleEndianBytes(x, w) + bytes[lo + w..];
    forall k | hi <= k < hi + w
      ensures r[k] == bytes[k]
    {
    }
  }

  lemma Disjoint(i: nat, j: nat, w: nat)
    requires i != j
    ensures j * w + w <= i * w || i * w + w <= j * w
  {
    if i < j {
      MulMonotone(i + 1, j, w);
    } else {
      MulMonotone(j + 1, i, w);
    }
  }

  lemma MulMonotone(a: nat, b: nat, w: nat)
    requires a <= b
    ensures a * w <= b * w
  {
  }

  // ---------------------------------------------------------------- NewUsageValuesItems

  /** The usage values NewUsageValuesItems makes of one data item, if any: a variable,
      non-constant item with usage IDs and a report size of 8, 16 or 32. */
  function ValuesOf(item: DataItem): (r: Option<UsageValues>)
    ensures r.Some? ==> |r.value.usages| == |item.usageIDs|
  {
    if |item.usageIDs| == 0 || IsConstant(item.flags) || IsArray(item.flags) then None
    else if !(item.reportSize == 8 || item.reportSize == 16 || item.reportSize == 32) then None
    else
      var ids := item.usageIDs;
      Some(UsageValues(seq(|ids|, j requires 0 <= j < |ids| => NewUsage(item.usagePage, ids[j])),
                       item.reportSize, item.logicalMinimum, item.logicalMaximum))
  }

  /** The usages of an item's IDs on its page, in order. */
  method ItemUsages(page: uint16, ids: seq<uint16>) returns (usages: seq<Usage>)
    ensures usages == seq(|ids|, j requires 0 <= j < |ids| => NewUsage(page, ids[j]))
  {
    usages := [];
    var j := 0;
    while j < |ids|
      invariant 0 <= j <= |ids| && |usages| == j
      invariant forall k :: 0 <= k < j ==> usages[k] == NewUsage(page, ids[k])
    {
      usages := usages + [NewUsage(page, ids[j])];
      j := j + 1;
    }
  }

  /** NewUsageValuesItems: usage values for every data item that holds them, keyed by
      the item's index. */
  method NewUsageValuesItems(items: seq<DataItem>) returns (values: map<nat, UsageValues>)
    ensures forall i: nat :: i in values <==> i < |items| && ValuesOf(items[i]).Some?
    ensures forall i: nat :: i in values ==> i < |items| && values[i] == ValuesOf(items[i]).value
  {
    values := map[];
    var i := 0;
    while i < |items|
      invariant 0 <= i <= |items|
      invariant forall j: nat :: j in values <==> j < i && ValuesOf(items[j]).Some?
      invariant forall j: nat :: j in values ==> j < i && values[j] == ValuesOf(items[j]).value
    {
      var item := items[i];
      if |item.usageIDs| > 0 && !IsConstant(item.flags) && !IsArray(item.flags)
         && (item.reportSize == 8 || item.reportSize == 16 || item.reportSize == 32)
      {
        var usages := ItemUsages(item.usagePage, item.usageIDs);
        values := values[i := UsageValues(usages, item.reportSize, item.logicalMinimum, item.logicalMaximum)];
      }
      i := i + 1;
    }
  }

  /** The values of an item hold exactly the usages of its IDs on its page, and a field
      of ReportSize·ReportCount bits holds a word for each when there are no more IDs
      than the report count. */
  lemma ValuesOfItem(item: DataItem, u: Usage, bytes: seq<bv8>)
    requires ValuesOf(item).Some?
    ensures Contains(ValuesOf(item).value, u) <==> Page(u) == item.usagePage && ID(u) in item.usageIDs
    ensures |item.usageIDs| <= item.reportCount && |bytes| == (item.reportSize * item.reportCount + 7) / 8
            ==> InField(ValuesOf(item).value, bytes)
  {
    var v := ValuesOf(item).value;
    var ids := item.usageIDs;
    UsageRoundTrip(Page(u), ID(u), u);
    if Contains(v, u) {
      var j :| 0 <= j < |ids| && v.usages[j] == u;
      UsageRoundTrip(item.usagePage, ids[j], u);
    }
    if Page(u) == item.usagePage && ID(u) in ids {
      var j :| 0 <= j < |ids| && ids[j] == ID(u);
      assert v.usages[j] == u;
    }
    var n: int := |ids|;
    var c: int := item.reportCount;
    if n <= c {
      var w := ValueWidth(item.reportSize);
      if item.reportSize == 8 {
        assert (8 * c + 7) / 8 == c;
      } else if item.reportSize == 16 {
        assert (16 * c + 7) / 8 == 2 * c;
        assert n * w == 2 * n;
      } else {
        assert (32 * c + 7) / 8 == 4 * c;
        assert n * w == 4 * n;
      }
    }
  }

  /** No data item is both a usage set and a usage value item. */
  lemma SetsAndValuesDisjoint(item: DataItem)
    ensures !(UsageSets.Classify(item).Some? && ValuesOf(item).Some?)
  {
  }
}
