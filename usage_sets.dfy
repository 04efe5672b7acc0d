/** Usage sets of hidapi/usage_set.go: the three ways a report field can hold a set of
    pressed usages. A flag map and a flag range give each usage one bit of the field; a
    selector (the array form of Appendix B.1 of the USB Device Class Definition for HID
    1.11) keeps the pressed IDs in 8- or 16-bit slots, packed at the front. */
module UsageSets {
  import opened Common
  import opened Bits
  import opened Descriptor
  import opened Usages

  datatype UsageSet =
    | FlagMap(page: uint16, ids: seq<uint16>)
    | RangeFlags(page: uint16, minimum: uint16, maximum: uint16)
    | Selector(size: nat, page: uint16, minimum: uint16, maximum: uint16)

  // ---------------------------------------------------------------- membership

  predicate Contains(s: UsageSet, u: Usage)
  {
    Page(u) == s.page
    && match s
       case FlagMap(_, ids) => ID(u) in ids
       case RangeFlags(_, lo, hi) => lo <= ID(u) <= hi
       case Selector(_, _, lo, hi) => lo <= ID(u) <= hi
  }

  /** The bit a flag map or flag range keeps for a usage it contains. */
  function FlagBit(s: UsageSet, u: Usage): nat
    requires !s.Selector? && Contains(s, u)
  {
    if s.FlagMap? then LastIndex(s.ids, ID(u)) else ID(u) - s.minimum
  }

  /** The slot width in bytes of a selector of the given report size; 0 for a size the
      source has no case for. */
  function SlotWidth(size: nat): (w: nat)
    ensures w == 0 || w == 1 || w == 2
  {
    if size == 8 then 1 else if size == 16 then 2 else 0
  }

  /** The number of w-byte slots in n bytes. */
  function SlotCount(n: nat, w: nat): nat
  {
    if w == 2 then n / 2 else n
  }

  /** The byte offset of slot k. */
  function SlotOffset(k: nat, w: nat): nat
  {
    if w == 2 then 2 * k else k
  }

  /** n bytes hold a whole number of w-byte slots. */
  predicate WholeSlots(n: nat, w: nat)
  {
    w == 2 ==> n % 2 == 0
  }

  /** A selector field holds whole slots: ReportSize·ReportCount bits of 8- or 16-bit
      slots always do. */
  predicate Fits(s: UsageSet, b: Bits)
  {
    s.Selector? && SlotWidth(s.size) > 0 ==> WholeSlots(|b.bytes|, SlotWidth(s.size))
  }

  // ---------------------------------------------------------------- slots

  lemma SlotBounds(k: nat, n: nat, w: nat)
    requires w == 1 || w == 2
    requires WholeSlots(n, w) && k < SlotCount(n, w)
    ensures SlotOffset(k, w) + w <= n
  {
  }

  /** The slot values EachUint8 or EachUint16 visit. */
  function SlotView(bytes: seq<bv8>, w: nat): (v: seq<nat>)
    requires w == 1 || w == 2
    requires WholeSlots(|bytes|, w)
    ensures |v| == SlotCount(|bytes|, w)
  {
    seq(SlotCount(|bytes|, w), k requires 0 <= k < SlotCount(|bytes|, w) =>
          SlotBounds(k, |bytes|, w);
          WordAt(bytes, SlotOffset(k, w), w))
  }

  lemma SlotViewAt(bytes: seq<bv8>, w: nat, k: nat)
    requires w == 1 || w == 2
    requires WholeSlots(|bytes|, w) && k < SlotCount(|bytes|, w)
    ensures SlotOffset(k, w) + w <= |bytes|
    ensures SlotView(bytes, w)[k] == WordAt(bytes, SlotOffset(k, w), w)
    ensures SlotView(bytes, w)[k] == LittleEndian(bytes[SlotOffset(k, w)..SlotOffset(k, w) + w])
    ensures SlotView(bytes, w)[k] < Pow256(w)
  {
    SlotBounds(k, |bytes|, w);
    WordAtSlice(bytes, SlotOffset(k, w), w);
  }

  /** Writing slot k's word leaves the bytes of every other slot j as they were. */
  lemma OtherSlotBytes(bytes: seq<bv8>, w: nat, k: nat, j: nat, v: nat)
    requires w == 1 || w == 2
    requires j != k && SlotOffset(k, w) + w <= |bytes| && SlotOffset(j, w) + w <= |bytes| && v < Pow256(w)
    ensures PutWord(bytes, SlotOffset(k, w), w, v)[SlotOffset(j, w)..SlotOffset(j, w) + w] == bytes[SlotOffset(j, w)..SlotOffset(j, w) + w]
  {
    PutWordThenRead(bytes, SlotOffset(k, w), w, v);
    var r := PutWord(bytes, SlotOffset(k, w), w, v);
    if w == 1 {
      assert r[j..j + 1] == [r[j]];
    } else {
      assert SlotOffset(j, w) == 2 * j && SlotOffset(k, w) == 2 * k;
      assert r[2 * j..2 * j + 2] == [r[2 * j], r[2 * j + 1]];
      assert bytes[2 * j..2 * j + 2] == [bytes[2 * j], bytes[2 * j + 1]];
    }
  }

  /** Writing one slot's word changes that slot of the view and no other. */
  lemma PutSlot(bytes: seq<bv8>, w: nat, k: nat, v: nat)
    requires w == 1 || w == 2
    requires WholeSlots(|bytes|, w) && k < SlotCount(|bytes|, w) && v < Pow256(w)
    requires SlotOffset(k, w) + w <= |bytes|
    ensures SlotView(PutWord(bytes, SlotOffset(k, w), w, v), w) == SlotView(bytes, w)[k := v]
  {
    var r := PutWord(bytes, SlotOffset(k, w), w, v);
    PutWordThenRead(bytes, SlotOffset(k, w), w, v);
    forall j | 0 <= j < SlotCount(|bytes|, w)
      ensures SlotView(r, w)[j] == SlotView(bytes, w)[k := v][j]
    {
      SlotViewAt(r, w, j);
      SlotViewAt(bytes, w, j);
      if j != k {
        OtherSlotBytes(bytes, w, k, j, v);
      }
    }
  }

  /** The field bytes that hold the given slot values, each written little-endian in
      turn. */
  function SlotBytes(v: seq<nat>, w: nat): (r: seq<bv8>)
    requires w == 1 || w == 2
    ensures |r| == SlotOffset(|v|, w)
  {
    if v == [] then [] else LittleEndianBytes(v[0], w) + SlotBytes(v[1..], w)
  }

  lemma SlotViewCons(bytes: seq<bv8>, w: nat)
    requires w == 1 || w == 2
    requires WholeSlots(|bytes|, w) && |bytes| > 0
    ensures w <= |bytes| && WholeSlots(|bytes| - w, w)
    ensures SlotView(bytes, w) == [LittleEndian(bytes[..w])] + SlotView(bytes[w..], w)
  {
    var v := SlotView(bytes, w);
    var t := SlotView(bytes[w..], w);
    assert |v| == |t| + 1 by {
      if w == 2 {
        assert |bytes| / 2 == (|bytes| - 2) / 2 + 1;
      }
    }
    forall k | 0 <= k < |t|
      ensures v[k + 1] == t[k]
    {
      SlotViewShift(bytes, w, k);
    }
    SlotViewAt(bytes, w, 0);
  }

  lemma SlotViewShift(bytes: seq<bv8>, w: nat, k: nat)
    requires w == 1 || w == 2
    requires WholeSlots(|bytes|, w) && w <= |bytes| && WholeSlots(|bytes| - w, w)
    requires k < SlotCount(|bytes| - w, w) && k + 1 < SlotCount(|bytes|, w)
    ensures SlotView(bytes, w)[k + 1] == SlotView(bytes[w..], w)[k]
  {
    SlotViewAt(bytes, w, k + 1);
    SlotViewAt(bytes[w..], w, k);
    var lo := SlotOffset(k, w);
    assert SlotOffset(k + 1, w) == w + lo;
    assert bytes[w..][lo..lo + w] == bytes[w + lo..w + lo + w];
  }

  /** SlotBytes undoes SlotView: a selector field is determined by its slots. */
  lemma {:induction false} SlotBytesOfView(bytes: seq<bv8>, w: nat)
    requires w == 1 || w == 2
    requires WholeSlots(|bytes|, w)
    ensures SlotBytes(SlotView(bytes, w), w) == bytes
    decreases |bytes|
  {
    if |bytes| > 0 {
      SlotViewCons(bytes, w);
      LittleEndianBytesOfValue(bytes[..w]);
      SlotBytesOfView(bytes[w..], w);
      assert bytes[..w] + bytes[w..] == bytes;
    }
  }

  /** The first position holding a or b, or |s| when there is none. */
  function FirstOf(s: seq<nat>, a: nat, b: nat): (k: nat)
    ensures k <= |s|
    ensures forall j :: 0 <= j < k ==> s[j] != a && s[j] != b
    ensures k < |s| ==> s[k] == a || s[k] == b
  {
    if s == [] then 0
    else if s[0] == a || s[0] == b then 0
    else 1 + FirstOf(s[1..], a, b)
  }

  /** SetUsage on a selector's slots: stop at the value already present, else fill the
      first empty slot; a full selector is left as it is. */
  function SetSlots(s: seq<nat>, t: nat): (r: seq<nat>)
    ensures |r| == |s|
  {
    var k := FirstOf(s, t, 0);
    if k < |s| && s[k] != t then s[k := t] else s
  }

  /** ClearUsage on a selector's slots: the scan stops at the first empty slot; the first
      slot holding id is emptied and every later occupied slot moves one place left. */
  function ClearSlots(s: seq<nat>, id: nat): (r: seq<nat>)
    ensures |r| == |s|
  {
    var c := FirstOf(s, id, 0);
    if c == |s| || s[c] == 0 then s
    else
      var z := FirstOf(s, 0, 0);
      assert c < z;
      s[..c] + s[c + 1..z] + [0] + s[z..]
  }

  /** ReplaceUsage on a selector's slots: the first slot holding `from` gets `to`. */
  function ReplaceSlots(s: seq<nat>, from: nat, to: nat): (r: seq<nat>)
    ensures |r| == |s|
  {
    var k := FirstOf(s, from, from);
    if k < |s| then s[k := to] else s
  }

  /** The occupied slots, in order. */
  function Nonzero(s: seq<nat>): (r: seq<nat>)
    ensures |r| <= |s|
    ensures forall x :: x in r <==> x in s && x != 0
  {
    if s == [] then []
    else Nonzero(s[..|s| - 1]) + (if s[|s| - 1] != 0 then [s[|s| - 1]] else [])
  }

  // ---------------------------------------------------------------- reading

  /** The positions below n whose bit is set, ascending. */
  function SetBits(b: Bits, n: nat): (r: seq<nat>)
    ensures forall k :: 0 <= k < |r| ==> r[k] < n
  {
    if n == 0 then [] else SetBits(b, n - 1) + (if IsSet(b, n - 1) then [n - 1] else [])
  }

  /** SetBits lists exactly the set positions below n, each once, in ascending order. */
  lemma SetBitsMeaning(b: Bits, n: nat)
    ensures forall k :: 0 <= k < |SetBits(b, n)| ==> IsSet(b, SetBits(b, n)[k])
    ensures forall i :: 0 <= i < n && IsSet(b, i) ==> i in SetBits(b, n)
    ensures forall j, k :: 0 <= j < k < |SetBits(b, n)| ==> SetBits(b, n)[j] < SetBits(b, n)[k]
  {
    SetBitsAreSet(b, n);
    SetBitsComplete(b, n);
    SetBitsAscending(b, n);
  }

  lemma {:induction false} SetBitsAreSet(b: Bits, n: nat)
    ensures forall k :: 0 <= k < |SetBits(b, n)| ==> IsSet(b, SetBits(b, n)[k])
  {
    if n > 0 {
      SetBitsAreSet(b, n - 1);
    }
  }

  lemma {:induction false} SetBitsComplete(b: Bits, n: nat)
    ensures forall i :: 0 <= i < n && IsSet(b, i) ==> i in SetBits(b, n)
  {
    if n > 0 {
      SetBitsComplete(b, n - 1);
      var r := SetBits(b, n);
      forall i | 0 <= i < n && IsSet(b, i)
        ensures i in r
      {
        if i < n - 1 {
          assert i in SetBits(b, n - 1);
        } else {
          assert r[|r| - 1] == i;
        }
      }
    }
  }

  lemma {:induction false} SetBitsAscending(b: Bits, n: nat)
    ensures forall j, k :: 0 <= j < k < |SetBits(b, n)| ==> SetBits(b, n)[j] < SetBits(b, n)[k]
  {
    if n > 0 {
      SetBitsAscending(b, n - 1);
    }
  }

  function Nat(n: int): nat
  {
    if n < 0 then 0 else n
  }

  /** The usages of the set bits among the first n IDs of a flag map. */
  function FlagList(page: uint16, ids: seq<uint16>, b: Bits, n: nat): seq<Usage>
    requires n <= |ids|
  {
    var on := SetBits(b, n);
    seq(|on|, k requires 0 <= k < |on| => NewUsage(page, ids[on[k]]))
  }

  /** The usages of the set bits below n of a flag range; the ID wraps as uint16 does. */
  function RangeList(page: uint16, lo: uint16, b: Bits, n: nat): seq<Usage>
  {
    var on := SetBits(b, n);
    seq(|on|, k requires 0 <= k < |on| => NewUsage(page, (on[k] + lo) % 0x1_0000))
  }

  /** The usages of the given slot values. */
  function SlotList(page: uint16, vals: seq<nat>): (r: seq<Usage>)
    requires forall x :: x in vals ==> x < 0x1_0000
    ensures |r| == |vals|
  {
    seq(|vals|, k requires 0 <= k < |vals| => assert vals[k] in vals; NewUsage(page, vals[k]))
  }

  /** Usages: the usage of every set bit, or of every occupied slot. */
  function UsagesOf(s: UsageSet, b: Bits): (r: seq<Usage>)
    requires Fits(s, b)
  {
    match s
    case FlagMap(page, ids) => FlagList(page, ids, b, |ids|)
    case RangeFlags(page, lo, _) => RangeList(page, lo, b, Nat(Len(b)))
    case Selector(size, page, _, _) =>
      if SlotWidth(size) == 0 then []
      else
        SlotViewBounded(b.bytes, SlotWidth(size));
        SlotList(page, Nonzero(SlotView(b.bytes, SlotWidth(size))))
  }

  lemma SlotViewBounded(bytes: seq<bv8>, w: nat)
    requires w == 1 || w == 2
    requires WholeSlots(|bytes|, w)
    ensures forall x :: x in SlotView(bytes, w) ==> x < 0x1_0000
  {
    forall x | x in SlotView(bytes, w)
      ensures x < 0x1_0000
    {
      SlotViewBound(bytes, w, x);
    }
  }

  lemma SlotViewBound(bytes: seq<bv8>, w: nat, x: nat)
    requires w == 1 || w == 2
    requires WholeSlots(|bytes|, w)
    requires x in SlotView(bytes, w)
    ensures x < 0x1_0000
  {
    var k :| 0 <= k < SlotCount(|bytes|, w) && SlotView(bytes, w)[k] == x;
    SlotViewAt(bytes, w, k);
    assert Pow256(2) == 0x1_0000 && Pow256(1) == 0x100;
  }

  /** HasUsage. */
  function Has(s: UsageSet, b: Bits, u: Usage): bool
    requires Fits(s, b)
  {
    Contains(s, u)
    && match s
       case Selector(size, _, _, _) =>
         SlotWidth(size) > 0 && ID(u) in SlotView(b.bytes, SlotWidth(size))
       case _ => IsSet(b, FlagBit(s, u))
  }

  // ---------------------------------------------------------------- writing

  /** The slot value SetUsage compares with and writes: uint8(id) in an 8-bit selector. */
  function Truncated(id: uint16, w: nat): (t: nat)
    requires w == 1 || w == 2
    ensures t < Pow256(w)
  {
    assert Pow256(2) == 0x1_0000 && Pow256(1) == 0x100;
    if w == 1 then id % 0x100 else id
  }

  /** What SetUsage reports: false only for a usage the set does not contain. */
  function SetResult(s: UsageSet, b: Bits, u: Usage): bool
  {
    if !Contains(s, u) then false
    else if s.Selector? then true
    else FlagBit(s, u) < Len(b) && !IsSet(b, FlagBit(s, u))
  }

  /** What ClearUsage reports. */
  function ClearResult(s: UsageSet, b: Bits, u: Usage): bool
  {
    if !Contains(s, u) then false
    else if s.Selector? then true
    else IsSet(b, FlagBit(s, u))
  }

  /** The bytes of a flag field after SetUsage (on) or ClearUsage (!on). */
  function FlagBytes(s: UsageSet, b: Bits, u: Usage, on: bool): (r: seq<bv8>)
    requires !s.Selector?
    ensures |r| == |b.bytes|
  {
    if !Contains(s, u) then b.bytes else WithBit(b.bytes, b.missingBits, FlagBit(s, u), on)
  }

  /** The slots of a selector field after SetUsage. */
  function SelectorSetSlots(s: UsageSet, b: Bits, u: Usage): seq<nat>
    requires s.Selector? && SlotWidth(s.size) > 0 && Fits(s, b)
  {
    var w := SlotWidth(s.size);
    if !Contains(s, u) then SlotView(b.bytes, w) else SetSlots(SlotView(b.bytes, w), Truncated(ID(u), w))
  }

  /** The slots of a selector field after ClearUsage. */
  function SelectorClearSlots(s: UsageSet, b: Bits, u: Usage): seq<nat>
    requires s.Selector? && SlotWidth(s.size) > 0 && Fits(s, b)
  {
    var w := SlotWidth(s.size);
    if !Contains(s, u) then SlotView(b.bytes, w) else ClearSlots(SlotView(b.bytes, w), ID(u))
  }

  // ---------------------------------------------------------------- properties

  /** A usage the set does not contain is never reported, set or cleared. */
  lemma NotContainedIsIgnored(s: UsageSet, b: Bits, u: Usage)
    requires Fits(s, b) && !Contains(s, u)
    ensures !Has(s, b, u) && !SetResult(s, b, u) && !ClearResult(s, b, u)
    ensures !s.Selector? ==> FlagBytes(s, b, u, true) == b.bytes && FlagBytes(s, b, u, false) == b.bytes
    ensures s.Selector? && SlotWidth(s.size) > 0 ==>
              SelectorSetSlots(s, b, u) == SlotView(b.bytes, SlotWidth(s.size))
              && SelectorClearSlots(s, b, u) == SlotView(b.bytes, SlotWidth(s.size))
  {
  }

  /** On a flag field, SetUsage makes HasUsage true and ClearUsage makes it false, each
      reporting whether it changed the bit; no other bit moves. */
  lemma FlagSetThenHas(s: UsageSet, b: Bits, u: Usage, v: Usage)
    requires !s.Selector? && Contains(s, u) && FlagBit(s, u) < Len(b)
    ensures Has(s, Bits(b.missingBits, FlagBytes(s, b, u, true)), u)
    ensures !Has(s, Bits(b.missingBits, FlagBytes(s, b, u, false)), u)
    ensures SetResult(s, b, u) == !Has(s, b, u) && ClearResult(s, b, u) == Has(s, b, u)
    ensures Contains(s, v) && FlagBit(s, v) != FlagBit(s, u) ==>
              Has(s, Bits(b.missingBits, FlagBytes(s, b, u, true)), v) == Has(s, b, v)
              && Has(s, Bits(b.missingBits, FlagBytes(s, b, u, false)), v) == Has(s, b, v)
  {
    var i := FlagBit(s, u);
    WithBitIsSet(b.bytes, b.missingBits, i, true, i);
    WithBitIsSet(b.bytes, b.missingBits, i, false, i);
    if Contains(s, v) {
      WithBitIsSet(b.bytes, b.missingBits, i, true, FlagBit(s, v));
      WithBitIsSet(b.bytes, b.missingBits, i, false, FlagBit(s, v));
    }
  }

  /** A flag range keeps usage ID id at bit id - minimum. */
  lemma RangeBit(s: UsageSet, u: Usage)
    requires s.RangeFlags? && Contains(s, u)
    ensures FlagBit(s, u) == ID(u) - s.minimum
  {
  }

  /** Occupied slots come first, empty ones after them. */
  predicate Packed(s: seq<nat>)
  {
    forall i, j :: 0 <= i < j < |s| && s[i] == 0 ==> s[j] == 0
  }

  /** No usage ID occupies two slots. */
  predicate Distinct(s: seq<nat>)
  {
    forall i, j :: 0 <= i < j < |s| && s[i] != 0 ==> s[i] != s[j]
  }

  /** Setting a value in packed, duplicate-free slots keeps them packed and duplicate-free;
      the value is present afterwards unless every slot was taken by other values. */
  lemma SetSlotsKeepsShape(s: seq<nat>, t: nat)
    requires t != 0
    ensures Packed(s) ==> Packed(SetSlots(s, t))
    ensures Packed(s) && Distinct(s) ==> Distinct(SetSlots(s, t))
    ensures t in SetSlots(s, t) <==> t in s || 0 in s
    ensures forall x :: x != 0 && x in s ==> x in SetSlots(s, t)
  {
    var k := FirstOf(s, t, 0);
    if k < |s| && s[k] != t {
      var r := s[k := t];
      assert r[k] == t;
      if Packed(s) && Distinct(s) {
        forall i, j | 0 <= i < j < |r| && r[i] != 0
          ensures r[i] != r[j]
        {
          if j == k {
            assert s[i] != t;
          } else if i == k {
            assert s[k] == 0;
          }
        }
      }
      forall x | x != 0 && x in s
        ensures x in r
      {
        var i :| 0 <= i < |s| && s[i] == x;
        assert r[i] == x;
      }
    } else if k == |s| {
      assert t !in s && 0 !in s;
    }
  }

  /** The first slot of s[..c] + s[c+1..z] + [0] + s[z..] past c is s[c+1]. */
  lemma ClearedAt(s: seq<nat>, c: nat, z: nat, i: nat)
    requires c < z <= |s| && i < |s|
    ensures (s[..c] + s[c + 1..z] + [0] + s[z..])[i]
         == if i < c then s[i] else if i < z - 1 then s[i + 1] else if i == z - 1 then 0 else s[i]
  {
  }

  /** The occupied slots, with the first occurrence of id taken out. */
  function RemoveFirst(s: seq<nat>, id: nat): (r: seq<nat>)
  {
    if s == [] then []
    else if s[0] == id then s[1..]
    else [s[0]] + RemoveFirst(s[1..], id)
  }

  lemma {:induction false} NonzeroOfPacked(s: seq<nat>, z: nat)
    requires z <= |s| && Packed(s)
    requires forall i :: 0 <= i < z ==> s[i] != 0
    requires z < |s| ==> s[z] == 0
    ensures Nonzero(s) == s[..z]
  {
    if s != [] {
      var n := |s| - 1;
      assert Packed(s[..n]);
      if z == |s| {
        NonzeroOfPacked(s[..n], n);
        assert s[..n] + [s[n]] == s;
      } else {
        assert s[n] == 0;
        if z < n {
          assert s[..n][z] == 0;
        }
        NonzeroOfPacked(s[..n], z);
        assert s[..n][..z] == s[..z];
      }
    }
  }

  lemma {:induction false} RemoveFirstSplit(p: seq<nat>, c: nat, id: nat)
    requires c < |p| && p[c] == id
    requires forall j :: 0 <= j < c ==> p[j] != id
    ensures RemoveFirst(p, id) == p[..c] + p[c + 1..]
  {
    if c > 0 {
      RemoveFirstSplit(p[1..], c - 1, id);
      assert p[1..][..c - 1] == p[1..c];
      assert p[..c] == [p[0]] + p[1..c];
      assert p[1..][c..] == p[c + 1..];
    }
  }

  /** Emptying slot c of slots occupied up to z and moving the rest left. */
  lemma ClearShift(s: seq<nat>, c: nat, z: nat)
    requires c < z <= |s|
    requires forall i :: 0 <= i < z ==> s[i] != 0
    requires forall i :: z <= i < |s| ==> s[i] == 0
    ensures Packed(s[..c] + s[c + 1..z] + [0] + s[z..])
    ensures Nonzero(s[..c] + s[c + 1..z] + [0] + s[z..]) == s[..c] + s[c + 1..z]
  {
    var r := s[..c] + s[c + 1..z] + [0] + s[z..];
    forall i | 0 <= i < |s|
      ensures r[i] == if i < c then s[i] else if i < z - 1 then s[i + 1] else if i == z - 1 then 0 else s[i]
    {
      ClearedAt(s, c, z, i);
    }
    NonzeroOfPacked(r, z - 1);
    assert r[..z - 1] == s[..c] + s[c + 1..z];
  }

  /** Clearing an ID in packed slots keeps them packed and removes exactly its first
      occurrence from the occupied slots, whose order is otherwise kept. */
  lemma ClearSlotsKeepsShape(s: seq<nat>, id: nat)
    requires id != 0 && Packed(s)
    ensures Packed(ClearSlots(s, id))
    ensures Nonzero(ClearSlots(s, id)) == RemoveFirst(Nonzero(s), id)
    ensures Distinct(s) ==> id !in ClearSlots(s, id)
  {
    var c := FirstOf(s, id, 0);
    var z := FirstOf(s, 0, 0);
    assert forall i :: z <= i < |s| ==> s[i] == 0;
    NonzeroOfPacked(s, z);
    if c == |s| || s[c] == 0 {
      ClearAbsent(s, id, c, z);
    } else {
      ClearPresent(s, id, c, z);
    }
  }

  lemma ClearAbsent(s: seq<nat>, id: nat, c: nat, z: nat)
    requires id != 0 && Packed(s)
    requires c == FirstOf(s, id, 0) && z == FirstOf(s, 0, 0)
    requires c == |s| || s[c] == 0
    requires Nonzero(s) == s[..z]
    ensures ClearSlots(s, id) == s
    ensures RemoveFirst(Nonzero(s), id) == Nonzero(s)
    ensures id !in s
  {
    assert id !in s[..z] by {
      if c < |s| {
        assert z == c;
      }
    }
    RemoveFirstAbsent(s[..z], id);
  }

  lemma ClearPresent(s: seq<nat>, id: nat, c: nat, z: nat)
    requires id != 0 && Packed(s)
    requires c == FirstOf(s, id, 0) && z == FirstOf(s, 0, 0)
    requires c < |s| && s[c] != 0
    requires forall i :: z <= i < |s| ==> s[i] == 0
    requires Nonzero(s) == s[..z]
    ensures Packed(ClearSlots(s, id))
    ensures Nonzero(ClearSlots(s, id)) == RemoveFirst(Nonzero(s), id)
    ensures Distinct(s) ==> id !in ClearSlots(s, id)
  {
    ClearSlotsAt(s, id, c, z);
    ClearShift(s, c, z);
    ClearRemovesFirst(s, id, c, z);
    if Distinct(s) {
      ClearGone(s, id, c, z);
    }
  }

  lemma ClearSlotsAt(s: seq<nat>, id: nat, c: nat, z: nat)
    requires c == FirstOf(s, id, 0) && z == FirstOf(s, 0, 0)
    requires c < |s| && s[c] != 0
    ensures c < z && s[c] == id && forall i :: 0 <= i < z ==> s[i] != 0
    ensures ClearSlots(s, id) == s[..c] + s[c + 1..z] + [0] + s[z..]
  {
  }

  lemma ClearRemovesFirst(s: seq<nat>, id: nat, c: nat, z: nat)
    requires c < z <= |s| && s[c] == id
    requires forall j :: 0 <= j < c ==> s[j] != id
    ensures RemoveFirst(s[..z], id) == s[..c] + s[c + 1..z]
  {
    RemoveFirstSplit(s[..z], c, id);
    assert s[..z][..c] == s[..c] && s[..z][c + 1..] == s[c + 1..z];
  }

  lemma ClearGone(s: seq<nat>, id: nat, c: nat, z: nat)
    requires id != 0 && Distinct(s) && c < z <= |s| && s[c] == id
    requires forall j :: 0 <= j < c ==> s[j] != id
    requires forall i :: z <= i < |s| ==> s[i] == 0
    ensures id !in s[..c] + s[c + 1..z] + [0] + s[z..]
  {
    assert id !in s[..c] && id !in s[c + 1..z] && id !in s[z..];
  }

  lemma {:induction false} RemoveFirstAbsent(p: seq<nat>, id: nat)
    requires id !in p
    ensures RemoveFirst(p, id) == p
  {
    if p != [] {
      RemoveFirstAbsent(p[1..], id);
    }
  }

  // ---------------------------------------------------------------- listing and diffs

  /** A field whose contents the set can describe: a flag map with distinct IDs, a range
      field no longer than the range, a selector whose occupied slots are in the range. */
  predicate Coherent(s: UsageSet, b: Bits)
  {
    Fits(s, b)
    && match s
       case FlagMap(_, ids) => forall i, j :: 0 <= i < j < |ids| ==> ids[i] != ids[j]
       case RangeFlags(_, lo, hi) => lo + Len(b) <= hi + 1
       case Selector(size, _, lo, hi) =>
         SlotWidth(size) > 0
         && forall x :: x in SlotView(b.bytes, SlotWidth(size)) && x != 0 ==> lo <= x <= hi
  }

  lemma FlagMapListed(s: UsageSet, b: Bits, u: Usage)
    requires Coherent(s, b) && s.FlagMap?
    ensures u in UsagesOf(s, b) <==> Has(s, b, u)
  {
    var on := SetBits(b, |s.ids|);
    SetBitsMeaning(b, |s.ids|);
    if u in UsagesOf(s, b) {
      var k :| 0 <= k < |on| && UsagesOf(s, b)[k] == u;
      UsageRoundTrip(s.page, s.ids[on[k]], u);
      assert LastIndex(s.ids, ID(u)) == on[k];
    }
    if Has(s, b, u) {
      var i := LastIndex(s.ids, ID(u));
      var k :| 0 <= k < |on| && on[k] == i;
      UsageRoundTrip(Page(u), ID(u), u);
      assert UsagesOf(s, b)[k] == u;
    }
  }

  /** Entry k of a coherent flag range's listing. */
  lemma RangeEntry(s: UsageSet, b: Bits, k: nat)
    requires Coherent(s, b) && s.RangeFlags?
    requires k < |SetBits(b, Nat(Len(b)))|
    ensures var i := SetBits(b, Nat(Len(b)))[k];
            i + s.minimum <= s.maximum && IsSet(b, i)
            && UsagesOf(s, b)[k] == NewUsage(s.page, i + s.minimum)
  {
    var i := SetBits(b, Nat(Len(b)))[k];
    SetBitsMeaning(b, Nat(Len(b)));
    assert i < Len(b);
    assert (i + s.minimum) % 0x1_0000 == i + s.minimum;
  }

  lemma RangeBitHas(s: UsageSet, b: Bits, u: Usage, i: nat)
    requires s.RangeFlags? && i + s.minimum <= s.maximum
    requires u == NewUsage(s.page, i + s.minimum)
    ensures Contains(s, u) && Has(s, b, u) == IsSet(b, i)
  {
    UsageRoundTrip(s.page, i + s.minimum, u);
  }

  lemma RangeListed(s: UsageSet, b: Bits, u: Usage)
    requires Coherent(s, b) && s.RangeFlags?
    ensures u in UsagesOf(s, b) <==> Has(s, b, u)
  {
    if u in UsagesOf(s, b) {
      RangeListedHas(s, b, u);
    }
    if Has(s, b, u) {
      RangeHasListed(s, b, u);
    }
  }

  lemma RangeListedHas(s: UsageSet, b: Bits, u: Usage)
    requires Coherent(s, b) && s.RangeFlags? && u in UsagesOf(s, b)
    ensures Has(s, b, u)
  {
    var on := SetBits(b, Nat(Len(b)));
    var k :| 0 <= k < |on| && UsagesOf(s, b)[k] == u;
    RangeEntry(s, b, k);
    RangeBitHas(s, b, u, on[k]);
  }

  lemma RangeHasListed(s: UsageSet, b: Bits, u: Usage)
    requires Coherent(s, b) && s.RangeFlags? && Has(s, b, u)
    ensures u in UsagesOf(s, b)
  {
    var on := SetBits(b, Nat(Len(b)));
    assert |UsagesOf(s, b)| == |on|;
    var i := ID(u) - s.minimum;
    UsageRoundTrip(Page(u), ID(u), u);
    RangeBitHas(s, b, u, i);
    assert i < Nat(Len(b));
    SetBitsMeaning(b, Nat(Len(b)));
    var k :| 0 <= k < |on| && on[k] == i;
    RangeEntry(s, b, k);
  }

  lemma SelectorListed(s: UsageSet, b: Bits, u: Usage)
    requires Coherent(s, b) && s.Selector?
    ensures u in UsagesOf(s, b) ==> Has(s, b, u)
    ensures Has(s, b, u) && ID(u) != 0 ==> u in UsagesOf(s, b)
  {
    var vals := Nonzero(SlotView(b.bytes, SlotWidth(s.size)));
    if u in UsagesOf(s, b) {
      var k :| 0 <= k < |vals| && UsagesOf(s, b)[k] == u;
      SlotViewBound(b.bytes, SlotWidth(s.size), vals[k]);
      UsageRoundTrip(s.page, vals[k], u);
    }
    if Has(s, b, u) && ID(u) != 0 {
      var k :| 0 <= k < |vals| && vals[k] == ID(u);
      UsageRoundTrip(Page(u), ID(u), u);
      assert UsagesOf(s, b)[k] == u;
    }
  }

  /** On a coherent field, HasUsage holds exactly for the usages Usages lists (a selector
      also "has" ID 0 when a slot is empty, which Usages never lists). */
  lemma HasIffListed(s: UsageSet, b: Bits, u: Usage)
    requires Coherent(s, b)
    ensures u in UsagesOf(s, b) ==> Has(s, b, u)
    ensures Has(s, b, u) && (s.Selector? ==> ID(u) != 0) ==> u in UsagesOf(s, b)
  {
    match s
    case FlagMap(_, _) => FlagMapListed(s, b, u);
    case RangeFlags(_, _, _) => RangeListed(s, b, u);
    case Selector(_, _, _, _) => SelectorListed(s, b, u);
  }

  /** The usages of us that the field b does not have, in order. */
  function Missing(s: UsageSet, b: Bits, us: seq<Usage>): (r: seq<Usage>)
    requires Fits(s, b)
  {
    if us == [] then []
    else
      var last := us[|us| - 1];
      Missing(s, b, us[..|us| - 1]) + (if Has(s, b, last) then [] else [last])
  }

  /** The usages of a that are not in b, in order. */
  function Minus(a: seq<Usage>, b: seq<Usage>): (r: seq<Usage>)
  {
    if a == [] then []
    else Minus(a[..|a| - 1], b) + (if a[|a| - 1] in b then [] else [a[|a| - 1]])
  }

  /** The activations and deactivations between two states of a field. */
  function Diff(s: UsageSet, t0: Bits, t1: Bits): (seq<Usage>, seq<Usage>)
    requires Fits(s, t0) && Fits(s, t1)
  {
    (Missing(s, t0, UsagesOf(s, t1)), Missing(s, t1, UsagesOf(s, t0)))
  }

  lemma {:induction false} MissingIsMinus(s: UsageSet, b: Bits, us: seq<Usage>)
    requires Coherent(s, b)
    requires forall u :: u in us ==> (s.Selector? ==> ID(u) != 0)
    ensures Missing(s, b, us) == Minus(us, UsagesOf(s, b))
  {
    if us != [] {
      HasIffListed(s, b, us[|us| - 1]);
      MissingIsMinus(s, b, us[..|us| - 1]);
    }
  }

  lemma SelectorListsNonzero(s: UsageSet, b: Bits, u: Usage)
    requires Fits(s, b) && s.Selector? && u in UsagesOf(s, b)
    ensures ID(u) != 0
  {
    var vals := Nonzero(SlotView(b.bytes, SlotWidth(s.size)));
    var k :| 0 <= k < |vals| && UsagesOf(s, b)[k] == u;
    SlotViewBound(b.bytes, SlotWidth(s.size), vals[k]);
    UsageRoundTrip(s.page, vals[k], u);
  }

  /** UsageSetDiff on coherent fields: activated are the usages listed in t1 and not in
      t0, deactivated those listed in t0 and not in t1, each in listing order. */
  lemma DiffMeaning(s: UsageSet, t0: Bits, t1: Bits)
    requires Coherent(s, t0) && Coherent(s, t1)
    ensures Diff(s, t0, t1).0 == Minus(UsagesOf(s, t1), UsagesOf(s, t0))
    ensures Diff(s, t0, t1).1 == Minus(UsagesOf(s, t0), UsagesOf(s, t1))
  {
    if s.Selector? {
      forall u | u in UsagesOf(s, t1) ensures ID(u) != 0 { SelectorListsNonzero(s, t1, u); }
      forall u | u in UsagesOf(s, t0) ensures ID(u) != 0 { SelectorListsNonzero(s, t0, u); }
    }
    MissingIsMinus(s, t0, UsagesOf(s, t1));
    MissingIsMinus(s, t1, UsagesOf(s, t0));
  }

  lemma {:induction false} MinusMembers(a: seq<Usage>, b: seq<Usage>, u: Usage)
    ensures u in Minus(a, b) <==> u in a && u !in b
  {
    if a != [] {
      MinusMembers(a[..|a| - 1], b, u);
      assert a == a[..|a| - 1] + [a[|a| - 1]];
    }
  }

  // ---------------------------------------------------------------- listing loops

  lemma FlagListStep(page: uint16, ids: seq<uint16>, b: Bits, i: nat)
    requires i < |ids|
    ensures FlagList(page, ids, b, i + 1)
         == FlagList(page, ids, b, i) + (if IsSet(b, i) then [NewUsage(page, ids[i])] else [])
  {
    assert SetBits(b, i + 1) == SetBits(b, i) + (if IsSet(b, i) then [i] else []);
  }

  lemma RangeListStep(page: uint16, lo: uint16, b: Bits, i: nat)
    ensures RangeList(page, lo, b, i + 1)
         == RangeList(page, lo, b, i) + (if IsSet(b, i) then [NewUsage(page, (i + lo) % 0x1_0000)] else [])
  {
    var on := SetBits(b, i);
    var on' := SetBits(b, i + 1);
    assert on' == on + (if IsSet(b, i) then [i] else []);
    var l := RangeList(page, lo, b, i);
    var l' := RangeList(page, lo, b, i + 1);
    assert |l'| == |on'| && |l| == |on|;
    forall k | 0 <= k < |l|
      ensures l'[k] == l[k]
    {
      assert on'[k] == on[k];
    }
    if IsSet(b, i) {
      assert l'[|on|] == NewUsage(page, (i + lo) % 0x1_0000);
    }
  }

  lemma SlotListStep(page: uint16, vals: seq<nat>, v: nat)
    requires forall x :: x in vals ==> x < 0x1_0000
    requires v < 0x1_0000
    ensures SlotList(page, vals + [v]) == SlotList(page, vals) + [NewUsage(page, v)]
  {
  }

  lemma NonzeroStep(s: seq<nat>, v: nat)
    ensures Nonzero(s + [v]) == Nonzero(s) + (if v != 0 then [v] else [])
  {
    assert (s + [v])[..|s|] == s;
  }

  /** Usages of UsagFlagMap, UsageRangeFlags and UsageSelector. */
  method ListUsages(s: UsageSet, b: Bits) returns (us: seq<Usage>)
    requires Fits(s, b)
    ensures us == UsagesOf(s, b)
  {
    match s
    case FlagMap(page, ids) =>
      us := ListFlags(page, ids, b);
    case RangeFlags(page, lo, _) =>
      us := ListRange(page, lo, b, Nat(Len(b)));
    case Selector(size, page, _, _) =>
      var w := SlotWidth(size);
      if w == 0 {
        us := [];
      } else {
        SlotViewBounded(b.bytes, w);
        us := ListSlots(page, b.bytes, w);
      }
  }

  method ListFlags(page: uint16, ids: seq<uint16>, b: Bits) returns (us: seq<Usage>)
    ensures us == FlagList(page, ids, b, |ids|)
  {
    us := [];
    var i := 0;
    while i < |ids|
      invariant 0 <= i <= |ids|
      invariant us == FlagList(page, ids, b, i)
    {
      FlagListStep(page, ids, b, i);
      if IsSet(b, i) {
        us := us + [NewUsage(page, ids[i])];
      }
      i := i + 1;
    }
  }

  method ListRange(page: uint16, lo: uint16, b: Bits, n: nat) returns (us: seq<Usage>)
    ensures us == RangeList(page, lo, b, n)
  {
    us := [];
    var i := 0;
    while i < n
      invariant 0 <= i <= n
      invariant us == RangeList(page, lo, b, i)
    {
      RangeListStep(page, lo, b, i);
      if IsSet(b, i) {
        us := us + [NewUsage(page, (i + lo) % 0x1_0000)];
      }
      i := i + 1;
    }
  }

  method ListSlots(page: uint16, bytes: seq<bv8>, w: nat) returns (us: seq<Usage>)
    requires w == 1 || w == 2
    requires WholeSlots(|bytes|, w)
    requires forall x :: x in SlotView(bytes, w) ==> x < 0x1_0000
    ensures us == SlotList(page, Nonzero(SlotView(bytes, w)))
  {
    ghost var view := SlotView(bytes, w);
    assert forall j :: 0 <= j < |view| ==> view[j] < 0x1_0000 by {
      forall j | 0 <= j < |view| ensures view[j] < 0x1_0000 {
        assert view[j] in view;
      }
    }
    us := [];
    var k := 0;
    while k < SlotCount(|bytes|, w)
      invariant 0 <= k <= SlotCount(|bytes|, w)
      invariant IdsFit(Nonzero(view[..k]))
      invariant us == SlotList(page, Nonzero(view[..k]))
    {
      SlotViewAt(bytes, w, k);
      var val := WordAt(bytes, SlotOffset(k, w), w);
      ListSlotsStep(page, view, k);
      if val != 0 {
        us := us + [NewUsage(page, val)];
      }
      k := k + 1;
    }
    assert view[..k] == view;
  }

  /** One slot of the UsageSelector listing. */
  lemma ListSlotsStep(page: uint16, view: seq<nat>, k: nat)
    requires k < |view|
    requires forall j :: 0 <= j < |view| ==> view[j] < 0x1_0000
    ensures IdsFit(Nonzero(view[..k])) && IdsFit(Nonzero(view[..k + 1]))
    ensures SlotList(page, Nonzero(view[..k + 1]))
            == SlotList(page, Nonzero(view[..k])) + (if view[k] != 0 then [NewUsage(page, view[k])] else [])
  {
    NonzeroPrefix(view, k);
    NonzeroPrefix(view, k + 1);
    assert view[..k + 1] == view[..k] + [view[k]];
    NonzeroStep(view[..k], view[k]);
    if view[k] != 0 {
      assert view[k] in view;
      SlotListStep(page, Nonzero(view[..k]), view[k]);
    }
  }

  /** Every value fits a uint16. */
  predicate IdsFit(s: seq<nat>)
  {
    forall x :: x in s ==> x < 0x1_0000
  }

  lemma NonzeroPrefix(view: seq<nat>, k: nat)
    requires k <= |view|
    requires forall j :: 0 <= j < |view| ==> view[j] < 0x1_0000
    ensures forall x :: x in Nonzero(view[..k]) ==> x < 0x1_0000
  {
    forall x | x in Nonzero(view[..k])
      ensures x < 0x1_0000
    {
      assert x in view[..k];
    }
  }

  /** HasUsage of the three sets. */
  method HasUsage(s: UsageSet, b: Bits, u: Usage) returns (has: bool)
    requires Fits(s, b)
    ensures has == Has(s, b, u)
  {
    if !Contains(s, u) {
      return false;
    }
    match s
    case FlagMap(_, ids) =>
      has := IsSet(b, LastIndex(ids, ID(u)));
    case RangeFlags(_, lo, _) =>
      has := IsSet(b, ID(u) - lo);
    case Selector(size, _, _, _) =>
      var w := SlotWidth(size);
      has := false;
      if w > 0 {
        ghost var view := SlotView(b.bytes, w);
        var k := 0;
        while k < SlotCount(|b.bytes|, w)
          invariant 0 <= k <= SlotCount(|b.bytes|, w)
          invariant forall j :: 0 <= j < k ==> view[j] != ID(u)
        {
          SlotViewAt(b.bytes, w, k);
          if WordAt(b.bytes, SlotOffset(k, w), w) == ID(u) {
            return true;
          }
          k := k + 1;
        }
      }
  }

  // ---------------------------------------------------------------- slot loops

  lemma FirstOfIs(s: seq<nat>, a: nat, b: nat, k: nat)
    requires k <= |s|
    requires forall j :: 0 <= j < k ==> s[j] != a && s[j] != b
    requires k < |s| ==> s[k] == a || s[k] == b
    ensures FirstOf(s, a, b) == k
  {
  }

  /** Uint8(k) or Uint16(k): the word of slot k. */
  method ReadSlot(buf: array<bv8>, w: nat, k: nat) returns (val: nat)
    requires w == 1 || w == 2
    requires WholeSlots(buf.Length, w) && k < SlotCount(buf.Length, w)
    ensures val == SlotView(buf[..], w)[k] && val < Pow256(w)
  {
    SlotViewAt(buf[..], w, k);
    val := WordAt(buf[..], SlotOffset(k, w), w);
  }

  /** The selector scan of SetUsage, slot by slot. */
  method SelectorSet(buf: array<bv8>, w: nat, t: nat)
    requires w == 1 || w == 2
    requires WholeSlots(buf.Length, w) && t < Pow256(w)
    modifies buf
    ensures SlotView(buf[..], w) == SetSlots(SlotView(old(buf[..]), w), t)
  {
    ghost var view := SlotView(buf[..], w);
    var k := 0;
    while k < SlotCount(buf.Length, w)
      invariant 0 <= k <= SlotCount(buf.Length, w)
      invariant SlotView(buf[..], w) == view
      invariant forall j :: 0 <= j < k ==> view[j] != t && view[j] != 0
    {
      var val := ReadSlot(buf, w, k);
      if val == t || val == 0 {
        SetSlotsAt(view, t, k);
        if val != t {
          PutSlotValue(buf, w, k, t);
        }
        return;
      }
      k := k + 1;
    }
    FirstOfIs(view, t, 0, k);
  }

  /** SetSlots when slot k is the first holding t or empty. */
  lemma SetSlotsAt(s: seq<nat>, t: nat, k: nat)
    requires k < |s| && (s[k] == t || s[k] == 0)
    requires forall j :: 0 <= j < k ==> s[j] != t && s[j] != 0
    ensures SetSlots(s, t) == if s[k] == t then s else s[k := t]
  {
    FirstOfIs(s, t, 0, k);
  }

  /** The slots after emptying slot c of s[..k] and moving s[c+1..k] one place left,
      with s[k..] not yet visited. */
  function Shifted(s: seq<nat>, c: nat, k: nat): (r: seq<nat>)
    requires c < k <= |s|
    ensures |r| == |s|
  {
    s[..c] + s[c + 1..k] + [0] + s[k..]
  }

  lemma ShiftStep(s: seq<nat>, c: nat, k: nat)
    requires c < k < |s|
    ensures Shifted(s, c, k)[k] == s[k]
    ensures Shifted(s, c, k)[k - 1 := s[k]][k := 0] == Shifted(s, c, k + 1)
  {
    var r := Shifted(s, c, k)[k - 1 := s[k]][k := 0];
    forall i | 0 <= i < |s|
      ensures r[i] == Shifted(s, c, k + 1)[i]
    {
      ClearedAt(s, c, k, i);
      ClearedAt(s, c, k + 1, i);
    }
  }

  lemma ShiftStart(s: seq<nat>, k: nat)
    requires k < |s|
    ensures s[k := 0] == Shifted(s, k, k + 1)
  {
    assert s[k + 1..k + 1] == [];
  }

  /** Writes one slot, keeping the view in step. */
  method PutSlotValue(buf: array<bv8>, w: nat, k: nat, v: nat)
    requires w == 1 || w == 2
    requires WholeSlots(buf.Length, w) && k < SlotCount(buf.Length, w) && v < Pow256(w)
    modifies buf
    ensures SlotView(buf[..], w) == SlotView(old(buf[..]), w)[k := v]
  {
    SlotBounds(k, buf.Length, w);
    SetUint(buf, k, w, v);
    PutSlot(old(buf[..]), w, k, v);
  }

  /** Where the ClearUsage scan stands before slot k: nothing written while id has not
      been met; once it was met at slot c, the slots c+1..k-1 moved one place left. */
  ghost predicate ClearScanned(view: seq<nat>, s: seq<nat>, id: nat, cleared: bool, c: nat, k: nat)
  {
    k <= |s|
    && (!cleared ==> view == s && forall j :: 0 <= j < k ==> s[j] != 0 && s[j] != id)
    && (cleared ==> c < k && s[c] == id && id != 0
                    && (forall j :: 0 <= j < c ==> s[j] != 0 && s[j] != id)
                    && (forall j :: c < j < k ==> s[j] != 0)
                    && view == Shifted(s, c, k))
  }

  /** The selector scan of ClearUsage: empty the first slot holding id, then move every
      later occupied slot one place left, stopping at the first empty slot. */
  method SelectorClear(buf: array<bv8>, w: nat, id: nat)
    requires w == 1 || w == 2
    requires WholeSlots(buf.Length, w)
    modifies buf
    ensures SlotView(buf[..], w) == ClearSlots(SlotView(old(buf[..]), w), id)
  {
    ghost var s := SlotView(buf[..], w);
    ghost var c := 0;
    var cleared := false;
    var k := 0;
    while k < SlotCount(buf.Length, w)
      invariant 0 <= k <= SlotCount(buf.Length, w)
      invariant ClearScanned(SlotView(buf[..], w), s, id, cleared, c, k)
    {
      var val := ReadSlot(buf, w, k);
      if cleared {
        ShiftStep(s, c, k);
      }
      if val == 0 {
        break;
      }
      cleared, c := ClearSlot(buf, w, id, val, s, cleared, c, k);
      k := k + 1;
    }
    ClearScanResult(s, id, cleared, c, k);
  }

  /** One slot of the ClearUsage scan, an occupied one. */
  method ClearSlot(buf: array<bv8>, w: nat, id: nat, val: nat, ghost s: seq<nat>, cleared: bool,
                   ghost c: nat, k: nat) returns (cleared': bool, ghost c': nat)
    requires w == 1 || w == 2
    requires WholeSlots(buf.Length, w) && k < SlotCount(buf.Length, w) && |s| == SlotCount(buf.Length, w)
    requires ClearScanned(SlotView(buf[..], w), s, id, cleared, c, k)
    requires val == s[k] && val != 0 && val < Pow256(w)
    modifies buf
    ensures ClearScanned(SlotView(buf[..], w), s, id, cleared', c', k + 1)
  {
    if cleared {
      MoveLeft(buf, w, k, val, s, c);
      cleared', c' := true, c;
    } else if val == id {
      PutSlotValue(buf, w, k, 0);
      ShiftStart(s, k);
      cleared', c' := true, k;
    } else {
      cleared', c' := false, c;
    }
  }

  /** One step of the shift: slot k moves to k - 1 and slot k empties. */
  method MoveLeft(buf: array<bv8>, w: nat, k: nat, val: nat, ghost s: seq<nat>, ghost c: nat)
    requires w == 1 || w == 2
    requires WholeSlots(buf.Length, w) && c < k < SlotCount(buf.Length, w) && |s| == SlotCount(buf.Length, w)
    requires val == s[k] && val < Pow256(w)
    requires SlotView(buf[..], w) == Shifted(s, c, k)
    modifies buf
    ensures SlotView(buf[..], w) == Shifted(s, c, k + 1)
  {
    ShiftStep(s, c, k);
    PutSlotValue(buf, w, k - 1, val);
    PutSlotValue(buf, w, k, 0);
  }

  /** Where the ClearUsage scan stops, the slots are what ClearSlots describes. */
  lemma ClearScanResult(s: seq<nat>, id: nat, cleared: bool, c: nat, k: nat)
    requires k <= |s|
    requires k < |s| ==> s[k] == 0
    requires !cleared ==> forall j :: 0 <= j < k ==> s[j] != 0 && s[j] != id
    requires cleared ==> c < k && s[c] == id && id != 0
    requires cleared ==> forall j :: 0 <= j < c ==> s[j] != 0 && s[j] != id
    requires cleared ==> forall j :: c < j < k ==> s[j] != 0
    ensures ClearSlots(s, id) == if cleared then Shifted(s, c, k) else s
  {
    if cleared {
      FirstOfIs(s, id, 0, c);
      FirstOfIs(s, 0, 0, k);
    } else {
      FirstOfIs(s, id, 0, k);
    }
  }

  /** The selector scan of ReplaceUsage. */
  method SelectorReplace(buf: array<bv8>, w: nat, from: nat, to: nat) returns (wasSet: bool)
    requires w == 1 || w == 2
    requires WholeSlots(buf.Length, w) && to < Pow256(w)
    modifies buf
    ensures wasSet == (from in SlotView(old(buf[..]), w))
    ensures SlotView(buf[..], w) == ReplaceSlots(SlotView(old(buf[..]), w), from, to)
  {
    ghost var view := SlotView(buf[..], w);
    var k := 0;
    while k < SlotCount(buf.Length, w)
      invariant 0 <= k <= SlotCount(buf.Length, w)
      invariant buf[..] == old(buf[..])
      invariant forall j :: 0 <= j < k ==> view[j] != from
    {
      var val := ReadSlot(buf, w, k);
      if val == from {
        FirstOfIs(view, from, from, k);
        PutSlotValue(buf, w, k, to);
        return true;
      }
      k := k + 1;
    }
    FirstOfIs(view, from, from, k);
    return false;
  }

  // ---------------------------------------------------------------- the set operations

  /** SetUsage of the three sets: the bit of the usage is set, or the usage is entered in
      the first empty slot unless a slot already holds it. */
  method SetUsage(s: UsageSet, buf: array<bv8>, missingBits: uint8, u: Usage) returns (ok: bool)
    requires Fits(s, Bits(missingBits, buf[..]))
    modifies buf
    ensures ok == SetResult(s, Bits(missingBits, old(buf[..])), u)
    ensures !s.Selector? ==> buf[..] == FlagBytes(s, Bits(missingBits, old(buf[..])), u, true)
    ensures s.Selector? && SlotWidth(s.size) > 0 ==>
              SlotView(buf[..], SlotWidth(s.size)) == SelectorSetSlots(s, Bits(missingBits, old(buf[..])), u)
    ensures s.Selector? && SlotWidth(s.size) == 0 ==> buf[..] == old(buf[..])
  {
    if !Contains(s, u) {
      return false;
    }
    match s
    case FlagMap(_, ids) =>
      ok := Set(buf, missingBits, LastIndex(ids, ID(u)));
    case RangeFlags(_, lo, _) =>
      ok := Set(buf, missingBits, ID(u) - lo);
    case Selector(size, _, _, _) =>
      var w := SlotWidth(size);
      if w > 0 {
        SelectorSet(buf, w, Truncated(ID(u), w));
      }
      ok := true;
  }

  /** ClearUsage of the three sets. */
  method ClearUsage(s: UsageSet, buf: array<bv8>, missingBits: uint8, u: Usage) returns (ok: bool)
    requires Fits(s, Bits(missingBits, buf[..]))
    modifies buf
    ensures ok == ClearResult(s, Bits(missingBits, old(buf[..])), u)
    ensures !s.Selector? ==> buf[..] == FlagBytes(s, Bits(missingBits, old(buf[..])), u, false)
    ensures s.Selector? && SlotWidth(s.size) > 0 ==>
              SlotView(buf[..], SlotWidth(s.size)) == SelectorClearSlots(s, Bits(missingBits, old(buf[..])), u)
    ensures s.Selector? && SlotWidth(s.size) == 0 ==> buf[..] == old(buf[..])
  {
    if !Contains(s, u) {
      return false;
    }
    match s
    case FlagMap(_, ids) =>
      ok := Clear(buf, missingBits, LastIndex(ids, ID(u)));
    case RangeFlags(_, lo, _) =>
      ok := Clear(buf, missingBits, ID(u) - lo);
    case Selector(size, _, _, _) =>
      var w := SlotWidth(size);
      if w > 0 {
        SelectorClear(buf, w, ID(u));
      }
      ok := true;
  }

  /** The bytes of a flag range after ReplaceUsage: `from` is cleared and, if it was set,
      `to` is set. */
  function RangeReplaceBytes(s: UsageSet, b: Bits, from: Usage, to: Usage): (r: seq<bv8>)
    requires s.RangeFlags?
    ensures |r| == |b.bytes|
  {
    if !Contains(s, from) || !Contains(s, to) then b.bytes
    else
      var cleared := WithBit(b.bytes, b.missingBits, FlagBit(s, from), false);
      if IsSet(b, FlagBit(s, from)) then WithBit(cleared, b.missingBits, FlagBit(s, to), true)
      else cleared
  }

  /** What ReplaceUsage reports: whether `from` was present. */
  function ReplaceResult(s: UsageSet, b: Bits, from: Usage, to: Usage): bool
    requires !s.FlagMap? && Fits(s, b)
  {
    if !Contains(s, from) || !Contains(s, to) then false
    else if s.RangeFlags? then IsSet(b, FlagBit(s, from))
    else SlotWidth(s.size) > 0 && ID(from) in SlotView(b.bytes, SlotWidth(s.size))
  }

  /** ReplaceUsage of UsageRangeFlags and UsageSelector (a flag map has none). */
  method ReplaceUsage(s: UsageSet, buf: array<bv8>, missingBits: uint8, from: Usage, to: Usage)
    returns (wasSet: bool)
    requires !s.FlagMap? && Fits(s, Bits(missingBits, buf[..]))
    modifies buf
    ensures wasSet == ReplaceResult(s, Bits(missingBits, old(buf[..])), from, to)
    ensures s.RangeFlags? ==> buf[..] == RangeReplaceBytes(s, Bits(missingBits, old(buf[..])), from, to)
    ensures s.Selector? && SlotWidth(s.size) > 0 ==>
              var w := SlotWidth(s.size);
              SlotView(buf[..], w)
              == if Contains(s, from) && Contains(s, to)
                 then ReplaceSlots(SlotView(old(buf[..]), w), ID(from), Truncated(ID(to), w))
                 else SlotView(old(buf[..]), w)
    ensures s.Selector? && SlotWidth(s.size) == 0 ==> buf[..] == old(buf[..])
  {
    if !Contains(s, from) || !Contains(s, to) {
      return false;
    }
    match s
    case RangeFlags(_, lo, _) =>
      wasSet := RangeReplace(s, buf, missingBits, from, to);
    case Selector(size, _, _, _) =>
      var w := SlotWidth(size);
      wasSet := false;
      if w > 0 {
        wasSet := SelectorReplace(buf, w, ID(from), Truncated(ID(to), w));
      }
  }

  /** The flag-range branch of ReplaceUsage. */
  method RangeReplace(s: UsageSet, buf: array<bv8>, missingBits: uint8, from: Usage, to: Usage)
    returns (wasSet: bool)
    requires s.RangeFlags? && Contains(s, from) && Contains(s, to)
    modifies buf
    ensures wasSet == IsSet(Bits(missingBits, old(buf[..])), FlagBit(s, from))
    ensures buf[..] == RangeReplaceBytes(s, Bits(missingBits, old(buf[..])), from, to)
  {
    wasSet := Clear(buf, missingBits, ID(from) - s.minimum);
    if wasSet {
      var _ := Set(buf, missingBits, ID(to) - s.minimum);
    }
  }

  /** On a flag range, ReplaceUsage moves a pressed `from` to `to` and leaves an unpressed
      one alone. */
  lemma RangeReplaceMoves(s: UsageSet, b: Bits, from: Usage, to: Usage, v: Usage)
    requires s.RangeFlags? && Contains(s, from) && Contains(s, to) && from != to
    requires FlagBit(s, to) < Len(b)
    ensures var after := Bits(b.missingBits, RangeReplaceBytes(s, b, from, to));
            if Has(s, b, from)
            then !Has(s, after, from) && Has(s, after, to)
                 && (Contains(s, v) && v != from && v != to ==> Has(s, after, v) == Has(s, b, v))
            else after == b
  {
    var i := FlagBit(s, from);
    var j := FlagBit(s, to);
    UsageRoundTrip(Page(from), ID(from), from);
    UsageRoundTrip(Page(to), ID(to), to);
    var cleared := WithBit(b.bytes, b.missingBits, i, false);
    assert i != j;
    WithBitIsSet(b.bytes, b.missingBits, i, false, i);
    WithBitIsSet(cleared, b.missingBits, j, true, i);
    WithBitIsSet(cleared, b.missingBits, j, true, j);
    if Contains(s, v) && v != from && v != to {
      UsageRoundTrip(Page(v), ID(v), v);
      var k := FlagBit(s, v);
      WithBitIsSet(b.bytes, b.missingBits, i, false, k);
      WithBitIsSet(cleared, b.missingBits, j, true, k);
    }
    if !Has(s, b, from) {
      ClearUnsetBit(b, i);
    }
  }

  /** Clearing a bit that is not set leaves the bytes as they were. */
  lemma ClearUnsetBit(b: Bits, i: nat)
    requires !IsSet(b, i)
    ensures WithBit(b.bytes, b.missingBits, i, false) == b.bytes
  {
    if i < Len(b) {
      var x := b.bytes[i / 8];
      assert x & !Mask(i % 8) == x by {
        ClearedBitSame(x, i % 8);
      }
    }
  }

  lemma ClearedBitSame(x: bv8, k: nat)
    requires k < 8 && !LsbBit(x, k)
    ensures x & !Mask(k) == x
  {
  }

  /** On a selector, ReplaceUsage puts `to` in place of the first `from`, so the occupied
      slots lose one `from` and gain one `to`; packing is kept when both are nonzero. */
  lemma ReplaceSlotsShape(s: seq<nat>, from: nat, to: nat)
    ensures from in s ==> multiset(ReplaceSlots(s, from, to)) == multiset(s) - multiset{from} + multiset{to}
    ensures from !in s ==> ReplaceSlots(s, from, to) == s
    ensures Packed(s) && from != 0 && to != 0 ==> Packed(ReplaceSlots(s, from, to))
    ensures Distinct(s) && from != 0 && to != 0 && to !in s ==>
              Distinct(ReplaceSlots(s, from, to)) && from !in ReplaceSlots(s, from, to)
  {
    var k := FirstOf(s, from, from);
    if k < |s| {
      var r := s[k := to];
      assert s == s[..k] + [from] + s[k + 1..];
      assert r == s[..k] + [to] + s[k + 1..];
      if Distinct(s) && from != 0 && to != 0 && to !in s {
        forall i, j | 0 <= i < j < |r| && r[i] != 0
          ensures r[i] != r[j]
        {
          if i == k {
            assert r[j] == s[j];
          } else if j == k {
            assert r[i] == s[i];
          }
        }
        assert forall i :: 0 <= i < |r| && i != k ==> r[i] == s[i] && s[i] != s[k];
      }
    }
  }

  // ---------------------------------------------------------------- UsageSetDiff

  /** The loop of UsageSetDiff: the usages of us that b does not have. */
  method MissingFrom(s: UsageSet, b: Bits, us: seq<Usage>) returns (r: seq<Usage>)
    requires Fits(s, b)
    ensures r == Missing(s, b, us)
  {
    r := [];
    var i := 0;
    while i < |us|
      invariant 0 <= i <= |us|
      invariant r == Missing(s, b, us[..i])
    {
      assert us[..i + 1][..i] == us[..i];
      var has := HasUsage(s, b, us[i]);
      if !has {
        r := r + [us[i]];
      }
      i := i + 1;
    }
    assert us[..i] == us;
  }

  /** UsageSetDiff: activated lists the usages of t1 that t0 does not have, deactivated
      the usages of t0 that t1 does not have (DiffMeaning relates both to the listings). */
  method UsageSetDiff(s: UsageSet, t0: Bits, t1: Bits) returns (activated: seq<Usage>, deactivated: seq<Usage>)
    requires Fits(s, t0) && Fits(s, t1)
    ensures (activated, deactivated) == Diff(s, t0, t1)
  {
    var usages0 := ListUsages(s, t0);
    var usages1 := ListUsages(s, t1);
    deactivated := MissingFrom(s, t1, usages0);
    activated := MissingFrom(s, t0, usages1);
  }

  // ---------------------------------------------------------------- NewUsageSets

  /** The usage set NewUsageSets makes of one data item, if any. */
  function Classify(item: DataItem): (r: Option<UsageSet>)
    ensures r.Some? ==> !IsConstant(item.flags) && r.value.page == item.usagePage
  {
    if IsConstant(item.flags) then None
    else if item.usageMaximum != 0 && IsArray(item.flags) && (item.reportSize == 8 || item.reportSize == 16) then
      Some(Selector(item.reportSize, item.usagePage, item.usageMinimum, item.usageMaximum))
    else if item.usageMaximum != 0 && IsVariable(item.flags) && item.reportSize == 1 then
      Some(RangeFlags(item.usagePage, item.usageMinimum, item.usageMaximum))
    else if |item.usageIDs| > 0 && IsVariable(item.flags) && item.reportSize == 1 then
      Some(FlagMap(item.usagePage, item.usageIDs))
    else None
  }

  /** NewUsageSets: a usage set for every data item that holds one, keyed by the item's
      index. */
  method NewUsageSets(items: seq<DataItem>) returns (sets: map<nat, UsageSet>)
    ensures forall i: nat :: i in sets <==> i < |items| && Classify(items[i]).Some?
    ensures forall i: nat :: i in sets ==> i < |items| && sets[i] == Classify(items[i]).value
  {
    sets := map[];
    var i := 0;
    while i < |items|
      invariant 0 <= i <= |items|
      invariant forall j: nat :: j in sets <==> j < i && Classify(items[j]).Some?
      invariant forall j: nat :: j in sets ==> j < i && sets[j] == Classify(items[j]).value
    {
      var c := Classify(items[i]);
      if c.Some? {
        sets := sets[i := c.value];
      }
      i := i + 1;
    }
  }

  /** The field of a classified item (ReportSize·ReportCount bits) always holds whole
      slots, and a selector always has a slot width. */
  lemma ClassifiedFieldsFit(item: DataItem, b: Bits)
    requires Classify(item).Some?
    requires |b.bytes| == (item.reportSize * item.reportCount + 7) / 8
    ensures Fits(Classify(item).value, b)
    ensures Classify(item).value.Selector? ==> SlotWidth(Classify(item).value.size) > 0
  {
    var c: int := item.reportCount;
    if item.reportSize == 8 {
      assert (8 * c + 7) / 8 == c;
    } else if item.reportSize == 16 {
      assert (16 * c + 7) / 8 == 2 * c;
    }
  }

  // ---------------------------------------------------------------- 16-bit slots as written

  /** SetUsage on a 16-bit selector as written: EachUint16 hands the callback the byte
      offset i of the slot, and SetUint16(i, id) writes at byte 2·i, so any slot after the
      first is written twice as far into the field, or past its end. */
  function SetUsage16AsWritten(bytes: seq<bv8>, id: uint16, i: nat): (r: Result<seq<bv8>>)
    requires |bytes| % 2 == 0 && i % 2 == 0
    ensures r.Ok? ==> |r.value| == |bytes|
    decreases |bytes| - i
  {
    if i >= |bytes| then Ok(bytes)
    else
      var val := WordAt(bytes, i, 2);
      if val == id then Ok(bytes)
      else if val == 0 then
        if 2 * i + 2 <= |bytes| then Ok(PutWord(bytes, 2 * i, 2, id))
        else Panic("slice bounds out of range")
      else SetUsage16AsWritten(bytes, id, i + 2)
  }

  /** With slot 0 taken, the second slot of a two-slot field is never filled: the write
      lands past the end of the field, where the slot-indexed SetSlots fills slot 1. */
  lemma SetUsage16AsWrittenPanics()
    ensures SetUsage16AsWritten([4, 0, 0, 0], 5, 0).Panic?
    ensures SetSlots(SlotView([4, 0, 0, 0], 2), 5) == [4, 5]
  {
    var a: seq<bv8> := [4, 0, 0, 0];
    SmallBytes();
    assert WordAt(a, 0, 2) == 4 && WordAt(a, 2, 2) == 0;
    assert SlotView(a, 2) == [4, 0];
    assert FirstOf([4, 0], 5, 0) == 1;
  }

  /** In a four-slot field with slot 0 taken the ID lands in the third slot, behind an
      empty one, where ClearUsage (which stops at the first empty slot) never finds it;
      SetSlots puts it in the second slot, where clearing removes it. */
  lemma SetUsage16AsWrittenStrands()
    ensures SetUsage16AsWritten([4, 0, 0, 0, 0, 0, 0, 0], 5, 0) == Ok([4, 0, 0, 0, 5, 0, 0, 0])
    ensures SlotView([4, 0, 0, 0, 5, 0, 0, 0], 2) == [4, 0, 5, 0]
    ensures !Packed([4, 0, 5, 0]) && ClearSlots([4, 0, 5, 0], 5) == [4, 0, 5, 0]
    ensures SetSlots(SlotView([4, 0, 0, 0, 0, 0, 0, 0], 2), 5) == [4, 5, 0, 0]
    ensures ClearSlots([4, 5, 0, 0], 5) == [4, 0, 0, 0]
  {
    StrandedWrite();
    StrandedView();
    StrandedClear();
    SlotFilled();
  }

  lemma StrandedClear()
    ensures !Packed([4, 0, 5, 0]) && ClearSlots([4, 0, 5, 0], 5) == [4, 0, 5, 0]
  {
    var z: seq<nat> := [4, 0, 5, 0];
    assert z[1] == 0 && z[2] != 0;
    assert FirstOf(z, 5, 0) == 1;
  }

  lemma SlotFilled()
    ensures SetSlots(SlotView([4, 0, 0, 0, 0, 0, 0, 0], 2), 5) == [4, 5, 0, 0]
    ensures ClearSlots([4, 5, 0, 0], 5) == [4, 0, 0, 0]
  {
    FourView();
    FiveSet();
    FiveCleared();
  }

  lemma FourView()
    ensures SlotView([4, 0, 0, 0, 0, 0, 0, 0], 2) == [4, 0, 0, 0]
  {
    var b: seq<bv8> := [4, 0, 0, 0, 0, 0, 0, 0];
    SmallBytes();
    assert WordAt(b, 0, 2) == 4 && WordAt(b, 2, 2) == 0 && WordAt(b, 4, 2) == 0 && WordAt(b, 6, 2) == 0;
  }

  lemma FiveSet()
    ensures SetSlots([4, 0, 0, 0], 5) == [4, 5, 0, 0]
  {
    var s: seq<nat> := [4, 0, 0, 0];
    assert s[1..] == [0, 0, 0];
    assert FirstOf(s, 5, 0) == 1;
  }

  lemma FiveCleared()
    ensures ClearSlots([4, 5, 0, 0], 5) == [4, 0, 0, 0]
  {
    var y: seq<nat> := [4, 5, 0, 0];
    assert y[1..] == [5, 0, 0] && y[1..][1..] == [0, 0];
    assert FirstOf(y, 5, 0) == 1;
    assert FirstOf(y, 0, 0) == 2;
    assert y[..1] + y[2..2] + [0] + y[2..] == [4, 0, 0, 0];
  }

  lemma StrandedWrite()
    ensures SetUsage16AsWritten([4, 0, 0, 0, 0, 0, 0, 0], 5, 0) == Ok([4, 0, 0, 0, 5, 0, 0, 0])
  {
    var b: seq<bv8> := [4, 0, 0, 0, 0, 0, 0, 0];
    SmallBytes();
    assert WordAt(b, 0, 2) == 4 && WordAt(b, 2, 2) == 0;
    StrandedPut();
  }

  lemma StrandedPut()
    ensures PutWord([4, 0, 0, 0, 0, 0, 0, 0], 4, 2, 5) == [4, 0, 0, 0, 5, 0, 0, 0]
  {
    var b: seq<bv8> := [4, 0, 0, 0, 0, 0, 0, 0];
    FiveAsWord();
    assert b[..4] == [4, 0, 0, 0] && b[6..] == [0, 0];
    assert PutWord(b, 4, 2, 5) == [4, 0, 0, 0] + [5, 0] + [0, 0];
  }

  lemma FiveAsWord()
    ensures LittleEndianBytes(5, 2) == [5, 0]
  {
    ByteOfIsCast(5);
    ByteOfIsCast(0);
    assert LittleEndianBytes(0, 1) == [ByteOf(0)] + LittleEndianBytes(0, 0);
    assert LittleEndianBytes(5, 2) == [ByteOf(5)] + LittleEndianBytes(0, 1);
  }

  lemma SmallBytes()
    ensures ByteValue(0) == 0 && ByteValue(4) == 4 && ByteValue(5) == 5
  {
    ByteValueInt(0);
    ByteValueInt(4);
    ByteValueInt(5);
  }

  lemma StrandedView()
    ensures SlotView([4, 0, 0, 0, 5, 0, 0, 0], 2) == [4, 0, 5, 0]
  {
    var c: seq<bv8> := [4, 0, 0, 0, 5, 0, 0, 0];
    SmallBytes();
    assert WordAt(c, 0, 2) == 4 && WordAt(c, 2, 2) == 0 && WordAt(c, 4, 2) == 5 && WordAt(c, 6, 2) == 0;
  }

  /** ReplaceUsage on a 16-bit selector as written: the first slot holding `from` is
      overwritten through SetUint16(i, to), again at byte 2·i rather than at the slot. */
  function ReplaceUsage16AsWritten(bytes: seq<bv8>, from: uint16, to: uint16, i: nat): (r: Result<seq<bv8>>)
    requires |bytes| % 2 == 0 && i % 2 == 0
    ensures r.Ok? ==> |r.value| == |bytes|
    decreases |bytes| - i
  {
    if i >= |bytes| then Ok(bytes)
    else if WordAt(bytes, i, 2) == from then
      if 2 * i + 2 <= |bytes| then Ok(PutWord(bytes, 2 * i, 2, to))
      else Panic("slice bounds out of range")
    else ReplaceUsage16AsWritten(bytes, from, to, i + 2)
  }

  /** ClearUsage on a 16-bit selector as written: the scan up to the first empty slot
      looks for the ID and clears it through SetUint16(i, 0), which writes at byte 2·i;
      the later slots are then moved down by ShiftDown16AsWritten. */
  function ClearUsage16AsWritten(bytes: seq<bv8>, id: uint16, i: nat): (r: Result<seq<bv8>>)
    requires |bytes| % 2 == 0 && i % 2 == 0
    ensures r.Ok? ==> |r.value| == |bytes|
    decreases |bytes| - i
  {
    if i >= |bytes| then Ok(bytes)
    else
      EvenGap(i, |bytes|);
      var val := WordAt(bytes, i, 2);
      if val == 0 then Ok(bytes)
      else if val == id then
        if 2 * i + 2 <= |bytes| then ShiftDown16AsWritten(PutWord(bytes, 2 * i, 2, 0), i + 2)
        else Panic("slice bounds out of range")
      else ClearUsage16AsWritten(bytes, id, i + 2)
  }

  /** The rest of ClearUsage on a 16-bit selector as written, once the ID is cleared:
      every later non-empty slot is moved down through SetUint16(i-1, val) and
      SetUint16(i, 0), which write at bytes 2·i-2 and 2·i, up to the first empty slot. */
  function ShiftDown16AsWritten(bytes: seq<bv8>, i: nat): (r: Result<seq<bv8>>)
    requires |bytes| % 2 == 0 && i % 2 == 0 && i >= 2
    ensures r.Ok? ==> |r.value| == |bytes|
    decreases |bytes| - i, 1
  {
    if i >= |bytes| then Ok(bytes)
    else
      EvenGap(i, |bytes|);
      ShiftSlot16AsWritten(bytes, i)
  }

  /** One slot of the shift: an empty slot ends it, any other is moved down. */
  function ShiftSlot16AsWritten(bytes: seq<bv8>, i: nat): (r: Result<seq<bv8>>)
    requires |bytes| % 2 == 0 && (i + 2) % 2 == 0 && 2 <= i && i + 2 <= |bytes|
    ensures r.Ok? ==> |r.value| == |bytes|
    decreases |bytes| - i, 0
  {
    var val := WordAt(bytes, i, 2);
    if val == 0 then Ok(bytes)
    else if 2 * i + 2 <= |bytes| then
      var moved := MoveDown16(bytes, i, val);
      MovedEven(bytes, moved);
      ShiftDown16AsWritten(moved, i + 2)
    else Panic("slice bounds out of range")
  }

  lemma MovedEven(bytes: seq<bv8>, moved: seq<bv8>)
    requires |bytes| % 2 == 0 && |moved| == |bytes|
    ensures |moved| % 2 == 0
  {
  }

  /** An even offset below an even length leaves room for a whole 16-bit slot. */
  lemma EvenGap(i: nat, n: nat)
    requires i % 2 == 0 && n % 2 == 0 && i < n
    ensures i + 2 <= n && (i + 2) % 2 == 0
  {
  }

  /** The two writes that move a slot's value down as written: SetUint16(i-1, val) and
      SetUint16(i, 0), at bytes 2·i-2 and 2·i. */
  function MoveDown16(bytes: seq<bv8>, i: nat, val: nat): (r: seq<bv8>)
    requires 2 <= i && 2 * i + 2 <= |bytes|
    ensures |r| == |bytes|
  {
    PutWord(PutWord(bytes, 2 * i - 2, 2, val), 2 * i, 2, 0)
  }

  /** Replacing the usage in the second slot of a two-slot field panics, where the
      slot-indexed ReplaceSlots overwrites that slot. */
  lemma ReplaceUsage16AsWrittenPanics()
    ensures ReplaceUsage16AsWritten([4, 0, 5, 0], 5, 6, 0).Panic?
    ensures ReplaceSlots(SlotView([4, 0, 5, 0], 2), 5, 6) == [4, 6]
  {
    var a: seq<bv8> := [4, 0, 5, 0];
    SmallBytes();
    assert WordAt(a, 0, 2) == 4 && WordAt(a, 2, 2) == 5;
    assert SlotView(a, 2) == [4, 5];
    assert FirstOf([4, 5], 5, 5) == 1;
  }

  /** Clearing the first of two taken slots panics when the second is moved down, where
      the slot-indexed ClearSlots shifts it into the first slot. */
  lemma ClearUsage16AsWrittenPanics()
    ensures ClearUsage16AsWritten([5, 0, 4, 0], 5, 0).Panic?
    ensures ClearSlots(SlotView([5, 0, 4, 0], 2), 5) == [4, 0]
  {
    var a: seq<bv8> := [5, 0, 4, 0];
    SmallBytes();
    assert WordAt(a, 0, 2) == 5 && WordAt(a, 2, 2) == 4;
    ClearedFirst();
    assert SlotView(a, 2) == [5, 4];
    var y: seq<nat> := [5, 4];
    assert FirstOf(y, 5, 0) == 0 && FirstOf(y, 0, 0) == 2;
    assert y[..0] + y[1..2] + [0] + y[2..] == [4, 0];
  }

  lemma ClearedFirst()
    ensures PutWord([5, 0, 4, 0], 0, 2, 0) == [0, 0, 4, 0]
    ensures WordAt([0, 0, 4, 0], 2, 2) == 4
  {
    var b: seq<bv8> := [5, 0, 4, 0];
    ByteOfIsCast(0);
    SmallBytes();
    assert LittleEndianBytes(0, 2) == [0, 0];
    assert b[2..] == [4, 0];
  }
}
