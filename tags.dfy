/** Short-item tags of a HID report descriptor (section 6.2.2.2 of the USB Device Class
    Definition for HID 1.11): bits 7..4 are the tag, bits 3..2 the item type and bits
    1..0 the payload size code. */
module Tags {

  type Tag = bv8

  // Main items (type 00).
  const TagInput: Tag := 0x80
  const TagOutput: Tag := 0x90
  const TagFeature: Tag := 0xB0
  const TagCollection: Tag := 0xA0
  const TagEndCollection: Tag := 0xC0

  // Global items (type 01).
  const TagUsagePage: Tag := 0x04
  const TagLogicalMinimum: Tag := 0x14
  const TagLogicalMaximum: Tag := 0x24
  const TagPhysicalMinimum: Tag := 0x34
  const TagPhysicalMaximum: Tag := 0x44
  const TagUnitExponent: Tag := 0x54
  const TagUnit: Tag := 0x64
  const TagReportSize: Tag := 0x74
  const TagReportID: Tag := 0x84
  const TagReportCount: Tag := 0x94
  const TagPush: Tag := 0xA4
  const TagPop: Tag := 0xB4

  // Local items (type 10).
  const TagUsage: Tag := 0x08
  const TagUsageMinimum: Tag := 0x18
  const TagUsageMaximum: Tag := 0x28
  const TagDesignatorIndex: Tag := 0x38
  const TagDesignatorMinimum: Tag := 0x48
  const TagDesignatorMaximum: Tag := 0x58
  const TagStringIndex: Tag := 0x68
  const TagStringMinimum: Tag := 0x78
  const TagStringMaximum: Tag := 0x88
  const TagDelimiter: Tag := 0xA8

  const MainTags: set<Tag> := {TagInput, TagOutput, TagFeature, TagCollection, TagEndCollection}
  const GlobalTags: set<Tag> :=
    {TagUsagePage, TagLogicalMinimum, TagLogicalMaximum, TagPhysicalMinimum,
     TagPhysicalMaximum, TagUnitExponent, TagUnit, TagReportSize, TagReportID,
     TagReportCount, TagPush, TagPop}
  const LocalTags: set<Tag> :=
    {TagUsage, TagUsageMinimum, TagUsageMaximum, TagDesignatorIndex, TagDesignatorMinimum,
     TagDesignatorMaximum, TagStringIndex, TagStringMinimum, TagStringMaximum, TagDelimiter}

  /** The payload size codes TagItemSize0, 8, 16 and 32. */
  const TagItemSize0: bv8 := 0
  const TagItemSize8: bv8 := 1
  const TagItemSize16: bv8 := 2
  const TagItemSize32: bv8 := 3

  /** The size code in the low two bits. */
  function PayloadSize(t: Tag): (s: bv8)
    ensures s <= 3
  {
    t & 0x03
  }

  /** The item-type bits, left in place: 0 (Main), 4 (Global), 8 (Local) or 12 (the
      reserved type used by long items). */
  function ItemType(t: Tag): (k: bv8)
    ensures k == 0 || k == 4 || k == 8 || k == 12
  {
    t & 0x0C
  }

  /** The tag with its size code cleared. */
  function TagPrefix(t: Tag): (p: Tag)
  {
    t & 0xFC
  }

  /** The tag byte carrying size code `size`. */
  function WithItemSize(t: Tag, size: bv8): Tag
  {
    t | size
  }

  /** The number of payload bytes a size code announces: 0, 1, 2 or 4. */
  function PayloadLen(size: bv8): (n: nat)
    requires size <= 3
    ensures n <= 4 && (n == 0 <==> size == 0)
  {
    if size == 0 then 0 else if size == 1 then 1 else if size == 2 then 2 else 4
  }

  /** A tag byte splits into its prefix and its size code; the prefix has size code 0
      and is a fixed point of TagPrefix. */
  lemma PrefixAndSize(t: Tag)
    ensures TagPrefix(t) | PayloadSize(t) == t
    ensures TagPrefix(t) & PayloadSize(t) == 0
    ensures PayloadSize(TagPrefix(t)) == 0
    ensures TagPrefix(TagPrefix(t)) == TagPrefix(t)
  {
  }

  /** Putting a size code on a prefix and reading it back gives the prefix and the code. */
  lemma WithItemSizeParts(t: Tag, size: bv8)
    requires PayloadSize(t) == 0 && size <= 3
    ensures TagPrefix(WithItemSize(t, size)) == t
    ensures PayloadSize(WithItemSize(t, size)) == size
  {
  }

  /** Every tag constant has a zero size code, and its item type is the one its group
      names: 0 for Main, 4 for Global, 8 for Local. */
  lemma TagConstants()
    ensures forall t :: t in MainTags ==> PayloadSize(t) == 0 && ItemType(t) == 0
    ensures forall t :: t in GlobalTags ==> PayloadSize(t) == 0 && ItemType(t) == 4
    ensures forall t :: t in LocalTags ==> PayloadSize(t) == 0 && ItemType(t) == 8
    ensures MainTags !! GlobalTags && MainTags !! LocalTags && GlobalTags !! LocalTags
  {
  }
}
