/** The fields of a report as Decode in hidapi/codec.go scans them: one field of
    ReportSize·ReportCount bits per data item, read in turn from the payload. */
module Fields {
  import opened Common
  import opened Bits
  import opened Descriptor

  /** The number of bits a data item takes in a report. */
  function FieldSize(d: DataItem): nat
  {
    d.reportSize * d.reportCount
  }

  function PayloadBits(items: seq<DataItem>): nat
  {
    if items == [] then 0 else FieldSize(items[0]) + PayloadBits(items[1..])
  }

  function Prepend(fields: seq<Bits>, r: Result<seq<Bits>>): Result<seq<Bits>>
  {
    if r.Ok? then Ok(fields + r.value) else r
  }

  /** Decode's loop from bit `offset` on: each item's field is scanned in turn; a field of
      no bits ends the decode unsuccessfully, a field past the data panics. */
  function DecodeFields(items: seq<DataItem>, bytes: seq<bv8>, offset: nat): Result<seq<Bits>>
    decreases |items|
  {
    if items == [] then Ok([])
    else
      var size := FieldSize(items[0]);
      var next := NextBits(bytes, offset, size);
      if !next.Ok? then Panic("index out of range")
      else if Len(next.value) == 0 then Err("empty field")
      else Prepend([next.value], DecodeFields(items[1..], bytes, offset + size))
  }

  /** Every item's field is a whole number of bytes (it may be empty). */
  predicate WholeSizes(items: seq<DataItem>)
  {
    forall k :: 0 <= k < |items| ==> FieldSize(items[k]) % 8 == 0
  }

  /** Decode's loop: a scanner over the payload reads one field per item. Every field
      must be a whole number of bytes, where the scanner's missing-bit count is right. */
  method ScanFields(items: seq<DataItem>, payload: seq<bv8>) returns (r: Result<seq<Bits>>)
    requires WholeSizes(items)
    ensures r == DecodeFields(items, payload, 0)
  {
    var scanner := new Scanner(payload);
    var fields: seq<Bits> := [];
    var i := 0;
    ghost var want := DecodeFields(items, payload, 0);
    assert items[0..] == items;
    PrependEmpty(want);
    ghost var offset: nat := 0;
    while i < |items|
      invariant 0 <= i <= |items| && scanner.bytes == payload && scanner.bitOffset == offset
      invariant want == Prepend(fields, DecodeFields(items[i..], payload, offset))
    {
      var size := FieldSize(items[i]);
      var b := scanner.Next(size);
      ghost var next: nat := offset + size;
      ScanStep(items, i, payload, offset, size, next, fields, b, want);
      if !b.Ok? {
        return Panic("index out of range");
      }
      if Len(b.value) == 0 {
        return Err("empty field");
      }
      offset := next;
      fields := fields + [b.value];
      i := i + 1;
    }
    assert items[i..] == [];
    assert want == Prepend(fields, Ok([]));
    assert fields + [] == fields;
    r := Ok(fields);
  }

  /** One turn of ScanFields' loop, on the field the scanner returns. */
  lemma ScanStep(items: seq<DataItem>, i: nat, bytes: seq<bv8>, offset: nat, size: nat, next: nat,
                 fields: seq<Bits>, b: Result<Bits>, want: Result<seq<Bits>>)
    requires WholeSizes(items) && i < |items| && size == FieldSize(items[i]) && next == offset + size
    requires b == NextBitsAsWritten(bytes, offset, size)
    requires want == Prepend(fields, DecodeFields(items[i..], bytes, offset))
    ensures !b.Ok? ==> want == Panic("index out of range")
    ensures b.Ok? && Len(b.value) == 0 ==> want == Err("empty field")
    ensures b.Ok? && Len(b.value) != 0 ==>
              want == Prepend(fields + [b.value], DecodeFields(items[i + 1..], bytes, next))
  {
    NextAgrees(bytes, offset, size);
    assert items[i..][1..] == items[i + 1..] && items[i..][0] == items[i];
    DecodeStep(items[i..], bytes, offset, size, next, fields);
  }

  /** One turn of Decode's loop, on the items not yet scanned. */
  lemma DecodeStep(rest: seq<DataItem>, bytes: seq<bv8>, offset: nat, size: nat, next: nat, fields: seq<Bits>)
    requires rest != [] && size == FieldSize(rest[0]) && next == offset + size
    ensures var field := NextBits(bytes, offset, size);
            var now := Prepend(fields, DecodeFields(rest, bytes, offset));
            (!field.Ok? ==> now == Panic("index out of range"))
            && (field.Ok? && Len(field.value) == 0 ==> now == Err("empty field"))
            && (field.Ok? && Len(field.value) != 0 ==>
                  now == Prepend(fields + [field.value], DecodeFields(rest[1..], bytes, next)))
  {
    var field := NextBits(bytes, offset, size);
    if field.Ok? {
      PrependAssoc(fields, [field.value], DecodeFields(rest[1..], bytes, next));
    }
  }

  lemma PrependEmpty(r: Result<seq<Bits>>)
    ensures Prepend([], r) == r
  {
    if r.Ok? {
      assert [] + r.value == r.value;
    }
  }

  lemma PrependAssoc(f: seq<Bits>, g: seq<Bits>, r: Result<seq<Bits>>)
    ensures Prepend(f, Prepend(g, r)) == Prepend(f + g, r)
  {
    if r.Ok? {
      assert f + (g + r.value) == (f + g) + r.value;
    }
  }

  /** One valid, non-empty field per item, each ReportSize·ReportCount bits long. */
  predicate FieldsFit(fields: seq<Bits>, items: seq<DataItem>)
  {
    |fields| == |items|
    && forall k :: 0 <= k < |items| ==> Valid(fields[k]) && Len(fields[k]) == FieldSize(items[k]) > 0
  }

  /** Every field Decode returns is a valid buffer exactly as long as its item's
      ReportSize·ReportCount, and there is one per item. */
  lemma {:induction false} DecodedFieldSizes(items: seq<DataItem>, bytes: seq<bv8>, offset: nat)
    requires DecodeFields(items, bytes, offset).Ok?
    ensures FieldsFit(DecodeFields(items, bytes, offset).value, items)
    decreases |items|
  {
    if items != [] {
      var size := FieldSize(items[0]);
      DecodeCons(items, bytes, offset);
      NextLen(bytes, offset, size);
      DecodedFieldSizes(items[1..], bytes, offset + size);
      FitsCons(NextBits(bytes, offset, size).value, DecodeFields(items[1..], bytes, offset + size).value, items);
    }
  }

  lemma FitsCons(f: Bits, rest: seq<Bits>, items: seq<DataItem>)
    requires items != [] && Valid(f) && Len(f) == FieldSize(items[0]) > 0
    requires FieldsFit(rest, items[1..])
    ensures FieldsFit([f] + rest, items)
  {
    forall k | 0 < k < |items|
      ensures Valid(([f] + rest)[k]) && Len(([f] + rest)[k]) == FieldSize(items[k]) > 0
    {
      assert items[1..][k - 1] == items[k];
    }
  }

  /** A successful decode of at least one item is that item's field followed by the
      successful decode of the rest. */
  lemma DecodeCons(items: seq<DataItem>, bytes: seq<bv8>, offset: nat)
    requires items != [] && DecodeFields(items, bytes, offset).Ok?
    ensures var next := NextBits(bytes, offset, FieldSize(items[0]));
            var rest := DecodeFields(items[1..], bytes, offset + FieldSize(items[0]));
            next.Ok? && Len(next.value) != 0 && rest.Ok?
            && DecodeFields(items, bytes, offset).value == [next.value] + rest.value
  {
  }

  /** A field Next returns has exactly the requested number of bits. */
  lemma NextLen(bytes: seq<bv8>, offset: nat, bitSize: nat)
    requires NextBits(bytes, offset, bitSize).Ok?
    ensures Valid(NextBits(bytes, offset, bitSize).value)
    ensures Len(NextBits(bytes, offset, bitSize).value) == bitSize
  {
    var byteSize := bitSize / 8 + (if bitSize % 8 > 0 then 1 else 0);
    assert 8 * byteSize - (8 - bitSize % 8) % 8 == bitSize;
  }

  /** With every item's field non-empty and the data long enough, Decode neither panics
      nor fails. */
  lemma {:induction false} DecodeSucceeds(items: seq<DataItem>, bytes: seq<bv8>, offset: nat)
    requires forall k :: 0 <= k < |items| ==> FieldSize(items[k]) > 0
    requires offset + PayloadBits(items) <= 8 * |bytes|
    ensures DecodeFields(items, bytes, offset).Ok?
    decreases |items|
  {
    if items != [] {
      var size := FieldSize(items[0]);
      NextInRange(bytes, offset, size);
      assert forall k :: 0 <= k < |items[1..]| ==> FieldSize(items[1..][k]) > 0 by {
        forall k | 0 <= k < |items[1..]| ensures FieldSize(items[1..][k]) > 0 {
          assert items[1..][k] == items[k + 1];
        }
      }
      DecodeSucceeds(items[1..], bytes, offset + size);
      DecodeConsOk(items, bytes, offset, NextBits(bytes, offset, size).value, offset + size,
                   DecodeFields(items[1..], bytes, offset + size).value);
    }
  }

  /** A first field that is present and non-empty, followed by a successful decode of the
      rest from where it ends, makes a successful decode. */
  lemma DecodeConsOk(items: seq<DataItem>, bytes: seq<bv8>, offset: nat, f: Bits, next: nat, rest: seq<Bits>)
    requires items != [] && next == offset + FieldSize(items[0])
    requires NextBits(bytes, offset, FieldSize(items[0])) == Ok(f) && Len(f) != 0
    requires DecodeFields(items[1..], bytes, next) == Ok(rest)
    ensures DecodeFields(items, bytes, offset) == Ok([f] + rest)
  {
  }

  /** A field of no bits (ReportSize or ReportCount 0) makes Decode report failure, unless
      an earlier field has already panicked. */
  lemma {:induction false} EmptyFieldFails(items: seq<DataItem>, bytes: seq<bv8>, offset: nat, k: nat)
    requires k < |items| && FieldSize(items[k]) == 0
    ensures !DecodeFields(items, bytes, offset).Ok?
    decreases |items|
  {
    if k > 0 {
      assert items[1..][k - 1] == items[k];
      EmptyFieldFails(items[1..], bytes, offset + FieldSize(items[0]), k - 1);
      DecodeRestFails(items, bytes, offset);
    } else {
      EmptyFirstFails(items, bytes, offset);
    }
  }

  /** A first field of no bits makes the decode fail. */
  lemma EmptyFirstFails(items: seq<DataItem>, bytes: seq<bv8>, offset: nat)
    requires items != [] && FieldSize(items[0]) == 0
    ensures !DecodeFields(items, bytes, offset).Ok?
  {
  }

  /** A decode that fails on the rest of the items fails on all of them. */
  lemma DecodeRestFails(items: seq<DataItem>, bytes: seq<bv8>, offset: nat)
    requires items != [] && !DecodeFields(items[1..], bytes, offset + FieldSize(items[0])).Ok?
    ensures !DecodeFields(items, bytes, offset).Ok?
  {
  }

  predicate ByteAligned(items: seq<DataItem>)
  {
    forall k :: 0 <= k < |items| ==> FieldSize(items[k]) % 8 == 0 && FieldSize(items[k]) > 0
  }

  function Flatten(fields: seq<Bits>): seq<bv8>
  {
    if fields == [] then [] else Flatten(fields[..|fields| - 1]) + fields[|fields| - 1].bytes
  }

  /** Fields with no missing bits. */
  predicate Whole(fields: seq<Bits>)
  {
    forall k :: 0 <= k < |fields| ==> fields[k].missingBits == 0
  }

  /** Whole-byte fields decode to slices of the data with no missing bits, which together
      are the data from the start byte b on. */
  lemma {:induction false} AlignedFields(items: seq<DataItem>, bytes: seq<bv8>, b: nat)
    requires ByteAligned(items)
    requires b <= |bytes| && 8 * (|bytes| - b) == PayloadBits(items)
    ensures DecodeFields(items, bytes, 8 * b).Ok?
    ensures Whole(DecodeFields(items, bytes, 8 * b).value)
    ensures Flatten(DecodeFields(items, bytes, 8 * b).value) == bytes[b..]
    decreases |items|
  {
    if items != [] {
      var n := AlignedRest(items, bytes, b);
      AlignedFields(items[1..], bytes, b + n);
      var rest := DecodeFields(items[1..], bytes, 8 * (b + n)).value;
      var f := Bits(0, bytes[b..b + n]);
      AlignedStep(items, bytes, b, n, rest);
      FlattenCons(f, rest);
      WholeCons(f, rest);
      SliceJoin(bytes, b, b + n);
    }
  }

  /** The items after the first of a whole-byte decode, n bytes long, are a whole-byte
      decode too. */
  lemma AlignedRest(items: seq<DataItem>, bytes: seq<bv8>, b: nat) returns (n: nat)
    requires items != [] && ByteAligned(items)
    requires b <= |bytes| && 8 * (|bytes| - b) == PayloadBits(items)
    ensures FieldSize(items[0]) == 8 * n && n > 0
    ensures ByteAligned(items[1..]) && b + n <= |bytes|
    ensures 8 * (|bytes| - (b + n)) == PayloadBits(items[1..])
  {
    n := FieldSize(items[0]) / 8;
    ByteAlignedTail(items);
  }

  lemma ByteAlignedTail(items: seq<DataItem>)
    requires items != [] && ByteAligned(items)
    ensures ByteAligned(items[1..])
  {
    forall k | 0 <= k < |items[1..]|
      ensures FieldSize(items[1..][k]) % 8 == 0 && FieldSize(items[1..][k]) > 0
    {
      assert items[1..][k] == items[k + 1];
    }
  }

  /** One whole-byte field of n bytes in front of the decode of the rest. */
  lemma AlignedStep(items: seq<DataItem>, bytes: seq<bv8>, b: nat, n: nat, rest: seq<Bits>)
    requires items != [] && FieldSize(items[0]) == 8 * n && n > 0 && b + n <= |bytes|
    requires DecodeFields(items[1..], bytes, 8 * (b + n)) == Ok(rest)
    ensures DecodeFields(items, bytes, 8 * b) == Ok([Bits(0, bytes[b..b + n])] + rest)
  {
    AlignedFirst(items, bytes, b, n);
    DecodeConsOk(items, bytes, 8 * b, Bits(0, bytes[b..b + n]), 8 * (b + n), rest);
  }

  /** The first field of a whole-byte decode: the bytes it covers, with no missing bits. */
  lemma AlignedFirst(items: seq<DataItem>, bytes: seq<bv8>, b: nat, n: nat)
    requires items != [] && FieldSize(items[0]) == 8 * n && n > 0 && b + n <= |bytes|
    ensures NextBits(bytes, 8 * b, FieldSize(items[0])) == Ok(Bits(0, bytes[b..b + n]))
    ensures Len(Bits(0, bytes[b..b + n])) != 0
  {
    NextWholeBytes(bytes, 8 * b, 8 * n);
  }

  lemma WholeCons(f: Bits, rest: seq<Bits>)
    requires f.missingBits == 0 && Whole(rest)
    ensures Whole([f] + rest)
  {
  }

  lemma SliceJoin(bytes: seq<bv8>, i: nat, j: nat)
    requires i <= j <= |bytes|
    ensures bytes[i..] == bytes[i..j] + bytes[j..]
  {
  }

  lemma {:induction false} FlattenCons(f: Bits, rest: seq<Bits>)
    ensures Flatten([f] + rest) == f.bytes + Flatten(rest)
  {
    if rest != [] {
      var init := rest[..|rest| - 1];
      FlattenCons(f, init);
      assert ([f] + rest)[..|rest|] == [f] + init;
    } else {
      assert [f] + rest == [f];
    }
  }
}
