/** The report codec of hidapi/codec.go: a raw input report is split into one bit field
    per data item of its report ID, and a report is put back together by concatenating
    its fields after the report ID byte. */
module Codec {
  import opened Common
  import opened Bits
  import opened Descriptor
  import opened ItemGroups
  import opened DataItems
  import opened Fields

  /** A report: its ID (0 when the device uses none) and one bit field per data item. */
  datatype Report = Report(id: uint8, fields: seq<Bits>)

  /** HasReportID over the set's entries: no item uses report ID 0. */
  predicate HasID(es: seq<TypedItem>)
  {
    forall k :: 0 <= k < |es| ==> es[k].item.reportID != 0
  }

  /** Decode: with report IDs the first byte selects the report and the fields follow it;
      without, the whole data is report 0. */
  function DecodeReport(es: seq<TypedItem>, data: seq<bv8>): Result<Report>
  {
    if HasID(es) && data == [] then Panic("index out of range")
    else
      var id: uint8 := if HasID(es) then data[0] as int else 0;
      var payload := if HasID(es) then data[1..] else data;
      var fields := DecodeFields(Items(Of(es, id)), payload, 0);
      if fields.Ok? then Ok(Report(id, fields.value))
      else if fields.Panic? then Panic(fields.msg) else Err(fields.msg)
  }

  /** Every data item of the set takes a whole number of bytes. */
  predicate WholeItems(es: seq<TypedItem>)
  {
    forall k :: 0 <= k < |es| ==> FieldSize(es[k].item) % 8 == 0
  }

  /** The items of any one report ID then take whole bytes too. */
  lemma {:induction false} WholeItemsOf(es: seq<TypedItem>, id: uint8)
    requires WholeItems(es)
    ensures WholeSizes(Items(Of(es, id)))
  {
    if es != [] {
      var init := es[..|es| - 1];
      WholeItemsOf(init, id);
      var tail := if es[|es| - 1].item.reportID == id then [es[|es| - 1]] else [];
      assert Of(es, id) == Of(init, id) + tail;
      forall k | 0 <= k < |Items(Of(es, id))|
        ensures FieldSize(Items(Of(es, id))[k]) % 8 == 0
      {
        if k < |Of(init, id)| {
          assert Of(es, id)[k] == Of(init, id)[k];
          assert Items(Of(init, id))[k] == Of(init, id)[k].item;
        } else {
          assert Of(es, id)[k] == es[|es| - 1];
        }
      }
    }
  }

  /** Decode. The items must take whole bytes, the only fields whose missing-bit count the
      scanner gets right. */
  method Decode(itemSet: DataItemSet, data: seq<bv8>) returns (r: Result<Report>)
    requires itemSet.Valid() && WholeItems(itemSet.added)
    ensures r == DecodeReport(itemSet.added, data)
  {
    var hasID := itemSet.HasReportID();
    var id: uint8 := 0;
    var payload := data;
    if hasID {
      if |data| == 0 {
        return Panic("index out of range");
      }
      id := data[0] as int;
      payload := data[1..];
    }
    var items := itemSet.Report(id);
    WholeItemsOf(itemSet.added, id);
    var fields := ScanFields(items, payload);
    if fields.Ok? {
      r := Ok(Report(id, fields.value));
    } else if fields.Panic? {
      r := Panic(fields.msg);
    } else {
      r := Err(fields.msg);
    }
  }

  // ---------------------------------------------------------------- encoding

  /** The buffer EncodeReport starts from: the report ID byte, or nothing for ID 0. */
  function Start(id: uint8): Bits
  {
    if id != 0 then Bits(0, [id as bv8]) else Bits(0, [])
  }

  function SumLens(fields: seq<Bits>): int
  {
    if fields == [] then 0 else SumLens(fields[..|fields| - 1]) + Len(fields[|fields| - 1])
  }

  predicate AllValid(fields: seq<Bits>)
  {
    forall k :: 0 <= k < |fields| ==> Valid(fields[k])
  }

  lemma ConcatValid(l: Bits, r: Bits)
    requires Valid(l) && Valid(r)
    ensures Valid(Concat(l, r)) && Len(Concat(l, r)) == Len(l) + Len(r)
  {
    if l.missingBits > 0 {
      ConcatLen(l, r);
    } else {
      assert |l.bytes + r.bytes| * 8 == |l.bytes| * 8 + |r.bytes| * 8;
    }
  }

  /** The fields appended to acc one after another with ConcatBits; the result holds the
      bits of acc and then of every field. */
  function ConcatAll(acc: Bits, fields: seq<Bits>): (r: Bits)
    requires Valid(acc) && AllValid(fields)
    ensures Valid(r) && Len(r) == Len(acc) + SumLens(fields)
  {
    if fields == [] then acc
    else
      var p := ConcatAll(acc, fields[..|fields| - 1]);
      ConcatValid(p, fields[|fields| - 1]);
      Concat(p, fields[|fields| - 1])
  }

  /** EncodeReport's result. */
  function Encoded(report: Report): Bits
    requires AllValid(report.fields)
  {
    ConcatAll(Start(report.id), report.fields)
  }

  /** EncodeReport, folding ConcatBits as written over fields of whole bytes, the only
      fields for which it never reads past its right operand (see ConcatBitsAsWritten). */
  method EncodeReport(report: Report) returns (all: Bits)
    requires Whole(report.fields)
    ensures AllValid(report.fields) && all == Encoded(report)
  {
    ConcatWhole(Start(report.id).bytes, report.fields);
    all := Bits(0, []);
    if report.id != 0 {
      all := Bits(0, [report.id as bv8]);
    }
    var i := 0;
    while i < |report.fields|
      invariant 0 <= i <= |report.fields|
      invariant all == Bits(0, Start(report.id).bytes + Flatten(report.fields[..i]))
    {
      var joined := ConcatBitsAsWritten(all, report.fields[i]);
      FlattenNext(Start(report.id).bytes, report.fields, i);
      all := joined.value;
      i := i + 1;
    }
    assert report.fields[..i] == report.fields;
    assert Start(report.id) == Bits(0, Start(report.id).bytes);
  }

  lemma FlattenNext(prefix: seq<bv8>, fields: seq<Bits>, i: nat)
    requires i < |fields|
    ensures prefix + Flatten(fields[..i + 1]) == (prefix + Flatten(fields[..i])) + fields[i].bytes
  {
    assert fields[..i + 1][..i] == fields[..i];
  }

  /** An encoded report is 8 bits of report ID (none for ID 0) followed by exactly the
      bits of its fields. */
  lemma EncodedLen(report: Report)
    requires AllValid(report.fields)
    ensures Len(Encoded(report)) == (if report.id != 0 then 8 else 0) + SumLens(report.fields)
  {
  }

  // ---------------------------------------------------------------- round trip

  /** Concatenating whole-byte fields appends their bytes. */
  lemma {:induction false} ConcatWhole(prefix: seq<bv8>, fields: seq<Bits>)
    requires forall k :: 0 <= k < |fields| ==> fields[k].missingBits == 0
    ensures AllValid(fields)
    ensures ConcatAll(Bits(0, prefix), fields) == Bits(0, prefix + Flatten(fields))
  {
    if fields != [] {
      ConcatWhole(prefix, fields[..|fields| - 1]);
    }
  }

  /** Decode then EncodeReport gives the raw report back, when every item's field is a
      whole number of bytes, the data holds exactly the report's fields, and the report
      ID byte (when the device uses report IDs) is not 0. */
  lemma DecodeEncodeRoundTrip(es: seq<TypedItem>, data: seq<bv8>)
    requires HasID(es) ==> |data| > 0 && data[0] != 0
    requires var id: uint8 := if HasID(es) then data[0] as int else 0;
             var payload := if HasID(es) then data[1..] else data;
             ByteAligned(Items(Of(es, id))) && 8 * |payload| == PayloadBits(Items(Of(es, id)))
    ensures DecodeReport(es, data).Ok?
    ensures AllValid(DecodeReport(es, data).value.fields)
    ensures Encoded(DecodeReport(es, data).value) == Bits(0, data)
  {
    if HasID(es) {
      var id: uint8 := data[0] as int;
      var payload := data[1..];
      assert data == [id as bv8] + payload;
      RoundTripWithID(es, data, id, payload);
    } else {
      RoundTripWithoutID(es, data);
    }
  }

  /** The round trip of a report without an ID byte. */
  lemma RoundTripWithoutID(es: seq<TypedItem>, data: seq<bv8>)
    requires !HasID(es)
    requires ByteAligned(Items(Of(es, 0))) && 8 * |data| == PayloadBits(Items(Of(es, 0)))
    ensures DecodeReport(es, data).Ok?
    ensures AllValid(DecodeReport(es, data).value.fields)
    ensures Encoded(DecodeReport(es, data).value) == Bits(0, data)
  {
    RoundTripPayload(0, data, Items(Of(es, 0)));
  }

  /** The round trip of a report that starts with its ID byte. */
  lemma RoundTripWithID(es: seq<TypedItem>, data: seq<bv8>, id: uint8, payload: seq<bv8>)
    requires HasID(es) && data == [id as bv8] + payload && id != 0
    requires ByteAligned(Items(Of(es, id))) && 8 * |payload| == PayloadBits(Items(Of(es, id)))
    ensures DecodeReport(es, data).Ok?
    ensures AllValid(DecodeReport(es, data).value.fields)
    ensures Encoded(DecodeReport(es, data).value) == Bits(0, data)
  {
    RoundTripPayload(id, payload, Items(Of(es, id)));
    IntCastBack(id);
    assert data[1..] == payload;
    assert DecodeReport(es, data) == Ok(Report(id, DecodeFields(Items(Of(es, id)), payload, 0).value));
  }

  lemma RoundTripPayload(id: uint8, payload: seq<bv8>, items: seq<DataItem>)
    requires ByteAligned(items) && 8 * |payload| == PayloadBits(items)
    ensures DecodeFields(items, payload, 0).Ok?
    ensures AllValid(DecodeFields(items, payload, 0).value)
    ensures ConcatAll(Start(id), DecodeFields(items, payload, 0).value) == Bits(0, Start(id).bytes + payload)
  {
    AlignedFields(items, payload, 0);
    var fields := DecodeFields(items, payload, 0).value;
    ConcatWhole(Start(id).bytes, fields);
    assert Start(id) == Bits(0, Start(id).bytes);
  }
}
