/** The report fields of hidapi/state.go and the events ApplyReport derives from the change
    between the stored report and a new one. */
module StateFields {
  import opened Common
  import opened Bits
  import opened Descriptor
  import opened Usages
  import UsageSets
  import Values
  import opened Events
  import opened ItemGroups
  import opened DataItems
  import opened Fields
  import opened Codec
  import opened StateTables

  // ---------------------------------------------------------------- fields

  /** NewZeros: a buffer of n zero bits. */
  function NewZeros(n: nat): (b: Bits)
    ensures Valid(b) && Len(b) == n && AllZero(b.bytes)
  {
    Bits((8 - n % 8) % 8, seq((n + 7) / 8, _ => 0))
  }

  /** One valid field per item, of ReportSize·ReportCount bits. */
  predicate Shaped(fields: seq<Bits>, items: seq<DataItem>)
  {
    |fields| == |items|
    && forall k :: 0 <= k < |items| ==> Valid(fields[k]) && Len(fields[k]) == FieldSize(items[k])
  }

  /** A field of a whole number of bytes has no missing bits. */
  lemma ShapedWhole(fields: seq<Bits>, items: seq<DataItem>)
    requires Shaped(fields, items) && WholeSizes(items)
    ensures Whole(fields)
  {
    forall k | 0 <= k < |fields|
      ensures fields[k].missingBits == 0
    {
      assert Len(fields[k]) % 8 == 0;
    }
  }

  /** Every field of a relative item is zero. */
  predicate Stripped(fields: seq<Bits>, items: seq<DataItem>)
  {
    forall k :: 0 <= k < |fields| && k < |items| && IsRelative(items[k].flags) ==> AllZero(fields[k].bytes)
  }

  /** No value item of the report has more usage IDs than its report count, so every
      usage's word lies in its field (GetValue and SetValue index past it otherwise). */
  predicate FitsValues(items: seq<DataItem>)
  {
    forall k :: 0 <= k < |items| && Values.ValuesOf(items[k]).Some? ==> |items[k].usageIDs| <= items[k].reportCount
  }

  predicate AllFitValues(es: seq<TypedItem>)
  {
    forall id: uint8 :: FitsValues(ItemsOf(es, id))
  }

  /** A 16-bit selector: an array item of 16-bit entries. */
  predicate WideSelector(item: DataItem)
  {
    UsageSets.Classify(item).Some? && UsageSets.Classify(item).value.Selector?
    && UsageSets.Classify(item).value.size == 16
  }

  /** The devices the report state is modelled for: every value item fits its field,
      every item takes whole bytes, and no item is a 16-bit selector. */
  predicate Supported(es: seq<TypedItem>)
  {
    AllFitValues(es) && WholeItems(es) && forall k :: 0 <= k < |es| ==> !WideSelector(es[k].item)
  }

  lemma FieldFits(items: seq<DataItem>, fields: seq<Bits>, k: nat)
    requires Shaped(fields, items) && k < |items|
    ensures UsageSets.Classify(items[k]).Some? ==> UsageSets.Fits(UsageSets.Classify(items[k]).value, fields[k])
    ensures FitsValues(items) && Values.ValuesOf(items[k]).Some? ==>
              Values.InField(Values.ValuesOf(items[k]).value, fields[k].bytes)
  {
    if UsageSets.Classify(items[k]).Some? {
      UsageSets.ClassifiedFieldsFit(items[k], fields[k]);
    }
    if Values.ValuesOf(items[k]).Some? {
      Values.ValuesOfItem(items[k], 0, fields[k].bytes);
    }
  }

  /** ClearAll of a field. */
  function Zeroed(b: Bits): (r: Bits)
    ensures r.missingBits == b.missingBits && |r.bytes| == |b.bytes| && AllZero(r.bytes)
  {
    Bits(b.missingBits, seq(|b.bytes|, _ => 0))
  }

  /** stripRelativeValues: every relative item's field cleared, the others kept. */
  function Strip(items: seq<DataItem>, report: Report): (r: Report)
    requires |items| <= |report.fields|
    ensures r.id == report.id && |r.fields| == |report.fields|
    ensures Stripped(r.fields, items)
    ensures forall k :: 0 <= k < |r.fields| && !(k < |items| && IsRelative(items[k].flags)) ==> r.fields[k] == report.fields[k]
    ensures Shaped(report.fields, items) ==> Shaped(r.fields, items)
  {
    var fs := report.fields;
    report.(fields := seq(|fs|, k requires 0 <= k < |fs| =>
                            if k < |items| && IsRelative(items[k].flags) then Zeroed(fs[k]) else fs[k]))
  }

  /** The field after SetUsage (on) or ClearUsage (!on) of the usage set: the flag bytes,
      or the bytes whose slots are those the selector leaves. */
  function Toggled(s: UsageSets.UsageSet, b: Bits, u: Usage, on: bool): (r: Bits)
    requires UsageSets.Fits(s, b)
    ensures r.missingBits == b.missingBits && |r.bytes| == |b.bytes|
  {
    if !s.Selector? then Bits(b.missingBits, UsageSets.FlagBytes(s, b, u, on))
    else
      var w := UsageSets.SlotWidth(s.size);
      if w == 0 then b
      else
        var slots := if on then UsageSets.SelectorSetSlots(s, b, u) else UsageSets.SelectorClearSlots(s, b, u);
        assert |slots| * w == |b.bytes| by {
          if w == 2 {
            assert |slots| == |b.bytes| / 2;
          }
        }
        Bits(b.missingBits, UsageSets.SlotBytes(slots, w))
  }

  /** The field after SetValue. */
  function Written(v: Values.UsageValues, b: Bits, u: Usage, value: int32): (r: Bits)
    requires Values.InField(v, b.bytes)
    ensures r.missingBits == b.missingBits && |r.bytes| == |b.bytes|
  {
    Bits(b.missingBits, Values.ValueBytes(v, b.bytes, u, value))
  }

  /** Go's int32 addition and subtraction wrap around. */
  function Wrap32(x: int): (r: int32)
    ensures -0x8000_0000 <= x < 0x8000_0000 ==> r == x
  {
    Values.WidthPowers();
    SignedOf(x, 4)
  }

  /** SetUsage or ClearUsage on a copy of the field's bytes. */
  method Toggle(s: UsageSets.UsageSet, b: Bits, u: Usage, on: bool) returns (r: Bits)
    requires UsageSets.Fits(s, b)
    ensures r == Toggled(s, b, u, on)
  {
    var buf := new bv8[|b.bytes|](i requires 0 <= i < |b.bytes| => b.bytes[i]);
    assert buf[..] == b.bytes;
    if on {
      var _ := UsageSets.SetUsage(s, buf, b.missingBits, u);
    } else {
      var _ := UsageSets.ClearUsage(s, buf, b.missingBits, u);
    }
    if s.Selector? && UsageSets.SlotWidth(s.size) > 0 {
      UsageSets.SlotBytesOfView(buf[..], UsageSets.SlotWidth(s.size));
    }
    r := Bits(b.missingBits, buf[..]);
  }

  /** SetValue on a copy of the field's bytes. */
  method WriteValue(v: Values.UsageValues, b: Bits, u: Usage, value: int32) returns (r: Bits)
    requires Values.InField(v, b.bytes)
    ensures r == Written(v, b, u, value)
  {
    var buf := new bv8[|b.bytes|](i requires 0 <= i < |b.bytes| => b.bytes[i]);
    assert buf[..] == b.bytes;
    Values.SetValue(v, buf, u, value);
    r := Bits(b.missingBits, buf[..]);
  }

  /** A field with the same missing bits and byte count as a valid one is valid and as
      long. */
  lemma SameShape(b: Bits, r: Bits)
    requires Valid(b) && r.missingBits == b.missingBits && |r.bytes| == |b.bytes|
    ensures Valid(r) && Len(r) == Len(b)
  {
  }

  // ---------------------------------------------------------------- ApplyReport

  /** The event a usage of a value item gives when its field goes from t0 to t1: for a
      relative item the wrapped difference t1 - t0 when the field and the value
      changed, nothing otherwise; for an absolute item its new value. */
  function ValueEvent(v: Values.UsageValues, relative: bool, t0: Bits, t1: Bits, u: Usage): Option<UsageEvent>
    requires Values.InField(v, t0.bytes) && Values.InField(v, t1.bytes)
  {
    if relative then
      if t1 == t0 then None
      else
        var g0, g1 := Values.GetValue(v, t0, u), Values.GetValue(v, t1, u);
        if g0 == g1 then None else Some(UsageEvent(u, None, None, Some(Wrap32(g1 - g0))))
    else Some(UsageEvent(u, None, Some(Values.GetValue(v, t1, u)), None))
  }

  /** The events of a usage value item's change, usage by usage. */
  function ValueEvents(v: Values.UsageValues, relative: bool, t0: Bits, t1: Bits, n: nat, ev: seq<UsageEvent>): seq<UsageEvent>
    requires n <= |v.usages| && Values.InField(v, t0.bytes) && Values.InField(v, t1.bytes)
  {
    if n == 0 then ev
    else
      var ev1 := ValueEvents(v, relative, t0, t1, n - 1, ev);
      match ValueEvent(v, relative, t0, t1, v.usages[n - 1])
      case Some(e) => Added(ev1, e)
      case None => ev1
  }

  /** The events of one item's field going from t0 to t1: the activations, then the
      deactivations, of a usage set whose field changed; the value events of a usage
      value item; nothing for any other item. */
  function FieldEvents(item: DataItem, t0: Bits, t1: Bits, ev: seq<UsageEvent>): seq<UsageEvent>
    requires Shaped([t0], [item]) && Shaped([t1], [item]) && FitsValues([item])
  {
    FieldFits([item], [t0], 0);
    FieldFits([item], [t1], 0);
    match UsageSets.Classify(item)
    case Some(s) =>
      if t1 == t0 then ev
      else
        var d := UsageSets.Diff(s, t0, t1);
        ActivateAll(ActivateAll(ev, d.0, true), d.1, false)
    case None =>
      match Values.ValuesOf(item)
      case Some(v) => ValueEvents(v, IsRelative(item.flags), t0, t1, |v.usages|, ev)
      case None => ev
  }

  /** The events ApplyReport collects over items[..n], from the last stored fields to the
      decoded ones. */
  function ReportEvents(items: seq<DataItem>, last: seq<Bits>, now: seq<Bits>, n: nat): seq<UsageEvent>
    requires n <= |items| && Shaped(last, items) && Shaped(now, items) && FitsValues(items)
  {
    if n == 0 then []
    else
      var k := n - 1;
      assert Shaped([last[k]], [items[k]]) && Shaped([now[k]], [items[k]]) && FitsValues([items[k]]);
      FieldEvents(items[k], last[k], now[k], ReportEvents(items, last, now, k))
  }

  /** A usage value item's events: each of its usages has the event ValueEvent gives
      it, or keeps its earlier entry when it gives none. */
  lemma {:induction false} ValueEventsLookup(v: Values.UsageValues, relative: bool, t0: Bits, t1: Bits, n: nat,
                                             ev: seq<UsageEvent>, x: Usage)
    requires n <= |v.usages| && Values.InField(v, t0.bytes) && Values.InField(v, t1.bytes)
    requires Distinct(ev)
    ensures Distinct(ValueEvents(v, relative, t0, t1, n, ev))
    ensures Lookup(ValueEvents(v, relative, t0, t1, n, ev), x) ==
              if x in v.usages[..n] && ValueEvent(v, relative, t0, t1, x).Some? then ValueEvent(v, relative, t0, t1, x)
              else Lookup(ev, x)
  {
    if n > 0 {
      var ev1 := ValueEvents(v, relative, t0, t1, n - 1, ev);
      var u := v.usages[n - 1];
      ValueEventsLookup(v, relative, t0, t1, n - 1, ev, x);
      assert v.usages[..n][..n - 1] == v.usages[..n - 1];
      LastSplit(v.usages[..n], x);
      match ValueEvent(v, relative, t0, t1, u)
      case Some(e) =>
        AddedLookup(ev1, e, x);
      case None =>
    }
  }

  /** A usage set's events: for a changed field, the usages only the new field holds are
      activated and those only the old field held are deactivated, all others left as
      they were; an unchanged field adds nothing. */
  lemma SetFieldEvents(item: DataItem, t0: Bits, t1: Bits, ev: seq<UsageEvent>, x: Usage)
    requires Shaped([t0], [item]) && Shaped([t1], [item]) && FitsValues([item])
    requires UsageSets.Classify(item).Some?
    requires UsageSets.Coherent(UsageSets.Classify(item).value, t0) && UsageSets.Coherent(UsageSets.Classify(item).value, t1)
    requires Distinct(ev)
    ensures Distinct(FieldEvents(item, t0, t1, ev))
    ensures var s := UsageSets.Classify(item).value;
            var on, off := UsageSets.Minus(UsageSets.UsagesOf(s, t1), UsageSets.UsagesOf(s, t0)),
                           UsageSets.Minus(UsageSets.UsagesOf(s, t0), UsageSets.UsagesOf(s, t1));
            Lookup(FieldEvents(item, t0, t1, ev), x) ==
              if t1 == t0 then Lookup(ev, x)
              else if x in off then Some(Activation(x, false))
              else if x in on then Some(Activation(x, true))
              else Lookup(ev, x)
  {
    var s := UsageSets.Classify(item).value;
    if t1 != t0 {
      UsageSets.DiffMeaning(s, t0, t1);
      var d := UsageSets.Diff(s, t0, t1);
      ActivateAllLookup(ev, d.0, true, x);
      ActivateAllLookup(ActivateAll(ev, d.0, true), d.1, false, x);
    }
  }

  /** With no field changed, ApplyReport reports only the values of absolute value items:
      no activation and no delta. */
  lemma {:induction false} UnchangedReportOnlyValues(items: seq<DataItem>, fields: seq<Bits>, n: nat)
    requires n <= |items| && Shaped(fields, items) && FitsValues(items)
    ensures forall e :: e in ReportEvents(items, fields, fields, n) ==> e.activate.None? && e.delta.None? && e.value.Some?
  {
    if n > 0 {
      var k := n - 1;
      var prev := ReportEvents(items, fields, fields, k);
      UnchangedReportOnlyValues(items, fields, k);
      assert Shaped([fields[k]], [items[k]]) && FitsValues([items[k]]);
      FieldFits([items[k]], [fields[k]], 0);
      if UsageSets.Classify(items[k]).None? && Values.ValuesOf(items[k]).Some? {
        var v := Values.ValuesOf(items[k]).value;
        UnchangedValuesOnlyValues(v, IsRelative(items[k].flags), fields[k], |v.usages|, prev);
      }
    }
  }

  lemma {:induction false} UnchangedValuesOnlyValues(v: Values.UsageValues, relative: bool, b: Bits, n: nat, ev: seq<UsageEvent>)
    requires n <= |v.usages| && Values.InField(v, b.bytes)
    requires forall e :: e in ev ==> e.activate.None? && e.delta.None? && e.value.Some?
    ensures forall e :: e in ValueEvents(v, relative, b, b, n, ev) ==> e.activate.None? && e.delta.None? && e.value.Some?
  {
    if n > 0 {
      UnchangedValuesOnlyValues(v, relative, b, n - 1, ev);
      var ev1 := ValueEvents(v, relative, b, b, n - 1, ev);
      match ValueEvent(v, relative, b, b, v.usages[n - 1])
      case Some(e) =>
        AddedMembers(ev1, e);
      case None =>
    }
  }
}
