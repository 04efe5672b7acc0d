/** ApplyEvent of hidapi/state.go as a function of the stored reports and press counts:
    each entry of an event is written to the field of its usage, and the touched reports
    are encoded and stored. */
module StateSteps {
  import opened Common
  import opened Bits
  import opened Descriptor
  import opened Usages
  import UsageSets
  import Values
  import opened Events
  import opened ItemGroups
  import opened DataItems
  import opened Fields
  import opened Codec
  import opened StateTables
  import opened StateFields

  // ---------------------------------------------------------------- ApplyEvent

  /** Press counts: usageActivations, by report ID and usage. */
  type Counts = map<uint8, map<Usage, int>>

  function Count(c: Counts, id: uint8, u: Usage): int
  {
    if id in c && u in c[id] then c[id][u] else 0
  }

  function SetCount(c: Counts, id: uint8, u: Usage, n: int): (r: Counts)
    ensures Count(r, id, u) == n
    ensures forall x: uint8, y: Usage :: (x, y) != (id, u) ==> Count(r, x, y) == Count(c, x, y)
  {
    c[id := (if id in c then c[id] else map[])[u := n]]
  }

  /** delete(usageActivations[id], u). */
  function Forget(c: Counts, id: uint8, u: Usage): (r: Counts)
    ensures Count(r, id, u) == 0
    ensures forall x: uint8, y: Usage :: (x, y) != (id, u) ==> Count(r, x, y) == Count(c, x, y)
  {
    if id in c then c[id := c[id] - {u}] else c
  }

  /** Every kept press count is positive: a count that falls to 0 or below is deleted. */
  predicate CountsPositive(c: Counts)
  {
    forall id, u :: id in c && u in c[id] ==> c[id][u] > 0
  }

  /** The reports ApplyEvent works on, the press counts, and the IDs of the reports it has
      touched, in the order it first touched them. */
  datatype Work = Work(reports: map<uint8, Report>, counts: Counts, touched: seq<uint8>)

  /** The tables are those of the items, every report is in the map, and every stored
      report has one field of the right size per item. */
  predicate Ready(t: Tables, es: seq<TypedItem>, reports: map<uint8, Report>)
  {
    Sound(t, es, IDs(es))
    && (forall id :: id in IDs(es) ==> id in reports)
    && (forall id :: id in reports ==> Shaped(reports[id].fields, ItemsOf(es, id)))
    && Supported(es)
  }

  /** Field k of report id is stored and its item has the usage set the tables hold,
      which fits it. */
  predicate SetField(t: Tables, es: seq<TypedItem>, reports: map<uint8, Report>, a: Address)
  {
    var items := ItemsOf(es, a.reportID);
    a.reportID in reports && a.itemIdx < |items| && a.itemIdx < |reports[a.reportID].fields|
    && SetAt(t, a) && UsageSets.Classify(items[a.itemIdx]) == Some(t.sets[a.reportID][a.itemIdx])
    && UsageSets.Fits(t.sets[a.reportID][a.itemIdx], reports[a.reportID].fields[a.itemIdx])
  }

  /** Field k of report id is stored and its item has the usage values the tables hold,
      whose words lie in it. */
  predicate ValueField(t: Tables, es: seq<TypedItem>, reports: map<uint8, Report>, a: Address)
  {
    var items := ItemsOf(es, a.reportID);
    a.reportID in reports && a.itemIdx < |items| && a.itemIdx < |reports[a.reportID].fields|
    && ValueAt(t, a) && Values.ValuesOf(items[a.itemIdx]) == Some(t.values[a.reportID][a.itemIdx])
    && Values.InField(t.values[a.reportID][a.itemIdx], reports[a.reportID].fields[a.itemIdx].bytes)
  }

  /** The field an event entry is written to, if it has one, is a field of a stored
      report, and the set or values the tables hold for it are those of its item and
      hold its usage. */
  predicate Addressed(t: Tables, es: seq<TypedItem>, reports: map<uint8, Report>, e: UsageEvent)
  {
    AddressOf(t, e).Some? ==>
      var a := AddressOf(t, e).value;
      (e.activate.Some? ==> SetField(t, es, reports, a) && UsageSets.Contains(t.sets[a.reportID][a.itemIdx], e.usage))
      && (e.activate.None? ==> ValueField(t, es, reports, a) && IndexHolds(t, a, e.usage))
  }

  /** Ready reports address every entry of an event. */
  lemma AddressFacts(t: Tables, es: seq<TypedItem>, reports: map<uint8, Report>, e: UsageEvent)
    requires Ready(t, es, reports)
    ensures Addressed(t, es, reports, e)
  {
    if AddressOf(t, e).Some? {
      var a := AddressOf(t, e).value;
      var items := ItemsOf(es, a.reportID);
      AddressHolds(t, e);
      if e.activate.Some? {
        assert a.itemIdx in SetsOf(items);
      } else {
        assert a.itemIdx in ValuesOfItems(items);
      }
      FieldFits(items, reports[a.reportID].fields, a.itemIdx);
    }
  }

  /** The work after field k of report id becomes b. */
  function Put(w: Work, id: uint8, k: nat, b: Bits, c: Counts): Work
    requires id in w.reports && k < |w.reports[id].fields|
  {
    var report := w.reports[id];
    Work(w.reports[id := report.(fields := report.fields[k := b])], c,
         if id in w.touched then w.touched else w.touched + [id])
  }

  /** The field an entry of an event is written to, after the entry: an activation or
      deactivation of a relative set toggles the usage; one of an absolute set sets the
      usage on the first press and clears it when the count falls to 0 or below, and
      leaves the field as it was otherwise; a delta adds to the usage's value with int32
      wrap-around, a value overwrites it. */
  function NewField(t: Tables, es: seq<TypedItem>, w: Work, e: UsageEvent): (r: Bits)
    requires Addressed(t, es, w.reports, e) && AddressOf(t, e).Some?
    ensures var a := AddressOf(t, e).value;
            (SetField(t, es, w.reports, a) || ValueField(t, es, w.reports, a))
            && r.missingBits == w.reports[a.reportID].fields[a.itemIdx].missingBits
            && |r.bytes| == |w.reports[a.reportID].fields[a.itemIdx].bytes|
  {
    var a := AddressOf(t, e).value;
    var id, k, u := a.reportID, a.itemIdx, e.usage;
    var b := w.reports[id].fields[k];
    if e.activate.Some? then
      var s := t.sets[id][k];
      var on := e.activate.value;
      if IsRelative(ItemsOf(es, id)[k].flags) || Toggles(Count(w.counts, id, u), on) then Toggled(s, b, u, on)
      else b
    else
      var v := t.values[id][k];
      if e.delta.Some? then Written(v, b, u, Wrap32(Values.GetValue(v, b, u) as int + e.delta.value as int))
      else Written(v, b, u, e.value.value)
  }

  /** The press count of an absolute usage after an activation (on) or deactivation,
      0 standing for a deleted count. */
  function Pressed(c: int, on: bool): int
  {
    if on then c + 1 else if c - 1 <= 0 then 0 else c - 1
  }

  /** Whether that activation sets (on) or clears the usage in its field: a press when
      the count becomes 1, a release when it falls to 0 or below. */
  predicate Toggles(c: int, on: bool)
  {
    if on then c + 1 == 1 else c - 1 <= 0
  }

  /** The press count of a usage after a run of activations and deactivations. */
  function CountAfter(ons: seq<bool>): int
  {
    if ons == [] then 0 else Pressed(CountAfter(ons[..|ons| - 1]), ons[|ons| - 1])
  }

  /** Whether the usage is set after the run, starting clear: each toggle sets it on a
      press and clears it on a release. */
  predicate HeldAfter(ons: seq<bool>)
  {
    if ons == [] then false
    else
      var init, on := ons[..|ons| - 1], ons[|ons| - 1];
      if Toggles(CountAfter(init), on) then on else HeldAfter(init)
  }

  /** Press counting: over any run of activations and deactivations of an absolute
      usage, the count never goes negative and the usage is set exactly while the count
      is positive, so it stays set until as many releases as presses have come. */
  lemma {:induction false} HeldIffCounted(ons: seq<bool>)
    ensures CountAfter(ons) >= 0
    ensures HeldAfter(ons) <==> CountAfter(ons) > 0
  {
    if ons != [] {
      HeldIffCounted(ons[..|ons| - 1]);
    }
  }

  /** The press counts after an entry: an activation of an absolute set adds one to the
      usage's count, a deactivation takes one away and deletes the count when it falls
      to 0 or below; nothing else changes them. */
  function NewCounts(c: Counts, id: uint8, e: UsageEvent, relative: bool): (r: Counts)
    ensures CountsPositive(c) ==> CountsPositive(r)
  {
    var u := e.usage;
    if e.activate.None? || relative then c
    else if e.activate.value then
      CountPositive(c, id, u);
      SetCountPositive(c, id, u, Count(c, id, u) + 1);
      SetCount(c, id, u, Count(c, id, u) + 1)
    else if Count(c, id, u) - 1 <= 0 then
      ForgetPositive(c, id, u);
      Forget(c, id, u)
    else
      SetCountPositive(c, id, u, Count(c, id, u) - 1);
      SetCount(c, id, u, Count(c, id, u) - 1)
  }

  lemma CountPositive(c: Counts, id: uint8, u: Usage)
    ensures CountsPositive(c) ==> Count(c, id, u) >= 0
  {
  }

  lemma SetCountPositive(c: Counts, id: uint8, u: Usage, n: int)
    ensures CountsPositive(c) && n > 0 ==> CountsPositive(SetCount(c, id, u, n))
  {
  }

  lemma ForgetPositive(c: Counts, id: uint8, u: Usage)
    ensures CountsPositive(c) ==> CountsPositive(Forget(c, id, u))
  {
  }

  /** One entry of an event applied to the work: its field and the press counts are
      updated and its report touched; an entry with no field changes nothing. */
  function Step(t: Tables, es: seq<TypedItem>, w: Work, e: UsageEvent): Work
    requires Addressed(t, es, w.reports, e)
  {
    match AddressOf(t, e)
    case None => w
    case Some(a) =>
      var relative := IsRelative(ItemsOf(es, a.reportID)[a.itemIdx].flags);
      Put(w, a.reportID, a.itemIdx, NewField(t, es, w, e), NewCounts(w.counts, a.reportID, e, relative))
  }

  /** Putting a field of the same shape keeps the reports ready. */
  lemma PutReady(t: Tables, es: seq<TypedItem>, w: Work, id: uint8, k: nat, b: Bits, c: Counts)
    requires Ready(t, es, w.reports) && id in w.reports && k < |w.reports[id].fields|
    requires b.missingBits == w.reports[id].fields[k].missingBits && |b.bytes| == |w.reports[id].fields[k].bytes|
    ensures Ready(t, es, Put(w, id, k, b, c).reports)
  {
    var items := ItemsOf(es, id);
    var fs := Put(w, id, k, b, c).reports[id].fields;
    SameShape(w.reports[id].fields[k], b);
    forall j | 0 <= j < |items|
      ensures Valid(fs[j]) && Len(fs[j]) == FieldSize(items[j])
    {
      if j != k {
        assert fs[j] == w.reports[id].fields[j];
      }
    }
  }

  /** A step keeps the reports ready and the press counts positive, and changes only the
      report it touches. (Ready reports address every entry, by AddressFacts.) */
  lemma StepReady(t: Tables, es: seq<TypedItem>, w: Work, e: UsageEvent)
    requires Ready(t, es, w.reports) && Addressed(t, es, w.reports, e) && CountsPositive(w.counts)
    ensures var r := Step(t, es, w, e);
            Ready(t, es, r.reports) && CountsPositive(r.counts)
            && r.reports.Keys == w.reports.Keys
            && (forall id :: id in r.reports && id !in r.touched ==> r.reports[id] == w.reports[id])
            && (forall id :: id in w.touched ==> id in r.touched)
            && (forall id :: id in r.touched ==> id in w.touched || id in w.reports)
  {
    if AddressOf(t, e).Some? {
      var a := AddressOf(t, e).value;
      var b := NewField(t, es, w, e);
      var relative := IsRelative(ItemsOf(es, a.reportID)[a.itemIdx].flags);
      var c := NewCounts(w.counts, a.reportID, e, relative);
      assert Step(t, es, w, e) == Put(w, a.reportID, a.itemIdx, b, c);
      PutReady(t, es, w, a.reportID, a.itemIdx, b, c);
      PutKeeps(w, a.reportID, a.itemIdx, b, c);
    }
  }

  lemma PutKeeps(w: Work, id: uint8, k: nat, b: Bits, c: Counts)
    requires id in w.reports && k < |w.reports[id].fields|
    ensures var r := Put(w, id, k, b, c);
            r.reports.Keys == w.reports.Keys
            && (forall x :: x in r.reports && x !in r.touched ==> r.reports[x] == w.reports[x])
            && (forall x :: x in w.touched ==> x in r.touched)
            && (forall x :: x in r.touched ==> x in w.touched || x in w.reports)
  {
  }


  /** The work after the entries es[..n] of an event. */
  function Steps(t: Tables, es: seq<TypedItem>, w: Work, events: seq<UsageEvent>, n: nat): (r: Work)
    requires n <= |events| && Ready(t, es, w.reports) && CountsPositive(w.counts)
    ensures Ready(t, es, r.reports) && CountsPositive(r.counts)
    ensures r.reports.Keys == w.reports.Keys
    ensures forall id :: id in r.reports && id !in r.touched ==> r.reports[id] == w.reports[id]
    ensures forall id :: id in w.touched ==> id in r.touched
    ensures forall id :: id in r.touched ==> id in w.touched || id in w.reports
  {
    if n == 0 then w
    else
      var w1 := Steps(t, es, w, events, n - 1);
      AddressFacts(t, es, w1.reports, events[n - 1]);
      StepReady(t, es, w1, events[n - 1]);
      Step(t, es, w1, events[n - 1])
  }

  /** The work after one more entry. */
  lemma StepsNext(t: Tables, es: seq<TypedItem>, w: Work, events: seq<UsageEvent>, n: nat)
    requires n < |events| && Ready(t, es, w.reports) && CountsPositive(w.counts)
    ensures Ready(t, es, Steps(t, es, w, events, n).reports)
    ensures Addressed(t, es, Steps(t, es, w, events, n).reports, events[n])
    ensures Steps(t, es, w, events, n + 1) == Step(t, es, Steps(t, es, w, events, n), events[n])
  {
    AddressFacts(t, es, Steps(t, es, w, events, n).reports, events[n]);
  }

  /** One press or release of a usage of an absolute usage set moves its count as
      Pressed does and sets or clears the usage exactly when Toggles says so; a count
      that falls to 0 is deleted. No other field changes. */
  lemma PressStep(t: Tables, es: seq<TypedItem>, w: Work, u: Usage, on: bool, a: Address)
    requires Addressed(t, es, w.reports, Activation(u, on)) && AddressOf(t, Activation(u, on)) == Some(a)
    requires !IsRelative(ItemsOf(es, a.reportID)[a.itemIdx].flags)
    ensures var id, k := a.reportID, a.itemIdx;
            var r := Step(t, es, w, Activation(u, on));
            var c := Count(w.counts, id, u);
            var b := w.reports[id].fields[k];
            SetField(t, es, r.reports, a)
            && r.reports == w.reports[id := w.reports[id].(fields := w.reports[id].fields[k := r.reports[id].fields[k]])]
            && Count(r.counts, id, u) == Pressed(c, on)
            && (!on ==> (Pressed(c, on) == 0 <==> (id in r.counts ==> u !in r.counts[id])))
            && r.reports[id].fields[k] == if Toggles(c, on) then Toggled(t.sets[id][k], b, u, on) else b
  {
    if !on {
      var c := Count(w.counts, a.reportID, u);
      if c > 1 {
        assert u in SetCount(w.counts, a.reportID, u, c - 1)[a.reportID];
      }
    }
  }

  /** A delta entry adds to the usage's current value, wrapping at 32 bits and then
      truncating to the field's width; a value entry overwrites it. Every other usage of
      the item keeps its value. */
  lemma ValueStep(t: Tables, es: seq<TypedItem>, w: Work, e: UsageEvent, a: Address, x: Usage)
    requires Addressed(t, es, w.reports, e) && e.activate.None? && (e.delta.Some? || e.value.Some?)
    requires AddressOf(t, e) == Some(a)
    ensures var v := t.values[a.reportID][a.itemIdx];
            var before := w.reports[a.reportID].fields[a.itemIdx];
            var r := Step(t, es, w, e);
            ValueField(t, es, r.reports, a)
            && Values.Contains(v, e.usage)
            && var after := r.reports[a.reportID].fields[a.itemIdx];
               (Values.ValueWidth(v.size) > 0 ==>
                  Values.GetValue(v, after, e.usage) ==
                    SignedOf(if e.delta.Some? then Wrap32(Values.GetValue(v, before, e.usage) as int + e.delta.value as int)
                             else e.value.value, Values.ValueWidth(v.size)))
               && (x != e.usage ==> Values.GetValue(v, after, x) == Values.GetValue(v, before, x))
  {
    var v := t.values[a.reportID][a.itemIdx];
    var before := w.reports[a.reportID].fields[a.itemIdx];
    if e.delta.Some? {
      NewValueField(t, es, w, e, a, Wrap32(Values.GetValue(v, before, e.usage) as int + e.delta.value as int));
    } else {
      NewValueField(t, es, w, e, a, e.value.value);
    }
    StepPuts(t, es, w, e, a);
    StoredValue(t, es, e, a, x, v, before, Step(t, es, w, e).reports);
  }

  /** ValueStep over the stored reports alone: the field at the address is the old one
      with the usage's word written. */
  lemma StoredValue(t: Tables, es: seq<TypedItem>, e: UsageEvent, a: Address, x: Usage,
                    v: Values.UsageValues, before: Bits, r: map<uint8, Report>)
    requires ValueField(t, es, r, a) && v == t.values[a.reportID][a.itemIdx]
    requires Values.InField(v, before.bytes) && Values.Contains(v, e.usage)
    requires e.delta.Some? || e.value.Some?
    requires r[a.reportID].fields[a.itemIdx] ==
               Written(v, before, e.usage, if e.delta.Some? then Wrap32(Values.GetValue(v, before, e.usage) as int + e.delta.value as int)
                                           else e.value.value)
    ensures var after := r[a.reportID].fields[a.itemIdx];
            (Values.ValueWidth(v.size) > 0 ==>
               Values.GetValue(v, after, e.usage) ==
                 SignedOf(if e.delta.Some? then Wrap32(Values.GetValue(v, before, e.usage) as int + e.delta.value as int)
                          else e.value.value, Values.ValueWidth(v.size)))
            && (x != e.usage ==> Values.GetValue(v, after, x) == Values.GetValue(v, before, x))
  {
    var value := if e.delta.Some? then Wrap32(Values.GetValue(v, before, e.usage) as int + e.delta.value as int) else e.value.value;
    WrittenValue(v, before, r[a.reportID].fields[a.itemIdx], e.usage, value, x);
  }

  /** A value entry's step puts the new field at its address, which stays a value field. */
  lemma StepPuts(t: Tables, es: seq<TypedItem>, w: Work, e: UsageEvent, a: Address)
    requires Addressed(t, es, w.reports, e) && e.activate.None? && AddressOf(t, e) == Some(a)
    requires Values.InField(t.values[a.reportID][a.itemIdx], NewField(t, es, w, e).bytes)
    ensures var r := Step(t, es, w, e).reports;
            ValueField(t, es, r, a) && r[a.reportID].fields[a.itemIdx] == NewField(t, es, w, e)
  {
    var c := NewCounts(w.counts, a.reportID, e, IsRelative(ItemsOf(es, a.reportID)[a.itemIdx].flags));
    assert Step(t, es, w, e) == Put(w, a.reportID, a.itemIdx, NewField(t, es, w, e), c);
    PutValueField(t, es, w, a, NewField(t, es, w, e), c);
  }

  /** The value read back from a written field: the written usage's value, truncated to
      the width; every other usage keeps its value. */
  lemma WrittenValue(v: Values.UsageValues, before: Bits, after: Bits, u: Usage, value: int32, x: Usage)
    requires Values.InField(v, before.bytes) && Values.Contains(v, u) && after == Written(v, before, u, value)
    ensures Values.InField(v, after.bytes)
    ensures Values.ValueWidth(v.size) > 0 ==> Values.GetValue(v, after, u) == SignedOf(value, Values.ValueWidth(v.size))
    ensures x != u ==> Values.GetValue(v, after, x) == Values.GetValue(v, before, x)
  {
    if Values.ValueWidth(v.size) > 0 {
      Values.SetThenGet(v, before, u, value, x);
    }
  }

  /** Putting a field that still holds the item's values keeps the address a value field. */
  lemma PutValueField(t: Tables, es: seq<TypedItem>, w: Work, a: Address, b: Bits, c: Counts)
    requires ValueField(t, es, w.reports, a) && Values.InField(t.values[a.reportID][a.itemIdx], b.bytes)
    ensures var r := Put(w, a.reportID, a.itemIdx, b, c).reports;
            ValueField(t, es, r, a) && r[a.reportID].fields[a.itemIdx] == b
  {
  }

  /** The field a value entry writes: its usage's word set to the delta added to the old
      value, or to the new value. */
  lemma NewValueField(t: Tables, es: seq<TypedItem>, w: Work, e: UsageEvent, a: Address, value: int32)
    requires Addressed(t, es, w.reports, e) && e.activate.None? && AddressOf(t, e) == Some(a)
    requires var v := t.values[a.reportID][a.itemIdx];
             value == if e.delta.Some? then Wrap32(Values.GetValue(v, w.reports[a.reportID].fields[a.itemIdx], e.usage) as int + e.delta.value as int)
                      else e.value.value
    ensures NewField(t, es, w, e) == Written(t.values[a.reportID][a.itemIdx], w.reports[a.reportID].fields[a.itemIdx], e.usage, value)
  {
  }

  // ---------------------------------------------------------------- initial reports

  function ZeroReport(rd: ReportItems): (r: Report)
    ensures r.id == rd.id && Shaped(r.fields, rd.dataItems) && Stripped(r.fields, rd.dataItems)
  {
    var items := rd.dataItems;
    Report(rd.id, seq(|items|, k requires 0 <= k < |items| => NewZeros(FieldSize(items[k]))))
  }

  method ZeroFields(rd: ReportItems) returns (report: Report)
    ensures report == ZeroReport(rd)
  {
    var items := rd.dataItems;
    var fields: seq<Bits> := [];
    var i := 0;
    while i < |items|
      invariant 0 <= i <= |items| && |fields| == i
      invariant forall k :: 0 <= k < i ==> fields[k] == NewZeros(FieldSize(items[k]))
    {
      fields := fields + [NewZeros(FieldSize(items[i]))];
      i := i + 1;
    }
    report := Report(rd.id, fields);
  }

  /** The reports initializeStates stores: a zero report per report ID. */
  function ZeroReports(rds: seq<ReportItems>): map<uint8, Report>
  {
    if rds == [] then map[] else ZeroReports(rds[..|rds| - 1])[rds[|rds| - 1].id := ZeroReport(rds[|rds| - 1])]
  }

  /** An empty press-count map per report ID. */
  function NoCounts(rds: seq<ReportItems>): Counts
  {
    if rds == [] then map[] else NoCounts(rds[..|rds| - 1])[rds[|rds| - 1].id := map[]]
  }

  /** The stored reports hold a zeroed report for every report ID, and no counts. */
  lemma {:induction false} ZeroReportsReady(rds: seq<ReportItems>, es: seq<TypedItem>)
    requires forall k :: 0 <= k < |rds| ==> rds[k].dataItems == ItemsOf(es, rds[k].id)
    ensures forall k :: 0 <= k < |rds| ==> rds[k].id in ZeroReports(rds)
    ensures forall id :: id in ZeroReports(rds) ==>
              Shaped(ZeroReports(rds)[id].fields, ItemsOf(es, id)) && Stripped(ZeroReports(rds)[id].fields, ItemsOf(es, id))
    ensures CountsPositive(NoCounts(rds))
  {
    if rds != [] {
      var init := rds[..|rds| - 1];
      var last := rds[|rds| - 1];
      ZeroReportsReady(init, es);
      ZeroReportAdded(ZeroReports(init), last.id, ZeroReport(last), es);
      forall k | 0 <= k < |rds| - 1
        ensures rds[k].id in ZeroReports(rds)
      {
        assert rds[k] == init[k];
      }
    }
  }

  /** Adding the zero report of an ID keeps every stored report shaped and stripped. */
  lemma ZeroReportAdded(prev: map<uint8, Report>, id: uint8, last: Report, es: seq<TypedItem>)
    requires forall x :: x in prev ==> Shaped(prev[x].fields, ItemsOf(es, x)) && Stripped(prev[x].fields, ItemsOf(es, x))
    requires last == ZeroReport(ReportItems(id, ItemsOf(es, id)))
    ensures var r := prev[id := last];
            forall x :: x in r ==> Shaped(r[x].fields, ItemsOf(es, x)) && Stripped(r[x].fields, ItemsOf(es, x))
  {
  }

  /** Every report ID has a zero report, shaped and stripped, and no press counts. */
  lemma ZeroReportsAllReady(ids: seq<uint8>, es: seq<TypedItem>)
    ensures var rds := ReportsOf(ids, es);
            (forall id :: id in ids ==> id in ZeroReports(rds))
            && (forall id :: id in ZeroReports(rds) ==>
                  Shaped(ZeroReports(rds)[id].fields, ItemsOf(es, id)) && Stripped(ZeroReports(rds)[id].fields, ItemsOf(es, id)))
            && CountsPositive(NoCounts(rds))
  {
    var rds := ReportsOf(ids, es);
    forall k | 0 <= k < |rds|
      ensures rds[k].dataItems == ItemsOf(es, rds[k].id)
    {
      ReportsOfAt(ids, es, k);
    }
    ZeroReportsReady(rds, es);
    forall id | id in ids
      ensures id in ZeroReports(rds)
    {
      var k :| 0 <= k < |ids| && ids[k] == id;
      ReportsOfAt(ids, es, k);
    }
  }


  // ---------------------------------------------------------------- storing the work

  /** ApplyEvent's final loop over the touched reports: each is stored with its relative
      fields cleared. */
  function StoreAll(es: seq<TypedItem>, work: map<uint8, Report>, touched: seq<uint8>, n: nat): (r: map<uint8, Report>)
    requires n <= |touched| && forall k :: 0 <= k < |touched| ==> touched[k] in work
    requires forall id :: id in work ==> Shaped(work[id].fields, ItemsOf(es, id))
    ensures r.Keys == work.Keys
    ensures forall id :: id in r ==> Shaped(r[id].fields, ItemsOf(es, id))
    ensures forall id :: id in work ==> |ItemsOf(es, id)| <= |work[id].fields|
    ensures forall id :: id in work ==> id in r && r[id] == if id in touched[..n] then Strip(ItemsOf(es, id), work[id]) else work[id]
  {
    if n == 0 then work
    else
      var id := touched[n - 1];
      assert touched[..n] == touched[..n - 1] + [id];
      StoreAll(es, work, touched, n - 1)[id := Strip(ItemsOf(es, id), work[id])]
  }

  /** The bytes ApplyEvent returns: each touched report encoded, in the order first
      touched. */
  function Encodings(es: seq<TypedItem>, w: Work): (r: seq<seq<bv8>>)
    requires forall k :: 0 <= k < |w.touched| ==> w.touched[k] in w.reports
    requires forall id :: id in w.reports ==> Shaped(w.reports[id].fields, ItemsOf(es, id))
    ensures |r| == |w.touched|
  {
    seq(|w.touched|, k requires 0 <= k < |w.touched| =>
      AllFieldsValid(w.reports[w.touched[k]].fields, ItemsOf(es, w.touched[k]));
      Encoded(w.reports[w.touched[k]]).bytes)
  }

  // ---------------------------------------------------------------- ApplyEvent, step by step

  /** The lookups at the head of ApplyEvent's loop: usageSetMap, then getUsageSet, for an
      activation; usageValuesIndex for a delta or a value. */
  method LookupAddress(t: Tables, e: UsageEvent) returns (a: Option<Address>)
    ensures a == AddressOf(t, e)
  {
    var u := e.usage;
    if e.activate.Some? {
      if Page(u) in t.setMap && ID(u) in t.setMap[Page(u)] {
        return Some(t.setMap[Page(u)][ID(u)]);
      }
      var found, rang := GetUsageSet(PageRanges(t.ranges, Page(u)), ID(u));
      if found {
        return Some(rang.addr);
      }
      return None;
    }
    if (e.delta.Some? || e.value.Some?) && u in t.valuesIndex {
      return Some(t.valuesIndex[u]);
    }
    return None;
  }

  /** The press count after an activation of an absolute usage, and whether the usage's
      bit is then set or cleared. */
  method MovePress(c: Counts, id: uint8, e: UsageEvent) returns (r: Counts, toggle: bool)
    requires e.activate.Some?
    ensures r == NewCounts(c, id, e, false)
    ensures toggle == Toggles(Count(c, id, e.usage), e.activate.value)
  {
    var u, on := e.usage, e.activate.value;
    var count := Count(c, id, u);
    if on {
      count := count + 1;
      r := SetCount(c, id, u, count);
      toggle := count == 1;
    } else {
      count := count - 1;
      if count <= 0 {
        r := Forget(c, id, u);
      } else {
        r := SetCount(c, id, u, count);
      }
      toggle := count <= 0;
    }
  }

  /** The switch on the entry's action in ApplyEvent's loop: the field's new bits and
      the press counts after the entry. */
  method WriteEntry(t: Tables, ghost es: seq<TypedItem>, w: Work, e: UsageEvent, a: Address, relative: bool)
    returns (b: Bits, counts: Counts)
    requires Addressed(t, es, w.reports, e) && AddressOf(t, e) == Some(a)
    requires a.reportID in w.reports && a.itemIdx < |ItemsOf(es, a.reportID)|
    requires relative == IsRelative(ItemsOf(es, a.reportID)[a.itemIdx].flags)
    ensures b == NewField(t, es, w, e) && counts == NewCounts(w.counts, a.reportID, e, relative)
  {
    if e.activate.Some? {
      b, counts := SetEntry(t, es, w, e, a, relative);
    } else {
      b := ValueEntry(t, es, w, e, a);
      counts := w.counts;
    }
  }

  /** An activation or deactivation: a relative usage is toggled; an absolute one moves
      its press count and is toggled on the first press and the last release. */
  method SetEntry(t: Tables, ghost es: seq<TypedItem>, w: Work, e: UsageEvent, a: Address, relative: bool)
    returns (b: Bits, counts: Counts)
    requires Addressed(t, es, w.reports, e) && AddressOf(t, e) == Some(a) && e.activate.Some?
    requires a.reportID in w.reports && a.itemIdx < |ItemsOf(es, a.reportID)|
    requires relative == IsRelative(ItemsOf(es, a.reportID)[a.itemIdx].flags)
    ensures b == NewField(t, es, w, e) && counts == NewCounts(w.counts, a.reportID, e, relative)
  {
    var id, k, u, on := a.reportID, a.itemIdx, e.usage, e.activate.value;
    b := w.reports[id].fields[k];
    counts := w.counts;
    var toggle := true;
    if !relative {
      counts, toggle := MovePress(w.counts, id, e);
    }
    if toggle {
      b := Toggle(t.sets[id][k], b, u, on);
    }
  }

  /** A delta is added to the usage's value, with int32 wrap-around; a value replaces it. */
  method ValueEntry(t: Tables, ghost es: seq<TypedItem>, w: Work, e: UsageEvent, a: Address) returns (b: Bits)
    requires Addressed(t, es, w.reports, e) && AddressOf(t, e) == Some(a) && e.activate.None?
    ensures b == NewField(t, es, w, e)
  {
    var id, k, u := a.reportID, a.itemIdx, e.usage;
    var v := t.values[id][k];
    b := w.reports[id].fields[k];
    if e.delta.Some? {
      var current := Values.GetValue(v, b, u);
      b := WriteValue(v, b, u, Wrap32(current as int + e.delta.value as int));
    } else {
      b := WriteValue(v, b, u, e.value.value);
    }
  }

  /** One pass of ApplyEvent's loop: the entry's report is touched, its field written and
      the press count moved. */
  method ApplyEntry(itemSet: DataItemSet, ghost es: seq<TypedItem>, t: Tables, w: Work, e: UsageEvent)
    returns (r: Work)
    requires itemSet.Valid() && itemSet.added == es && Addressed(t, es, w.reports, e)
    ensures r == Step(t, es, w, e)
  {
    var addr := LookupAddress(t, e);
    if addr.None? {
      return w;
    }
    var a := addr.value;
    var id, k := a.reportID, a.itemIdx;
    var touched := if id in w.touched then w.touched else w.touched + [id];
    var items := itemSet.Report(id);
    var b, counts := WriteEntry(t, es, w, e, a, IsRelative(items[k].flags));
    var report := w.reports[id];
    r := Work(w.reports[id := report.(fields := report.fields[k := b])], counts, touched);
  }

  /** ApplyEvent's loop over the entries of the event. */
  method ApplyEntries(itemSet: DataItemSet, ghost es: seq<TypedItem>, t: Tables, w0: Work,
                      events: seq<UsageEvent>) returns (w: Work)
    requires itemSet.Valid() && itemSet.added == es && Ready(t, es, w0.reports) && CountsPositive(w0.counts)
    ensures w == Steps(t, es, w0, events, |events|)
  {
    w := w0;
    var i := 0;
    while i < |events|
      invariant 0 <= i <= |events|
      invariant w == Steps(t, es, w0, events, i)
    {
      StepsNext(t, es, w0, events, i);
      AddressFacts(t, es, w.reports, events[i]);
      w := ApplyEntry(itemSet, es, t, w, events[i]);
      i := i + 1;
    }
  }

  /** The encoding of the k-th touched report. */
  lemma EncodingAt(es: seq<TypedItem>, w: Work, k: nat)
    requires forall j :: 0 <= j < |w.touched| ==> w.touched[j] in w.reports
    requires forall id :: id in w.reports ==> Shaped(w.reports[id].fields, ItemsOf(es, id))
    requires k < |w.touched|
    ensures AllValid(w.reports[w.touched[k]].fields)
    ensures Encodings(es, w)[k] == Encoded(w.reports[w.touched[k]]).bytes
  {
    AllFieldsValid(w.reports[w.touched[k]].fields, ItemsOf(es, w.touched[k]));
  }

  lemma AllFieldsValid(fields: seq<Bits>, items: seq<DataItem>)
    requires Shaped(fields, items)
    ensures AllValid(fields)
  {
  }
}
