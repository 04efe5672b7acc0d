/** The report state of hidapi/state.go: the last report of every report ID, the lookup
    tables that take a usage to the field that holds it, and the press counts of
    absolute usages. Differences between successive input reports become events, and
    events are written back into output reports. */
module ReportStates {
  import opened Common
  import opened Bits
  import opened Descriptor
  import opened Usages
  import UsageSets
  import Values
  import opened Events
  import opened ItemGroups
  import opened DataItems
  import opened Fields
  import opened Codec

  import opened StateTables
  import opened StateFields
  import opened StateSteps

  // ---------------------------------------------------------------- ReportState

  /** What a report state keeps true: the tables are those of the device's reports, with
      sorted ranges; every report ID has a stored report of its items' shape with its
      relative fields cleared; every press count is positive. */
  ghost predicate StateSound(es: seq<TypedItem>, tables: Tables, reports: map<uint8, Report>, activations: Counts)
  {
    tables == InitTables(ReportsOf(IDs(es), es))
    && (forall p :: p in tables.ranges ==> Sorted(tables.ranges[p]))
    && (forall id :: id in tables.sets <==> id in IDs(es))
    && (forall id :: id in tables.values <==> id in IDs(es))
    && Ready(tables, es, reports) && CountsPositive(activations)
    && (forall id :: id in reports ==> Stripped(reports[id].fields, ItemsOf(es, id)))
  }

  /** The state initializeStates builds keeps those properties. */
  lemma InitialSound(es: seq<TypedItem>)
    requires Supported(es)
    ensures var rds := ReportsOf(IDs(es), es);
            StateSound(es, InitTables(rds), ZeroReports(rds), NoCounts(rds))
  {
    var ids := IDs(es);
    var rds := ReportsOf(ids, es);
    InitTablesSound(ids, es);
    ZeroReportsAllReady(ids, es);
    assert Ready(InitTables(rds), es, ZeroReports(rds));
  }

  /** initializeStates' loop over the reports: the tables, a zero report and an empty
      press-count map for every report ID. */
  method InitializeStates(rds: seq<ReportItems>) returns (t: Tables, stored: map<uint8, Report>, counts: Counts)
    ensures t == TablesOver(rds)
    ensures stored == ZeroReports(rds) && counts == NoCounts(rds)
  {
    t := Tables(map[], map[], map[], map[], map[]);
    stored := map[];
    counts := map[];
    var i := 0;
    while i < |rds|
      invariant 0 <= i <= |rds|
      invariant t == TablesOver(rds[..i])
      invariant stored == ZeroReports(rds[..i]) && counts == NoCounts(rds[..i])
    {
      assert rds[..i + 1][..i] == rds[..i];
      var report := ZeroFields(rds[i]);
      stored := stored[rds[i].id := report];
      t := AddReportTables(t, rds[i]);
      counts := counts[rds[i].id := map[]];
      i := i + 1;
    }
    assert rds[..i] == rds;
  }

  // ---------------------------------------------------------------- ApplyReport

  /** Every report ID has a stored report, every stored report has one field of the right
      size per item, and no value item has more usages than its field has words. */
  predicate Stored(es: seq<TypedItem>, reports: map<uint8, Report>)
  {
    (forall id :: id in IDs(es) ==> id in reports)
    && (forall id :: id in reports ==> Shaped(reports[id].fields, ItemsOf(es, id)))
    && Supported(es)
  }

  /** The fields of the stored report of an ID; Go's zero report, with no fields, for an
      ID with none. */
  function LastFields(reports: map<uint8, Report>, id: uint8): seq<Bits>
  {
    if id in reports then reports[id].fields else []
  }

  lemma LastShaped(es: seq<TypedItem>, reports: map<uint8, Report>, id: uint8)
    requires Stored(es, reports)
    ensures Shaped(LastFields(reports, id), ItemsOf(es, id))
  {
    IDsOf(es, id);
  }

  /** A decoded report has one field of the right size per item of its report ID. */
  lemma DecodedShaped(es: seq<TypedItem>, data: seq<bv8>)
    requires DecodeReport(es, data).Ok?
    ensures var report := DecodeReport(es, data).value;
            Shaped(report.fields, ItemsOf(es, report.id))
  {
    var id: uint8 := if HasID(es) then data[0] as int else 0;
    var payload := if HasID(es) then data[1..] else data;
    var items := ItemsOf(es, id);
    var fields := DecodeFields(items, payload, 0);
    assert DecodeReport(es, data) == Ok(Report(id, fields.value));
    DecodedFieldSizes(items, payload, 0);
    FitShaped(fields.value, items);
  }

  lemma FitShaped(fields: seq<Bits>, items: seq<DataItem>)
    requires FieldsFit(fields, items)
    ensures Shaped(fields, items)
  {
  }

  /** What ApplyReport leaves: the event it returns and the stored reports. */
  datatype Change = Change(events: seq<UsageEvent>, stored: map<uint8, Report>)

  /** ApplyReport on the stored reports: a decoding panic propagates; a report that does
      not decode gives no event (nil) and stores nothing; a report whose field count is
      not its items' gives an empty event and stores nothing; otherwise the events of
      every field's change, from the stored report to the decoded one, and the decoded
      report stored with its relative fields cleared. */
  function Applied(es: seq<TypedItem>, reports: map<uint8, Report>, data: seq<bv8>): Result<Option<Change>>
    requires Stored(es, reports)
  {
    match DecodeReport(es, data)
    case Panic(m) => Panic(m)
    case Err(_) => Ok(None)
    case Ok(report) =>
      var items := ItemsOf(es, report.id);
      if |report.fields| != |items| then Ok(Some(Change([], reports)))
      else
        DecodedShaped(es, data);
        LastShaped(es, reports, report.id);
        Ok(Some(Change(ReportEvents(items, LastFields(reports, report.id), report.fields, |items|),
                       reports[report.id := Strip(items, report)])))
  }

  /** ApplyReport keeps a report of every ID, each of its items' shape; it replaces at
      most the decoded report's ID, by the decoded report with its relative fields
      cleared and its other fields as decoded. */
  lemma AppliedStores(es: seq<TypedItem>, reports: map<uint8, Report>, data: seq<bv8>)
    requires Stored(es, reports) && Applied(es, reports, data).Ok? && Applied(es, reports, data).value.Some?
    ensures DecodeReport(es, data).Ok?
    ensures var stored := Applied(es, reports, data).value.value.stored;
            var report := DecodeReport(es, data).value;
            var items := ItemsOf(es, report.id);
            Stored(es, stored)
            && (forall id :: id in stored && id != report.id ==> id in reports && stored[id] == reports[id])
            && (stored != reports ==>
                  report.id in stored && stored[report.id].id == report.id
                  && Stripped(stored[report.id].fields, items)
                  && forall k :: 0 <= k < |items| && !IsRelative(items[k].flags) ==>
                       stored[report.id].fields[k] == report.fields[k])
  {
    var report := DecodeReport(es, data).value;
    if |report.fields| == |ItemsOf(es, report.id)| {
      DecodedShaped(es, data);
    }
  }

  /** A report that decodes into as many fields as its items: the events of the fields'
      changes, and the report stored stripped. */
  lemma AppliedDecoded(es: seq<TypedItem>, reports: map<uint8, Report>, data: seq<bv8>, report: Report)
    requires Stored(es, reports) && DecodeReport(es, data) == Ok(report)
    requires |report.fields| == |ItemsOf(es, report.id)|
    ensures var items := ItemsOf(es, report.id);
            Shaped(LastFields(reports, report.id), items) && Shaped(report.fields, items) && FitsValues(items)
            && Applied(es, reports, data)
               == Ok(Some(Change(ReportEvents(items, LastFields(reports, report.id), report.fields, |items|),
                                 reports[report.id := Strip(items, report)])))
  {
    DecodedShaped(es, data);
    LastShaped(es, reports, report.id);
  }

  /** The outcomes of Applied other than a decoded report's events. */
  lemma AppliedOtherwise(es: seq<TypedItem>, reports: map<uint8, Report>, data: seq<bv8>)
    requires Stored(es, reports)
    ensures DecodeReport(es, data).Panic? ==> Applied(es, reports, data) == Panic(DecodeReport(es, data).msg)
    ensures DecodeReport(es, data).Err? ==> Applied(es, reports, data) == Ok(None)
    ensures DecodeReport(es, data).Ok? && |DecodeReport(es, data).value.fields| != |ItemsOf(es, DecodeReport(es, data).value.id)| ==>
              Applied(es, reports, data) == Ok(Some(Change([], reports)))
  {
  }

  /** ApplyReport keeps the state sound. */
  lemma AppliedSound(es: seq<TypedItem>, t: Tables, reports: map<uint8, Report>, counts: Counts, data: seq<bv8>)
    requires StateSound(es, t, reports, counts)
    requires Applied(es, reports, data).Ok? && Applied(es, reports, data).value.Some?
    ensures StateSound(es, t, Applied(es, reports, data).value.value.stored, counts)
  {
    AppliedStores(es, reports, data);
    var stored := Applied(es, reports, data).value.value.stored;
    var id0 := DecodeReport(es, data).value.id;
    assert forall id :: id in stored ==> Stripped(stored[id].fields, ItemsOf(es, id)) by {
      forall id | id in stored
        ensures Stripped(stored[id].fields, ItemsOf(es, id))
      {
        if stored == reports || id != id0 {
          assert stored[id] == reports[id];
        }
      }
    }
    SoundKept(es, t, reports, stored, counts);
  }

  /** Replacing the stored reports by others of the same shape, all stripped, keeps the
      state sound. */
  lemma SoundKept(es: seq<TypedItem>, t: Tables, reports: map<uint8, Report>, stored: map<uint8, Report>, counts: Counts)
    requires StateSound(es, t, reports, counts) && Stored(es, stored)
    requires forall id :: id in stored ==> Stripped(stored[id].fields, ItemsOf(es, id))
    ensures StateSound(es, t, stored, counts)
  {
  }

  /** ClearAll on a copy of a field's bytes. */
  method ClearField(b: Bits) returns (r: Bits)
    ensures r == Zeroed(b)
  {
    var buf := new bv8[|b.bytes|](i requires 0 <= i < |b.bytes| => b.bytes[i]);
    var _ := ClearAll(buf);
    assert buf[..] == Zeroed(b).bytes;
    r := Bits(b.missingBits, buf[..]);
  }

  /** stripRelativeValues: the field of every relative item cleared. */
  method StripRelativeValues(items: seq<DataItem>, report: Report) returns (r: Report)
    requires |items| <= |report.fields|
    ensures r == Strip(items, report)
  {
    var fields := report.fields;
    var i := 0;
    while i < |items|
      invariant 0 <= i <= |items| && |fields| == |report.fields|
      invariant forall k :: 0 <= k < |fields| ==>
                  fields[k] == if k < i && IsRelative(items[k].flags) then Zeroed(report.fields[k]) else report.fields[k]
    {
      if IsRelative(items[i].flags) {
        var z := ClearField(fields[i]);
        fields := fields[i := z];
      }
      i := i + 1;
    }
    r := report.(fields := fields);
  }

  /** The inner loop of ApplyReport over the usages of a usage value item. */
  method AddValueEvents(event: Event, v: Values.UsageValues, relative: bool, t0: Bits, t1: Bits)
    requires event.Valid() && Values.InField(v, t0.bytes) && Values.InField(v, t1.bytes)
    modifies event
    ensures event.Valid() && event.usages == ValueEvents(v, relative, t0, t1, |v.usages|, old(event.usages))
  {
    var usages := v.usages;
    var i := 0;
    while i < |usages|
      invariant 0 <= i <= |usages|
      invariant event.Valid() && event.usages == ValueEvents(v, relative, t0, t1, i, old(event.usages))
    {
      AddValueEvent(event, v, relative, t0, t1, usages[i]);
      i := i + 1;
    }
  }

  /** One usage of a usage value item: a delta when a relative value changed, the value
      of an absolute one. */
  method AddValueEvent(event: Event, v: Values.UsageValues, relative: bool, t0: Bits, t1: Bits, u: Usage)
    requires event.Valid() && Values.InField(v, t0.bytes) && Values.InField(v, t1.bytes)
    modifies event
    ensures event.Valid()
    ensures event.usages == match ValueEvent(v, relative, t0, t1, u)
                            case Some(e) => Added(old(event.usages), e)
                            case None => old(event.usages)
  {
    if relative {
      var same := Equal(t1, t0);
      if !same {
        var g0 := Values.GetValue(v, t0, u);
        var g1 := Values.GetValue(v, t1, u);
        if g0 != g1 {
          event.SetDelta(u, Wrap32(g1 as int - g0 as int));
        }
      }
    } else {
      event.SetValue(u, Values.GetValue(v, t1, u));
    }
  }

  /** The usage sets and usage values of a report's items. */
  predicate TablesFor(sets: map<nat, UsageSets.UsageSet>, values: map<nat, Values.UsageValues>, items: seq<DataItem>)
  {
    sets == SetsOf(items) && values == ValuesOfItems(items)
  }

  /** One item of ApplyReport's loop: the activations and deactivations of a changed
      usage set field, or the events of a usage value item. */
  method AddFieldEvents(event: Event, sets: map<nat, UsageSets.UsageSet>, values: map<nat, Values.UsageValues>,
                        items: seq<DataItem>, k: nat, t0: Bits, t1: Bits)
    requires event.Valid() && k < |items|
    requires TablesFor(sets, values, items)
    requires Shaped([t0], [items[k]]) && Shaped([t1], [items[k]]) && FitsValues([items[k]])
    modifies event
    ensures event.Valid() && event.usages == FieldEvents(items[k], t0, t1, old(event.usages))
  {
    FieldFits([items[k]], [t0], 0);
    FieldFits([items[k]], [t1], 0);
    if k in sets {
      var same := Equal(t1, t0);
      if same {
        return;
      }
      var activated, deactivated := UsageSets.UsageSetDiff(sets[k], t0, t1);
      event.Activate(activated, true);
      event.Activate(deactivated, false);
      return;
    }
    if k in values {
      AddValueEvents(event, values[k], IsRelative(items[k].flags), t0, t1);
    }
  }

  /** ApplyReport's loop over the items of the report: the events of each field's change
      from the stored report to the decoded one. */
  method ReportFieldEvents(sets: map<nat, UsageSets.UsageSet>, values: map<nat, Values.UsageValues>,
                           items: seq<DataItem>, last: seq<Bits>, now: seq<Bits>) returns (event: Event)
    requires TablesFor(sets, values, items)
    requires Shaped(last, items) && Shaped(now, items) && FitsValues(items)
    ensures fresh(event) && event.Valid() && event.usages == ReportEvents(items, last, now, |items|)
  {
    event := new Event();
    var i := 0;
    while i < |items|
      invariant 0 <= i <= |items|
      invariant fresh(event) && event.Valid() && event.usages == ReportEvents(items, last, now, i)
    {
      ReportEventsStep(items, last, now, i);
      AddFieldEvents(event, sets, values, items, i, last[i], now[i]);
      i := i + 1;
    }
  }

  lemma ReportEventsStep(items: seq<DataItem>, last: seq<Bits>, now: seq<Bits>, i: nat)
    requires i < |items| && Shaped(last, items) && Shaped(now, items) && FitsValues(items)
    ensures Shaped([last[i]], [items[i]]) && Shaped([now[i]], [items[i]]) && FitsValues([items[i]])
    ensures ReportEvents(items, last, now, i + 1) == FieldEvents(items[i], last[i], now[i], ReportEvents(items, last, now, i))
  {
  }

  /** The usage sets and usage values the tables hold for a report ID are those of its
      items, none for an ID with no items. */
  lemma ReportTablesOf(t: Tables, es: seq<TypedItem>, id: uint8)
    requires TablesOf(t, es)
    ensures (if id in t.sets then t.sets[id] else map[]) == SetsOf(ItemsOf(es, id))
    ensures (if id in t.values then t.values[id] else map[]) == ValuesOfItems(ItemsOf(es, id))
  {
    IDsOf(es, id);
  }

  /** The tables hold the usage sets and usage values of the items of every report ID,
      and of no other. */
  ghost predicate TablesOf(t: Tables, es: seq<TypedItem>)
  {
    ItemsSound(t, es, IDs(es))
    && (forall x :: x in t.sets <==> x in IDs(es)) && (forall x :: x in t.values <==> x in IDs(es))
  }

  /** The result and the stored reports of ApplyReport are those Applied gives: a panic or
      no event leaves the stored reports as they were. */
  ghost predicate Outcome(r: Result<Option<Event>>, stored: map<uint8, Report>, a: Result<Option<Change>>,
                          reports: map<uint8, Report>)
    reads if r.Ok? && r.value.Some? then {r.value.value} else {}
  {
    match a
    case Ok(Some(c)) =>
      r.Ok? && r.value.Some? && r.value.value.Valid() && r.value.value.usages == c.events && stored == c.stored
    case Ok(None) => r == Ok(None) && stored == reports
    case Err(m) => r == Err(m) && stored == reports
    case Panic(m) => r == Panic(m) && stored == reports
  }

  /** ApplyReport on the stored reports, returning the reports to store. */
  method ApplyReportTo(itemSet: DataItemSet, ghost es: seq<TypedItem>, t: Tables, reports: map<uint8, Report>,
                       data: seq<bv8>) returns (r: Result<Option<Event>>, stored: map<uint8, Report>)
    requires itemSet.Valid() && itemSet.added == es && Stored(es, reports) && TablesOf(t, es)
    ensures Outcome(r, stored, Applied(es, reports, data), reports)
    ensures r.Ok? && r.value.Some? ==> fresh(r.value.value)
  {
    stored := reports;
    var decoded := Decode(itemSet, data);
    AppliedOtherwise(es, reports, data);
    if decoded.Panic? {
      return Panic(decoded.msg), stored;
    }
    if decoded.Err? {
      return Ok(None), stored;
    }
    var report := decoded.value;
    var items := itemSet.Report(report.id);
    if |report.fields| != |items| {
      var empty := new Event();
      return Ok(Some(empty)), stored;
    }
    AppliedDecoded(es, reports, data, report);
    ReportTablesOf(t, es, report.id);
    var last := if report.id in reports then reports[report.id].fields else [];
    var sets := if report.id in t.sets then t.sets[report.id] else map[];
    var values := if report.id in t.values then t.values[report.id] else map[];
    var event := ReportFieldEvents(sets, values, items, last, report.fields);
    var stripped := StripRelativeValues(items, report);
    stored := reports[report.id := stripped];
    r := Ok(Some(event));
  }

  // ---------------------------------------------------------------- ApplyEvent

  /** The touched reports of a work are among its reports, and every report has one
      field of the right size per item. */
  predicate Storable(es: seq<TypedItem>, w: Work)
  {
    (forall k :: 0 <= k < |w.touched| ==> w.touched[k] in w.reports)
    && forall id :: id in w.reports ==> Shaped(w.reports[id].fields, ItemsOf(es, id))
  }

  /** The first i touched reports are stored and encoded. */
  predicate StoredUpTo(es: seq<TypedItem>, w: Work, i: nat, stored: map<uint8, Report>, encoded: seq<seq<bv8>>)
    requires Storable(es, w) && i <= |w.touched|
  {
    stored == StoreAll(es, w.reports, w.touched, i)
    && |encoded| == i && forall j :: 0 <= j < i ==> encoded[j] == Encodings(es, w)[j]
  }

  /** ApplyEvent's final loop: every touched report is stored with its relative fields
      cleared and returned encoded as it was built. The stored reports start as the
      working ones, since a working report shares its field bytes with the stored one. */
  method StoreWork(itemSet: DataItemSet, ghost es: seq<TypedItem>, w: Work)
    returns (stored: map<uint8, Report>, encoded: seq<seq<bv8>>)
    requires itemSet.Valid() && itemSet.added == es && Storable(es, w) && WholeItems(es)
    ensures stored == StoreAll(es, w.reports, w.touched, |w.touched|)
    ensures encoded == Encodings(es, w)
  {
    stored := w.reports;
    encoded := [];
    StoredNone(es, w);
    var i := 0;
    while i < |w.touched|
      invariant 0 <= i <= |w.touched| && StoredUpTo(es, w, i, stored, encoded)
    {
      stored, encoded := StoreOne(itemSet, es, w, i, stored, encoded);
      i := i + 1;
    }
    StoredAll(es, w, stored, encoded);
  }

  lemma StoredNone(es: seq<TypedItem>, w: Work)
    requires Storable(es, w)
    ensures StoredUpTo(es, w, 0, w.reports, [])
  {
  }

  lemma StoredAll(es: seq<TypedItem>, w: Work, stored: map<uint8, Report>, encoded: seq<seq<bv8>>)
    requires Storable(es, w) && StoredUpTo(es, w, |w.touched|, stored, encoded)
    ensures stored == StoreAll(es, w.reports, w.touched, |w.touched|) && encoded == Encodings(es, w)
  {
    assert |Encodings(es, w)| == |encoded|;
  }

  /** One pass of that loop. */
  method StoreOne(itemSet: DataItemSet, ghost es: seq<TypedItem>, w: Work, i: nat,
                  stored0: map<uint8, Report>, encoded0: seq<seq<bv8>>)
    returns (stored: map<uint8, Report>, encoded: seq<seq<bv8>>)
    requires itemSet.Valid() && itemSet.added == es && Storable(es, w) && WholeItems(es)
    requires i < |w.touched| && StoredUpTo(es, w, i, stored0, encoded0)
    ensures StoredUpTo(es, w, i + 1, stored, encoded)
  {
    var id := w.touched[i];
    var report := w.reports[id];
    var items := itemSet.Report(id);
    var clone := StripRelativeValues(items, report);
    stored := stored0[id := clone];
    EncodingAt(es, w, i);
    WholeItemsOf(es, id);
    ShapedWhole(report.fields, items);
    var all := EncodeReport(report);
    encoded := encoded0 + [all.bytes];
  }

  /** What ApplyEvent leaves: the entries of the event applied in order to the stored
      reports and press counts, every touched report stored stripped, and the touched
      reports returned encoded before stripping, in the order first touched. */
  ghost predicate EventOutcome(es: seq<TypedItem>, t: Tables, reports0: map<uint8, Report>, counts0: Counts,
                               events: seq<UsageEvent>, reports: map<uint8, Report>, counts: Counts,
                               encoded: seq<seq<bv8>>)
    requires StateSound(es, t, reports0, counts0)
  {
    var w := Steps(t, es, Work(reports0, counts0, []), events, |events|);
    Storable(es, w)
    && reports == StoreAll(es, w.reports, w.touched, |w.touched|) && counts == w.counts
    && encoded == Encodings(es, w)
  }

  /** Applying the entries of an event touches only stored reports. */
  lemma EventTouched(es: seq<TypedItem>, t: Tables, w0: Work, events: seq<UsageEvent>)
    requires Ready(t, es, w0.reports) && CountsPositive(w0.counts) && w0.touched == []
    ensures Storable(es, Steps(t, es, w0, events, |events|))
  {
    var w := Steps(t, es, w0, events, |events|);
    forall k | 0 <= k < |w.touched|
      ensures w.touched[k] in w.reports
    {
      assert w.touched[k] in w.touched;
    }
  }

  /** Storing the work of an event keeps the state sound. */
  lemma EventSound(es: seq<TypedItem>, t: Tables, reports: map<uint8, Report>, counts: Counts,
                   events: seq<UsageEvent>)
    requires StateSound(es, t, reports, counts)
    ensures var w := Steps(t, es, Work(reports, counts, []), events, |events|);
            Storable(es, w) && StateSound(es, t, StoreAll(es, w.reports, w.touched, |w.touched|), w.counts)
  {
    var w := Steps(t, es, Work(reports, counts, []), events, |events|);
    EventTouched(es, t, Work(reports, counts, []), events);
    var stored := StoreAll(es, w.reports, w.touched, |w.touched|);
    forall id | id in stored
      ensures Stripped(stored[id].fields, ItemsOf(es, id))
    {
      if id !in w.touched {
        assert id !in w.touched[..|w.touched|];
      }
    }
    assert Ready(t, es, stored);
  }

  class ReportState {
    const itemSet: DataItemSet
    /** The data items of the device, as added to the item set. */
    ghost const es: seq<TypedItem>
    /** usageSets, usageValues, usageSetRanges, usageSetMap and usageValuesIndex. */
    const tables: Tables
    /** The last report of every report ID. */
    var reports: map<uint8, Report>
    /** usageActivations: the press counts of absolute usages. */
    var activations: Counts

    ghost predicate Valid()
      reads this, itemSet
    {
      itemSet.Valid() && itemSet.added == es && StateSound(es, tables, reports, activations)
    }

    /** NewReportState with initializeStates: the tables of every report, a zero report
        per report ID and no press counts. Every usage value item must have no more
        usage IDs than its report count, as GetValue and SetValue index past the field
        otherwise. */
    constructor (itemSet: DataItemSet)
      requires itemSet.Valid() && Supported(itemSet.added)
      ensures Valid() && this.itemSet == itemSet && es == itemSet.added
      ensures reports == ZeroReports(ReportsOf(IDs(es), es))
      ensures activations == NoCounts(ReportsOf(IDs(es), es))
    {
      this.itemSet := itemSet;
      es := itemSet.added;
      var rds := itemSet.Reports();
      ghost var ids := itemSet.reportIDs;
      var t, stored, counts := InitializeStates(rds);
      tables := SortAll(t);
      reports := stored;
      activations := counts;
      assert rds == ReportsOf(IDs(itemSet.added), itemSet.added);
      InitialSound(itemSet.added);
    }

    /** ApplyReport: see Applied. */
    method ApplyReport(data: seq<bv8>) returns (r: Result<Option<Event>>)
      requires Valid()
      modifies this
      ensures Valid() && activations == old(activations)
      ensures Outcome(r, reports, Applied(es, old(reports), data), old(reports))
      ensures r.Ok? && r.value.Some? ==> fresh(r.value.value)
    {
      var stored;
      r, stored := ApplyReportTo(itemSet, es, tables, reports, data);
      if Applied(es, reports, data).Ok? && Applied(es, reports, data).value.Some? {
        AppliedSound(es, tables, reports, activations, data);
      }
      reports := stored;
    }

    /** ApplyEvent: see EventOutcome. */
    method ApplyEvent(e: Event) returns (encoded: seq<seq<bv8>>)
      requires Valid()
      modifies this
      ensures Valid()
      ensures EventOutcome(es, tables, old(reports), old(activations), e.usages, reports, activations, encoded)
    {
      var w := ApplyEntries(itemSet, es, tables, Work(reports, activations, []), e.usages);
      EventSound(es, tables, reports, activations, e.usages);
      var stored;
      stored, encoded := StoreWork(itemSet, es, w);
      reports := stored;
      activations := w.counts;
    }

    /** GetReport: the stored report of the ID, encoded; an error for an unknown ID. */
    method GetReport(id: uint8) returns (r: Result<seq<bv8>>)
      requires Valid()
      ensures id !in reports ==> r.Err?
      ensures id in reports ==> AllValid(reports[id].fields) && r == Ok(Encoded(reports[id]).bytes)
    {
      if id !in reports {
        return Err("report ID not found");
      }
      WholeItemsOf(es, id);
      ShapedWhole(reports[id].fields, ItemsOf(es, id));
      var encoded := EncodeReport(reports[id]);
      r := Ok(encoded.bytes);
    }
  }
}
