/** The Bind node of components/nodes/bind.go: each mapping is a chord of usages and an
    action; when every usage of the chord is held the action's handler runs, and when the
    chord breaks its finalizer runs. While a chord is held its usages are kept out of the
    event passed on. */
module BindNode {
  import opened Common
  import opened Usages
  import opened Events
  import opened Matchers

  // ---------------------------------------------------------------- usageActivation

  /** A chord trigger: the usages and, for each usage currently held, how many presses
      are outstanding. */
  datatype UsageActivation = UsageActivation(usages: seq<Usage>, counters: map<Usage, int>)

  /** newUsageActivation. */
  function NewUsageActivation(usages: seq<Usage>): (a: UsageActivation)
    ensures WellCounted(a) && a.counters == map[]
  {
    UsageActivation(usages, map[])
  }

  /** A Go map read: a missing usage counts 0. */
  function Get(counters: map<Usage, int>, u: Usage): int
  {
    if u in counters then counters[u] else 0
  }

  /** The counters only hold chord usages, each with a positive count. */
  predicate WellCounted(a: UsageActivation)
  {
    (forall u :: u in a.counters ==> u in a.usages && a.counters[u] > 0)
  }

  /** One usage of Check's loop, given the event's entry for it: a press adds one, a
      release takes one away and drops the usage once it reaches zero. */
  function Count(counters: map<Usage, int>, u: Usage, entry: Option<UsageEvent>): map<Usage, int>
  {
    if entry.None? || entry.value.activate.None? then counters
    else if entry.value.activate.value then counters[u := Get(counters, u) + 1]
    else if Get(counters, u) - 1 <= 0 then counters - {u}
    else counters[u := Get(counters, u) - 1]
  }

  /** Check's loop over the chord's usages, in order. */
  function CountAll(counters: map<Usage, int>, us: seq<Usage>, es: seq<UsageEvent>): map<Usage, int>
    decreases |us|
  {
    if us == [] then counters else CountAll(Count(counters, us[0], Lookup(es, us[0])), us[1..], es)
  }

  /** Check, as a value: the new trigger, whether the chord is held, and the event's
      entries after the chord's usages are suppressed, which happens while the chord is
      held and on the check where it stops being held. */
  function Checked(a: UsageActivation, es: seq<UsageEvent>): (UsageActivation, bool, seq<UsageEvent>)
  {
    var next := UsageActivation(a.usages, CountAll(a.counters, a.usages, es));
    var held := |next.counters| == |a.usages|;
    var wasHeld := |a.counters| == |a.usages|;
    (next, held, if held || wasHeld then SuppressAll(es, a.usages) else es)
  }

  /** usageActivation.Check: the loop over the chord's usages and the suppression. */
  method Check(a: UsageActivation, e: Event) returns (next: UsageActivation, triggered: bool)
    requires e.Valid()
    modifies e
    ensures e.Valid()
    ensures (next, triggered, e.usages) == Checked(a, old(e.usages))
  {
    var wasActive := |a.counters| == |a.usages|;
    var counters := a.counters;
    var i := 0;
    while i < |a.usages|
      invariant 0 <= i <= |a.usages|
      invariant e.usages == old(e.usages) && e.Valid()
      invariant CountAll(a.counters, a.usages, e.usages) == CountAll(counters, a.usages[i..], e.usages)
    {
      var usage := a.usages[i];
      assert a.usages[i..][1..] == a.usages[i + 1..];
      var entry := e.Usage(usage);
      counters := CountEntry(counters, usage, entry);
      i := i + 1;
    }
    assert a.usages[i..] == [];
    next := UsageActivation(a.usages, counters);
    if |counters| == |a.usages| {
      e.Suppress(a.usages);
      return next, true;
    }
    if wasActive {
      e.Suppress(a.usages);
    }
    return next, false;
  }

  /** The body of Check's loop for one usage. */
  method CountEntry(counters: map<Usage, int>, usage: Usage, entry: Option<UsageEvent>) returns (next: map<Usage, int>)
    ensures next == Count(counters, usage, entry)
  {
    next := counters;
    if entry.None? || entry.value.activate.None? {
      return;
    }
    if entry.value.activate.value {
      next := next[usage := Get(next, usage) + 1];
    } else {
      next := next[usage := Get(next, usage) - 1];
      if next[usage] <= 0 {
        next := next - {usage};
      }
    }
  }

  /** Check keeps the counters to chord usages with positive counts. */
  lemma {:induction false} CountAllWellCounted(counters: map<Usage, int>, usages: seq<Usage>, us: seq<Usage>, es: seq<UsageEvent>)
    requires WellCounted(UsageActivation(usages, counters))
    requires forall k :: 0 <= k < |us| ==> us[k] in usages
    ensures WellCounted(UsageActivation(usages, CountAll(counters, us, es)))
    decreases |us|
  {
    if us != [] {
      CountAllWellCounted(Count(counters, us[0], Lookup(es, us[0])), usages, us[1..], es);
    }
  }

  /** The count after one entry: one more for a press, one fewer down to zero for a
      release, unchanged otherwise. */
  function Counter(n: int, entry: Option<UsageEvent>): int
  {
    if entry.None? || entry.value.activate.None? then n
    else if entry.value.activate.value then n + 1
    else if n - 1 <= 0 then 0
    else n - 1
  }

  predicate NoDuplicates(us: seq<Usage>)
  {
    forall i, j :: 0 <= i < j < |us| ==> us[i] != us[j]
  }

  /** With a chord of distinct usages each usage's count moves by its own entry in the
      event alone, and usages outside the chord are untouched. */
  lemma {:induction false} CountAllCounter(counters: map<Usage, int>, us: seq<Usage>, es: seq<UsageEvent>, u: Usage)
    requires NoDuplicates(us)
    ensures Get(CountAll(counters, us, es), u) == if u in us then Counter(Get(counters, u), Lookup(es, u)) else Get(counters, u)
    decreases |us|
  {
    if us != [] {
      var next := Count(counters, us[0], Lookup(es, us[0]));
      assert NoDuplicates(us[1..]);
      CountAllCounter(next, us[1..], es, u);
      assert u in us <==> u == us[0] || u in us[1..];
      if u == us[0] {
        assert u !in us[1..] by {
          forall k | 0 <= k < |us[1..]| ensures us[1..][k] != u {
            assert us[1..][k] == us[k + 1];
          }
        }
      }
    }
  }

  /** The distinct usages of a chord. */
  function ChordSet(us: seq<Usage>): set<Usage>
  {
    set u | u in us
  }

  /** The set of the chord's usages has as many members as the chord exactly when the
      chord lists no usage twice. */
  lemma {:induction false} ChordSetSize(us: seq<Usage>)
    ensures |ChordSet(us)| <= |us|
    ensures |ChordSet(us)| == |us| <==> NoDuplicates(us)
  {
    if us != [] {
      var rest := us[1..];
      ChordSetSize(rest);
      var s := ChordSet(us);
      var r := ChordSet(rest);
      assert s == r + {us[0]};
      if us[0] in rest {
        var k :| 0 <= k < |rest| && rest[k] == us[0];
        assert us[k + 1] == us[0];
        assert s == r;
        assert !NoDuplicates(us);
      } else {
        assert us[0] !in r;
        assert |s| == |r| + 1;
        assert NoDuplicates(us) ==> NoDuplicates(rest) by {
          if NoDuplicates(us) {
            forall i, j | 0 <= i < j < |rest| ensures rest[i] != rest[j] {
              assert rest[i] == us[i + 1] && rest[j] == us[j + 1];
            }
          }
        }
        assert NoDuplicates(rest) ==> NoDuplicates(us) by {
          if NoDuplicates(rest) {
            forall i, j | 0 <= i < j < |us| ensures us[i] != us[j] {
              if i == 0 {
                assert us[j] == rest[j - 1];
              } else {
                assert us[i] == rest[i - 1] && us[j] == rest[j - 1];
              }
            }
          }
        }
      }
    }
  }

  /** A subset as large as its superset is the whole superset. */
  lemma SubsetSize(a: set<Usage>, b: set<Usage>)
    requires a <= b
    ensures |a| <= |b|
    ensures |a| == |b| ==> a == b
  {
    assert b == a + (b - a);
    assert |b| == |a| + |b - a|;
    if |a| == |b| {
      assert |b - a| == 0;
    }
  }

  /** The chord counts as held (the counters as many as the usages) exactly when it lists
      no usage twice and every one of its usages is held; so a chord naming a usage twice
      never triggers, and an empty chord always does. */
  lemma HeldIff(a: UsageActivation)
    requires WellCounted(a)
    ensures |a.counters| == |a.usages| <==>
              NoDuplicates(a.usages) && forall k :: 0 <= k < |a.usages| ==> a.usages[k] in a.counters
  {
    var keys := a.counters.Keys;
    var chord := ChordSet(a.usages);
    assert keys <= chord;
    assert |a.counters| == |keys|;
    SubsetSize(keys, chord);
    ChordSetSize(a.usages);
    if NoDuplicates(a.usages) && forall k :: 0 <= k < |a.usages| ==> a.usages[k] in a.counters {
      assert chord <= keys;
      assert keys == chord;
      assert |chord| == |a.usages|;
    }
    if |a.counters| == |a.usages| {
      assert |keys| <= |chord| <= |a.usages| == |keys|;
      assert |chord| == |a.usages|;
      assert NoDuplicates(a.usages);
      assert keys == chord;
      forall k | 0 <= k < |a.usages| ensures a.usages[k] in a.counters {
        assert a.usages[k] in chord;
      }
    }
  }

  // ---------------------------------------------------------------- the node

  /** An action handler. Running it is code this model does not see; what matters here
      is which handler it is and whether it hands back a finalizer. */
  datatype Handler = Handler(id: nat, hasFinalizer: bool)

  /** bindItem: the trigger, the handler, whether the chord is held, and the finalizer
      the handler returned. */
  datatype BindItem = BindItem(trigger: UsageActivation, handler: Handler, triggered: bool, finalizer: Option<nat>)

  /** A call made by triggerMappings, by mapping index. */
  datatype Call = RunHandler(index: nat) | RunFinalizer(index: nat)

  /** One mapping of triggerMappings: the handler runs on the rising edge and keeps its
      finalizer; on the falling edge the finalizer, if any, runs and is dropped. */
  function TriggerItem(idx: nat, item: BindItem, es: seq<UsageEvent>): (BindItem, seq<UsageEvent>, seq<Call>)
  {
    var (trigger, isTriggered, es') := Checked(item.trigger, es);
    if isTriggered && !item.triggered then
      (BindItem(trigger, item.handler, true, if item.handler.hasFinalizer then Some(item.handler.id) else None), es', [RunHandler(idx)])
    else if !isTriggered && item.triggered then
      (BindItem(trigger, item.handler, false, None), es', if item.finalizer.Some? then [RunFinalizer(idx)] else [])
    else (item.(trigger := trigger), es', [])
  }

  /** triggerMappings over the mappings from index base on, each seeing the event the
      previous ones left. */
  function TriggerAll(items: seq<BindItem>, es: seq<UsageEvent>, base: nat): (seq<BindItem>, seq<UsageEvent>, seq<Call>)
    decreases |items|
  {
    if items == [] then ([], es, [])
    else
      var (item, es', calls) := TriggerItem(base, items[0], es);
      var (rest, es'', more) := TriggerAll(items[1..], es', base + 1);
      ([item] + rest, es'', calls + more)
  }

  /** A mapping's state is consistent: a finalizer is only kept while the chord is held,
      and the flag says whether the trigger's chord is held. */
  predicate Consistent(item: BindItem)
  {
    (item.finalizer.Some? ==> item.triggered) &&
    (item.triggered <==> |item.trigger.counters| == |item.trigger.usages|)
  }

  /** Each step leaves the mapping consistent, runs the handler exactly on the rising
      edge and the finalizer exactly on the falling edge when the handler gave one. */
  lemma TriggerItemEdges(idx: nat, item: BindItem, es: seq<UsageEvent>)
    requires item.finalizer.Some? ==> item.triggered
    ensures var (item', _, calls) := TriggerItem(idx, item, es);
            Consistent(item') &&
            (RunHandler(idx) in calls <==> !item.triggered && item'.triggered) &&
            (RunFinalizer(idx) in calls <==> item.triggered && !item'.triggered && item.finalizer.Some?) &&
            |calls| <= 1
  {
  }

  /** After triggerMappings every mapping is consistent. */
  lemma {:induction false} TriggerAllConsistent(items: seq<BindItem>, es: seq<UsageEvent>, base: nat)
    requires forall k :: 0 <= k < |items| ==> (items[k].finalizer.Some? ==> items[k].triggered)
    ensures |TriggerAll(items, es, base).0| == |items|
    ensures forall k :: 0 <= k < |items| ==> Consistent(TriggerAll(items, es, base).0[k])
  {
    if items != [] {
      TriggerItemEdges(base, items[0], es);
      var (item, es', calls) := TriggerItem(base, items[0], es);
      TriggerAllConsistent(items[1..], es', base + 1);
      var rest := TriggerAll(items[1..], es', base + 1).0;
      assert TriggerAll(items, es, base).0 == [item] + rest;
    }
  }

  /** The interrupt decision: some entry that is not a release has a usage the interrupt
      matcher accepts. */
  predicate Interrupts(m: Matcher, es: seq<UsageEvent>)
  {
    exists k :: 0 <= k < |es| && es[k].activate != Some(false) && Matches(m, Page(es[k].usage), ID(es[k].usage))
  }

  /** The interrupt patterns used when the configuration names none. */
  const DefaultInterrupt: seq<string> := ["kb.*", "con.*", "btn.*", "dsk.Wheel"]

  /** One entry of the "map" configuration: the chord's usage names, and the outcome of
      building its action from the statement (done by the graph registry, which is
      outside this node). */
  datatype BindEntry = BindEntry(usages: seq<string>, handler: Result<Handler>)

  /** The decoded configuration: the "interrupt" patterns when given, and the entries. */
  datatype BindConfig = BindConfig(interrupt: Option<seq<string>>, entries: seq<BindEntry>)

  /** The mappings Configure appends for the entries, and the first failure, if any: each
      entry's usages must parse and its action must build. */
  function ConfiguredItems(keyCodes: map<string, uint8>, entries: seq<BindEntry>): (r: (seq<BindItem>, Option<string>))
    decreases |entries|
    ensures |r.0| <= |entries| && (r.1.None? ==> |r.0| == |entries|)
    ensures forall k :: 0 <= k < |r.0| ==> !r.0[k].triggered && r.0[k].finalizer.None? && r.0[k].trigger.counters == map[]
  {
    if entries == [] then ([], None)
    else
      var usages := UsagesOf(keyCodes, entries[0].usages);
      if !usages.Ok? then ([], Some(usages.msg))
      else if !entries[0].handler.Ok? then ([], Some("failed to create action handler"))
      else
        var (rest, failure) := ConfiguredItems(keyCodes, entries[1..]);
        ([BindItem(NewUsageActivation(usages.value), entries[0].handler.value, false, None)] + rest, failure)
  }

  /** triggerMappings has produced target up to index idx: the mappings before idx are
      done, and the rest, run on the event as it now is, completes target. */
  predicate Progress(target: (seq<BindItem>, seq<UsageEvent>, seq<Call>), items: seq<BindItem>, idx: nat,
                     es: seq<UsageEvent>, calls: seq<Call>)
  {
    idx <= |items| &&
    var t := TriggerAll(items[idx..], es, idx);
    target == (items[..idx] + t.0, t.1, calls + t.2)
  }

  lemma ProgressStart(items: seq<BindItem>, es: seq<UsageEvent>)
    ensures Progress(TriggerAll(items, es, 0), items, 0, es, [])
  {
    assert items[0..] == items && items[..0] == [];
    var t := TriggerAll(items, es, 0);
    assert [] + t.0 == t.0 && [] + t.2 == t.2;
  }

  lemma ProgressEnd(target: (seq<BindItem>, seq<UsageEvent>, seq<Call>), items: seq<BindItem>,
                    es: seq<UsageEvent>, calls: seq<Call>)
    requires Progress(target, items, |items|, es, calls)
    ensures target == (items, es, calls)
  {
    assert items[|items|..] == [] && items[..|items|] == items;
    assert items + [] == items && calls + [] == calls;
  }

  lemma ProgressStep(target: (seq<BindItem>, seq<UsageEvent>, seq<Call>), items: seq<BindItem>, idx: nat,
                     es: seq<UsageEvent>, calls: seq<Call>, item: BindItem, es': seq<UsageEvent>, call: seq<Call>)
    requires idx < |items| && Progress(target, items, idx, es, calls)
    requires (item, es', call) == TriggerItem(idx, items[idx], es)
    ensures Progress(target, items[idx := item], idx + 1, es', calls + call)
  {
    assert items[idx..][1..] == items[idx + 1..];
    var next := items[idx := item];
    assert next[..idx + 1] == items[..idx] + [item];
    assert next[idx + 1..] == items[idx + 1..];
    var t := TriggerAll(items[idx + 1..], es', idx + 1);
    assert TriggerAll(items[idx..], es, idx) == ([item] + t.0, t.1, call + t.2);
    assert items[..idx] + ([item] + t.0) == next[..idx + 1] + t.0;
    assert calls + (call + t.2) == (calls + call) + t.2;
  }

  /** The body of triggerMappings' loop for one mapping. */
  method TriggerOne(idx: nat, mapping: BindItem, e: Event) returns (item: BindItem, call: seq<Call>)
    requires e.Valid()
    modifies e
    ensures e.Valid()
    ensures (item, e.usages, call) == TriggerItem(idx, mapping, old(e.usages))
  {
    var trigger, isTriggered := Check(mapping.trigger, e);
    item := mapping.(trigger := trigger);
    call := [];
    if isTriggered && !mapping.triggered {
      item := BindItem(trigger, mapping.handler, true, if mapping.handler.hasFinalizer then Some(mapping.handler.id) else None);
      call := [RunHandler(idx)];
    } else if !isTriggered && mapping.triggered {
      if mapping.finalizer.Some? {
        call := [RunFinalizer(idx)];
      }
      item := BindItem(trigger, mapping.handler, false, None);
    }
  }

  /** Configure has added the items before entry i, and ConfiguredItems of the entries
      from i on completes target. */
  predicate Configuring(target: (seq<BindItem>, Option<string>), keyCodes: map<string, uint8>,
                        entries: seq<BindEntry>, i: nat, added: seq<BindItem>)
  {
    i <= |entries| &&
    var t := ConfiguredItems(keyCodes, entries[i..]);
    target == (added + t.0, t.1)
  }

  lemma ConfiguringStart(keyCodes: map<string, uint8>, entries: seq<BindEntry>)
    ensures Configuring(ConfiguredItems(keyCodes, entries), keyCodes, entries, 0, [])
  {
    assert entries[0..] == entries;
    var t := ConfiguredItems(keyCodes, entries);
    assert [] + t.0 == t.0;
  }

  lemma ConfiguringEnd(target: (seq<BindItem>, Option<string>), keyCodes: map<string, uint8>,
                       entries: seq<BindEntry>, added: seq<BindItem>)
    requires Configuring(target, keyCodes, entries, |entries|, added)
    ensures target == (added, None)
  {
    assert entries[|entries|..] == [];
    assert added + [] == added;
  }

  /** Entry i is bad: the items so far are kept and its error is the result. */
  lemma ConfiguringStops(target: (seq<BindItem>, Option<string>), keyCodes: map<string, uint8>,
                         entries: seq<BindEntry>, i: nat, added: seq<BindItem>)
    requires i < |entries| && Configuring(target, keyCodes, entries, i, added)
    ensures !UsagesOf(keyCodes, entries[i].usages).Ok? ==>
              target == (added, Some(UsagesOf(keyCodes, entries[i].usages).msg))
    ensures UsagesOf(keyCodes, entries[i].usages).Ok? && !entries[i].handler.Ok? ==>
              target == (added, Some("failed to create action handler"))
  {
    assert entries[i..][0] == entries[i];
    assert added + [] == added;
  }

  /** Entry i is good: its item is added and the entries after it complete target. */
  lemma ConfiguringStep(target: (seq<BindItem>, Option<string>), keyCodes: map<string, uint8>,
                        entries: seq<BindEntry>, i: nat, added: seq<BindItem>, item: BindItem)
    requires i < |entries| && Configuring(target, keyCodes, entries, i, added)
    requires UsagesOf(keyCodes, entries[i].usages).Ok? && entries[i].handler.Ok?
    requires item == BindItem(NewUsageActivation(UsagesOf(keyCodes, entries[i].usages).value),
                              entries[i].handler.value, false, None)
    ensures Configuring(target, keyCodes, entries, i + 1, added + [item])
  {
    assert entries[i..][0] == entries[i];
    assert entries[i..][1..] == entries[i + 1..];
    var t := ConfiguredItems(keyCodes, entries[i + 1..]);
    assert added + ([item] + t.0) == (added + [item]) + t.0;
  }

  /** Configure's loop over the map entries: the items it appends, in order, and the
      error that stops it. */
  method BuildMappings(keyCodes: map<string, uint8>, entries: seq<BindEntry>) returns (added: seq<BindItem>, err: Option<string>)
    ensures (added, err) == ConfiguredItems(keyCodes, entries)
  {
    ghost var target := ConfiguredItems(keyCodes, entries);
    added := [];
    var i := 0;
    ConfiguringStart(keyCodes, entries);
    while i < |entries|
      invariant Configuring(target, keyCodes, entries, i, added)
    {
      ConfiguringStops(target, keyCodes, entries, i, added);
      var usages := ParseUsages(keyCodes, entries[i].usages);
      if !usages.Ok? {
        return added, Some(usages.msg);
      }
      if !entries[i].handler.Ok? {
        return added, Some("failed to create action handler");
      }
      var item := BindItem(NewUsageActivation(usages.value), entries[i].handler.value, false, None);
      ConfiguringStep(target, keyCodes, entries, i, added, item);
      added := added + [item];
      i := i + 1;
    }
    ConfiguringEnd(target, keyCodes, entries, added);
    err := None;
  }

  class Bind {
    var mappings: seq<BindItem>
    var interrupt: Option<Matcher>

    /** CreateNode: no mappings, and no interrupt matcher until Configure. */
    constructor ()
      ensures mappings == [] && interrupt == None
    {
      mappings := [];
      interrupt := None;
    }

    /** triggerMappings: each mapping's trigger checked in order against the event. */
    method TriggerMappings(e: Event) returns (calls: seq<Call>)
      requires e.Valid()
      modifies this, e
      ensures e.Valid()
      ensures (mappings, e.usages, calls) == TriggerAll(old(mappings), old(e.usages), 0)
      ensures interrupt == old(interrupt)
    {
      ghost var target := TriggerAll(mappings, e.usages, 0);
      calls := [];
      var idx := 0;
      ProgressStart(mappings, e.usages);
      while idx < |mappings|
        invariant 0 <= idx <= |mappings|
        invariant e.Valid() && interrupt == old(interrupt)
        invariant Progress(target, mappings, idx, e.usages, calls)
      {
        ghost var es := e.usages;
        var item, call := TriggerOne(idx, mappings[idx], e);
        ProgressStep(target, mappings, idx, es, calls, item, e.usages, call);
        mappings := mappings[idx := item];
        calls := calls + call;
        idx := idx + 1;
      }
      ProgressEnd(target, mappings, e.usages, calls);
    }

    /** shouldInterrupt: releases are skipped; an interrupt matcher that Configure never
        set is a nil function and calling it panics. */
    method ShouldInterrupt(e: Event) returns (r: Result<bool>)
      requires e.Valid()
      ensures interrupt.Some? ==> r == Ok(Interrupts(interrupt.value, e.usages))
      ensures interrupt.None? ==> (r.Panic? <==> exists k :: 0 <= k < |e.usages| && e.usages[k].activate != Some(false))
      ensures interrupt.None? && !r.Panic? ==> r == Ok(false)
    {
      var empty := e.IsEmpty();
      if empty {
        return Ok(false);
      }
      var usages := e.Usages();
      var i := 0;
      while i < |usages|
        invariant 0 <= i <= |usages|
        invariant forall k :: 0 <= k < i ==>
                    usages[k].activate == Some(false) ||
                    (interrupt.Some? && !Matches(interrupt.value, Page(usages[k].usage), ID(usages[k].usage)))
      {
        var usage := usages[i];
        if usage.activate != Some(false) {
          if interrupt.None? {
            return Panic("nil interrupt matcher");
          }
          var hit := Match(interrupt.value, Page(usage.usage), ID(usage.usage));
          if hit {
            return Ok(true);
          }
        }
        i := i + 1;
      }
      return Ok(false);
    }

    /** Configure: the interrupt patterns, the defaults unless the configuration names
        its own, become the matcher; then each map entry's usages are parsed and its
        action built, in order. A failure stops there and keeps the mappings already
        appended; a failed matcher leaves the interrupt nil. */
    method Configure(names: Names, keyCodes: map<string, uint8>, config: Result<BindConfig>) returns (err: Option<string>)
      modifies this
      ensures !config.Ok? ==> err.Some? && mappings == old(mappings) && interrupt == old(interrupt)
      ensures config.Ok? ==>
                var patterns := if config.value.interrupt.Some? then config.value.interrupt.value else DefaultInterrupt;
                var allCompile := forall k :: 0 <= k < |patterns| ==> NewPattern(names, patterns[k]).Ok?;
                (allCompile <==> interrupt.Some?) &&
                (interrupt.Some? ==> CompiledFrom(names, patterns, interrupt.value)) &&
                (!allCompile ==> err.Some? && mappings == old(mappings)) &&
                (allCompile ==>
                   var (items, failure) := ConfiguredItems(keyCodes, config.value.entries);
                   mappings == old(mappings) + items && err == failure)
    {
      if !config.Ok? {
        return Some("failed to unmarshal config");
      }
      var patterns := DefaultInterrupt;
      if config.value.interrupt.Some? {
        patterns := config.value.interrupt.value;
      }
      var matcher := NewMatcher(names, patterns);
      if !matcher.Ok? {
        interrupt := None;
        return Some(matcher.msg);
      }
      interrupt := Some(matcher.value);
      var added;
      added, err := BuildMappings(keyCodes, config.value.entries);
      mappings := mappings + added;
    }
  }
}
