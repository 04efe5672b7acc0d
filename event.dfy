/** Events of hidapi/event.go: the usage changes one step of the pipeline passes on. An
    event keeps at most one entry per usage, in a list with an index map beside it. */
module Events {
  import opened Common
  import opened Usages

  /** UsageEvent: a press or release (Activate), an absolute value, or a relative change
      (Delta, used by the report state for relative items). */
  datatype UsageEvent = UsageEvent(usage: Usage, activate: Option<bool>, value: Option<int32>, delta: Option<int32>)

  function Activation(u: Usage, on: bool): UsageEvent
  {
    UsageEvent(u, Some(on), None, None)
  }

  // ---------------------------------------------------------------- the entry list

  /** The position of the entry for u, or |es| when there is none. */
  function Find(es: seq<UsageEvent>, u: Usage): (i: nat)
    ensures i <= |es|
    ensures i < |es| ==> es[i].usage == u
    ensures forall j :: 0 <= j < i ==> es[j].usage != u
  {
    if es == [] then 0 else if es[0].usage == u then 0 else 1 + Find(es[1..], u)
  }

  /** Event.Usage: the entry for u, if any. */
  function Lookup(es: seq<UsageEvent>, u: Usage): (r: Option<UsageEvent>)
    ensures r.Some? ==> r.value in es && r.value.usage == u
    ensures r.None? <==> forall e :: e in es ==> e.usage != u
  {
    var i := Find(es, u);
    if i < |es| then Some(es[i]) else None
  }

  /** No usage has two entries. */
  predicate Distinct(es: seq<UsageEvent>)
  {
    forall i, j :: 0 <= i < j < |es| ==> es[i].usage != es[j].usage
  }

  /** addUsage: the entry for the usage is replaced where it is, or appended. */
  function Added(es: seq<UsageEvent>, e: UsageEvent): (r: seq<UsageEvent>)
  {
    var i := Find(es, e.usage);
    if i < |es| then es[i := e] else es + [e]
  }

  /** Every entry after addUsage is the new one or an entry from before. */
  lemma AddedMembers(es: seq<UsageEvent>, e: UsageEvent)
    ensures forall x :: x in Added(es, e) ==> x == e || x in es
  {
    var i := Find(es, e.usage);
    if i < |es| {
      forall x | x in es[i := e]
        ensures x == e || x in es
      {
        var j :| 0 <= j < |es| && es[i := e][j] == x;
        if j != i {
          assert es[j] == x;
        }
      }
    }
  }

  /** removeUsage: the last entry moves into the hole and the list shrinks by one. */
  function Removed(es: seq<UsageEvent>, u: Usage): (r: seq<UsageEvent>)
  {
    var i := Find(es, u);
    if i == |es| then es
    else
      var last := |es| - 1;
      es[i := es[last]][..last]
  }

  /** After addUsage the usage reads back as the new entry; every other usage reads as
      before, and no usage gains a second entry. */
  lemma AddedLookup(es: seq<UsageEvent>, e: UsageEvent, x: Usage)
    requires Distinct(es)
    ensures Distinct(Added(es, e))
    ensures Lookup(Added(es, e), x) == if x == e.usage then Some(e) else Lookup(es, x)
    ensures |Added(es, e)| == if Lookup(es, e.usage).Some? then |es| else |es| + 1
  {
    var r := Added(es, e);
    var i := Find(es, e.usage);
    if x != e.usage {
      var k := Find(es, x);
      if k == |es| {
        FindIs(r, x, |r|);
      } else {
        FindIs(r, x, k);
      }
    } else {
      FindIs(r, x, i);
    }
  }

  lemma FindIs(es: seq<UsageEvent>, u: Usage, k: nat)
    requires k <= |es|
    requires k < |es| ==> es[k].usage == u
    requires forall j :: 0 <= j < k ==> es[j].usage != u
    ensures Find(es, u) == k
  {
  }

  /** After removeUsage the usage is gone, every other usage reads as before, and the
      entries are the old ones less the removed one. */
  lemma RemovedLookup(es: seq<UsageEvent>, u: Usage, x: Usage)
    requires Distinct(es)
    ensures Distinct(Removed(es, u))
    ensures Lookup(Removed(es, u), x) == if x == u then None else Lookup(es, x)
    ensures Lookup(es, u).Some? ==>
              multiset(Removed(es, u)) + multiset{Lookup(es, u).value} == multiset(es)
    ensures Lookup(es, u).None? ==> Removed(es, u) == es
  {
    var i := Find(es, u);
    if i < |es| {
      var last := |es| - 1;
      var r := Removed(es, u);
      assert forall j :: 0 <= j < last ==> r[j] == if j == i then es[last] else es[j];
      if x != u {
        var k := Find(es, x);
        if k == |es| {
          FindIs(r, x, |r|);
        } else if k == last {
          FindIs(r, x, i);
        } else {
          FindIs(r, x, k);
        }
      } else {
        FindIs(r, x, |r|);
      }
      RemovedMultiset(es, i);
    }
  }

  lemma RemovedMultiset(es: seq<UsageEvent>, i: nat)
    requires i < |es|
    ensures multiset(es[i := es[|es| - 1]][..|es| - 1]) + multiset{es[i]} == multiset(es)
  {
    var last := |es| - 1;
    if i == last {
      assert es == es[..last] + [es[last]];
    } else {
      var r := es[i := es[last]][..last];
      assert es == es[..i] + [es[i]] + es[i + 1..last] + [es[last]];
      assert r == es[..i] + [es[last]] + es[i + 1..last];
    }
  }

  /** Suppress: every listed usage removed in turn. */
  function SuppressAll(es: seq<UsageEvent>, us: seq<Usage>): seq<UsageEvent>
  {
    if us == [] then es else Removed(SuppressAll(es, us[..|us| - 1]), us[|us| - 1])
  }

  /** AddUsage: every given entry added in turn. */
  function AddAll(es: seq<UsageEvent>, news: seq<UsageEvent>): seq<UsageEvent>
  {
    if news == [] then es else Added(AddAll(es, news[..|news| - 1]), news[|news| - 1])
  }

  /** Activate (on) and Deactivate (!on): a press or release entry for every usage. */
  function ActivateAll(es: seq<UsageEvent>, us: seq<Usage>, on: bool): seq<UsageEvent>
  {
    if us == [] then es else Added(ActivateAll(es, us[..|us| - 1], on), Activation(us[|us| - 1], on))
  }

  /** After Suppress none of the usages has an entry and every other entry is kept. */
  lemma {:induction false} SuppressAllLookup(es: seq<UsageEvent>, us: seq<Usage>, x: Usage)
    requires Distinct(es)
    ensures Distinct(SuppressAll(es, us))
    ensures Lookup(SuppressAll(es, us), x) == if x in us then None else Lookup(es, x)
  {
    if us != [] {
      var init, u := us[..|us| - 1], us[|us| - 1];
      var before := SuppressAll(es, init);
      SuppressAllLookup(es, init, x);
      RemovedLookup(before, u, x);
      LastSplit(us, x);
    }
  }

  lemma LastSplit(us: seq<Usage>, x: Usage)
    requires us != []
    ensures x in us <==> x in us[..|us| - 1] || x == us[|us| - 1]
  {
    assert us == us[..|us| - 1] + [us[|us| - 1]];
  }

  /** After Activate or Deactivate every usage has a press or release entry and every
      other entry is kept. */
  lemma {:induction false} ActivateAllLookup(es: seq<UsageEvent>, us: seq<Usage>, on: bool, x: Usage)
    requires Distinct(es)
    ensures Distinct(ActivateAll(es, us, on))
    ensures Lookup(ActivateAll(es, us, on), x) == if x in us then Some(Activation(x, on)) else Lookup(es, x)
  {
    if us != [] {
      var init := us[..|us| - 1];
      ActivateAllLookup(es, init, on, x);
      AddedLookup(ActivateAll(es, init, on), Activation(us[|us| - 1], on), x);
      LastSplit(us, x);
    }
  }

  /** Adding distinct entries one by one to an empty event rebuilds them in order, so
      Clone copies an event exactly. */
  lemma {:induction false} AddAllRebuilds(es: seq<UsageEvent>)
    requires Distinct(es)
    ensures AddAll([], es) == es
  {
    if es != [] {
      var init := es[..|es| - 1];
      AddAllRebuilds(init);
      FindIs(init, es[|es| - 1].usage, |init|);
    }
  }

  /** After AddUsage each usage reads as its last given entry, or as before. */
  lemma {:induction false} AddAllLookup(es: seq<UsageEvent>, news: seq<UsageEvent>, x: Usage)
    requires Distinct(es)
    ensures Distinct(AddAll(es, news))
    ensures Lookup(AddAll(es, news), x) == if Lookup(Reverse(news), x).Some? then Lookup(Reverse(news), x) else Lookup(es, x)
  {
    if news != [] {
      var init := news[..|news| - 1];
      var e := news[|news| - 1];
      AddAllLookup(es, init, x);
      AddedLookup(AddAll(es, init), e, x);
      assert Reverse(news) == [e] + Reverse(init);
    }
  }

  function Reverse(s: seq<UsageEvent>): (r: seq<UsageEvent>)
    ensures |r| == |s|
  {
    if s == [] then [] else [s[|s| - 1]] + Reverse(s[..|s| - 1])
  }

  // ---------------------------------------------------------------- Event

  /** m indexes es: it maps each entry's usage to the entry's position. */
  ghost predicate Indexed(es: seq<UsageEvent>, m: map<Usage, nat>)
  {
    (forall u :: u in m ==> m[u] < |es| && es[m[u]].usage == u)
    && (forall i :: 0 <= i < |es| ==> es[i].usage in m && m[es[i].usage] == i)
  }

  /** removeUsage's swap with the last entry and truncation keep the index exact. */
  lemma RemoveIndexed(es: seq<UsageEvent>, m: map<Usage, nat>, u: Usage)
    requires Indexed(es, m) && u in m
    ensures var idx := m[u];
            var last := |es| - 1;
            var es1 := if idx != last then es[idx := es[last]] else es;
            var m1 := if idx != last then m[es[last].usage := idx] else m;
            Indexed(es1[..last], m1 - {u}) && es1[..last] == Removed(es, u)
  {
    var idx := m[u];
    FindIs(es, u, idx);
  }

  class Event {
    var usages: seq<UsageEvent>
    var usageMap: map<Usage, nat>

    /** usageMap indexes usages: it maps each entry's usage to the entry's position. */
    ghost predicate Valid()
      reads this
    {
      Indexed(usages, usageMap)
    }

    lemma ValidIndex(u: Usage)
      requires Valid()
      ensures Distinct(usages)
      ensures u in usageMap ==> Find(usages, u) == usageMap[u]
      ensures u !in usageMap ==> Find(usages, u) == |usages|
    {
      if u in usageMap {
        FindIs(usages, u, usageMap[u]);
      } else {
        FindIs(usages, u, |usages|);
      }
    }

    /** NewEvent. */
    constructor ()
      ensures Valid() && usages == []
    {
      usages := [];
      usageMap := map[];
    }

    /** Clone: a new event built by adding every entry of this one. */
    method Clone() returns (clone: Event)
      requires Valid()
      ensures fresh(clone) && clone.Valid() && clone.usages == usages
    {
      clone := new Event();
      var i := 0;
      while i < |usages|
        invariant 0 <= i <= |usages|
        invariant clone.Valid() && clone.usages == AddAll([], usages[..i])
      {
        assert usages[..i + 1][..i] == usages[..i];
        clone.AddUsage(usages[i]);
        i := i + 1;
      }
      ValidIndex(0);
      assert usages[..i] == usages;
      AddAllRebuilds(usages);
    }

    /** IsEmpty. */
    method IsEmpty() returns (empty: bool)
      ensures empty <==> usages == []
    {
      empty := |usages| == 0;
    }

    /** addUsage. */
    method AddUsage(e: UsageEvent)
      requires Valid()
      modifies this
      ensures Valid() && usages == Added(old(usages), e)
    {
      ValidIndex(e.usage);
      if e.usage in usageMap {
        var idx := usageMap[e.usage];
        usages := usages[idx := e];
        return;
      }
      usages := usages + [e];
      usageMap := usageMap[e.usage := |usages| - 1];
    }

    /** removeUsage. */
    method RemoveUsage(u: Usage)
      requires Valid()
      modifies this
      ensures Valid() && usages == Removed(old(usages), u)
    {
      ValidIndex(u);
      if u !in usageMap {
        return;
      }
      RemoveIndexed(usages, usageMap, u);
      var es, m := usages, usageMap;
      var idx := m[u];
      var last := |es| - 1;
      if idx != last {
        es := es[idx := es[last]];
        m := m[es[idx].usage := idx];
      }
      usages, usageMap := es[..last], m - {u};
    }

    /** Suppress. */
    method Suppress(us: seq<Usage>)
      requires Valid()
      modifies this
      ensures Valid() && usages == SuppressAll(old(usages), us)
    {
      var i := 0;
      while i < |us|
        invariant 0 <= i <= |us|
        invariant Valid() && usages == SuppressAll(old(usages), us[..i])
      {
        assert us[..i + 1][..i] == us[..i];
        RemoveUsage(us[i]);
        i := i + 1;
      }
      assert us[..i] == us;
    }

    /** Usage: the entry for u, if any. */
    method Usage(u: Usage) returns (r: Option<UsageEvent>)
      requires Valid()
      ensures r == Lookup(usages, u)
    {
      ValidIndex(u);
      if u !in usageMap {
        return None;
      }
      r := Some(usages[usageMap[u]]);
    }

    /** AddUsage. */
    method AddUsages(news: seq<UsageEvent>)
      requires Valid()
      modifies this
      ensures Valid() && usages == AddAll(old(usages), news)
    {
      var i := 0;
      while i < |news|
        invariant 0 <= i <= |news|
        invariant Valid() && usages == AddAll(old(usages), news[..i])
      {
        assert news[..i + 1][..i] == news[..i];
        AddUsage(news[i]);
        i := i + 1;
      }
      assert news[..i] == news;
    }

    /** Activate (on) and Deactivate (!on). */
    method Activate(us: seq<Usage>, on: bool)
      requires Valid()
      modifies this
      ensures Valid() && usages == ActivateAll(old(usages), us, on)
    {
      var i := 0;
      while i < |us|
        invariant 0 <= i <= |us|
        invariant Valid() && usages == ActivateAll(old(usages), us[..i], on)
      {
        assert us[..i + 1][..i] == us[..i];
        AddUsage(Activation(us[i], on));
        i := i + 1;
      }
      assert us[..i] == us;
    }

    /** SetValue. */
    method SetValue(u: Usage, value: int32)
      requires Valid()
      modifies this
      ensures Valid() && usages == Added(old(usages), UsageEvent(u, None, Some(value), None))
    {
      AddUsage(UsageEvent(u, None, Some(value), None));
    }

    /** SetDelta. */
    method SetDelta(u: Usage, delta: int32)
      requires Valid()
      modifies this
      ensures Valid() && usages == Added(old(usages), UsageEvent(u, None, None, Some(delta)))
    {
      AddUsage(UsageEvent(u, None, None, Some(delta)));
    }

    /** Usages: a copy of the entries. */
    method Usages() returns (es: seq<UsageEvent>)
      ensures es == usages
    {
      es := usages;
    }
  }
}
