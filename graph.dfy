/** The flow graph of internal/flowsvc/graph.go: the builder that records nodes and their
    links, its validation (link arity per node, entry nodes, cycles reachable from an
    entry node), the per-node registry of actions and signals, the parsing of component
    identifiers, and the reconfiguration of a running node. */
module FlowGraph {
  import opened Common
  import opened FlowDsl

  /** A Go map of slices read at a key: a missing key reads as the empty slice. */
  function Get(m: map<string, seq<string>>, k: string): seq<string>
  {
    if k in m then m[k] else []
  }

  // ---------------------------------------------------------------- links

  /** AddNode's loop: each target is appended to the node's downstream list, and the node
      to the target's upstream list, one target at a time. */
  function AddEdges(down: map<string, seq<string>>, up: map<string, seq<string>>, id: string, to: seq<string>)
    : (r: (map<string, seq<string>>, map<string, seq<string>>))
    decreases |to|
  {
    if to == [] then (down, up)
    else AddEdges(down[id := Get(down, id) + [to[0]]], up[to[0] := Get(up, to[0]) + [id]], id, to[1..])
  }

  function Count(s: seq<string>, x: string): nat
  {
    if s == [] then 0 else (if s[0] == x then 1 else 0) + Count(s[1..], x)
  }

  function Repeat(x: string, n: nat): (r: seq<string>)
    ensures |r| == n && forall k :: 0 <= k < n ==> r[k] == x
  {
    if n == 0 then [] else [x] + Repeat(x, n - 1)
  }

  lemma {:induction false} CountIn(s: seq<string>, x: string)
    ensures Count(s, x) > 0 <==> x in s
  {
    if s != [] {
      CountIn(s[1..], x);
      assert x in s <==> s[0] == x || x in s[1..];
    }
  }

  /** AddNode appends all of `to` to the node's own downstream list and leaves every
      other downstream list alone. */
  lemma {:induction false} AddEdgesDown(down: map<string, seq<string>>, up: map<string, seq<string>>,
                                        id: string, to: seq<string>, k: string)
    decreases |to|
    ensures Get(AddEdges(down, up, id, to).0, k) == if k == id then Get(down, id) + to else Get(down, k)
  {
    if to == [] {
      assert Get(down, id) + to == Get(down, id);
    } else {
      var down' := down[id := Get(down, id) + [to[0]]];
      var up' := up[to[0] := Get(up, to[0]) + [id]];
      AddEdgesDown(down', up', id, to[1..], k);
      assert AddEdges(down, up, id, to) == AddEdges(down', up', id, to[1..]);
      if k == id {
        assert Get(down', id) == Get(down, id) + [to[0]];
        assert (Get(down, id) + [to[0]]) + to[1..] == Get(down, id) + to;
      } else {
        assert Get(down', k) == Get(down, k);
      }
    }
  }

  /** AddNode appends the node to each target's upstream list once per occurrence of the
      target in `to`. */
  lemma {:induction false} AddEdgesUp(down: map<string, seq<string>>, up: map<string, seq<string>>,
                                      id: string, to: seq<string>, k: string)
    decreases |to|
    ensures Get(AddEdges(down, up, id, to).1, k) == Get(up, k) + Repeat(id, Count(to, k))
  {
    if to == [] {
      assert Get(up, k) + [] == Get(up, k);
    } else {
      var down' := down[id := Get(down, id) + [to[0]]];
      var up' := up[to[0] := Get(up, to[0]) + [id]];
      AddEdgesUp(down', up', id, to[1..], k);
      assert AddEdges(down, up, id, to) == AddEdges(down', up', id, to[1..]);
      var n := Count(to[1..], k);
      if k == to[0] {
        assert Count(to, k) == n + 1;
        assert Repeat(id, n + 1) == [id] + Repeat(id, n);
        assert Get(up', k) == Get(up, k) + [id];
        assert (Get(up, k) + [id]) + Repeat(id, n) == Get(up, k) + Repeat(id, n + 1);
      } else {
        assert Count(to, k) == n;
        assert Get(up', k) == Get(up, k);
      }
    }
  }

  /** The two link maps describe the same edges from either end. */
  ghost predicate Linked(down: map<string, seq<string>>, up: map<string, seq<string>>)
  {
    forall a, b :: a in Get(up, b) <==> b in Get(down, a)
  }

  /** AddNode keeps the two maps in step. */
  lemma AddEdgesLinked(down: map<string, seq<string>>, up: map<string, seq<string>>, id: string, to: seq<string>)
    requires Linked(down, up)
    ensures Linked(AddEdges(down, up, id, to).0, AddEdges(down, up, id, to).1)
  {
    var r := AddEdges(down, up, id, to);
    forall a, b
      ensures a in Get(r.1, b) <==> b in Get(r.0, a)
    {
      AddEdgesDown(down, up, id, to, a);
      AddEdgesUp(down, up, id, to, b);
      CountIn(to, b);
      assert a in Get(r.1, b) <==> a in Get(up, b) || (a == id && Count(to, b) > 0);
    }
  }

  /** The nodes without upstream links, in the order they were added. */
  function EntryNodes(ids: seq<string>, up: map<string, seq<string>>): (r: seq<string>)
    decreases |ids|
    ensures |r| <= |ids|
  {
    if ids == [] then []
    else
      var last := ids[|ids| - 1];
      EntryNodes(ids[..|ids| - 1], up) + (if |Get(up, last)| == 0 then [last] else [])
  }

  lemma {:induction false} EntryNodesMembers(ids: seq<string>, up: map<string, seq<string>>, x: string)
    decreases |ids|
    ensures x in EntryNodes(ids, up) <==> x in ids && Get(up, x) == []
  {
    if ids != [] {
      var init := ids[..|ids| - 1];
      EntryNodesMembers(init, up, x);
      assert ids == init + [ids[|ids| - 1]];
    }
  }

  // ---------------------------------------------------------------- cycles

  lemma KeysShrink(keys: set<string>, visited: set<string>, x: string)
    requires x in keys && x !in visited
    ensures |keys - (visited + {x})| < |keys - visited|
  {
    assert keys - (visited + {x}) == (keys - visited) - {x};
  }

  /** validateCycles from id with the nodes already on the path: id is on the path, or
      one of its downstream nodes leads to a cycle with id added to the path. */
  predicate CycleFrom(down: map<string, seq<string>>, id: string, visited: set<string>)
    decreases |down.Keys - visited|
  {
    id in visited ||
    (id in down && (KeysShrink(down.Keys, visited, id);
                    exists c :: c in down[id] && CycleFrom(down, c, visited + {id})))
  }

  predicate IsWalk(down: map<string, seq<string>>, w: seq<string>)
  {
    forall i :: 0 <= i < |w| - 1 ==> w[i + 1] in Get(down, w[i])
  }

  predicate Repeats(w: seq<string>)
  {
    exists i, j :: 0 <= i < j < |w| && w[i] == w[j]
  }

  predicate Distinct(w: seq<string>)
  {
    forall i, j :: 0 <= i < j < |w| ==> w[i] != w[j]
  }

  function Elems(w: seq<string>): set<string>
  {
    set x | x in w
  }

  /** w continues the path pre from id and comes back to a node already on it. */
  predicate ReachesRepeat(down: map<string, seq<string>>, pre: seq<string>, id: string, w: seq<string>)
  {
    |w| > 0 && w[0] == id && IsWalk(down, pre + w) && Repeats(pre + w)
  }

  /** A walk extended by one link is a walk. */
  lemma WalkExtend(down: map<string, seq<string>>, s: seq<string>, c: string)
    requires IsWalk(down, s) && |s| > 0 && c in Get(down, s[|s| - 1])
    ensures IsWalk(down, s + [c])
  {
  }

  /** The first step of a walk continuing pre, taken onto pre, is still a walk. */
  lemma WalkStep(down: map<string, seq<string>>, pre: seq<string>, w: seq<string>)
    requires IsWalk(down, pre + w) && |w| >= 2
    ensures w[1] in Get(down, w[0]) && IsWalk(down, pre + [w[0]] + [w[1]])
  {
    var s := pre + w;
    assert s[|pre|] == w[0] && s[|pre| + 1] == w[1];
    var t := pre + [w[0]] + [w[1]];
    forall i | 0 <= i < |t| - 1
      ensures t[i + 1] in Get(down, t[i])
    {
      assert t[i] == s[i] && t[i + 1] == s[i + 1];
    }
  }

  /** Moving the first step of w onto the path. */
  lemma ShiftStep(pre: seq<string>, w: seq<string>)
    requires |w| >= 1
    ensures (pre + [w[0]]) + w[1..] == pre + w
    ensures |w| >= 2 ==> (pre + [w[0]]) + [w[1]] == (pre + w)[..|pre| + 2]
  {
    assert w == [w[0]] + w[1..];
  }

  /** A walk that repeats a node after the simple path pre + [id] takes at least one more
      step. */
  lemma RepeatNeedsStep(pre: seq<string>, id: string, w: seq<string>)
    requires Distinct(pre) && id !in Elems(pre) && |w| > 0 && w[0] == id && Repeats(pre + w)
    ensures |w| >= 2
  {
    var s := pre + w;
    var i, j :| 0 <= i < j < |s| && s[i] == s[j];
    assert j > |pre| by {
      assert forall k :: 0 <= k < |pre| ==> s[k] == pre[k];
      assert s[|pre|] == id;
    }
  }

  /** With the simple path pre leading to id, a cycle the search reports is a walk from
      id along the links that returns to a node it or pre has visited. */
  lemma {:induction false} CycleFromWalkSound(down: map<string, seq<string>>, pre: seq<string>, id: string)
    requires IsWalk(down, pre + [id]) && Distinct(pre) && CycleFrom(down, id, Elems(pre))
    decreases |down.Keys - Elems(pre)|
    ensures exists w :: ReachesRepeat(down, pre, id, w)
  {
    var v := Elems(pre);
    if id in v {
      var k :| 0 <= k < |pre| && pre[k] == id;
      var s := pre + [id];
      assert s[k] == s[|pre|];
      assert ReachesRepeat(down, pre, id, [id]);
    } else {
      var pre' := pre + [id];
      assert Distinct(pre');
      assert Elems(pre') == v + {id};
      KeysShrink(down.Keys, v, id);
      var c :| c in down[id] && CycleFrom(down, c, v + {id});
      WalkExtend(down, pre', c);
      CycleFromWalkSound(down, pre', c);
      var w' :| ReachesRepeat(down, pre', c, w');
      var w := [id] + w';
      ShiftStep(pre, w);
      assert w[1..] == w';
      assert ReachesRepeat(down, pre, id, w);
    }
  }

  /** Conversely, a walk from id that returns to a visited node makes the search report a
      cycle. */
  lemma {:induction false} CycleFromWalkComplete(down: map<string, seq<string>>, pre: seq<string>, id: string,
                                                 w: seq<string>)
    requires Distinct(pre) && ReachesRepeat(down, pre, id, w)
    decreases |down.Keys - Elems(pre)|
    ensures CycleFrom(down, id, Elems(pre))
  {
    var v := Elems(pre);
    if id !in v {
      var pre' := pre + [id];
      assert Distinct(pre');
      assert Elems(pre') == v + {id};
      RepeatNeedsStep(pre, id, w);
      ShiftStep(pre, w);
      var c := w[1];
      WalkStep(down, pre, w);
      KeysShrink(down.Keys, v, id);
      assert ReachesRepeat(down, pre', c, w[1..]);
      CycleFromWalkComplete(down, pre', c, w[1..]);
    }
  }

  /** From an entry node: a cycle is reported exactly when some walk from it along the
      downstream links visits a node twice. */
  lemma CycleFromEntry(down: map<string, seq<string>>, id: string)
    ensures CycleFrom(down, id, {}) <==> exists w :: ReachesRepeat(down, [], id, w)
  {
    assert Elems([]) == {};
    assert [] + [id] == [id];
    if CycleFrom(down, id, {}) {
      CycleFromWalkSound(down, [], id);
    }
    if w :| ReachesRepeat(down, [], id, w) {
      CycleFromWalkComplete(down, [], id, w);
    }
  }

  /** The visited map validateCycles shares with its recursive calls. */
  class Visited {
    var members: set<string>

    constructor ()
      ensures members == {}
    {
      members := {};
    }
  }

  // ---------------------------------------------------------------- node types

  datatype LinkType = LinkNone | LinkOne | LinkMany

  datatype Descriptor = Descriptor(upstream: LinkType, downstream: LinkType)

  /** A registered node type: its link arity and the actions and signals it declares. */
  datatype NodeRegistration = NodeRegistration(descriptor: Descriptor, actions: map<string, Declaration>,
                                               signals: map<string, Declaration>)

  /** How many links of one direction a link type allows. */
  predicate ArityOk(t: LinkType, n: nat)
  {
    match t
    case LinkNone => n == 0
    case LinkOne => n == 1
    case LinkMany => n >= 1
  }

  function UpstreamError(id: string, t: LinkType, n: nat): (r: Option<string>)
    ensures r.None? <==> ArityOk(t, n)
  {
    match t
    case LinkMany => if n == 0 then Some("node " + id + " has no upstream nodes") else None
    case LinkOne =>
      if n == 0 then Some("node " + id + " has no upstream nodes")
      else if n > 1 then Some("node " + id + " shold only have one upstream node")
      else None
    case LinkNone => if n > 0 then Some("node " + id + " should not have upstream nodes") else None
  }

  function DownstreamError(id: string, t: LinkType, n: nat): (r: Option<string>)
    ensures r.None? <==> ArityOk(t, n)
  {
    match t
    case LinkMany => if n == 0 then Some("node " + id + " has no downstream nodes") else None
    case LinkOne =>
      if n == 0 then Some("node " + id + " has no downstream nodes")
      else if n > 1 then Some("node " + id + " should only have one downstream node")
      else None
    case LinkNone => if n > 0 then Some("node " + id + " should not have downstream nodes") else None
  }

  /** The type name recorded for a node; an unknown node reads as the empty name. */
  function TypeName(nodeTypes: map<string, string>, id: string): string
  {
    if id in nodeTypes then nodeTypes[id] else ""
  }

  /** Validate's test of one node: its type must be registered and its links must fit
      the type's arity, upstream first. */
  function NodeError(types: map<string, NodeRegistration>, nodeTypes: map<string, string>,
                     down: map<string, seq<string>>, up: map<string, seq<string>>, id: string): (r: Option<string>)
    ensures r.None? <==> TypeName(nodeTypes, id) in types &&
                         ArityOk(types[TypeName(nodeTypes, id)].descriptor.upstream, |Get(up, id)|) &&
                         ArityOk(types[TypeName(nodeTypes, id)].descriptor.downstream, |Get(down, id)|)
  {
    var typ := TypeName(nodeTypes, id);
    if typ !in types then Some("failed to get node " + id)
    else
      var meta := types[typ].descriptor;
      var upErr := UpstreamError(id, meta.upstream, |Get(up, id)|);
      if upErr.Some? then upErr else DownstreamError(id, meta.downstream, |Get(down, id)|)
  }

  /** A graph Validate accepts. */
  predicate GraphValid(errors: seq<string>, nodeIDs: seq<string>, types: map<string, NodeRegistration>,
                       nodeTypes: map<string, string>, down: map<string, seq<string>>, up: map<string, seq<string>>)
  {
    errors == [] && nodeIDs != [] &&
    (forall i :: 0 <= i < |nodeIDs| ==> NodeError(types, nodeTypes, down, up, nodeIDs[i]).None?) &&
    EntryNodes(nodeIDs, up) != [] &&
    forall i :: 0 <= i < |EntryNodes(nodeIDs, up)| ==> !CycleFrom(down, EntryNodes(nodeIDs, up)[i], {})
  }

  /** In a valid graph the entry nodes are exactly the nodes whose type takes no upstream
      link, and no walk from an entry node visits a node twice. */
  lemma ValidGraphEntries(errors: seq<string>, nodeIDs: seq<string>, types: map<string, NodeRegistration>,
                          nodeTypes: map<string, string>, down: map<string, seq<string>>, up: map<string, seq<string>>,
                          i: nat)
    requires GraphValid(errors, nodeIDs, types, nodeTypes, down, up) && i < |nodeIDs|
    ensures TypeName(nodeTypes, nodeIDs[i]) in types
    ensures nodeIDs[i] in EntryNodes(nodeIDs, up) <==>
              types[TypeName(nodeTypes, nodeIDs[i])].descriptor.upstream == LinkNone
    ensures nodeIDs[i] in EntryNodes(nodeIDs, up) ==> forall w :: !ReachesRepeat(down, [], nodeIDs[i], w)
  {
    var id := nodeIDs[i];
    assert NodeError(types, nodeTypes, down, up, id).None?;
    EntryNodesMembers(nodeIDs, up, id);
    if id in EntryNodes(nodeIDs, up) {
      var k :| 0 <= k < |EntryNodes(nodeIDs, up)| && EntryNodes(nodeIDs, up)[k] == id;
      CycleFromEntry(down, id);
    }
  }

  // ---------------------------------------------------------------- registry

  /** The actions and signals registered for the nodes of one graph. Creators are
      opaque here: each is a handle. */
  class GraphRegistry {
    var nodeTypes: map<string, string>
    var declarations: map<string, map<string, Declaration>>
    var actions: map<string, map<string, nat>>
    var signals: map<string, map<string, nat>>

    constructor ()
      ensures nodeTypes == map[] && declarations == map[] && actions == map[] && signals == map[]
    {
      nodeTypes := map[];
      declarations := map[];
      actions := map[];
      signals := map[];
    }

    method RegisterAction(types: map<string, NodeRegistration>, nodeID: string, name: string, creator: nat)
      returns (err: Option<string>)
      modifies this
      ensures err == RegisterError(types, old(nodeTypes), old(declarations), nodeID, name, true)
      ensures nodeTypes == old(nodeTypes) && signals == old(signals)
      ensures err.Some? ==> declarations == old(declarations) && actions == old(actions)
      ensures err.None? ==>
                actions == old(actions)[nodeID := Inner(old(actions), nodeID)[name := creator]] &&
                declarations == Declare(old(declarations), nodeID, name, types[nodeTypes[nodeID]].actions[name])
    {
      if nodeID !in nodeTypes {
        return Some("node " + nodeID + " not found");
      }
      var typ := nodeTypes[nodeID];
      if typ !in types {
        return Some("failed to get node " + nodeID);
      }
      if name !in types[typ].actions {
        return Some("action " + name + " is not declared in node type " + typ);
      }
      if nodeID in declarations && name in declarations[nodeID] {
        return Some("identifier " + name + " is already registered in node " + nodeID);
      }
      actions := actions[nodeID := Inner(actions, nodeID)[name := creator]];
      declarations := Declare(declarations, nodeID, name, types[typ].actions[name]);
      return None;
    }

    method RegisterSignal(types: map<string, NodeRegistration>, nodeID: string, name: string, creator: nat)
      returns (err: Option<string>)
      modifies this
      ensures err == RegisterError(types, old(nodeTypes), old(declarations), nodeID, name, false)
      ensures nodeTypes == old(nodeTypes) && actions == old(actions)
      ensures err.Some? ==> declarations == old(declarations) && signals == old(signals)
      ensures err.None? ==>
                signals == old(signals)[nodeID := Inner(old(signals), nodeID)[name := creator]] &&
                declarations == Declare(old(declarations), nodeID, name, types[nodeTypes[nodeID]].signals[name])
    {
      if nodeID !in nodeTypes {
        return Some("node " + nodeID + " not found");
      }
      var typ := nodeTypes[nodeID];
      if typ !in types {
        return Some("failed to get node " + nodeID);
      }
      if name !in types[typ].signals {
        return Some("signal " + name + " is not declared in node type " + typ);
      }
      if nodeID in declarations && name in declarations[nodeID] {
        return Some("identifier " + name + " is already registered in node " + nodeID);
      }
      signals := signals[nodeID := Inner(signals, nodeID)[name := creator]];
      declarations := Declare(declarations, nodeID, name, types[typ].signals[name]);
      return None;
    }
  }

  /** A Go map of maps read at a key: a missing key reads as the empty map. */
  function Inner<T>(m: map<string, map<string, T>>, k: string): map<string, T>
  {
    if k in m then m[k] else map[]
  }

  function Declare(decls: map<string, map<string, Declaration>>, nodeID: string, name: string, d: Declaration)
    : (r: map<string, map<string, Declaration>>)
    ensures nodeID in r && name in r[nodeID]
  {
    decls[nodeID := Inner(decls, nodeID)[name := d]]
  }

  /** Why a registration is refused: an unknown node, an unregistered node type, a name
      its type does not declare (as an action or as a signal), or a name already taken. */
  function RegisterError(types: map<string, NodeRegistration>, nodeTypes: map<string, string>,
                         declarations: map<string, map<string, Declaration>>, nodeID: string, name: string,
                         isAction: bool): (r: Option<string>)
    ensures r.None? <==> nodeID in nodeTypes && nodeTypes[nodeID] in types &&
                         name in (if isAction then types[nodeTypes[nodeID]].actions else types[nodeTypes[nodeID]].signals) &&
                         name !in Inner(declarations, nodeID)
  {
    if nodeID !in nodeTypes then Some("node " + nodeID + " not found")
    else
      var typ := nodeTypes[nodeID];
      if typ !in types then Some("failed to get node " + nodeID)
      else if isAction && name !in types[typ].actions then
        Some("action " + name + " is not declared in node type " + typ)
      else if !isAction && name !in types[typ].signals then
        Some("signal " + name + " is not declared in node type " + typ)
      else if nodeID in declarations && name in declarations[nodeID] then
        Some("identifier " + name + " is already registered in node " + nodeID)
      else None
  }

  /** Actions and signals share one namespace per node: once a name is registered as
      either, registering it again as either is refused, while every other (node, name)
      pair is judged as before. */
  lemma RegisteredNamesAreTaken(types: map<string, NodeRegistration>, nodeTypes: map<string, string>,
                                declarations: map<string, map<string, Declaration>>, nodeID: string,
                                name: string, d: Declaration, nodeID2: string, name2: string, isAction: bool)
    ensures RegisterError(types, nodeTypes, Declare(declarations, nodeID, name, d), nodeID, name, isAction).Some?
    ensures (nodeID2, name2) != (nodeID, name) ==>
              RegisterError(types, nodeTypes, Declare(declarations, nodeID, name, d), nodeID2, name2, isAction) ==
              RegisterError(types, nodeTypes, declarations, nodeID2, name2, isAction)
  {
  }

  // ---------------------------------------------------------------- identifiers

  /** A component name, owned by a node ("$node.name") or global ("name"). */
  datatype Identifier = Identifier(name: string, nodeID: Option<string>)

  /** parseIdentifier: "$node.name" must split into exactly two parts on '.'; anything
      else must contain no '.' at all and is a global name. */
  function ParseIdentifier(ident: string): (r: Result<Identifier>)
    ensures !r.Panic?
  {
    var parts := Split(ident, '.');
    if |ident| > 0 && ident[0] == '$' then
      if |parts| != 2 then Err("invalid identifier: " + ident)
      else
        assert parts[0] == [ident[0]] + Split(ident[1..], '.')[0];
        Ok(Identifier(parts[1], Some(parts[0][1..])))
    else if |parts| != 1 then Err("invalid identifier")
    else Ok(Identifier(ident, None))
  }

  /** The text an identifier is written as. */
  function FormatIdentifier(i: Identifier): string
  {
    match i.nodeID
    case Some(node) => "$" + node + "." + i.name
    case None => i.name
  }

  /** Every accepted identifier is the text of what it parses to. */
  lemma ParseIdentifierFormats(ident: string)
    ensures ParseIdentifier(ident).Ok? ==> FormatIdentifier(ParseIdentifier(ident).value) == ident
  {
    var parts := Split(ident, '.');
    SplitJoin(ident, '.');
    if |ident| > 0 && ident[0] == '$' && |parts| == 2 {
      assert parts[0] == [ident[0]] + Split(ident[1..], '.')[0];
      assert Join(parts, '.') == parts[0] + ['.'] + parts[1];
      assert parts[0] == "$" + parts[0][1..];
    }
  }

  /** An identifier whose parts contain no '.', and whose global name does not start with
      '$', parses back from its text. */
  lemma FormatIdentifierParses(i: Identifier)
    requires '.' !in i.name
    requires i.nodeID.Some? ==> '.' !in i.nodeID.value
    requires i.nodeID.None? ==> |i.name| == 0 || i.name[0] != '$'
    ensures ParseIdentifier(FormatIdentifier(i)) == Ok(i)
  {
    SplitSingle(i.name, '.');
    if i.nodeID.Some? {
      var node := i.nodeID.value;
      assert '.' !in "$" + node;
      SplitAt("$" + node, '.', i.name);
      assert "$" + node + "." + i.name == ("$" + node) + ['.'] + i.name;
    }
  }

  // ---------------------------------------------------------------- builder

  /** GraphBuilder: the nodes in the order they were added, the links in both directions,
      and the registry that records each node's type. */
  class GraphBuilder {
    const registry: GraphRegistry
    var nodeIDs: seq<string>
    var edgesDown: map<string, seq<string>>
    var edgesUp: map<string, seq<string>>
    var errors: seq<string>

    constructor (registry: GraphRegistry)
      ensures this.registry == registry
      ensures nodeIDs == [] && edgesDown == map[] && edgesUp == map[] && errors == []
    {
      this.registry := registry;
      nodeIDs := [];
      edgesDown := map[];
      edgesUp := map[];
      errors := [];
    }

    /** Adds a node of type typ linked downstream to the nodes in `to`. */
    method AddNode(typ: string, id: string, to: seq<string>)
      modifies this, registry
      ensures nodeIDs == old(nodeIDs) + [id] && errors == old(errors)
      ensures registry.nodeTypes == old(registry.nodeTypes)[id := typ]
      ensures registry.declarations == old(registry.declarations)
      ensures registry.actions == old(registry.actions) && registry.signals == old(registry.signals)
      ensures (edgesDown, edgesUp) == AddEdges(old(edgesDown), old(edgesUp), id, to)
    {
      nodeIDs := nodeIDs + [id];
      registry.nodeTypes := registry.nodeTypes[id := typ];
      var i := 0;
      while i < |to|
        invariant 0 <= i <= |to| && nodeIDs == old(nodeIDs) + [id] && errors == old(errors)
        invariant registry.nodeTypes == old(registry.nodeTypes)[id := typ]
        invariant registry.declarations == old(registry.declarations)
        invariant registry.actions == old(registry.actions) && registry.signals == old(registry.signals)
        invariant AddEdges(edgesDown, edgesUp, id, to[i..]) == AddEdges(old(edgesDown), old(edgesUp), id, to)
      {
        assert to[i..][1..] == to[i + 1..];
        var toID := to[i];
        edgesDown := edgesDown[id := Get(edgesDown, id) + [toID]];
        edgesUp := edgesUp[toID := Get(edgesUp, toID) + [id]];
        i := i + 1;
      }
      assert to[i..] == [];
    }

    method EntryNodeIDs() returns (ids: seq<string>)
      ensures ids == EntryNodes(nodeIDs, edgesUp)
    {
      ids := [];
      var i := 0;
      while i < |nodeIDs|
        invariant 0 <= i <= |nodeIDs| && ids == EntryNodes(nodeIDs[..i], edgesUp)
      {
        assert nodeIDs[..i + 1][..i] == nodeIDs[..i];
        if |Get(edgesUp, nodeIDs[i])| == 0 {
          ids := ids + [nodeIDs[i]];
        }
        i := i + 1;
      }
      assert nodeIDs[..i] == nodeIDs;
    }

    /** validateCycles: id is marked on the shared visited set, each downstream node is
        searched in turn, and the mark is removed again when no cycle was found. */
    method ValidateCycles(id: string, visited: Visited) returns (err: Option<string>)
      modifies visited
      decreases |edgesDown.Keys - visited.members|
      ensures err.Some? <==> CycleFrom(edgesDown, id, old(visited.members))
      ensures err.None? ==> visited.members == old(visited.members)
    {
      if id in visited.members {
        return Some("cycle detected: " + id);
      }
      visited.members := visited.members + {id};
      var children := Get(edgesDown, id);
      var i := 0;
      while i < |children|
        invariant 0 <= i <= |children| && visited.members == old(visited.members) + {id}
        invariant forall k :: 0 <= k < i ==> !CycleFrom(edgesDown, children[k], old(visited.members) + {id})
      {
        KeysShrink(edgesDown.Keys, old(visited.members), id);
        var e := ValidateCycles(children[i], visited);
        if e.Some? {
          return e;
        }
        i := i + 1;
      }
      visited.members := visited.members - {id};
      assert visited.members == old(visited.members);
      return None;
    }

    /** Validate's loop over the nodes. */
    method CheckNodes(types: map<string, NodeRegistration>) returns (err: Option<string>)
      ensures err.None? <==>
                forall i :: 0 <= i < |nodeIDs| ==> NodeError(types, registry.nodeTypes, edgesDown, edgesUp, nodeIDs[i]).None?
    {
      var i := 0;
      while i < |nodeIDs|
        invariant 0 <= i <= |nodeIDs|
        invariant forall k :: 0 <= k < i ==> NodeError(types, registry.nodeTypes, edgesDown, edgesUp, nodeIDs[k]).None?
      {
        var id := nodeIDs[i];
        var typ := TypeName(registry.nodeTypes, id);
        if typ !in types {
          return Some("failed to get node " + id);
        }
        var meta := types[typ].descriptor;
        var upErr := UpstreamError(id, meta.upstream, |Get(edgesUp, id)|);
        if upErr.Some? {
          return upErr;
        }
        var downErr := DownstreamError(id, meta.downstream, |Get(edgesDown, id)|);
        if downErr.Some? {
          return downErr;
        }
        i := i + 1;
      }
      return None;
    }

    /** Validate's loop over the entry nodes, each searched with a fresh visited set. */
    method CheckCycles(entries: seq<string>) returns (err: Option<string>)
      ensures err.None? <==> forall i :: 0 <= i < |entries| ==> !CycleFrom(edgesDown, entries[i], {})
    {
      var i := 0;
      while i < |entries|
        invariant 0 <= i <= |entries|
        invariant forall k :: 0 <= k < i ==> !CycleFrom(edgesDown, entries[k], {})
      {
        var visited := new Visited();
        var e := ValidateCycles(entries[i], visited);
        if e.Some? {
          return Some("cycle detected: " + e.value);
        }
        i := i + 1;
      }
      return None;
    }

    /** Validate: no recorded errors, at least one node, every node's links fit its type,
        at least one entry node, and no cycle reachable from an entry node. */
    method Validate(types: map<string, NodeRegistration>) returns (err: Option<string>)
      ensures err.None? <==> GraphValid(errors, nodeIDs, types, registry.nodeTypes, edgesDown, edgesUp)
      ensures errors == [] && nodeIDs == [] ==> err == Some("no nodes")
    {
      if |errors| > 0 {
        return Some("errors");
      }
      if |nodeIDs| == 0 {
        return Some("no nodes");
      }
      err := CheckNodes(types);
      if err.Some? {
        return err;
      }
      var entries := EntryNodeIDs();
      if |entries| == 0 {
        return Some("no entry nodes");
      }
      err := CheckCycles(entries);
    }
  }

  // ---------------------------------------------------------------- reconfiguration

  /** What Configure touches: the nodes with a runner, the configuration recorded for
      each node, and the configuration each running node has accepted. */
  datatype ConfigState = ConfigState(runners: set<string>, configs: map<string, seq<bv8>>,
                                     active: map<string, seq<bv8>>)

  /** Graph.Configure as written. makeErr and configureErr are the outcomes of creating a
      fresh node and of that node's (or the running node's) Configure. The new
      configuration is recorded before either can fail. */
  function ConfigureAsWritten(s: ConfigState, nodeID: string, config: seq<bv8>,
                              makeErr: Option<string>, configureErr: Option<string>)
    : (r: (Option<string>, ConfigState))
    ensures r.0.None? && nodeID in s.runners ==> nodeID in r.1.configs && r.1.configs[nodeID] == config
  {
    if nodeID !in s.runners then (Some("node " + nodeID + " not found"), s)
    else if nodeID in s.configs then
      if s.configs[nodeID] == config then (None, s)
      else
        var s' := s.(configs := s.configs[nodeID := config]);
        if makeErr.Some? then (Some("failed to create node " + nodeID + ": " + makeErr.value), s')
        else if configureErr.Some? then (Some("failed to configure node " + nodeID + ": " + configureErr.value), s')
        else (None, s'.(active := s.active[nodeID := config]))
    else
      var s' := s.(configs := s.configs[nodeID := config]);
      if configureErr.Some? then (configureErr, s')
      else (None, s'.(active := s.active[nodeID := config]))
  }

  /** The recorded configuration of each node is the one its running node accepted. */
  predicate InSync(s: ConfigState)
  {
    forall id :: id in s.configs ==> id in s.active && s.active[id] == s.configs[id]
  }

  /** As written, a reconfiguration that fails still records the new configuration, so
      sending the same configuration again reports success while the node keeps running
      the old one. */
  lemma ConfigureRetryIsStale()
    ensures var s0 := ConfigState({"n"}, map["n" := [1]], map["n" := [1]]);
            var first := ConfigureAsWritten(s0, "n", [2], None, Some("bad value"));
            var second := ConfigureAsWritten(first.1, "n", [2], None, None);
            InSync(s0) && first.0.Some? && second.0 == None && second.1.active["n"] != [2] && !InSync(second.1)
  {
  }

  /** Configure with the configuration recorded only once the node has accepted it. */
  function ConfigureCommitted(s: ConfigState, nodeID: string, config: seq<bv8>,
                              makeErr: Option<string>, configureErr: Option<string>)
    : (r: (Option<string>, ConfigState))
  {
    if nodeID !in s.runners then (Some("node " + nodeID + " not found"), s)
    else if nodeID in s.configs && s.configs[nodeID] == config then (None, s)
    else if nodeID in s.configs && makeErr.Some? then (Some("failed to create node " + nodeID + ": " + makeErr.value), s)
    else if configureErr.Some? then
      (if nodeID in s.configs then Some("failed to configure node " + nodeID + ": " + configureErr.value)
       else configureErr, s)
    else (None, s.(configs := s.configs[nodeID := config], active := s.active[nodeID := config]))
  }

  /** With the commit moved after success, the recorded configurations stay in sync with
      the running nodes, a success means the node runs the given configuration, a failure
      changes nothing, and the outcome (error or not) is the one as written. */
  lemma ConfigureCommittedKeepsSync(s: ConfigState, nodeID: string, config: seq<bv8>,
                                    makeErr: Option<string>, configureErr: Option<string>)
    requires InSync(s)
    ensures var r := ConfigureCommitted(s, nodeID, config, makeErr, configureErr);
            InSync(r.1) &&
            (r.0.None? && nodeID in s.runners ==> r.1.active[nodeID] == config) &&
            (r.0.Some? ==> r.1 == s) &&
            r.0 == ConfigureAsWritten(s, nodeID, config, makeErr, configureErr).0
  {
  }

  /** The running graph's view of Configure. */
  class Graph {
    var runners: set<string>
    var configs: map<string, seq<bv8>>
    var active: map<string, seq<bv8>>

    function State(): ConfigState
      reads this
    {
      ConfigState(runners, configs, active)
    }

    /** Configure as written: an unknown node is an error, a configuration byte-equal to
        the recorded one is a no-op, otherwise the configuration is recorded and a fresh
        node configured with it replaces the running one; the first configuration goes to
        the running node itself. */
    method Configure(nodeID: string, config: seq<bv8>, makeErr: Option<string>, configureErr: Option<string>)
      returns (err: Option<string>)
      modifies this
      ensures (err, State()) == ConfigureAsWritten(old(State()), nodeID, config, makeErr, configureErr)
    {
      if nodeID !in runners {
        return Some("node " + nodeID + " not found");
      }
      if nodeID in configs {
        if configs[nodeID] == config {
          return None;
        }
        configs := configs[nodeID := config];
        if makeErr.Some? {
          return Some("failed to create node " + nodeID + ": " + makeErr.value);
        }
        if configureErr.Some? {
          return Some("failed to configure node " + nodeID + ": " + configureErr.value);
        }
        active := active[nodeID := config];
        return None;
      }
      configs := configs[nodeID := config];
      if configureErr.Some? {
        return configureErr;
      }
      active := active[nodeID := config];
      return None;
    }
  }
}
