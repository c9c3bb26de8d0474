/** What every run of the accessibility tree filter guarantees: `include/axiom/cdp.hpp`. */
module AxTreeLaws {
  import opened Search
  import opened JsonScan
  import opened AxTree

  // ----- Handles -----

  /** The non-zero handles, in the order of the nodes. */
  function Handles(nodes: seq<AXNode>): seq<nat>
    decreases nodes
  {
    if nodes == [] then []
    else Handles(nodes[..|nodes| - 1]) + (if nodes[|nodes| - 1].handle == 0 then [] else [nodes[|nodes| - 1].handle])
  }

  /** 1, 2, ..., k. */
  function OneTo(k: nat): (s: seq<nat>)
    ensures |s| == k
  {
    if k == 0 then [] else OneTo(k - 1) + [k]
  }

  /** No further handle can be given out. */
  predicate Exhausted(t: Tree) { t.handle + 1 >= MAX_HANDLES || t.handle + 1 >= |t.map_| }

  predicate NodeAgrees(t: Tree, n: AXNode) {
    && (n.handle != 0 ==>
         && n.actionable && n.handle <= |Handles(t.nodes)| && n.handle < |t.map_| && n.handle < MAX_HANDLES
         && t.map_[n.handle] == n.backendDomNodeId)
    && (n.handle == 0 && n.actionable ==> Exhausted(t))
  }

  /** k handles are in use; a refused node may have taken one more. */
  predicate HandleLaw(t: Tree) {
    var k := |Handles(t.nodes)|;
    && Handles(t.nodes) == OneTo(k)
    && (t.handle == k || (t.full && t.handle == k + 1))
    && (t.handle > 0 ==> t.handle < |t.map_| && t.handle < MAX_HANDLES)
    && (forall i :: 0 <= i < |t.nodes| ==> NodeAgrees(t, t.nodes[i]))
    && (forall h :: 0 <= h < |t.map_| && (h == 0 || h > t.handle) ==> t.map_[h] == 0)
  }

  // ----- Repeated texts -----

  /** No earlier node has the node's name as its name or value. */
  predicate IsNew(nodes: seq<AXNode>, i: nat)
    requires i < |nodes|
  {
    forall j :: 0 <= j < i ==> nodes[j].name != nodes[i].name && nodes[j].value != nodes[i].name
  }

  /** No StaticText node is empty or repeats the name or value of an earlier node. */
  predicate TextsAreNew(nodes: seq<AXNode>) {
    forall i :: 0 <= i < |nodes| && nodes[i].role == "StaticText" ==> nodes[i].name != "" && IsNew(nodes, i)
  }

  // ----- Printed text -----

  function Joined(pieces: seq<string>): string
    decreases pieces
  {
    if pieces == [] then "" else pieces[0] + Joined(pieces[1..])
  }

  /** The printed tree: one line for each node that has something to say. */
  function Rendered(nodes: seq<AXNode>): string
    decreases nodes
  {
    if nodes == [] then "" else Rendered(nodes[..|nodes| - 1]) + Joined(Pieces(nodes[|nodes| - 1]))
  }

  predicate TextLaw(t: Tree, cap: nat) {
    |t.text| <= cap && (|Rendered(t.nodes)| <= cap ==> t.text == Rendered(t.nodes))
  }

  lemma {:induction false} AppendAllFits(text: string, pieces: seq<string>, cap: nat)
    requires |text| <= cap
    ensures |AppendAll(text, pieces, cap)| <= cap
    ensures |text| + |Joined(pieces)| <= cap ==> AppendAll(text, pieces, cap) == text + Joined(pieces)
    decreases |pieces|
  {
    if pieces != [] {
      var next := if |text| + |pieces[0]| <= cap then text + pieces[0] else text;
      AppendAllFits(next, pieces[1..], cap);
      assert (text + pieces[0]) + Joined(pieces[1..]) == text + (pieces[0] + Joined(pieces[1..]));
    }
  }

  // ----- Every step keeps the laws -----

  predicate Lawful(t: Tree, cap: nat) {
    HandleLaw(t) && TextsAreNew(t.nodes) && TextLaw(t, cap) && |t.nodes| <= MAX_AX_NODES
  }

  /** The node as it is stored. */
  function Stored(t: Tree, obj: string): AXNode {
    if Grants(t, MakeNode(obj)) then MakeNode(obj).(handle := t.handle + 1) else MakeNode(obj)
  }

  lemma HandlesSnoc(nodes: seq<AXNode>, n: AXNode)
    ensures Handles(nodes + [n]) == Handles(nodes) + if n.handle == 0 then [] else [n.handle]
  {
    assert (nodes + [n])[..|nodes|] == nodes;
  }

  lemma OneToSnoc(k: nat)
    ensures OneTo(k + 1) == OneTo(k) + [k + 1]
  {
  }

  lemma StepKeepsHandles(t: Tree, obj: string, cap: nat)
    requires HandleLaw(t) && !t.full
    ensures HandleLaw(Step(t, obj, cap))
  {
    hide Skipped, MakeNode, AppendAll, Pieces, IsActionableRole, Handles, OneTo;
    if !Skipped(t.nodes, obj) {
      if |t.nodes| < MAX_AX_NODES {
        ListingKeepsHandles(t, obj, cap);
      } else {
        RefusalKeepsHandles(t, obj, cap);
      }
    }
  }

  lemma RefusalKeepsHandles(t: Tree, obj: string, cap: nat)
    requires HandleLaw(t) && !t.full && !Skipped(t.nodes, obj) && |t.nodes| >= MAX_AX_NODES
    ensures HandleLaw(Step(t, obj, cap))
  {
    hide Skipped, MakeNode, AppendAll, Pieces, IsActionableRole, Handles, OneTo;
    var u := Step(t, obj, cap);
    forall i | 0 <= i < |u.nodes| ensures NodeAgrees(u, u.nodes[i]) {
      assert NodeAgrees(t, t.nodes[i]);
    }
  }

  lemma ListingKeepsHandles(t: Tree, obj: string, cap: nat)
    requires HandleLaw(t) && !t.full && !Skipped(t.nodes, obj) && |t.nodes| < MAX_AX_NODES
    ensures HandleLaw(Step(t, obj, cap))
  {
    hide Skipped, MakeNode, AppendAll, Pieces, IsActionableRole, Handles, OneTo;
    var n, u := Stored(t, obj), Step(t, obj, cap);
    MakeNodeFacts(obj);
    assert u.nodes == t.nodes + [n];
    HandlesSnoc(t.nodes, n);
    OneToSnoc(t.handle);
    forall i | 0 <= i < |u.nodes| ensures NodeAgrees(u, u.nodes[i]) {
      if i < |t.nodes| {
        assert NodeAgrees(t, t.nodes[i]);
      }
    }
  }

  lemma MakeNodeFacts(obj: string)
    ensures var n := MakeNode(obj);
            n.handle == 0 && n.role == FieldStr(obj, "\"role\"") && n.name == FieldStr(obj, "\"name\"")
            && n.actionable == IsActionableRole(n.role)
  {
  }

  lemma StepKeepsTexts(t: Tree, obj: string, cap: nat)
    requires TextsAreNew(t.nodes)
    ensures TextsAreNew(Step(t, obj, cap).nodes)
  {
    hide MakeNode, AppendAll, FieldStr, FieldBool;
    var n, u := Stored(t, obj), Step(t, obj, cap);
    MakeNodeFacts(obj);
    if !Skipped(t.nodes, obj) && |t.nodes| < MAX_AX_NODES {
      assert u.nodes == t.nodes + [n];
      forall i | 0 <= i < |u.nodes| && u.nodes[i].role == "StaticText"
        ensures u.nodes[i].name != "" && IsNew(u.nodes, i)
      {
        if i < |t.nodes| {
          assert IsNew(t.nodes, i);
        }
      }
    }
  }

  lemma StepKeepsText(t: Tree, obj: string, cap: nat)
    requires TextLaw(t, cap)
    ensures TextLaw(Step(t, obj, cap), cap)
  {
    hide MakeNode, Skipped, Pieces;
    var n, u := Stored(t, obj), Step(t, obj, cap);
    if !Skipped(t.nodes, obj) && |t.nodes| < MAX_AX_NODES {
      assert u.nodes == t.nodes + [n];
      assert u.nodes[..|u.nodes| - 1] == t.nodes;
      AppendAllFits(t.text, Pieces(n), cap);
    }
  }

  lemma {:induction false} FilterAllKeepsLaws(t: Tree, objs: seq<string>, cap: nat)
    requires Lawful(t, cap)
    ensures Lawful(FilterAll(t, objs, cap), cap)
    decreases |objs|
  {
    hide Step, HandleLaw, TextsAreNew, TextLaw;
    if objs != [] && !t.full {
      StepKeepsHandles(t, objs[0], cap);
      StepKeepsTexts(t, objs[0], cap);
      StepKeepsText(t, objs[0], cap);
      StepCounts(t, objs[0], cap);
      FilterAllKeepsLaws(Step(t, objs[0], cap), objs[1..], cap);
    }
  }

  lemma StepCounts(t: Tree, obj: string, cap: nat)
    requires |t.nodes| <= MAX_AX_NODES
    ensures |Step(t, obj, cap).nodes| <= MAX_AX_NODES && |Step(t, obj, cap).map_| == |t.map_|
  {
  }

  lemma EmptyIsLawful(handles: nat, cap: nat)
    ensures Lawful(Empty(handles), cap)
  {
  }

  // ----- For every input text -----

  /** On any text, the filter's outputs obey the three laws. */
  lemma FilterIsLawful(json: string, handles: nat, cap: nat)
    ensures Filtered(json, handles, cap).Some? ==> Lawful(Filtered(json, handles, cap).value, cap)
  {
    hide Lawful, Slices, FilterAll;
    if NodesText(json).Some? {
      EmptyIsLawful(handles, cap);
      FilterAllKeepsLaws(Empty(handles), Slices(NodesText(json).value), cap);
    }
  }

  /** `CdpBridge::click` and `type_text`: the backend node that a handle resolves to. */
  function Target(map_: seq<int>, handle: nat): Option<int> {
    if handle == 0 || handle >= |map_| then None
    else if map_[handle] == 0 then None
    else Some(map_[handle])
  }

  /** The node with handle h is the h-th of those that have one. */
  lemma {:induction false} HandleHasNode(nodes: seq<AXNode>, h: nat)
    requires Handles(nodes) == OneTo(|Handles(nodes)|) && 0 < h <= |Handles(nodes)|
    ensures exists i :: 0 <= i < |nodes| && nodes[i].handle == h
    decreases |nodes|
  {
    var last, before := nodes[|nodes| - 1], nodes[..|nodes| - 1];
    var k := |Handles(nodes)|;
    assert OneTo(k)[k - 1] == k && OneTo(k)[..k - 1] == OneTo(k - 1);
    if last.handle == h {
    } else {
      if last.handle != 0 {
        assert Handles(nodes)[..k - 1] == Handles(before) && Handles(nodes)[k - 1] == last.handle;
      }
      HandleHasNode(before, h);
      var i :| 0 <= i < |before| && before[i].handle == h;
      assert nodes[i] == before[i];
    }
  }

  /** A later click on a handle hits exactly the node that was printed with it: every printed
      handle resolves to its node, and, unless nodes were refused, every handle that resolves
      belongs to a node of the list. */
  lemma ClicksHitTheirNodes(json: string, handles: nat, cap: nat)
    requires Filtered(json, handles, cap).Some?
    ensures var t := Filtered(json, handles, cap).value;
            && (forall n :: n in t.nodes && n.handle != 0 && n.backendDomNodeId != 0 ==>
                  Target(t.map_, n.handle) == Some(n.backendDomNodeId))
            && (!t.full ==> forall h :: Target(t.map_, h).Some? ==>
                  exists n :: n in t.nodes && n.handle == h && Target(t.map_, h) == Some(n.backendDomNodeId))
  {
    hide Filtered;
    FilterIsLawful(json, handles, cap);
    var t := Filtered(json, handles, cap).value;
    forall n | n in t.nodes && n.handle != 0 && n.backendDomNodeId != 0
      ensures Target(t.map_, n.handle) == Some(n.backendDomNodeId)
    {
      var i :| 0 <= i < |t.nodes| && t.nodes[i] == n;
      assert NodeAgrees(t, t.nodes[i]);
    }
    if !t.full {
      forall h: nat | Target(t.map_, h).Some?
        ensures exists n :: n in t.nodes && n.handle == h && Target(t.map_, h) == Some(n.backendDomNodeId)
      {
        HandleHasNode(t.nodes, h);
        var i :| 0 <= i < |t.nodes| && t.nodes[i].handle == h;
        assert NodeAgrees(t, t.nodes[i]);
      }
    }
  }

  /** A refused node leaves a handle behind that no listed node has, exactly when it was
      actionable and handles were left. */
  lemma RefusedNodeKeepsHandle(t: Tree, obj: string, cap: nat)
    requires HandleLaw(t) && !t.full && |t.nodes| == MAX_AX_NODES && !Skipped(t.nodes, obj)
    ensures var u := Step(t, obj, cap);
            var k := |Handles(u.nodes)|;
            && u.nodes == t.nodes && u.full
            && (u.handle == k + 1 <==> MakeNode(obj).actionable && !Exhausted(t))
            && (u.handle == k + 1 ==> u.map_[k + 1] == MakeNode(obj).backendDomNodeId)
  {
    hide Skipped, MakeNode, AppendAll;
  }

  // ----- The first object that the node list refuses -----

  /** Object i is refused: it is not left out, and the objects before it have filled the node list. */
  predicate Refused(objs: seq<string>, i: nat, handles: nat, cap: nat) {
    && i < |objs|
    && var t := FilterAll(Empty(handles), objs[..i], cap);
       !t.full && |t.nodes| == MAX_AX_NODES && !Skipped(t.nodes, objs[i])
  }

  lemma {:induction false} FilterAllSplit(t: Tree, objs: seq<string>, i: nat, cap: nat)
    requires i <= |objs|
    ensures FilterAll(t, objs, cap) == FilterAll(FilterAll(t, objs[..i], cap), objs[i..], cap)
    decreases |objs|
  {
    hide Step;
    if i == 0 || t.full {
      assert objs[0..] == objs;
    } else {
      assert objs[1..][..i - 1] == objs[..i][1..] && objs[1..][i - 1..] == objs[i..];
      FilterAllSplit(Step(t, objs[0], cap), objs[1..], i - 1, cap);
    }
  }

  /** A refused object ends the filtering. */
  lemma RefusedIsLast(objs: seq<string>, i: nat, handles: nat, cap: nat)
    requires Refused(objs, i, handles, cap)
    ensures FilterAll(Empty(handles), objs, cap) == Step(FilterAll(Empty(handles), objs[..i], cap), objs[i], cap)
    ensures FilterAll(Empty(handles), objs, cap).full
  {
    hide MakeNode, Skipped;
    FilterAllSplit(Empty(handles), objs, i, cap);
  }

  /** The filtering ends early only at a refused object. */
  lemma {:induction false} FullHasRefused(objs: seq<string>, handles: nat, cap: nat) returns (i: nat)
    requires FilterAll(Empty(handles), objs, cap).full
    ensures Refused(objs, i, handles, cap)
    decreases |objs|
  {
    hide MakeNode, Skipped, Refused;
    var n := |objs| - 1;
    var before := FilterAll(Empty(handles), objs[..n], cap);
    FilterAllSplit(Empty(handles), objs, n, cap);
    if before.full {
      i := FullHasRefused(objs[..n], handles, cap);
      RefusedEarlier(objs, n, i, handles, cap);
    } else {
      i := n;
      NewlyFull(objs, handles, cap);
    }
  }

  lemma RefusedEarlier(objs: seq<string>, n: nat, i: nat, handles: nat, cap: nat)
    requires n <= |objs| && Refused(objs[..n], i, handles, cap)
    ensures Refused(objs, i, handles, cap)
  {
    assert objs[..n][..i] == objs[..i];
  }

  lemma NewlyFull(objs: seq<string>, handles: nat, cap: nat)
    requires objs != [] && FilterAll(Empty(handles), objs, cap).full
    requires !FilterAll(Empty(handles), objs[..|objs| - 1], cap).full
    ensures Refused(objs, |objs| - 1, handles, cap)
  {
    var n := |objs| - 1;
    FilterAllSplit(Empty(handles), objs, n, cap);
    EmptyIsLawful(handles, cap);
    FilterAllKeepsLaws(Empty(handles), objs[..n], cap);
    hide MakeNode, Skipped, HandleLaw, TextsAreNew, TextLaw;
    assert objs[n..] == [objs[n]] && [objs[n]][1..] == [];
  }

  lemma {:induction false} FilterAllCounts(t: Tree, objs: seq<string>, cap: nat)
    ensures |FilterAll(t, objs, cap).map_| == |t.map_|
    decreases |objs|
  {
    hide MakeNode, Skipped;
    if objs != [] && !t.full {
      FilterAllCounts(Step(t, objs[0], cap), objs[1..], cap);
    }
  }

  /** Every handle that resolves is the handle of a listed node with that backend id. */
  predicate ResolvesToListed(t: Tree, h: nat) {
    Target(t.map_, h).Some? ==>
      exists i :: 0 <= i < |t.nodes| && t.nodes[i].handle == h && Target(t.map_, h) == Some(t.nodes[i].backendDomNodeId)
  }

  ghost predicate ClicksHitListed(t: Tree) { forall h: nat :: ResolvesToListed(t, h) }

  lemma ListedHandleResolves(t: Tree, h: nat)
    requires HandleLaw(t) && 0 < h <= |Handles(t.nodes)|
    ensures ResolvesToListed(t, h)
  {
    hide Handles;
    HandleHasNode(t.nodes, h);
    var i :| 0 <= i < |t.nodes| && t.nodes[i].handle == h;
    assert NodeAgrees(t, t.nodes[i]);
  }

  /** The objects that the filter cuts out of a text. */
  function Objects(json: string): seq<string>
    requires NodesText(json).Some?
  {
    Slices(NodesText(json).value)
  }

  function HandleCount(t: Tree): nat { |Handles(t.nodes)| }

  /** A node refused behind k listed handles takes none: it is not actionable, no handle is left, or its
      backend id is 0, so that its handle never resolves. */
  predicate LeavesNoTrace(n: AXNode, k: nat, handles: nat) {
    !n.actionable || k + 1 >= MAX_HANDLES || k + 1 >= handles || n.backendDomNodeId == 0
  }

  /** On any text, a click on any handle hits a listed node or nothing, if and only if the object that the
      full node list refused, if there is one, is not actionable, or had no handle left, or has backend
      id 0. */
  lemma ClicksAreExact(json: string, handles: nat, cap: nat)
    requires NodesText(json).Some?
    ensures var t, objs := Filtered(json, handles, cap).value, Objects(json);
            ClicksHitListed(t) <==>
            forall i: nat :: Refused(objs, i, handles, cap) ==>
              LeavesNoTrace(MakeNode(objs[i]), HandleCount(t), handles)
  {
    hide Slices, FilterAll, Handles, MakeNode, Skipped, NodesText, Lawful, ResolvesToListed, HandleLaw, LeavesNoTrace;
    var objs, t := Objects(json), Filtered(json, handles, cap).value;
    if t.full {
      var i := FullHasRefused(objs, handles, cap);
      RefusedResolves(objs, i, handles, cap);
      var k := HandleCount(t);
      if LeavesNoTrace(MakeNode(objs[i]), k, handles) {
        forall j: nat | Refused(objs, j, handles, cap) ensures LeavesNoTrace(MakeNode(objs[j]), k, handles) {
          RefusedOnce(objs, i, j, handles, cap);
        }
      }
    } else {
      forall i: nat | Refused(objs, i, handles, cap) ensures false {
        RefusedIsLast(objs, i, handles, cap);
      }
      forall h: nat ensures ResolvesToListed(t, h) {
        UnrefusedResolves(objs, handles, cap, h);
      }
    }
  }

  lemma UnrefusedResolves(objs: seq<string>, handles: nat, cap: nat, h: nat)
    requires !FilterAll(Empty(handles), objs, cap).full
    ensures ResolvesToListed(FilterAll(Empty(handles), objs, cap), h)
  {
    hide FilterAll, Handles;
    var t := FilterAll(Empty(handles), objs, cap);
    EmptyIsLawful(handles, cap);
    FilterAllKeepsLaws(Empty(handles), objs, cap);
    if Target(t.map_, h).Some? {
      ListedHandleResolves(t, h);
    }
  }

  /** At most one object is refused. */
  lemma RefusedOnce(objs: seq<string>, i: nat, j: nat, handles: nat, cap: nat)
    requires Refused(objs, i, handles, cap) && Refused(objs, j, handles, cap)
    ensures i == j
  {
    if i < j {
      RefusedBefore(objs, i, j, handles, cap);
    } else if j < i {
      RefusedBefore(objs, j, i, handles, cap);
    }
  }

  lemma RefusedBefore(objs: seq<string>, i: nat, j: nat, handles: nat, cap: nat)
    requires Refused(objs, i, handles, cap) && i < j <= |objs|
    ensures FilterAll(Empty(handles), objs[..j], cap).full
  {
    hide FilterAll, Skipped;
    assert objs[..j][..i] == objs[..i];
    RefusedIsLast(objs[..j], i, handles, cap);
  }

  /** With a refused object, the handle behind the last listed one is the only one that may resolve to no
      listed node. */
  lemma RefusedResolves(objs: seq<string>, i: nat, handles: nat, cap: nat)
    requires Refused(objs, i, handles, cap)
    ensures var t := FilterAll(Empty(handles), objs, cap);
            ClicksHitListed(t) <==> LeavesNoTrace(MakeNode(objs[i]), HandleCount(t), handles)
  {
    hide FilterAll, Handles, MakeNode, Skipped;
    var before, t := FilterAll(Empty(handles), objs[..i], cap), FilterAll(Empty(handles), objs, cap);
    var k := |Handles(t.nodes)|;
    EmptyIsLawful(handles, cap);
    FilterAllKeepsLaws(Empty(handles), objs[..i], cap);
    FilterAllKeepsLaws(Empty(handles), objs, cap);
    FilterAllCounts(Empty(handles), objs[..i], cap);
    RefusedIsLast(objs, i, handles, cap);
    RefusedNodeKeepsHandle(before, objs[i], cap);
    hide Step;
    forall h: nat | h != k + 1 ensures ResolvesToListed(t, h) {
      if Target(t.map_, h).Some? {
        ListedHandleResolves(t, h);
      }
    }
    NobodyHas(t, k + 1);
    assert Target(t.map_, k + 1).Some? <==> t.handle == k + 1 && MakeNode(objs[i]).backendDomNodeId != 0;
    assert ResolvesToListed(t, k + 1) <==> !Target(t.map_, k + 1).Some?;
  }

  lemma NobodyHas(t: Tree, h: nat)
    requires HandleLaw(t) && h > |Handles(t.nodes)|
    ensures forall i :: 0 <= i < |t.nodes| ==> t.nodes[i].handle != h
  {
    hide Handles;
    forall i | 0 <= i < |t.nodes| ensures t.nodes[i].handle != h {
      assert NodeAgrees(t, t.nodes[i]);
    }
  }

  lemma NodesTextIs(front: string, mid: string, rest: string)
    requires FirstAt(front + "\"nodes\"" + mid + ['['] + rest, "\"nodes\"", 0, |front|)
    requires '[' !in mid
    ensures NodesText(front + "\"nodes\"" + mid + ['['] + rest) == Some(rest)
  {
    var json := front + "\"nodes\"" + mid + ['['] + rest;
    var bracket := |front| + 7 + |mid|;
    FindIsFirst(json, "\"nodes\"", 0, |front|);
    assert json[bracket..bracket + 1] == "[";
    forall i | |front| <= i < bracket ensures !OccursAt(json, "[", i) {
      if i >= |front| + 7 {
        assert json[i] == mid[i - |front| - 7];
      }
      assert json[i..i + 1] == [json[i]];
    }
    FindIsFirst(json, "[", |front|, bracket);
    assert json[bracket + 1..] == rest;
  }

  /** The tree of a printed list of JSON objects is made from exactly those objects, in order. */
  lemma TreeOfPrintedList(front: string, mid: string, e: Elems, back: string, handles: nat, cap: nat)
    requires ElemsOk(e) && AllObjects(e) && '[' !in mid
    requires FirstAt(front + "\"nodes\"" + mid + ['['] + (PrintElems(e) + [']'] + back), "\"nodes\"", 0, |front|)
    ensures Filtered(front + "\"nodes\"" + mid + ['['] + (PrintElems(e) + [']'] + back), handles, cap)
         == Some(FilterAll(Empty(handles), Printed(e), cap))
  {
    hide FilterAll, Slices, NodesText, FirstAt;
    NodesTextIs(front, mid, PrintElems(e) + [']'] + back);
    SlicingIsExact(e, back);
  }
}
