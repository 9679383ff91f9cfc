/** Natural loops found from back edges, where a back edge is an edge to a dominator. */
module Loops {
  import opened Ir
  import opened Options
  import opened OrderedSets
  import opened ControlFlow
  import opened Dominators

  type Edge = (BlockId, BlockId)

  datatype LoopInfo = LoopInfo(
    header: BlockId,
    body: set<BlockId>,
    exit: Option<BlockId>,
    backEdges: seq<Edge>,
    isDoWhile: bool)

  ghost predicate IsBackEdge(g: Cfg, a: BlockId, h: BlockId) {
    h in g.Succ(a) && h in g.blocks && Dominates(g, h, a)
  }

  // ---------- Listing and grouping back edges

  ghost function BackEdgesOut(g: Cfg, a: BlockId, succs: seq<BlockId>): seq<Edge> {
    if succs == [] then []
    else
      var s := succs[|succs| - 1];
      var last := if s in g.blocks && Dominates(g, s, a) then [(a, s)] else [];
      BackEdgesOut(g, a, succs[..|succs| - 1]) + last
  }

  /** All back edges, block by block in id order, a repeated jump listed each time. */
  ghost function BackEdgeList(g: Cfg, ids: seq<BlockId>): seq<Edge> {
    if ids == [] then []
    else BackEdgeList(g, ids[..|ids| - 1]) + BackEdgesOut(g, ids[|ids| - 1], g.Succ(ids[|ids| - 1]))
  }

  lemma {:induction false} BackEdgesOutSpec(g: Cfg, a: BlockId, succs: seq<BlockId>)
    ensures forall e: Edge :: e in BackEdgesOut(g, a, succs) <==>
      (e.0 == a && e.1 in succs && e.1 in g.blocks && Dominates(g, e.1, a))
  {
    if succs != [] {
      BackEdgesOutSpec(g, a, succs[..|succs| - 1]);
      assert succs == succs[..|succs| - 1] + [succs[|succs| - 1]];
    }
  }

  lemma {:induction false} BackEdgeListSpec(g: Cfg, ids: seq<BlockId>)
    ensures forall e: Edge :: e in BackEdgeList(g, ids) <==> e.0 in ids && IsBackEdge(g, e.0, e.1)
  {
    if ids != [] {
      var a := ids[|ids| - 1];
      BackEdgeListSpec(g, ids[..|ids| - 1]);
      BackEdgesOutSpec(g, a, g.Succ(a));
      assert ids == ids[..|ids| - 1] + [a];
    }
  }

  /** Every back edge of the graph is listed, and nothing else is. */
  lemma BackEdgesComplete(g: Cfg)
    ensures forall e: Edge :: e in BackEdgeList(g, g.BlockIds()) <==> IsBackEdge(g, e.0, e.1)
  {
    SortedElements(g.blocks.Keys);
    BackEdgeListSpec(g, g.BlockIds());
  }

  /** The dominator set of one block is exact. */
  ghost predicate ExactRow(g: Cfg, dom: DomMap, a: BlockId)
    requires a in dom
  {
    dom[a] <= g.blocks.Keys && forall d :: d in g.blocks ==> (d in dom[a] <==> Dominates(g, d, a))
  }

  method BackEdgesOfBlock(g: Cfg, dom: DomMap, a: BlockId) returns (edges: seq<Edge>)
    requires a in dom && ExactRow(g, dom, a)
    ensures edges == BackEdgesOut(g, a, g.Succ(a))
  {
    var succs := g.Succ(a);
    edges := [];
    for j := 0 to |succs|
      invariant edges == BackEdgesOut(g, a, succs[..j])
    {
      assert succs[..j + 1][..j] == succs[..j];
      if succs[j] in dom[a] {
        edges := edges + [(a, succs[j])];
      }
    }
    assert succs[..|succs|] == succs;
  }

  lemma BackEdgesSnoc(g: Cfg, ids: seq<BlockId>, a: BlockId)
    ensures BackEdgeList(g, ids + [a]) == BackEdgeList(g, ids) + BackEdgesOut(g, a, g.Succ(a))
  {
    assert (ids + [a])[..|ids|] == ids;
  }

  lemma OneMoreId(ids: seq<BlockId>, i: nat)
    requires i < |ids|
    ensures ids[..i + 1] == ids[..i] + [ids[i]] && ids[i] in ids
  {
  }

  method BackEdgesOfBlocks(g: Cfg, dom: DomMap, ids: seq<BlockId>) returns (edges: seq<Edge>)
    requires forall b :: b in ids ==> b in dom && ExactRow(g, dom, b)
    ensures edges == BackEdgeList(g, ids)
  {
    edges := [];
    for i := 0 to |ids|
      invariant edges == BackEdgeList(g, ids[..i])
    {
      OneMoreId(ids, i);
      var out := BackEdgesOfBlock(g, dom, ids[i]);
      BackEdgesSnoc(g, ids[..i], ids[i]);
      edges := edges + out;
    }
    assert ids[..|ids|] == ids;
  }

  method FindBackEdges(g: Cfg, dom: DomMap) returns (edges: seq<Edge>)
    requires dom.Keys == g.blocks.Keys && forall b :: b in g.blocks ==> ExactRow(g, dom, b)
    ensures edges == BackEdgeList(g, g.BlockIds())
  {
    SortedElements(g.blocks.Keys);
    edges := BackEdgesOfBlocks(g, dom, g.BlockIds());
  }

  function Into(edges: seq<Edge>, h: BlockId): seq<Edge> {
    if edges == [] then []
    else Into(edges[..|edges| - 1], h) + (if edges[|edges| - 1].1 == h then [edges[|edges| - 1]] else [])
  }

  lemma {:induction false} IntoSpec(edges: seq<Edge>, h: BlockId)
    ensures forall e :: e in Into(edges, h) <==> e in edges && e.1 == h
  {
    if edges != [] {
      IntoSpec(edges[..|edges| - 1], h);
      assert edges == edges[..|edges| - 1] + [edges[|edges| - 1]];
    }
  }

  method GroupByHeader(edges: seq<Edge>) returns (headers: map<BlockId, seq<Edge>>)
    ensures forall h :: h in headers <==> exists e :: e in edges && e.1 == h
    ensures forall h :: h in headers ==> headers[h] == Into(edges, h)
  {
    headers := map[];
    for i := 0 to |edges|
      invariant forall h :: h in headers <==> Into(edges[..i], h) != []
      invariant forall h :: h in headers ==> headers[h] == Into(edges[..i], h)
    {
      var e := edges[i];
      assert edges[..i + 1][..i] == edges[..i];
      headers := headers[e.1 := (if e.1 in headers then headers[e.1] else []) + [e]];
    }
    assert edges[..|edges|] == edges;
    forall h ensures h in headers <==> exists e :: e in edges && e.1 == h {
      IntoSpec(edges, h);
      if h in headers {
        assert Into(edges, h)[0] in Into(edges, h);
      }
    }
  }

  // ---------- Loop bodies

  ghost predicate PathAvoiding(g: Cfg, p: seq<BlockId>, a: BlockId, b: BlockId, h: BlockId) {
    PathBetween(g, p, a, b) && h !in p
  }

  ghost predicate ReachesAvoiding(g: Cfg, a: BlockId, b: BlockId, h: BlockId) {
    exists p :: PathAvoiding(g, p, a, b, h)
  }

  /** The header, and every block that gets to the source of a back edge into it
      without passing through it. */
  ghost predicate InNaturalLoop(g: Cfg, h: BlockId, n: BlockId) {
    n == h || exists a: BlockId :: IsBackEdge(g, a, h) && ReachesAvoiding(g, n, a, h)
  }

  lemma AvoidSelf(g: Cfg, a: BlockId, h: BlockId)
    requires a != h
    ensures ReachesAvoiding(g, a, a, h)
  {
    assert PathAvoiding(g, [a], a, a, h);
  }

  lemma AvoidStep(g: Cfg, p: BlockId, a: BlockId, b: BlockId, h: BlockId)
    requires a in g.Succ(p) && p != h && ReachesAvoiding(g, a, b, h)
    ensures ReachesAvoiding(g, p, b, h)
  {
    var q :| PathAvoiding(g, q, a, b, h);
    assert PathAvoiding(g, [p] + q, p, b, h);
  }

  lemma AvoidTrans(g: Cfg, a: BlockId, b: BlockId, c: BlockId, h: BlockId)
    requires ReachesAvoiding(g, a, b, h) && ReachesAvoiding(g, b, c, h)
    ensures ReachesAvoiding(g, a, c, h)
  {
    var p :| PathAvoiding(g, p, a, b, h);
    var q :| PathAvoiding(g, q, b, c, h);
    AvoidTransPath(g, p, a, b, c, h);
  }

  lemma {:induction false} AvoidTransPath(g: Cfg, p: seq<BlockId>, a: BlockId, b: BlockId, c: BlockId, h: BlockId)
    requires PathAvoiding(g, p, a, b, h) && ReachesAvoiding(g, b, c, h)
    ensures ReachesAvoiding(g, a, c, h)
    decreases |p|
  {
    if |p| > 1 {
      assert PathAvoiding(g, p[1..], p[1], b, h);
      AvoidTransPath(g, p[1..], p[1], b, c, h);
      assert a != h by { assert p[0] in p; }
      AvoidStep(g, a, p[1], c, h);
    }
  }

  /** Predecessors of everything in `s` outside `exempt` are in `s`. */
  ghost predicate HoldsPredecessors(g: Cfg, s: set<BlockId>, exempt: set<BlockId>) {
    forall n, p :: n in s && n !in exempt && n in g.Succ(p) ==> p in s
  }

  ghost predicate Collects(g: Cfg, node: BlockId, h: BlockId, body: set<BlockId>, after: set<BlockId>) {
    && body <= after && after <= g.blocks.Keys
    && node in after
    && HoldsPredecessors(g, after, body)
    && (forall n :: n in after - body ==> ReachesAvoiding(g, n, node, h))
  }

  lemma CollectsLater(g: Cfg, node: BlockId, pred: BlockId, h: BlockId,
                      start: set<BlockId>, mid: set<BlockId>, after: set<BlockId>)
    requires node in g.Succ(pred) && pred != h && node != h
    requires start <= mid && HoldsPredecessors(g, mid, start)
    requires forall n :: n in mid - start ==> ReachesAvoiding(g, n, node, h)
    requires Collects(g, pred, h, mid, after)
    ensures start <= after && HoldsPredecessors(g, after, start)
    ensures forall n :: n in after - start ==> ReachesAvoiding(g, n, node, h)
  {
    AvoidSelf(g, node, h);
    AvoidStep(g, pred, node, node, h);
    forall n | n in after - start ensures ReachesAvoiding(g, n, node, h) {
      if n !in mid {
        AvoidTrans(g, n, pred, node, h);
      }
    }
  }

  /** Walks predecessors backwards from `node`, stopping at the header and at blocks already collected. */
  method CollectLoopBody(g: Cfg, node: BlockId, header: BlockId, body: set<BlockId>) returns (body': set<BlockId>)
    requires header in body && body <= g.blocks.Keys && node in g.blocks
    ensures Collects(g, node, header, body, body')
    decreases g.blocks.Keys - body
  {
    if node in body {
      return body;
    }
    AvoidSelf(g, node, header);
    ghost var start := body + {node};
    body' := body + {node};
    var preds := g.Predecessors(node);
    PredecessorsSpec(g, node);
    for i := 0 to |preds|
      invariant start <= body' <= g.blocks.Keys
      invariant HoldsPredecessors(g, body', start)
      invariant forall n :: n in body' - start ==> ReachesAvoiding(g, n, node, header)
      invariant forall k :: 0 <= k < i ==> preds[k] in body'
    {
      assert preds[i] in preds;
      if preds[i] != header {
        ghost var mid := body';
        body' := CollectLoopBody(g, preds[i], header, body');
        CollectsLater(g, node, preds[i], header, start, mid, body');
      }
    }
    forall p | node in g.Succ(p) ensures p in body' {
      assert p in preds;
    }
  }

  lemma {:induction false} BodyHoldsPath(g: Cfg, h: BlockId, body: set<BlockId>, p: seq<BlockId>, n: BlockId, a: BlockId)
    requires HoldsPredecessors(g, body, {h}) && a in body
    requires PathAvoiding(g, p, n, a, h)
    ensures n in body
    decreases |p|
  {
    if |p| > 1 {
      assert PathAvoiding(g, p[1..], p[1], a, h);
      BodyHoldsPath(g, h, body, p[1..], p[1], a);
      assert p[1] in p && p[1] in g.Succ(p[0]);
    }
  }

  lemma BodyComplete(g: Cfg, h: BlockId, body: set<BlockId>, n: BlockId)
    requires HoldsPredecessors(g, body, {h}) && h in body
    requires forall a: BlockId :: IsBackEdge(g, a, h) ==> a in body
    requires InNaturalLoop(g, h, n)
    ensures n in body
  {
    if n != h {
      var a :| IsBackEdge(g, a, h) && ReachesAvoiding(g, n, a, h);
      var p :| PathAvoiding(g, p, n, a, h);
      BodyHoldsPath(g, h, body, p, n, a);
    }
  }

  lemma CollectedInLoop(g: Cfg, h: BlockId, from: BlockId, before: set<BlockId>, body: set<BlockId>)
    requires IsBackEdge(g, from, h)
    requires HoldsPredecessors(g, before, {h})
    requires forall n :: n in before ==> InNaturalLoop(g, h, n)
    requires Collects(g, from, h, before, body)
    ensures HoldsPredecessors(g, body, {h})
    ensures forall n :: n in body ==> InNaturalLoop(g, h, n)
  {
    forall n | n in body ensures InNaturalLoop(g, h, n) {
      if n !in before {
        assert ReachesAvoiding(g, n, from, h);
      }
    }
  }

  /** `edges` lists the back edges into `header`. */
  ghost predicate ListsBackEdges(g: Cfg, header: BlockId, edges: seq<Edge>) {
    && (forall e: Edge :: e in edges ==> e.1 == header && IsBackEdge(g, e.0, header))
    && (forall a: BlockId :: IsBackEdge(g, a, header) ==> (a, header) in edges)
  }

  method LoopBody(g: Cfg, header: BlockId, edges: seq<Edge>) returns (body: set<BlockId>)
    requires header in g.blocks && ListsBackEdges(g, header, edges)
    ensures forall n: BlockId :: n in body <==> InNaturalLoop(g, header, n)
  {
    body := {header};
    for i := 0 to |edges|
      invariant header in body && body <= g.blocks.Keys
      invariant HoldsPredecessors(g, body, {header})
      invariant forall n :: n in body ==> InNaturalLoop(g, header, n)
      invariant forall k :: 0 <= k < i ==> edges[k].0 in body
    {
      var from := edges[i].0;
      assert edges[i] in edges;
      ghost var before := body;
      body := CollectLoopBody(g, from, header, body);
      CollectedInLoop(g, header, from, before, body);
    }
    forall a: BlockId | IsBackEdge(g, a, header) ensures a in body {
      var k :| 0 <= k < |edges| && edges[k] == (a, header);
    }
    forall n: BlockId | InNaturalLoop(g, header, n) ensures n in body {
      BodyComplete(g, header, body, n);
    }
  }

  /** Control enters a loop only through its header. */
  lemma EnteredThroughHeader(g: Cfg, h: BlockId, p: BlockId, n: BlockId)
    requires InNaturalLoop(g, h, n) && n != h && n in g.Succ(p)
    ensures InNaturalLoop(g, h, p)
  {
    if p != h {
      var a :| IsBackEdge(g, a, h) && ReachesAvoiding(g, n, a, h);
      AvoidStep(g, p, n, a, h);
    }
  }

  /** The header dominates the whole reachable body: a path that dodged it would
      go on to dodge it all the way to the back edge. */
  lemma HeaderDominatesBody(g: Cfg, h: BlockId, n: BlockId)
    requires InNaturalLoop(g, h, n) && Reachable(g, n)
    ensures Dominates(g, h, n)
  {
    forall p | RootPath(g, p, n) ensures h in p {
      if n == h {
        assert p[|p| - 1] == h;
      } else {
        var a :| IsBackEdge(g, a, h) && ReachesAvoiding(g, n, a, h);
        var q :| PathAvoiding(g, q, n, a, h);
        JoinPaths(g, p, n, q, a);
        var joined := p + q[1..];
        assert h in joined;
        assert forall x :: x in q[1..] ==> x in q;
      }
    }
  }

  lemma JoinPaths(g: Cfg, p: seq<BlockId>, n: BlockId, q: seq<BlockId>, a: BlockId)
    requires RootPath(g, p, n) && PathBetween(g, q, n, a)
    ensures RootPath(g, p + q[1..], a)
  {
    var r := p + q[1..];
    forall i | 0 <= i < |r| - 1 ensures r[i + 1] in g.Succ(r[i]) {
      if i >= |p| - 1 {
        assert r[i] == q[i - (|p| - 1)];
        assert r[i + 1] == q[i + 1 - (|p| - 1)];
      }
    }
    if |q| == 1 { assert r == p; } else { assert r[|r| - 1] == q[|q| - 1]; }
  }

  /** A back edge from a reachable block closes a cycle: its header reaches its source. */
  lemma BackEdgeClosesCycle(g: Cfg, a: BlockId, h: BlockId)
    requires IsBackEdge(g, a, h) && Reachable(g, a)
    ensures Reaches(g, h, a) && Reachable(g, h)
  {
    var p :| RootPath(g, p, a);
    assert h in p;
    var i :| 0 <= i < |p| && p[i] == h;
    assert PathBetween(g, p[i..], h, a);
    assert RootPath(g, p[..i + 1], h);
  }

  // ---------- Exits

  ghost predicate Leaves(g: Cfg, b: BlockId, body: set<BlockId>) {
    exists s :: s in g.Succ(b) && s !in body
  }

  /** `x` is the first jump target of `b` outside the body. */
  ghost predicate FirstLeaving(g: Cfg, b: BlockId, body: set<BlockId>, x: BlockId) {
    exists i :: 0 <= i < |g.Succ(b)| && g.Succ(b)[i] == x && x !in body &&
      forall j :: 0 <= j < i ==> g.Succ(b)[j] in body
  }

  ghost predicate NoneLeavesBelow(g: Cfg, b: BlockId, body: set<BlockId>) {
    forall c :: c in body && c < b ==> !Leaves(g, c, body)
  }

  /** The exit is the header's own first way out if it has one, else that of the
      lowest block that has one, and is missing exactly when nothing leaves. */
  ghost predicate ExitOf(g: Cfg, header: BlockId, body: set<BlockId>, exit: Option<BlockId>) {
    match exit
    case None => forall b :: b in body ==> !Leaves(g, b, body)
    case Some(x) =>
      if Leaves(g, header, body) then FirstLeaving(g, header, body, x)
      else exists b :: b in body && FirstLeaving(g, b, body, x) && NoneLeavesBelow(g, b, body)
  }

  method FirstLeavingSucc(g: Cfg, b: BlockId, body: set<BlockId>) returns (x: Option<BlockId>)
    ensures x.None? <==> !Leaves(g, b, body)
    ensures x.Some? ==> FirstLeaving(g, b, body, x.value)
  {
    var succs := g.Succ(b);
    for i := 0 to |succs|
      invariant forall j :: 0 <= j < i ==> succs[j] in body
    {
      if succs[i] !in body {
        assert succs[i] in succs;
        return Some(succs[i]);
      }
    }
    return None;
  }

  /** In id order, the first block that control leaves is the lowest one. */
  lemma NoneBefore(g: Cfg, body: set<BlockId>, i: nat)
    requires i < |Sorted(body)| && forall j :: 0 <= j < i ==> !Leaves(g, Sorted(body)[j], body)
    ensures NoneLeavesBelow(g, Sorted(body)[i], body)
  {
    var blocks := Sorted(body);
    SortedElements(body);
    SortedAscending(body);
    forall c | c in body && c < blocks[i] ensures !Leaves(g, c, body) {
      var j :| 0 <= j < |blocks| && blocks[j] == c;
    }
  }

  method FindLoopExit(g: Cfg, header: BlockId, body: set<BlockId>) returns (exit: Option<BlockId>)
    requires header in body
    ensures ExitOf(g, header, body, exit)
  {
    exit := FirstLeavingSucc(g, header, body);
    if exit.Some? {
      return;
    }
    var blocks := Sorted(body);
    SortedElements(body);
    for i := 0 to |blocks|
      invariant forall j :: 0 <= j < i ==> !Leaves(g, blocks[j], body)
    {
      assert blocks[i] in blocks;
      exit := FirstLeavingSucc(g, blocks[i], body);
      if exit.Some? {
        NoneBefore(g, body, i);
        assert blocks[i] in body && FirstLeaving(g, blocks[i], body, exit.value);
        return;
      }
    }
    return None;
  }

  // ---------- Loop detection

  /** A back edge whose source ends in a conditional branch: the test is at the bottom. */
  predicate EndsInBranch(g: Cfg, e: Edge) {
    e.0 in g.blocks && g.blocks[e.0].terminator.Branch?
  }

  ghost predicate BottomTested(g: Cfg, h: BlockId) {
    exists a: BlockId :: IsBackEdge(g, a, h) && EndsInBranch(g, (a, h))
  }

  ghost predicate LoopCorrect(g: Cfg, l: LoopInfo) {
    && l.header in g.blocks
    && l.backEdges == Into(BackEdgeList(g, g.BlockIds()), l.header)
    && (forall n: BlockId :: n in l.body <==> InNaturalLoop(g, l.header, n))
    && ExitOf(g, l.header, l.body, l.exit)
    && (l.isDoWhile <==> BottomTested(g, l.header))
  }

  method IsDoWhile(g: Cfg, header: BlockId, edges: seq<Edge>) returns (r: bool)
    requires ListsBackEdges(g, header, edges)
    ensures r <==> BottomTested(g, header)
  {
    r := exists e :: e in edges && e.1 == header && EndsInBranch(g, e);
    if r {
      ghost var e :| e in edges && e.1 == header && EndsInBranch(g, e);
      assert e == (e.0, header) && IsBackEdge(g, e.0, header);
    }
  }

  lemma GroupListsBackEdges(g: Cfg, header: BlockId)
    ensures ListsBackEdges(g, header, Into(BackEdgeList(g, g.BlockIds()), header))
  {
    var list := BackEdgeList(g, g.BlockIds());
    BackEdgesComplete(g);
    IntoSpec(list, header);
    forall a: BlockId | IsBackEdge(g, a, header) ensures (a, header) in Into(list, header) {
      assert (a, header) in list;
    }
  }

  method BuildLoop(g: Cfg, header: BlockId, edges: seq<Edge>) returns (l: LoopInfo)
    requires header in g.blocks
    requires edges == Into(BackEdgeList(g, g.BlockIds()), header)
    ensures l.header == header && LoopCorrect(g, l)
  {
    GroupListsBackEdges(g, header);
    var body := LoopBody(g, header, edges);
    var exit := FindLoopExit(g, header, body);
    var isDoWhile := IsDoWhile(g, header, edges);
    l := LoopInfo(header, body, exit, edges, isDoWhile);
  }

  ghost predicate IsHeader(g: Cfg, h: BlockId) {
    exists a: BlockId :: IsBackEdge(g, a, h)
  }

  lemma HeadersAreTargets(g: Cfg, h: BlockId)
    ensures IsHeader(g, h) <==> exists e: Edge :: e in BackEdgeList(g, g.BlockIds()) && e.1 == h
  {
    BackEdgesComplete(g);
    if IsHeader(g, h) {
      var a: BlockId :| IsBackEdge(g, a, h);
      assert (a, h) in BackEdgeList(g, g.BlockIds());
    }
  }

  /** The loops built so far are those of the first headers. */
  ghost predicate BuiltFor(g: Cfg, order: seq<BlockId>, loops: seq<LoopInfo>) {
    |loops| <= |order| && forall k :: 0 <= k < |loops| ==> BuiltAt(g, order[k], loops[k])
  }

  ghost predicate BuiltAt(g: Cfg, h: BlockId, l: LoopInfo) {
    l.header == h && LoopCorrect(g, l)
  }

  lemma BuiltOneMore(g: Cfg, order: seq<BlockId>, loops: seq<LoopInfo>, l: LoopInfo)
    requires BuiltFor(g, order, loops) && |loops| < |order| && BuiltAt(g, order[|loops|], l)
    ensures BuiltFor(g, order, loops + [l])
  {
    var longer := loops + [l];
    forall k | 0 <= k < |longer| ensures BuiltAt(g, order[k], longer[k]) {
      if k < |loops| {
        assert longer[k] == loops[k] && BuiltAt(g, order[k], loops[k]);
      } else {
        assert longer[k] == l;
      }
    }
  }

  method BuildLoops(g: Cfg, headers: map<BlockId, seq<Edge>>, order: seq<BlockId>) returns (loops: seq<LoopInfo>)
    requires forall h :: h in order ==> h in g.blocks && h in headers
    requires forall h :: h in headers ==> headers[h] == Into(BackEdgeList(g, g.BlockIds()), h)
    ensures |loops| == |order| && BuiltFor(g, order, loops)
  {
    loops := [];
    while |loops| < |order|
      invariant BuiltFor(g, order, loops)
    {
      var h := order[|loops|];
      var l := BuildLoop(g, h, headers[h]);
      BuiltOneMore(g, order, loops, l);
      loops := loops + [l];
    }
  }

  ghost predicate AllLoops(g: Cfg, loops: seq<LoopInfo>) {
    && (forall i, j :: 0 <= i < j < |loops| ==> loops[i].header < loops[j].header)
    && (forall l :: l in loops ==> LoopCorrect(g, l) && IsHeader(g, l.header))
    && (forall h: BlockId :: IsHeader(g, h) ==> exists l :: l in loops && l.header == h)
  }

  lemma LoopsComplete(g: Cfg, order: seq<BlockId>, loops: seq<LoopInfo>)
    requires Ascending(order) && |loops| == |order| && BuiltFor(g, order, loops)
    requires forall h: BlockId :: h in order <==> IsHeader(g, h)
    ensures AllLoops(g, loops)
  {
    forall h: BlockId | IsHeader(g, h) ensures exists l :: l in loops && l.header == h {
      var i :| 0 <= i < |order| && order[i] == h;
      assert loops[i] in loops;
    }
    forall l | l in loops ensures LoopCorrect(g, l) && IsHeader(g, l.header) {
      var i :| 0 <= i < |loops| && loops[i] == l;
      assert order[i] in order;
    }
  }

  /** One loop per back-edge target, in header order. */
  method DetectLoops(g: Cfg) returns (loops: seq<LoopInfo>)
    requires JumpsLandOnBlocks(g)
    ensures AllLoops(g, loops)
  {
    var dom := ComputeDominators(g);
    var backEdges := FindBackEdges(g, dom);
    var headers := GroupByHeader(backEdges);
    var order := Sorted(headers.Keys);
    SortedElements(headers.Keys);
    SortedAscending(headers.Keys);
    forall h: BlockId ensures h in order <==> IsHeader(g, h) {
      HeadersAreTargets(g, h);
    }
    loops := BuildLoops(g, headers, order);
    LoopsComplete(g, order, loops);
  }

  /** Every back edge lies in exactly one detected loop. */
  lemma BackEdgeInOneLoop(g: Cfg, loops: seq<LoopInfo>, a: BlockId, h: BlockId)
    requires AllLoops(g, loops) && IsBackEdge(g, a, h)
    ensures exists i :: 0 <= i < |loops| && (a, h) in loops[i].backEdges
    ensures forall i, j | 0 <= i < |loops| && 0 <= j < |loops| ::
              (a, h) in loops[i].backEdges && (a, h) in loops[j].backEdges ==> i == j
  {
    BackEdgesComplete(g);
    forall i | 0 <= i < |loops| ensures (a, h) in loops[i].backEdges <==> loops[i].header == h {
      assert loops[i] in loops;
      IntoSpec(BackEdgeList(g, g.BlockIds()), loops[i].header);
    }
    assert IsHeader(g, h);
    var l :| l in loops && l.header == h;
    var i :| 0 <= i < |loops| && loops[i] == l;
  }

  /** A loop is tested at its bottom exactly when a block that jumps back to its header ends in a branch. */
  lemma DoWhileExactly(g: Cfg, l: LoopInfo)
    requires LoopCorrect(g, l)
    ensures l.isDoWhile <==> exists a: BlockId :: IsBackEdge(g, a, l.header) && a in g.blocks && g.blocks[a].terminator.Branch?
  {
    forall a: BlockId
      ensures EndsInBranch(g, (a, l.header)) <==> a in g.blocks && g.blocks[a].terminator.Branch?
    {
    }
  }
}
