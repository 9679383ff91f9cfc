/** Dominators by fixed-point iteration, with the entry and every catch block as roots. */
module Dominators {
  import opened Ir
  import opened OrderedSets
  import opened ControlFlow

  type DomMap = map<BlockId, set<BlockId>>

  /** Every path from a root to `b` passes through `d`. */
  ghost predicate Dominates(g: Cfg, d: BlockId, b: BlockId) {
    forall p :: RootPath(g, p, b) ==> d in p
  }

  /** Every id a root path can reach is a root or names a block: what the iteration
      needs, since it looks up the set of every non-root id it visits. */
  ghost predicate JumpsLandOnBlocks(g: Cfg) {
    forall b :: Reachable(g, b) && b !in g.Roots() ==> b in g.blocks
  }

  /** The iteration looks up the set of each non-root id it visits that has predecessors; it finds one
      every time exactly when jumps land on blocks. */
  lemma LookupsSucceedExactly(g: Cfg)
    ensures JumpsLandOnBlocks(g) <==>
            forall b :: Reachable(g, b) && b !in g.Roots() && g.Predecessors(b) != [] ==> b in g.blocks
  {
    forall b | Reachable(g, b) && b !in g.Roots()
      ensures g.Predecessors(b) != []
    {
      var p :| RootPath(g, p, b);
      var last := p[|p| - 2];
      assert b in g.Succ(last);
      PredecessorsSpec(g, b);
      assert last in g.Predecessors(b);
    }
  }

  /** What the dominator equation gives for a non-root block with predecessors. */
  ghost function Meet(g: Cfg, dom: DomMap, b: BlockId): set<BlockId>
    requires dom.Keys == g.blocks.Keys
  {
    set d | d in g.blocks && (d == b || forall p :: p in g.blocks && b in g.Succ(p) ==> d in dom[p])
  }

  ghost predicate Settled(g: Cfg, dom: DomMap, b: BlockId)
    requires dom.Keys == g.blocks.Keys
  {
    b !in g.Roots() && b in g.blocks && g.Predecessors(b) != [] ==> dom[b] == Meet(g, dom, b)
  }

  /** Holds of the map at every moment of the iteration. */
  ghost predicate DomInvariant(g: Cfg, dom: DomMap) {
    && dom.Keys == g.blocks.Keys
    && (forall b, d :: b in dom && d in dom[b] ==> d in g.blocks)
    && (forall b :: b in dom && b in g.Roots() ==> dom[b] == {b})
    && (forall b :: b in dom && !Reachable(g, b) ==> dom[b] == g.blocks.Keys)
    && Sound(g, dom)
    && Descending(g, dom)
  }

  ghost predicate Sound(g: Cfg, dom: DomMap)
    requires dom.Keys == g.blocks.Keys
  {
    forall b, d :: b in g.blocks && d in g.blocks && Dominates(g, d, b) ==> d in dom[b]
  }

  /** Recomputing any set can only shrink it: why testing for a difference is enough to stop. */
  ghost predicate Descending(g: Cfg, dom: DomMap)
    requires dom.Keys == g.blocks.Keys
  {
    forall b :: b in g.blocks && b !in g.Roots() && g.Predecessors(b) != [] ==> Meet(g, dom, b) <= dom[b]
  }

  // ---------- Soundness of one recomputation

  lemma DominatesPredecessor(g: Cfg, d: BlockId, p: BlockId, b: BlockId)
    requires Dominates(g, d, b) && d != b && b in g.Succ(p)
    ensures Dominates(g, d, p)
  {
    forall q | RootPath(g, q, p) ensures d in q {
      ExtendRootPath(g, q, p, b);
      assert d in q + [b];
    }
  }

  lemma MeetSound(g: Cfg, dom: DomMap, b: BlockId, d: BlockId)
    requires dom.Keys == g.blocks.Keys && Sound(g, dom)
    requires d in g.blocks && Dominates(g, d, b)
    ensures d in Meet(g, dom, b)
  {
    forall p | p in g.blocks && b in g.Succ(p) && d != b ensures d in dom[p] {
      DominatesPredecessor(g, d, p, b);
    }
  }

  lemma MeetMonotone(g: Cfg, small: DomMap, large: DomMap, b: BlockId)
    requires small.Keys == g.blocks.Keys == large.Keys
    requires forall x :: x in g.blocks ==> small[x] <= large[x]
    ensures Meet(g, small, b) <= Meet(g, large, b)
  {
  }

  lemma UpdateKeepsSound(g: Cfg, dom: DomMap, b: BlockId)
    requires dom.Keys == g.blocks.Keys && Sound(g, dom) && b in g.blocks
    ensures Sound(g, dom[b := Meet(g, dom, b)])
  {
    forall d | d in g.blocks && Dominates(g, d, b) ensures d in Meet(g, dom, b) {
      MeetSound(g, dom, b, d);
    }
  }

  lemma UpdateKeepsDescending(g: Cfg, dom: DomMap, b: BlockId)
    requires dom.Keys == g.blocks.Keys && Descending(g, dom)
    requires b in g.blocks && b !in g.Roots() && g.Predecessors(b) != []
    ensures Descending(g, dom[b := Meet(g, dom, b)])
  {
    var next := dom[b := Meet(g, dom, b)];
    assert forall x :: x in g.blocks ==> next[x] <= dom[x];
    forall x | x in g.blocks && x !in g.Roots() && g.Predecessors(x) != []
      ensures Meet(g, next, x) <= next[x]
    {
      MeetMonotone(g, next, dom, x);
    }
  }

  lemma UpdateKeepsInvariant(g: Cfg, dom: DomMap, b: BlockId)
    requires DomInvariant(g, dom)
    requires b in g.blocks && b !in g.Roots() && g.Predecessors(b) != [] && Reachable(g, b)
    ensures DomInvariant(g, dom[b := Meet(g, dom, b)])
  {
    UpdateKeepsSound(g, dom, b);
    UpdateKeepsDescending(g, dom, b);
  }

  // ---------- Exactness at the fixed point

  lemma {:induction false} FixedPointOnPath(g: Cfg, dom: DomMap, p: seq<BlockId>, b: BlockId, d: BlockId)
    requires DomInvariant(g, dom)
    requires forall x :: Reachable(g, x) ==> Settled(g, dom, x)
    requires RootPath(g, p, b) && b in g.blocks && d in dom[b]
    ensures d in p
    decreases |p|
  {
    if b in g.Roots() || |p| == 1 {
      assert dom[b] == {b};
      assert p[|p| - 1] == b;
    } else if d == b {
      assert p[|p| - 1] == b;
    } else {
      ShortenRootPath(g, p, b);
      PredecessorsSpec(g, b);
      var q, shorter := p[|p| - 2], p[..|p| - 1];
      assert q in g.Predecessors(b);
      assert Reachable(g, b);
      assert Settled(g, dom, b);
      FixedPointOnPath(g, dom, shorter, q, d);
      assert d in shorter;
    }
  }

  lemma FixedPointExact(g: Cfg, dom: DomMap, b: BlockId, d: BlockId)
    requires DomInvariant(g, dom)
    requires forall x :: Reachable(g, x) ==> Settled(g, dom, x)
    requires b in g.blocks && d in g.blocks
    ensures d in dom[b] <==> Dominates(g, d, b)
  {
    if d in dom[b] {
      forall p | RootPath(g, p, b) ensures d in p {
        FixedPointOnPath(g, dom, p, b, d);
      }
    }
  }

  // ---------- Termination measure

  function Total(ids: seq<BlockId>, dom: DomMap): nat {
    if ids == [] then 0
    else (if ids[0] in dom then |dom[ids[0]]| else 0) + Total(ids[1..], dom)
  }

  lemma SmallerSet(s: set<BlockId>, t: set<BlockId>)
    requires s < t
    ensures |s| < |t|
  {
    assert t == s + (t - s);
  }

  lemma {:induction false} ShrinkLowersTotal(ids: seq<BlockId>, dom: DomMap, b: BlockId, s: set<BlockId>)
    requires b in dom && s < dom[b]
    ensures Total(ids, dom[b := s]) <= Total(ids, dom)
    ensures b in ids ==> Total(ids, dom[b := s]) < Total(ids, dom)
  {
    SmallerSet(s, dom[b]);
    if ids != [] {
      ShrinkLowersTotal(ids[1..], dom, b, s);
      assert ids == [ids[0]] + ids[1..];
    }
  }

  // ---------- The iteration

  ghost predicate InAll(g: Cfg, dom: DomMap, preds: seq<BlockId>, n: nat, d: BlockId)
    requires n <= |preds| && forall k :: 0 <= k < n ==> preds[k] in dom
  {
    d in g.blocks && forall k :: 0 <= k < n ==> d in dom[preds[k]]
  }

  ghost predicate IsInAll(g: Cfg, dom: DomMap, preds: seq<BlockId>, n: nat, s: set<BlockId>)
    requires n <= |preds| && forall k :: 0 <= k < n ==> preds[k] in dom
  {
    forall d :: d in s <==> InAll(g, dom, preds, n, d)
  }

  lemma IntersectOneMore(g: Cfg, dom: DomMap, preds: seq<BlockId>, n: nat, s: set<BlockId>)
    requires n < |preds| && forall k :: 0 <= k < |preds| ==> preds[k] in dom
    requires IsInAll(g, dom, preds, n, s)
    ensures IsInAll(g, dom, preds, n + 1, s * dom[preds[n]])
  {
    forall d ensures d in s * dom[preds[n]] <==> InAll(g, dom, preds, n + 1, d) {
      assert d in s <==> InAll(g, dom, preds, n, d);
    }
  }

  /** Intersects the sets of all predecessors and adds the block itself. */
  method Recompute(g: Cfg, dom: DomMap, b: BlockId) returns (newDom: set<BlockId>)
    requires dom.Keys == g.blocks.Keys && b in g.blocks && g.Predecessors(b) != []
    requires forall x, d :: x in dom && d in dom[x] ==> d in g.blocks
    ensures newDom == Meet(g, dom, b)
  {
    var preds := g.Predecessors(b);
    PredecessorsSpec(g, b);
    assert forall k :: 0 <= k < |preds| ==> preds[k] in preds && preds[k] in dom;
    newDom := dom[preds[0]];
    for i := 1 to |preds|
      invariant IsInAll(g, dom, preds, i, newDom)
    {
      IntersectOneMore(g, dom, preds, i, newDom);
      newDom := newDom * dom[preds[i]];
    }
    AllPredecessors(g, dom, b, newDom);
    newDom := newDom + {b};
  }

  lemma AllPredecessors(g: Cfg, dom: DomMap, b: BlockId, s: set<BlockId>)
    requires dom.Keys == g.blocks.Keys && b in g.blocks
    requires forall k :: 0 <= k < |g.Predecessors(b)| ==> g.Predecessors(b)[k] in dom
    requires IsInAll(g, dom, g.Predecessors(b), |g.Predecessors(b)|, s)
    ensures s + {b} == Meet(g, dom, b)
  {
    var preds := g.Predecessors(b);
    PredecessorsSpec(g, b);
    forall d | d in s ensures d in Meet(g, dom, b) {
      forall p | p in g.blocks && b in g.Succ(p) ensures d in dom[p] {
        assert p in preds;
      }
    }
    forall d | d in Meet(g, dom, b) && d != b ensures d in s {
      forall k | 0 <= k < |preds| ensures d in dom[preds[k]] {
        assert preds[k] in preds;
      }
      assert InAll(g, dom, preds, |preds|, d);
    }
  }

  /** The ids done so far have the set they start with: a root its own, any other block every id. */
  ghost predicate StartsWith(g: Cfg, dom: DomMap, done: seq<BlockId>) {
    && (forall b :: b in dom <==> b in done)
    && forall b :: b in dom ==> dom[b] == if b in g.Roots() then {b} else g.blocks.Keys
  }

  lemma OneMoreStart(g: Cfg, dom: DomMap, ids: seq<BlockId>, i: nat)
    requires i < |ids| && StartsWith(g, dom, ids[..i])
    ensures StartsWith(g, dom[ids[i] := if ids[i] in g.Roots() then {ids[i]} else g.blocks.Keys], ids[..i + 1])
  {
    assert ids[..i + 1] == ids[..i] + [ids[i]];
  }

  lemma InitialInvariant(g: Cfg, dom: DomMap)
    requires forall b :: b in dom <==> b in g.blocks
    requires forall b :: b in dom ==> dom[b] == if b in g.Roots() then {b} else g.blocks.Keys
    ensures DomInvariant(g, dom)
  {
    forall b | b in dom && !Reachable(g, b) ensures b !in g.Roots() {
      if b in g.Roots() {
        RootReachable(g, b);
      }
    }
    forall b, d | b in g.blocks && d in g.blocks && Dominates(g, d, b) ensures d in dom[b] {
      if b in g.Roots() {
        assert RootPath(g, [b], b);
        assert d in [b];
      }
    }
    assert dom.Keys == g.blocks.Keys;
  }

  lemma AllStarted(g: Cfg, dom: DomMap)
    requires StartsWith(g, dom, g.BlockIds()[..|g.BlockIds()|])
    ensures DomInvariant(g, dom)
  {
    var ids := g.BlockIds();
    SortedElements(g.blocks.Keys);
    assert ids[..|ids|] == ids;
    InitialInvariant(g, dom);
  }

  method InitialDominators(g: Cfg) returns (dom: DomMap)
    ensures DomInvariant(g, dom)
  {
    var all := g.blocks.Keys;
    var roots := g.Roots();
    dom := map[];
    var ids := g.BlockIds();
    for i := 0 to |ids|
      invariant StartsWith(g, dom, ids[..i])
    {
      OneMoreStart(g, dom, ids, i);
      dom := dom[ids[i] := if ids[i] in roots then {ids[i]} else all];
    }
    AllStarted(g, dom);
  }

  ghost predicate AllSettled(g: Cfg, dom: DomMap, ids: seq<BlockId>, n: nat)
    requires dom.Keys == g.blocks.Keys && n <= |ids|
  {
    forall k :: 0 <= k < n ==> Settled(g, dom, ids[k])
  }

  lemma SettledOneMore(g: Cfg, dom: DomMap, ids: seq<BlockId>, n: nat)
    requires dom.Keys == g.blocks.Keys && n < |ids|
    requires AllSettled(g, dom, ids, n) && Settled(g, dom, ids[n])
    ensures AllSettled(g, dom, ids, n + 1)
  {
  }

  /** Recomputes one reachable block, keeping the invariant. */
  method Visit(g: Cfg, rpo: seq<BlockId>, b: BlockId, dom: DomMap) returns (dom': DomMap, changed: bool)
    requires JumpsLandOnBlocks(g) && DomInvariant(g, dom) && b in rpo && Reachable(g, b)
    ensures DomInvariant(g, dom')
    ensures !changed ==> dom' == dom && Settled(g, dom, b)
    ensures changed ==> Total(rpo, dom') < Total(rpo, dom)
  {
    dom', changed := dom, false;
    if b in g.Roots() || g.Predecessors(b) == [] {
      return;
    }
    var newDom := Recompute(g, dom, b);
    if newDom != dom[b] {
      assert newDom < dom[b];
      ShrinkLowersTotal(rpo, dom, b, newDom);
      UpdateKeepsInvariant(g, dom, b);
      changed := true;
      dom' := dom[b := newDom];
    }
  }

  /** One pass over the blocks; reports whether any set changed. */
  method Pass(g: Cfg, rpo: seq<BlockId>, dom0: DomMap) returns (dom: DomMap, changed: bool)
    requires JumpsLandOnBlocks(g) && DomInvariant(g, dom0) && forall b :: b in rpo ==> Reachable(g, b)
    ensures DomInvariant(g, dom)
    ensures !changed ==> dom == dom0 && AllSettled(g, dom, rpo, |rpo|)
    ensures changed ==> Total(rpo, dom) < Total(rpo, dom0)
  {
    dom, changed := dom0, false;
    for i := 0 to |rpo|
      invariant DomInvariant(g, dom)
      invariant !changed ==> dom == dom0 && AllSettled(g, dom, rpo, i)
      invariant changed ==> Total(rpo, dom) < Total(rpo, dom0)
    {
      var b := rpo[i];
      assert b in rpo;
      var blockChanged;
      dom, blockChanged := Visit(g, rpo, b, dom);
      if blockChanged {
        changed := true;
      } else if !changed {
        SettledOneMore(g, dom, rpo, i);
      }
    }
  }

  /** For every block, exactly the blocks that lie on every path to it from a root.
      A block no root reaches keeps the full set. */
  method ComputeDominators(g: Cfg) returns (dom: DomMap)
    requires JumpsLandOnBlocks(g)
    ensures dom.Keys == g.blocks.Keys
    ensures forall b :: b in g.blocks ==> dom[b] <= g.blocks.Keys
    ensures forall b, d :: b in g.blocks && d in g.blocks ==> (d in dom[b] <==> Dominates(g, d, b))
  {
    dom := InitialDominators(g);
    var rpo := ReversePostorder(g);
    var changed := true;
    while changed
      invariant DomInvariant(g, dom)
      invariant !changed ==> AllSettled(g, dom, rpo, |rpo|)
      decreases Total(rpo, dom), changed
    {
      dom, changed := Pass(g, rpo, dom);
    }
    forall x: BlockId | Reachable(g, x) ensures Settled(g, dom, x) {
      var k :| 0 <= k < |rpo| && rpo[k] == x;
    }
    forall b, d | b in g.blocks && d in g.blocks ensures d in dom[b] <==> Dominates(g, d, b) {
      FixedPointExact(g, dom, b, d);
    }
  }
}
