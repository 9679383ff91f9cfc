/** Reaching definitions over normal and exception edges. */
module Reaching {
  import opened Ir
  import opened Options
  import opened OrderedSets
  import opened ControlFlow
  import opened SetMaps

  datatype DefSite = DefSite(block: BlockId, stmtIndex: nat, register: nat)

  type DefMap = map<BlockId, set<DefSite>>

  ghost function Statements(g: Cfg, b: BlockId): seq<Statement> {
    if b in g.blocks then g.blocks[b].statements else []
  }

  /** `d` is the last of the first `n` statements of block `b` to write its register. */
  ghost predicate LastWriteIn(stmts: seq<Statement>, n: nat, b: BlockId, d: DefSite)
    requires n <= |stmts|
  {
    && d.block == b && d.stmtIndex < n
    && RegisterWritten(stmts[d.stmtIndex]) == Some(d.register)
    && forall j :: d.stmtIndex < j < n ==> RegisterWritten(stmts[j]) != Some(d.register)
  }

  ghost predicate IsDef(g: Cfg, b: BlockId, d: DefSite) {
    LastWriteIn(Statements(g, b), |Statements(g, b)|, b, d)
  }

  /** One of the first `n` statements writes register `r`. */
  ghost predicate WrittenBy(stmts: seq<Statement>, n: nat, r: nat)
    requires n <= |stmts|
  {
    exists i :: 0 <= i < n && RegisterWritten(stmts[i]) == Some(r)
  }

  ghost predicate WritesRegister(g: Cfg, b: BlockId, r: nat) {
    WrittenBy(Statements(g, b), |Statements(g, b)|, r)
  }

  ghost function SiteAt(g: Cfg, b: BlockId, i: nat): DefSite
    requires i < |Statements(g, b)|
  {
    DefSite(b, i, match RegisterWritten(Statements(g, b)[i]) case Some(r) => r case None => 0)
  }

  /** Every definition that is the last write of its register in its block. */
  ghost function AllDefs(g: Cfg): set<DefSite> {
    set b, i | b in g.blocks && 0 <= i < |Statements(g, b)| && IsDef(g, b, SiteAt(g, b, i)) :: SiteAt(g, b, i)
  }

  lemma AllDefsSpec(g: Cfg, d: DefSite)
    ensures d in AllDefs(g) <==> IsDef(g, d.block, d)
  {
    if IsDef(g, d.block, d) {
      assert d == SiteAt(g, d.block, d.stmtIndex);
    }
  }

  // ---------- The block transfer

  /** Definitions generated by a block: its last write of each register. */
  method ComputeGen(g: Cfg, b: BlockId) returns (gen: set<DefSite>)
    ensures forall d :: d in gen <==> IsDef(g, b, d)
  {
    gen := {};
    if b in g.blocks {
      var stmts := g.blocks[b].statements;
      for i := 0 to |stmts|
        invariant forall d :: d in gen <==> LastWriteIn(stmts, i, b, d)
      {
        match RegisterWritten(stmts[i])
        case None =>
        case Some(r) =>
          gen := set d | d in gen && d.register != r;
          gen := gen + {DefSite(b, i, r)};
      }
    }
  }

  /** Incoming definitions from other blocks whose register the block writes. */
  method ComputeKill(g: Cfg, b: BlockId, reaching: set<DefSite>) returns (kill: set<DefSite>)
    ensures kill == Killed(g, b, reaching)
  {
    kill := {};
    if b in g.blocks {
      var stmts := g.blocks[b].statements;
      for i := 0 to |stmts|
        invariant forall d :: d in kill <==> d in reaching && d.block != b && WrittenBy(stmts, i, d.register)
      {
        match RegisterWritten(stmts[i])
        case None =>
        case Some(r) =>
          kill := kill + set d | d in reaching && d.register == r && d.block != b;
      }
    }
  }

  ghost function Killed(g: Cfg, b: BlockId, reaching: set<DefSite>): set<DefSite> {
    set d | d in reaching && d.block != b && WritesRegister(g, b, d.register)
  }

  ghost function Gen(g: Cfg, b: BlockId): set<DefSite> {
    set d | d in AllDefs(g) && d.block == b
  }

  lemma GenSpec(g: Cfg, b: BlockId)
    ensures forall d :: d in Gen(g, b) <==> IsDef(g, b, d)
  {
    forall d ensures d in Gen(g, b) <==> IsDef(g, b, d) {
      AllDefsSpec(g, d);
    }
  }

  ghost function Transfer(g: Cfg, b: BlockId, incoming: set<DefSite>): set<DefSite> {
    Gen(g, b) + (incoming - Killed(g, b, incoming))
  }

  /** Sparing a block's own definitions from the kill never changes what leaves it. */
  lemma SparingOwnDefsChangesNothing(g: Cfg, b: BlockId, incoming: set<DefSite>)
    requires incoming <= AllDefs(g)
    ensures Transfer(g, b, incoming) ==
            Gen(g, b) + (set d | d in incoming && !WritesRegister(g, b, d.register))
  {
    forall d | d in incoming && WritesRegister(g, b, d.register) && d.block == b
      ensures d in Gen(g, b)
    {
    }
    forall d | d in incoming && !WritesRegister(g, b, d.register)
      ensures d !in Killed(g, b, incoming)
    {
    }
  }

  // ---------- Chains: the declarative meaning

  /** One hop of a definition of register `r`: over a normal edge unless the block it
      passes through rewrites `r`, or over an exception edge from anywhere in a block. */
  ghost predicate Hop(g: Cfg, r: nat, first: bool, a: BlockId, b: BlockId) {
    || (b in g.Succ(a) && (first || !WritesRegister(g, a, r)))
    || g.ExceptionEdge(a, b)
  }

  ghost predicate HopAt(g: Cfg, r: nat, p: seq<BlockId>, k: nat)
    requires k + 1 < |p|
  {
    Hop(g, r, k == 0, p[k], p[k + 1]) && Reachable(g, p[k + 1])
  }

  ghost predicate Chain(g: Cfg, d: DefSite, p: seq<BlockId>, b: BlockId) {
    && |p| >= 2 && p[0] == d.block && p[|p| - 1] == b
    && forall k :: 0 <= k < |p| - 1 ==> HopAt(g, d.register, p, k)
  }

  /** Definition `d` may still hold on entry to `b`. */
  ghost predicate ReachesEntry(g: Cfg, d: DefSite, b: BlockId) {
    d in AllDefs(g) && exists p :: Chain(g, d, p, b)
  }

  lemma StartChain(g: Cfg, d: DefSite, b: BlockId)
    requires d in AllDefs(g) && Hop(g, d.register, true, d.block, b) && Reachable(g, b)
    ensures ReachesEntry(g, d, b)
  {
    var p := [d.block, b];
    assert HopAt(g, d.register, p, 0);
    assert Chain(g, d, p, b);
  }

  lemma ExtendChain(g: Cfg, d: DefSite, a: BlockId, b: BlockId)
    requires ReachesEntry(g, d, a) && Hop(g, d.register, false, a, b) && Reachable(g, b)
    ensures ReachesEntry(g, d, b)
  {
    var p :| Chain(g, d, p, a);
    var q := p + [b];
    forall k | 0 <= k < |q| - 1 ensures HopAt(g, d.register, q, k) {
      if k < |p| - 1 {
        assert HopAt(g, d.register, p, k);
      }
    }
    assert Chain(g, d, q, b);
  }

  // ---------- The equations and the iteration's invariant

  ghost predicate ArrivesByJump(g: Cfg, rout: DefMap, b: BlockId, d: DefSite) {
    exists p :: p in g.blocks && b in g.Succ(p) && d in Get(rout, p)
  }

  ghost predicate ArrivesByThrow(g: Cfg, rin: DefMap, rout: DefMap, b: BlockId, d: DefSite) {
    exists s: BlockId :: g.ExceptionEdge(s, b) && d in Get(rin, s) + Get(rout, s)
  }

  ghost predicate Feeds(g: Cfg, rin: DefMap, rout: DefMap, b: BlockId, d: DefSite) {
    ArrivesByJump(g, rout, b, d) || ArrivesByThrow(g, rin, rout, b, d)
  }

  ghost function Feed(g: Cfg, rin: DefMap, rout: DefMap, b: BlockId): set<DefSite> {
    set d | d in AllDefs(g) && Feeds(g, rin, rout, b, d)
  }

  ghost predicate WithinDefs(g: Cfg, m: DefMap) {
    forall b: BlockId :: Get(m, b) <= AllDefs(g)
  }

  ghost predicate OutMatchesIn(g: Cfg, rin: DefMap, rout: DefMap) {
    forall b: BlockId :: Get(rout, b) == Transfer(g, b, Get(rin, b))
  }

  /** Recomputing any entry set can only grow it: why testing for a difference is enough to stop. */
  ghost predicate Growing(g: Cfg, rin: DefMap, rout: DefMap) {
    forall b: BlockId :: Reachable(g, b) ==> Get(rin, b) <= Feed(g, rin, rout, b)
  }

  ghost predicate InSound(g: Cfg, rin: DefMap) {
    forall b: BlockId, d :: d in Get(rin, b) ==> ReachesEntry(g, d, b)
  }

  ghost predicate UnreachedEmpty(g: Cfg, rin: DefMap) {
    forall b: BlockId :: !Reachable(g, b) ==> Get(rin, b) == {}
  }

  /** What holds of one block's sets at every moment of the iteration. */
  ghost predicate InvariantAt(g: Cfg, rin: DefMap, rout: DefMap, b: BlockId) {
    && Get(rin, b) <= AllDefs(g) && Get(rout, b) <= AllDefs(g)
    && Get(rout, b) == Transfer(g, b, Get(rin, b))
    && (forall d :: d in Get(rin, b) ==> ReachesEntry(g, d, b))
    && (if Reachable(g, b) then Get(rin, b) <= Feed(g, rin, rout, b) else Get(rin, b) == {})
  }

  ghost predicate DefInvariant(g: Cfg, rin: DefMap, rout: DefMap) {
    forall b: BlockId :: InvariantAt(g, rin, rout, b)
  }

  ghost predicate InvariantParts(g: Cfg, rin: DefMap, rout: DefMap) {
    && WithinDefs(g, rin) && WithinDefs(g, rout)
    && OutMatchesIn(g, rin, rout)
    && Growing(g, rin, rout)
    && InSound(g, rin)
    && UnreachedEmpty(g, rin)
  }

  lemma TakeApart(g: Cfg, rin: DefMap, rout: DefMap)
    requires DefInvariant(g, rin, rout)
    ensures InvariantParts(g, rin, rout)
  {
    assert forall b: BlockId :: InvariantAt(g, rin, rout, b);
    forall b: BlockId
      ensures Get(rin, b) <= AllDefs(g) && Get(rout, b) <= AllDefs(g)
      ensures Get(rout, b) == Transfer(g, b, Get(rin, b))
      ensures Reachable(g, b) ==> Get(rin, b) <= Feed(g, rin, rout, b)
      ensures !Reachable(g, b) ==> Get(rin, b) == {}
      ensures forall d :: d in Get(rin, b) ==> ReachesEntry(g, d, b)
    {
      assert InvariantAt(g, rin, rout, b);
    }
  }

  lemma PutTogether(g: Cfg, rin: DefMap, rout: DefMap)
    requires InvariantParts(g, rin, rout)
    ensures DefInvariant(g, rin, rout)
  {
  }

  lemma OutSound(g: Cfg, rin: DefMap, rout: DefMap, p: BlockId, b: BlockId, d: DefSite)
    requires WithinDefs(g, rin) && OutMatchesIn(g, rin, rout) && InSound(g, rin)
    requires Reachable(g, b) && d in Get(rout, p)
    requires b in g.Succ(p) || g.ExceptionEdge(p, b)
    ensures ReachesEntry(g, d, b)
  {
    if d in Gen(g, p) {
      StartChain(g, d, b);
    } else {
      assert d in Get(rin, p) && d !in Killed(g, p, Get(rin, p));
      assert d in AllDefs(g);
      ExtendChain(g, d, p, b);
    }
  }

  lemma FeedSound(g: Cfg, rin: DefMap, rout: DefMap, b: BlockId, d: DefSite)
    requires WithinDefs(g, rin) && OutMatchesIn(g, rin, rout) && InSound(g, rin)
    requires Reachable(g, b) && d in Feed(g, rin, rout, b)
    ensures ReachesEntry(g, d, b)
  {
    if p :| p in g.blocks && b in g.Succ(p) && d in Get(rout, p) {
      OutSound(g, rin, rout, p, b, d);
    } else {
      var s: BlockId :| g.ExceptionEdge(s, b) && d in Get(rin, s) + Get(rout, s);
      if d in Get(rout, s) {
        OutSound(g, rin, rout, s, b, d);
      } else {
        ExtendChain(g, d, s, b);
      }
    }
  }

  lemma TransferMonotone(g: Cfg, b: BlockId, small: set<DefSite>, large: set<DefSite>)
    requires small <= large
    ensures Transfer(g, b, small) <= Transfer(g, b, large)
  {
  }

  lemma FeedMonotone(g: Cfg, rin: DefMap, rout: DefMap, rin': DefMap, rout': DefMap, b: BlockId)
    requires forall x: BlockId :: Get(rin, x) <= Get(rin', x) && Get(rout, x) <= Get(rout', x)
    ensures Feed(g, rin, rout, b) <= Feed(g, rin', rout', b)
  {
    forall d | d in Feed(g, rin, rout, b) ensures Feeds(g, rin', rout', b, d) {
      if p :| p in g.blocks && b in g.Succ(p) && d in Get(rout, p) {
        assert d in Get(rout', p);
      } else {
        var s: BlockId :| g.ExceptionEdge(s, b) && d in Get(rin, s) + Get(rout, s);
        assert d in Get(rin', s) + Get(rout', s);
      }
    }
  }

  /** `rin'`, `rout'` are `rin`, `rout` with block `b` recomputed. */
  ghost predicate Recomputed(g: Cfg, rin: DefMap, rout: DefMap, b: BlockId, rin': DefMap, rout': DefMap) {
    && Get(rin', b) == Feed(g, rin, rout, b)
    && Get(rout', b) == Transfer(g, b, Feed(g, rin, rout, b))
    && forall x: BlockId :: x != b ==> Get(rin', x) == Get(rin, x) && Get(rout', x) == Get(rout, x)
  }

  lemma RecomputedGrows(g: Cfg, rin: DefMap, rout: DefMap, b: BlockId, rin': DefMap, rout': DefMap)
    requires InvariantParts(g, rin, rout) && Reachable(g, b) && Recomputed(g, rin, rout, b, rin', rout')
    ensures forall x: BlockId :: Get(rin, x) <= Get(rin', x) && Get(rout, x) <= Get(rout', x)
  {
    TransferMonotone(g, b, Get(rin, b), Get(rin', b));
  }

  lemma RecomputedGrowing(g: Cfg, rin: DefMap, rout: DefMap, b: BlockId, rin': DefMap, rout': DefMap)
    requires InvariantParts(g, rin, rout) && Reachable(g, b) && Recomputed(g, rin, rout, b, rin', rout')
    ensures Growing(g, rin', rout')
  {
    RecomputedGrows(g, rin, rout, b, rin', rout');
    forall x: BlockId | Reachable(g, x) ensures Get(rin', x) <= Feed(g, rin', rout', x) {
      FeedMonotone(g, rin, rout, rin', rout', x);
    }
  }

  lemma RecomputedKeepsInvariant(g: Cfg, rin: DefMap, rout: DefMap, b: BlockId, rin': DefMap, rout': DefMap)
    requires DefInvariant(g, rin, rout) && Reachable(g, b) && Recomputed(g, rin, rout, b, rin', rout')
    ensures DefInvariant(g, rin', rout')
  {
    TakeApart(g, rin, rout);
    RecomputedGrowing(g, rin, rout, b, rin', rout');
    forall d | d in Feed(g, rin, rout, b) ensures ReachesEntry(g, d, b) {
      FeedSound(g, rin, rout, b, d);
    }
    PutTogether(g, rin', rout');
  }

  // ---------- Exactness

  lemma HopFeeds(g: Cfg, rin: DefMap, rout: DefMap, d: DefSite, first: bool, a: BlockId, b: BlockId)
    requires Transfer(g, a, Get(rin, a)) <= Get(rout, a)
    requires d in AllDefs(g) && Hop(g, d.register, first, a, b)
    requires if first then a == d.block else d in Get(rin, a)
    ensures d in Feed(g, rin, rout, b)
  {
    if g.ExceptionEdge(a, b) {
      assert d in Get(rin, a) + Get(rout, a) by {
        if first { assert d in Gen(g, a); }
      }
    } else {
      assert d in Transfer(g, a, Get(rin, a));
    }
  }

  lemma ShortenChain(g: Cfg, d: DefSite, p: seq<BlockId>, b: BlockId)
    requires Chain(g, d, p, b) && |p| > 2
    ensures Chain(g, d, p[..|p| - 1], p[|p| - 2]) && Hop(g, d.register, false, p[|p| - 2], b)
  {
    var q := p[..|p| - 1];
    forall k | 0 <= k < |q| - 1 ensures HopAt(g, d.register, q, k) {
      assert HopAt(g, d.register, p, k);
    }
    assert HopAt(g, d.register, p, |p| - 2);
  }

  /** Every chain is contained in any solution of the equations, so the exact set is the least one. */
  lemma {:induction false} ChainInSolution(g: Cfg, rin: DefMap, rout: DefMap, d: DefSite, p: seq<BlockId>, b: BlockId)
    requires forall x: BlockId :: Reachable(g, x) ==> Feed(g, rin, rout, x) <= Get(rin, x)
    requires forall x: BlockId :: Transfer(g, x, Get(rin, x)) <= Get(rout, x)
    requires d in AllDefs(g) && Chain(g, d, p, b)
    ensures d in Get(rin, b)
    decreases |p|
  {
    assert HopAt(g, d.register, p, |p| - 2);
    if |p| == 2 {
      HopFeeds(g, rin, rout, d, true, p[0], b);
    } else {
      ShortenChain(g, d, p, b);
      ChainInSolution(g, rin, rout, d, p[..|p| - 1], p[|p| - 2]);
      HopFeeds(g, rin, rout, d, false, p[|p| - 2], b);
    }
  }

  /** Nothing new arrives at `b`. */
  ghost predicate Settled(g: Cfg, rin: DefMap, rout: DefMap, b: BlockId) {
    forall d :: Absorbed(g, rin, rout, b, d)
  }

  ghost predicate Absorbed(g: Cfg, rin: DefMap, rout: DefMap, b: BlockId, d: DefSite) {
    d in Feed(g, rin, rout, b) ==> d in Get(rin, b)
  }

  lemma EntryExact(g: Cfg, rin: DefMap, rout: DefMap, b: BlockId, d: DefSite)
    requires InvariantParts(g, rin, rout)
    requires forall x: BlockId :: Reachable(g, x) ==> Settled(g, rin, rout, x)
    ensures d in Get(rin, b) <==> ReachesEntry(g, d, b)
  {
    if ReachesEntry(g, d, b) {
      forall x: BlockId | Reachable(g, x) ensures Feed(g, rin, rout, x) <= Get(rin, x) {
        assert Settled(g, rin, rout, x);
        forall e | e in Feed(g, rin, rout, x) ensures e in Get(rin, x) {
          assert Absorbed(g, rin, rout, x, e);
        }
      }
      var p :| Chain(g, d, p, b);
      ChainInSolution(g, rin, rout, d, p, b);
    }
  }

  // ---------- The iteration

  ghost predicate InSome(sets: DefMap, ids: seq<BlockId>, n: nat, d: DefSite)
    requires n <= |ids|
  {
    exists k :: 0 <= k < n && d in Get(sets, ids[k])
  }

  lemma SomePredecessor(g: Cfg, b: BlockId, rout: DefMap, d: DefSite)
    ensures InSome(rout, g.Predecessors(b), |g.Predecessors(b)|, d) <==> ArrivesByJump(g, rout, b, d)
  {
    var preds := g.Predecessors(b);
    PredecessorsSpec(g, b);
    if InSome(rout, preds, |preds|, d) {
      var k :| 0 <= k < |preds| && d in Get(rout, preds[k]);
      assert preds[k] in preds;
    }
    if ArrivesByJump(g, rout, b, d) {
      var p :| p in g.blocks && b in g.Succ(p) && d in Get(rout, p);
      assert p in preds;
    }
  }

  method UnionOfPredecessors(g: Cfg, b: BlockId, rout: DefMap) returns (s: set<DefSite>)
    ensures forall d :: d in s <==> ArrivesByJump(g, rout, b, d)
  {
    var preds := g.Predecessors(b);
    s := {};
    for i := 0 to |preds|
      invariant forall d :: d in s <==> InSome(rout, preds, i, d)
    {
      s := s + Get(rout, preds[i]);
    }
    forall d ensures d in s <==> ArrivesByJump(g, rout, b, d) {
      SomePredecessor(g, b, rout, d);
    }
  }

  lemma SomeSource(g: Cfg, b: BlockId, sources: seq<BlockId>, rin: DefMap, rout: DefMap, d: DefSite)
    requires forall a: BlockId :: a in sources <==> g.ExceptionEdge(a, b)
    ensures InSome(rin, sources, |sources|, d) || InSome(rout, sources, |sources|, d) <==> ArrivesByThrow(g, rin, rout, b, d)
  {
    if ArrivesByThrow(g, rin, rout, b, d) {
      var a: BlockId :| g.ExceptionEdge(a, b) && d in Get(rin, a) + Get(rout, a);
      var k :| 0 <= k < |sources| && sources[k] == a;
    }
    if k :| 0 <= k < |sources| && (d in Get(rin, sources[k]) || d in Get(rout, sources[k])) {
      assert sources[k] in sources;
      assert d in Get(rin, sources[k]) + Get(rout, sources[k]);
    }
  }

  method UnionOfExceptionSources(g: Cfg, b: BlockId, rin: DefMap, rout: DefMap) returns (s: set<DefSite>)
    ensures forall d :: d in s <==> ArrivesByThrow(g, rin, rout, b, d)
  {
    var sources := ExceptionEdgeSources(g, b);
    s := {};
    for i := 0 to |sources|
      invariant forall d :: d in s <==> InSome(rin, sources, i, d) || InSome(rout, sources, i, d)
    {
      s := s + Get(rin, sources[i]);
      s := s + Get(rout, sources[i]);
    }
    forall d ensures d in s <==> ArrivesByThrow(g, rin, rout, b, d) {
      SomeSource(g, b, sources, rin, rout, d);
    }
  }

  method NewIn(g: Cfg, b: BlockId, rin: DefMap, rout: DefMap) returns (newIn: set<DefSite>)
    requires WithinDefs(g, rin) && WithinDefs(g, rout)
    ensures newIn == Feed(g, rin, rout, b)
  {
    var fromPreds := UnionOfPredecessors(g, b, rout);
    var fromTries := UnionOfExceptionSources(g, b, rin, rout);
    newIn := fromPreds + fromTries;
    forall d | d in newIn ensures d in AllDefs(g) {
      if d in fromPreds {
        var p :| p in g.blocks && b in g.Succ(p) && d in Get(rout, p);
      } else {
        var a: BlockId :| g.ExceptionEdge(a, b) && d in Get(rin, a) + Get(rout, a);
      }
    }
  }

  ghost predicate SeededUpTo(g: Cfg, done: seq<BlockId>, rin: DefMap, rout: DefMap) {
    && (forall b: BlockId :: Get(rin, b) == {})
    && (forall b: BlockId :: Get(rout, b) == if b in done then Gen(g, b) else {})
  }

  lemma SeedOne(g: Cfg, done: seq<BlockId>, rin: DefMap, rout: DefMap, b: BlockId)
    requires SeededUpTo(g, done, rin, rout)
    ensures SeededUpTo(g, done + [b], rin[b := {}], rout[b := Gen(g, b)])
  {
    var rin' := rin[b := {}];
    forall x: BlockId ensures Get(rin', x) == {} {
      assert Get(rin, x) == {};
    }
  }

  lemma SeededInvariant(g: Cfg, done: seq<BlockId>, rin: DefMap, rout: DefMap)
    requires SeededUpTo(g, done, rin, rout)
    requires forall b :: b in g.blocks ==> b in done
    ensures DefInvariant(g, rin, rout)
  {
    forall b: BlockId ensures Get(rout, b) == Transfer(g, b, Get(rin, b)) {
      GenSpec(g, b);
      if b !in g.blocks {
        assert Gen(g, b) == {};
      }
    }
    PutTogether(g, rin, rout);
  }

  method Initial(g: Cfg) returns (rin: DefMap, rout: DefMap)
    ensures DefInvariant(g, rin, rout)
  {
    var ids := g.BlockIds();
    SortedElements(g.blocks.Keys);
    rin, rout := map[], map[];
    for i := 0 to |ids|
      invariant SeededUpTo(g, ids[..i], rin, rout)
    {
      var gen := ComputeGen(g, ids[i]);
      GenSpec(g, ids[i]);
      assert gen == Gen(g, ids[i]);
      SeedOne(g, ids[..i], rin, rout, ids[i]);
      assert ids[..i + 1] == ids[..i] + [ids[i]];
      rin := rin[ids[i] := {}];
      rout := rout[ids[i] := gen];
    }
    assert ids[..|ids|] == ids;
    SeededInvariant(g, ids, rin, rout);
  }

  method NewSets(g: Cfg, b: BlockId, rin: DefMap, rout: DefMap) returns (newIn: set<DefSite>, newOut: set<DefSite>)
    requires WithinDefs(g, rin) && WithinDefs(g, rout)
    ensures newIn == Feed(g, rin, rout, b)
    ensures newOut == Transfer(g, b, newIn)
  {
    newIn := NewIn(g, b, rin, rout);
    var gen := ComputeGen(g, b);
    GenSpec(g, b);
    assert gen == Gen(g, b);
    var kill := ComputeKill(g, b, newIn);
    newOut := newIn - kill;
    newOut := newOut + gen;
  }

  method RecomputeBlock(g: Cfg, b: BlockId, rin: DefMap, rout: DefMap)
    returns (rin': DefMap, rout': DefMap, changed: bool)
    requires WithinDefs(g, rin) && WithinDefs(g, rout)
    requires Get(rout, b) == Transfer(g, b, Get(rin, b))
    ensures Recomputed(g, rin, rout, b, rin', rout')
    ensures changed <==> Get(rin, b) != Get(rin', b)
    ensures !changed ==> rin' == rin && rout' == rout
  {
    rin', rout', changed := rin, rout, false;
    var newIn, newOut := NewSets(g, b, rin, rout);
    if newIn != Get(rin, b) {
      changed := true;
      rin' := rin[b := newIn];
      GetAfterUpdate(rin, rin', b, newIn);
    }
    if newOut != Get(rout, b) {
      changed := true;
      rout' := rout[b := newOut];
      GetAfterUpdate(rout, rout', b, newOut);
    }
  }

  lemma ChangeLowersSlack(g: Cfg, ids: seq<BlockId>, b: BlockId, rin: DefMap, rout: DefMap, rin': DefMap, rout': DefMap)
    requires b in ids && Reachable(g, b) && InvariantParts(g, rin, rout)
    requires Recomputed(g, rin, rout, b, rin', rout') && Get(rin, b) != Get(rin', b)
    ensures Slack(ids, AllDefs(g), rin') < Slack(ids, AllDefs(g), rin)
  {
    GrowthLowersSlack(ids, AllDefs(g), rin, rin', b);
  }

  ghost predicate AllSettled(g: Cfg, ids: seq<BlockId>, n: nat, rin: DefMap, rout: DefMap)
    requires n <= |ids|
  {
    forall k :: 0 <= k < n ==> Settled(g, rin, rout, ids[k])
  }

  lemma SettledOneMore(g: Cfg, ids: seq<BlockId>, n: nat, rin: DefMap, rout: DefMap)
    requires n < |ids| && AllSettled(g, ids, n, rin, rout) && Settled(g, rin, rout, ids[n])
    ensures AllSettled(g, ids, n + 1, rin, rout)
  {
  }

  /** Recomputes one reachable block, keeping the invariant. */
  method Visit(g: Cfg, rpo: seq<BlockId>, b: BlockId, rin: DefMap, rout: DefMap)
    returns (rin': DefMap, rout': DefMap, changed: bool)
    requires DefInvariant(g, rin, rout) && b in rpo && Reachable(g, b)
    ensures DefInvariant(g, rin', rout')
    ensures !changed ==> rin' == rin && rout' == rout && Settled(g, rin, rout, b)
    ensures changed ==> Slack(rpo, AllDefs(g), rin') < Slack(rpo, AllDefs(g), rin)
  {
    TakeApart(g, rin, rout);
    rin', rout', changed := RecomputeBlock(g, b, rin, rout);
    RecomputedKeepsInvariant(g, rin, rout, b, rin', rout');
    if changed {
      ChangeLowersSlack(g, rpo, b, rin, rout, rin', rout');
    }
  }

  /** One pass over the blocks; reports whether any set changed. */
  method Pass(g: Cfg, rpo: seq<BlockId>, rin0: DefMap, rout0: DefMap)
    returns (rin: DefMap, rout: DefMap, changed: bool)
    requires DefInvariant(g, rin0, rout0) && forall b :: b in rpo ==> Reachable(g, b)
    ensures DefInvariant(g, rin, rout)
    ensures !changed ==> rin == rin0 && rout == rout0
    ensures !changed ==> AllSettled(g, rpo, |rpo|, rin, rout)
    ensures changed ==> Slack(rpo, AllDefs(g), rin) < Slack(rpo, AllDefs(g), rin0)
  {
    rin, rout, changed := rin0, rout0, false;
    for i := 0 to |rpo|
      invariant DefInvariant(g, rin, rout)
      invariant !changed ==> rin == rin0 && rout == rout0 && AllSettled(g, rpo, i, rin, rout)
      invariant changed ==> Slack(rpo, AllDefs(g), rin) < Slack(rpo, AllDefs(g), rin0)
    {
      var b := rpo[i];
      assert b in rpo;
      var blockChanged;
      rin, rout, blockChanged := Visit(g, rpo, b, rin, rout);
      if blockChanged {
        changed := true;
      } else if !changed {
        SettledOneMore(g, rpo, i, rin, rout);
      }
    }
  }

  /** Terminates with exactly the definitions that reach each block's entry over a chain. */
  method Analyze(g: Cfg) returns (rin: DefMap, rout: DefMap)
    ensures forall b: BlockId, d :: d in Get(rin, b) <==> ReachesEntry(g, d, b)
    ensures forall b: BlockId :: Get(rout, b) == Transfer(g, b, Get(rin, b))
  {
    rin, rout := Initial(g);
    var rpo := ReversePostorder(g);
    var changed := true;
    while changed
      invariant DefInvariant(g, rin, rout)
      invariant !changed ==> AllSettled(g, rpo, |rpo|, rin, rout)
      decreases Slack(rpo, AllDefs(g), rin), changed
    {
      rin, rout, changed := Pass(g, rpo, rin, rout);
    }
    TakeApart(g, rin, rout);
    forall x: BlockId | Reachable(g, x) ensures Settled(g, rin, rout, x) {
      var k :| 0 <= k < |rpo| && rpo[k] == x;
    }
    forall b: BlockId, d ensures d in Get(rin, b) <==> ReachesEntry(g, d, b) {
      EntryExact(g, rin, rout, b, d);
    }
  }
}
