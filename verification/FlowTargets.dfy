/** The flow analyses told in terms of what blocks contain: the targets their terminators name and the
    registers their statements assign. */
module FlowTargets {
  import opened Options
  import opened Ir
  import opened ControlFlow
  import Dominators
  import Loops
  import Reaching
  import Liveness

  /** The terminator names `s` as a place to go to. */
  predicate Names(t: Terminator, s: BlockId) {
    || (t.Jump? && s == t.target)
    || (t.Branch? && (s == t.trueTarget || s == t.falseTarget))
    || (t.SwitchT? && (s in t.cases || s == t.default))
  }

  /** The edges of the graph are exactly the targets named, a branch's true target ahead of its false one
      and a switch's default last. */
  lemma EdgesExactly(g: Cfg, b: BlockId)
    ensures forall s :: s in g.Succ(b) <==> b in g.blocks && Names(g.blocks[b].terminator, s)
    ensures b in g.blocks && g.blocks[b].terminator.Branch? ==>
              g.Succ(b) == [g.blocks[b].terminator.trueTarget, g.blocks[b].terminator.falseTarget]
    ensures b in g.blocks && g.blocks[b].terminator.SwitchT? ==>
              g.Succ(b) == g.blocks[b].terminator.cases + [g.blocks[b].terminator.default]
  {
  }

  /** Exactly the blocks whose terminator names it lead to a block. */
  lemma PredecessorsExactly(g: Cfg, b: BlockId, p: BlockId)
    ensures p in g.Predecessors(b) <==> p in g.blocks && Names(g.blocks[p].terminator, b)
  {
    PredecessorsSpec(g, b);
    EdgesExactly(g, p);
  }

  // ---------- Dominators

  /** Where a path goes through a named target, its end is not dominated by what the path avoids. */
  lemma AvoidedDoesNotDominate(g: Cfg, p: seq<BlockId>, c: BlockId, s: BlockId, q: seq<BlockId>, x: BlockId, d: BlockId)
    requires RootPath(g, p, c) && d !in p && c in g.blocks && Names(g.blocks[c].terminator, s)
    requires PathBetween(g, q, s, x) && d !in q
    ensures !Dominators.Dominates(g, d, x)
  {
    EdgesExactly(g, c);
    var path := p + q;
    forall i | 0 <= i < |path| - 1
      ensures path[i + 1] in g.Succ(path[i])
    {
      if i + 1 < |p| {
        assert p[i + 1] in g.Succ(p[i]);
      } else if i >= |p| {
        assert q[i + 1 - |p|] in g.Succ(q[i - |p|]);
      }
    }
    assert RootPath(g, path, x) && d !in path;
  }

  /** A branch that can be reached without its true target: that target dominates nothing the false one
      reaches while avoiding it, and the other way round. */
  lemma BranchSplits(g: Cfg, dom: map<BlockId, set<BlockId>>, p: seq<BlockId>, c: BlockId, q: seq<BlockId>, x: BlockId)
    requires dom.Keys == g.blocks.Keys
    requires forall b, d :: b in g.blocks && d in g.blocks ==> (d in dom[b] <==> Dominators.Dominates(g, d, b))
    requires c in g.blocks && g.blocks[c].terminator.Branch? && x in g.blocks && RootPath(g, p, c)
    ensures var t, f := g.blocks[c].terminator.trueTarget, g.blocks[c].terminator.falseTarget;
            && (t in g.blocks && t !in p && PathBetween(g, q, f, x) && t !in q ==> t !in dom[x])
            && (f in g.blocks && f !in p && PathBetween(g, q, t, x) && f !in q ==> f !in dom[x])
  {
    var t, f := g.blocks[c].terminator.trueTarget, g.blocks[c].terminator.falseTarget;
    if t !in p && PathBetween(g, q, f, x) && t !in q {
      AvoidedDoesNotDominate(g, p, c, f, q, x, t);
    }
    if f !in p && PathBetween(g, q, t, x) && f !in q {
      AvoidedDoesNotDominate(g, p, c, t, q, x, f);
    }
  }

  /** The entry and every catch block are dominated by themselves alone. */
  lemma RootsStandAlone(g: Cfg, dom: map<BlockId, set<BlockId>>, b: BlockId)
    requires dom.Keys == g.blocks.Keys && forall x :: x in g.blocks ==> dom[x] <= g.blocks.Keys
    requires forall x, d :: x in g.blocks && d in g.blocks ==> (d in dom[x] <==> Dominators.Dominates(g, d, x))
    requires b in g.blocks && (b == g.entry || exists h :: h in g.handlers && h.catchBlock == b)
    ensures dom[b] == {b}
  {
    assert RootPath(g, [b], b);
    forall d | d in dom[b]
      ensures d == b
    {
      assert d in [b];
    }
    forall p | RootPath(g, p, b)
      ensures b in p
    {
      assert p[|p| - 1] in p;
    }
  }

  // ---------- Loop exits

  /** A loop whose header ends in a branch leaves by the true target if that is outside the body, and
      else by the false one if that is. */
  lemma ExitOfBranch(g: Cfg, l: Loops.LoopInfo)
    requires Loops.LoopCorrect(g, l) && g.blocks[l.header].terminator.Branch?
    ensures var t, f := g.blocks[l.header].terminator.trueTarget, g.blocks[l.header].terminator.falseTarget;
            && (t !in l.body ==> l.exit == Some(t))
            && (t in l.body && f !in l.body ==> l.exit == Some(f))
  {
    var t, f := g.blocks[l.header].terminator.trueTarget, g.blocks[l.header].terminator.falseTarget;
    EdgesExactly(g, l.header);
    assert Loops.InNaturalLoop(g, l.header, l.header) ==> l.header in l.body;
    assert g.Succ(l.header)[0] == t && g.Succ(l.header)[1] == f;
    if t !in l.body || f !in l.body {
      assert Loops.Leaves(g, l.header, l.body);
    }
  }

  // ---------- Reaching definitions

  /** The statement assigns register `r`. */
  predicate Assigns(q: Statement, r: nat) {
    q.Assign? && q.target == ToBinding(Register(r))
  }

  /** Statement `i` of the block is its last assignment of `r`. */
  ghost predicate LastAssignment(g: Cfg, b: BlockId, i: nat, r: nat) {
    && b in g.blocks && i < |g.blocks[b].statements| && Assigns(g.blocks[b].statements[i], r)
    && forall j :: i < j < |g.blocks[b].statements| ==> !Assigns(g.blocks[b].statements[j], r)
  }

  lemma WritesExactly(q: Statement, r: nat)
    ensures RegisterWritten(q) == Some(r) <==> Assigns(q, r)
  {
  }

  lemma DefinitionsExactly(g: Cfg, d: Reaching.DefSite)
    ensures d in Reaching.AllDefs(g) <==> LastAssignment(g, d.block, d.stmtIndex, d.register)
  {
    Reaching.AllDefsSpec(g, d);
    forall q: Statement
      ensures RegisterWritten(q) == Some(d.register) <==> Assigns(q, d.register)
    {
      WritesExactly(q, d.register);
    }
  }

  /** A block's last assignment of a register reaches every block its terminator names, and every catch
      block whose range it lies in. */
  lemma AssignmentReaches(g: Cfg, b: BlockId, i: nat, r: nat, s: BlockId)
    requires Reachable(g, b) && LastAssignment(g, b, i, r)
    requires Names(g.blocks[b].terminator, s) || exists h :: h in g.handlers && h.catchBlock == s && b in h.tryBlocks
    ensures Reaching.ReachesEntry(g, Reaching.DefSite(b, i, r), s)
  {
    var d := Reaching.DefSite(b, i, r);
    DefinitionsExactly(g, d);
    EdgesExactly(g, b);
    if s in g.Succ(b) {
      ReachableStep(g, b, s);
    } else {
      RootReachable(g, s);
    }
    Reaching.StartChain(g, d, s);
  }

  /** What reaches a block goes on to every block its terminator names unless it assigns the register. */
  lemma ReachesOn(g: Cfg, d: Reaching.DefSite, b: BlockId, s: BlockId)
    requires Reaching.ReachesEntry(g, d, b) && Reachable(g, b) && b in g.blocks && Names(g.blocks[b].terminator, s)
    requires forall q :: q in g.blocks[b].statements ==> !Assigns(q, d.register)
    ensures Reaching.ReachesEntry(g, d, s)
  {
    EdgesExactly(g, b);
    ReachableStep(g, b, s);
    assert !Reaching.WritesRegister(g, b, d.register) by {
      forall i | 0 <= i < |g.blocks[b].statements|
        ensures RegisterWritten(g.blocks[b].statements[i]) != Some(d.register)
      {
        assert g.blocks[b].statements[i] in g.blocks[b].statements;
        WritesExactly(g.blocks[b].statements[i], d.register);
      }
    }
    Reaching.ExtendChain(g, d, b, s);
  }

  // ---------- Liveness

  /** Live at a block's exit is what is live at the entry of some block its terminator names. */
  lemma ExitExactly(g: Cfg, b: BlockId, r: nat)
    requires b in g.blocks
    ensures Liveness.LiveAtExit(g, b, r) <==>
            exists s: BlockId :: Names(g.blocks[b].terminator, s) && Liveness.LiveAtEntry(g, s, r)
  {
    EdgesExactly(g, b);
  }
}
