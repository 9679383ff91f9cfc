/** Liveness of registers, for the uses and definitions the collectors record. */
module Liveness {
  import opened Ir
  import opened Options
  import opened ControlFlow
  import opened SetMaps

  type RegMap = map<BlockId, set<nat>>

  // ---------- What is recorded as read

  /** Registers the collector records for an expression: through operators, callees,
      arguments and member objects, and through nothing else. */
  function ExprReads(e: Expression): set<nat> {
    match e
    case Val(Read(Register(r))) => {r}
    case Binary(_, l, r) => ExprReads(l) + ExprReads(r)
    case Unary(_, x) => ExprReads(x)
    case Call(callee, args) => ExprReads(callee) + ArgReads(args)
    case New(callee, args) => ExprReads(callee) + ArgReads(args)
    case Member(obj, _, _) => ExprReads(obj)
    case _ => {}
  }

  function ArgReads(args: seq<Expression>): set<nat> {
    if args == [] then {} else ArgReads(args[..|args| - 1]) + ExprReads(args[|args| - 1])
  }

  function StmtReads(s: Statement): set<nat> {
    match s
    case Expr(e) => ExprReads(e)
    case Throw(e) => ExprReads(e)
    case Let(_, value) => ExprReads(value)
    case Assign(_, value) => ExprReads(value)
    case Return(Some(e)) => ExprReads(e)
    case _ => {}
  }

  function TerminatorReads(t: Terminator): set<nat> {
    match t
    case ReturnT(Some(e)) => ExprReads(e)
    case ThrowT(e) => ExprReads(e)
    case Branch(c, _, _) => ExprReads(c)
    case SwitchT(v, _, _) => ExprReads(v)
    case _ => {}
  }

  function Written(s: Statement): set<nat> {
    match RegisterWritten(s)
    case Some(r) => {r}
    case None => {}
  }

  function Defs(stmts: seq<Statement>): set<nat> {
    if stmts == [] then {} else Written(stmts[0]) + Defs(stmts[1..])
  }

  /** Registers live before `stmts` when `after` is live behind them, one statement at a time. */
  function BackwardPass(stmts: seq<Statement>, after: set<nat>): set<nat> {
    if stmts == [] then after
    else StmtReads(stmts[0]) + (BackwardPass(stmts[1..], after) - Written(stmts[0]))
  }

  function Uses(b: BasicBlock): set<nat> {
    BackwardPass(b.statements, TerminatorReads(b.terminator))
  }

  function ReadsAt(b: BasicBlock, i: nat): set<nat>
    requires i <= |b.statements|
  {
    if i == |b.statements| then TerminatorReads(b.terminator) else StmtReads(b.statements[i])
  }

  ghost predicate WrittenBefore(stmts: seq<Statement>, i: nat, r: nat)
    requires i <= |stmts|
  {
    exists j :: 0 <= j < i && RegisterWritten(stmts[j]) == Some(r)
  }

  /** Some point of the block reads `r` and nothing before it in the block writes `r`. */
  ghost predicate UsedFirst(b: BasicBlock, r: nat) {
    exists i :: 0 <= i <= |b.statements| && r in ReadsAt(b, i) && !WrittenBefore(b.statements, i, r)
  }

  lemma {:induction false} DefsSpec(stmts: seq<Statement>, r: nat)
    ensures r in Defs(stmts) <==> WrittenBefore(stmts, |stmts|, r)
  {
    if stmts != [] {
      var rest := stmts[1..];
      DefsSpec(rest, r);
      if r in Defs(rest) {
        var j :| 0 <= j < |rest| && RegisterWritten(rest[j]) == Some(r);
        assert RegisterWritten(stmts[j + 1]) == Some(r);
      }
      if j :| 0 < j < |stmts| && RegisterWritten(stmts[j]) == Some(r) {
        assert RegisterWritten(rest[j - 1]) == Some(r);
      }
      assert RegisterWritten(stmts[0]) == Some(r) <==> r in Written(stmts[0]);
    }
  }

  lemma BackwardPassRest(b: BasicBlock, r: nat)
    requires b.statements != []
    ensures UsedFirst(b, r) <==>
      (r in StmtReads(b.statements[0]) ||
       (r !in Written(b.statements[0]) && UsedFirst(b.(statements := b.statements[1..]), r)))
  {
    var stmts, rest := b.statements, b.(statements := b.statements[1..]);
    if r in StmtReads(stmts[0]) {
      assert r in ReadsAt(b, 0) && !WrittenBefore(stmts, 0, r);
    }
    if i :| 0 < i <= |stmts| && r in ReadsAt(b, i) && !WrittenBefore(stmts, i, r) {
      assert RegisterWritten(stmts[0]) != Some(r);
      forall j | 0 <= j < i - 1 ensures RegisterWritten(rest.statements[j]) != Some(r) {
        assert RegisterWritten(stmts[j + 1]) != Some(r);
      }
      assert r in ReadsAt(rest, i - 1) && !WrittenBefore(rest.statements, i - 1, r);
    }
    if r !in Written(stmts[0]) && UsedFirst(rest, r) {
      var i :| 0 <= i <= |rest.statements| && r in ReadsAt(rest, i) && !WrittenBefore(rest.statements, i, r);
      forall j | 0 <= j < i + 1 ensures RegisterWritten(stmts[j]) != Some(r) {
        if j > 0 { assert stmts[j] == rest.statements[j - 1]; }
      }
      assert r in ReadsAt(b, i + 1) && !WrittenBefore(stmts, i + 1, r);
    }
  }

  /** The backward pass of a block finds exactly the registers it uses before defining. */
  lemma {:induction false} UsesSpec(b: BasicBlock, r: nat)
    ensures r in Uses(b) <==> UsedFirst(b, r)
    decreases |b.statements|
  {
    if b.statements == [] {
      assert r in ReadsAt(b, 0) <==> r in Uses(b);
      if r in Uses(b) {
        assert !WrittenBefore(b.statements, 0, r);
      }
    } else {
      UsesSpec(b.(statements := b.statements[1..]), r);
      BackwardPassRest(b, r);
    }
  }

  /** The block formula, uses plus whatever is live behind and not defined, is the
      statement-by-statement backward pass. */
  lemma {:induction false} BlockFormulaIsBackwardPass(stmts: seq<Statement>, final: set<nat>, out: set<nat>)
    ensures BackwardPass(stmts, final) + (out - Defs(stmts)) == BackwardPass(stmts, final + out)
  {
    if stmts != [] {
      BlockFormulaIsBackwardPass(stmts[1..], final, out);
    }
  }

  // ---------- The collectors

  method CollectExprUses(e: Expression, uses: set<nat>, defs: set<nat>) returns (uses': set<nat>)
    ensures uses' == uses + (ExprReads(e) - defs)
    decreases e
  {
    uses' := uses;
    match e
    case Val(Read(Register(r))) =>
      if r !in defs {
        uses' := uses' + {r};
      }
    case Binary(_, l, r) =>
      uses' := CollectExprUses(l, uses', defs);
      uses' := CollectExprUses(r, uses', defs);
    case Unary(_, x) =>
      uses' := CollectExprUses(x, uses', defs);
    case Call(callee, args) =>
      uses' := CollectExprUses(callee, uses', defs);
      ghost var before := uses';
      for i := 0 to |args|
        invariant uses' == before + (ArgReads(args[..i]) - defs)
      {
        assert args[..i + 1][..i] == args[..i];
        uses' := CollectExprUses(args[i], uses', defs);
      }
      assert args[..|args|] == args;
    case New(callee, args) =>
      uses' := CollectExprUses(callee, uses', defs);
      ghost var before := uses';
      for i := 0 to |args|
        invariant uses' == before + (ArgReads(args[..i]) - defs)
      {
        assert args[..i + 1][..i] == args[..i];
        uses' := CollectExprUses(args[i], uses', defs);
      }
      assert args[..|args|] == args;
    case Member(obj, _, _) =>
      uses' := CollectExprUses(obj, uses', defs);
    case _ =>
  }

  method CollectStmtUses(s: Statement, uses: set<nat>, defs: set<nat>) returns (uses': set<nat>)
    ensures uses' == uses + (StmtReads(s) - defs)
  {
    uses' := uses;
    match s
    case Expr(e) => uses' := CollectExprUses(e, uses, defs);
    case Throw(e) => uses' := CollectExprUses(e, uses, defs);
    case Let(_, value) => uses' := CollectExprUses(value, uses, defs);
    case Assign(_, value) => uses' := CollectExprUses(value, uses, defs);
    case Return(Some(e)) => uses' := CollectExprUses(e, uses, defs);
    case _ =>
  }

  method CollectTerminatorUses(t: Terminator, uses: set<nat>, defs: set<nat>) returns (uses': set<nat>)
    ensures uses' == uses + (TerminatorReads(t) - defs)
  {
    uses' := uses;
    match t
    case ReturnT(Some(e)) => uses' := CollectExprUses(e, uses, defs);
    case ThrowT(e) => uses' := CollectExprUses(e, uses, defs);
    case Branch(c, _, _) => uses' := CollectExprUses(c, uses, defs);
    case SwitchT(v, _, _) => uses' := CollectExprUses(v, uses, defs);
    case _ =>
  }

  lemma {:induction false} DefsSnoc(stmts: seq<Statement>, s: Statement)
    ensures Defs(stmts + [s]) == Defs(stmts) + Written(s)
  {
    if stmts == [] {
      assert ([] + [s])[1..] == [];
    } else {
      DefsSnoc(stmts[1..], s);
      assert (stmts + [s])[1..] == stmts[1..] + [s];
    }
  }

  lemma {:induction false} BackwardPassSnoc(stmts: seq<Statement>, s: Statement, after: set<nat>)
    ensures BackwardPass(stmts + [s], after) == BackwardPass(stmts, BackwardPass([s], after))
  {
    if stmts == [] {
      assert [] + [s] == [s];
    } else {
      BackwardPassSnoc(stmts[1..], s, after);
      assert (stmts + [s])[1..] == stmts[1..] + [s];
    }
  }

  lemma PassOfOne(s: Statement)
    ensures BackwardPass([s], {}) == StmtReads(s)
  {
  }

  /** One forward walk finds the registers used before being defined, and those defined. */
  method CollectUsesDefs(b: BasicBlock) returns (uses: set<nat>, defs: set<nat>)
    ensures uses == Uses(b) && defs == Defs(b.statements)
  {
    uses, defs := {}, {};
    for i := 0 to |b.statements|
      invariant defs == Defs(b.statements[..i])
      invariant uses == BackwardPass(b.statements[..i], {})
    {
      var s := b.statements[i];
      assert b.statements[..i + 1] == b.statements[..i] + [s];
      DefsSnoc(b.statements[..i], s);
      BackwardPassSnoc(b.statements[..i], s, {});
      PassOfOne(s);
      BlockFormulaIsBackwardPass(b.statements[..i], {}, StmtReads(s));
      assert {} + StmtReads(s) == StmtReads(s);
      uses := CollectStmtUses(s, uses, defs);
      match RegisterWritten(s)
      case Some(r) => defs := defs + {r};
      case None =>
    }
    assert b.statements[..|b.statements|] == b.statements;
    BlockFormulaIsBackwardPass(b.statements, {}, TerminatorReads(b.terminator));
    assert {} + TerminatorReads(b.terminator) == TerminatorReads(b.terminator);
    uses := CollectTerminatorUses(b.terminator, uses, defs);
  }

  // ---------- Liveness over paths

  ghost predicate Defines(g: Cfg, b: BlockId, r: nat) {
    b in g.blocks && r in Defs(g.blocks[b].statements)
  }

  ghost predicate UsesFirst(g: Cfg, b: BlockId, r: nat) {
    b in g.blocks && r in Uses(g.blocks[b])
  }

  ghost predicate LivePath(g: Cfg, p: seq<BlockId>, b: BlockId, r: nat) {
    && IsPath(g, p) && p[0] == b
    && UsesFirst(g, p[|p| - 1], r)
    && forall k :: 0 <= k < |p| - 1 ==> !Defines(g, p[k], r)
  }

  /** Some path from the start of `b` gets to a recorded use of `r` before any write of `r`. */
  ghost predicate LiveAtEntry(g: Cfg, b: BlockId, r: nat) {
    exists p :: LivePath(g, p, b, r)
  }

  ghost predicate LiveAtExit(g: Cfg, b: BlockId, r: nat) {
    exists s :: s in g.Succ(b) && LiveAtEntry(g, s, r)
  }

  // ---------- Equations and invariant

  ghost function AllUses(g: Cfg): set<nat> {
    set b, r | b in g.blocks && r in Uses(g.blocks[b]) :: r
  }

  ghost function OutOf(g: Cfg, lin: RegMap, b: BlockId): set<nat> {
    set r | r in AllUses(g) && exists s :: s in g.Succ(b) && r in Get(lin, s)
  }

  ghost function Transfer(g: Cfg, b: BlockId, out: set<nat>): set<nat>
    requires b in g.blocks
  {
    Uses(g.blocks[b]) + (out - Defs(g.blocks[b].statements))
  }

  ghost predicate Bounded(g: Cfg, m: RegMap) {
    forall b: BlockId :: Get(m, b) <= AllUses(g)
  }

  ghost predicate InGrowing(g: Cfg, lin: RegMap) {
    forall b :: b in g.blocks ==> Get(lin, b) <= Transfer(g, b, OutOf(g, lin, b))
  }

  ghost predicate OutGrowing(g: Cfg, lin: RegMap, lout: RegMap) {
    forall b: BlockId :: Get(lout, b) <= OutOf(g, lin, b)
  }

  ghost predicate InSound(g: Cfg, lin: RegMap) {
    forall b: BlockId, r :: r in Get(lin, b) ==> LiveAtEntry(g, b, r)
  }

  ghost predicate UnreachedEmpty(g: Cfg, lin: RegMap, lout: RegMap) {
    forall b: BlockId :: !Reachable(g, b) ==> Get(lin, b) == {} && Get(lout, b) == {}
  }

  ghost predicate LiveInvariant(g: Cfg, lin: RegMap, lout: RegMap) {
    && Bounded(g, lin) && Bounded(g, lout)
    && InGrowing(g, lin) && OutGrowing(g, lin, lout)
    && InSound(g, lin)
    && UnreachedEmpty(g, lin, lout)
  }

  lemma UseIsLive(g: Cfg, b: BlockId, r: nat)
    requires UsesFirst(g, b, r)
    ensures LiveAtEntry(g, b, r)
  {
    assert LivePath(g, [b], b, r);
  }

  lemma LiveThrough(g: Cfg, b: BlockId, s: BlockId, r: nat)
    requires s in g.Succ(b) && LiveAtEntry(g, s, r) && !Defines(g, b, r)
    ensures LiveAtEntry(g, b, r)
  {
    var p :| LivePath(g, p, s, r);
    assert LivePath(g, [b] + p, b, r);
  }

  lemma TransferSound(g: Cfg, lin: RegMap, b: BlockId, r: nat)
    requires b in g.blocks && InSound(g, lin) && r in Transfer(g, b, OutOf(g, lin, b))
    ensures LiveAtEntry(g, b, r)
  {
    if r in Uses(g.blocks[b]) {
      UseIsLive(g, b, r);
    } else {
      var s :| s in g.Succ(b) && r in Get(lin, s);
      LiveThrough(g, b, s, r);
    }
  }

  ghost predicate Recomputed(g: Cfg, lin: RegMap, lout: RegMap, b: BlockId, lin': RegMap, lout': RegMap)
    requires b in g.blocks
  {
    && Get(lout', b) == OutOf(g, lin, b)
    && Get(lin', b) == Transfer(g, b, OutOf(g, lin, b))
    && forall x: BlockId :: x != b ==> Get(lin', x) == Get(lin, x) && Get(lout', x) == Get(lout, x)
  }

  lemma OutMonotone(g: Cfg, lin: RegMap, lin': RegMap, b: BlockId)
    requires forall x: BlockId :: Get(lin, x) <= Get(lin', x)
    ensures OutOf(g, lin, b) <= OutOf(g, lin', b)
  {
    forall r | r in OutOf(g, lin, b) ensures r in OutOf(g, lin', b) {
      var s :| s in g.Succ(b) && r in Get(lin, s);
      assert r in Get(lin', s);
    }
  }

  lemma RecomputedGrows(g: Cfg, lin: RegMap, lout: RegMap, b: BlockId, lin': RegMap, lout': RegMap)
    requires b in g.blocks && LiveInvariant(g, lin, lout) && Recomputed(g, lin, lout, b, lin', lout')
    ensures InGrowing(g, lin') && OutGrowing(g, lin', lout')
  {
    assert forall x: BlockId :: Get(lin, x) <= Get(lin', x);
    forall x | x in g.blocks ensures Get(lin', x) <= Transfer(g, x, OutOf(g, lin', x)) {
      OutMonotone(g, lin, lin', x);
      TransferGrows(g, x, OutOf(g, lin, x), OutOf(g, lin', x));
    }
    forall x: BlockId ensures Get(lout', x) <= OutOf(g, lin', x) {
      OutMonotone(g, lin, lin', x);
    }
  }

  lemma TransferGrows(g: Cfg, b: BlockId, out: set<nat>, out': set<nat>)
    requires b in g.blocks && out <= out'
    ensures Transfer(g, b, out) <= Transfer(g, b, out')
  {
  }

  lemma RecomputedKeepsInvariant(g: Cfg, lin: RegMap, lout: RegMap, b: BlockId, lin': RegMap, lout': RegMap)
    requires b in g.blocks && Reachable(g, b)
    requires LiveInvariant(g, lin, lout) && Recomputed(g, lin, lout, b, lin', lout')
    ensures LiveInvariant(g, lin', lout')
  {
    RecomputedGrows(g, lin, lout, b, lin', lout');
    forall r | r in Get(lin', b) ensures LiveAtEntry(g, b, r) {
      TransferSound(g, lin, b, r);
    }
  }

  ghost predicate Settled(g: Cfg, lin: RegMap, lout: RegMap, b: BlockId) {
    b in g.blocks ==> Get(lin, b) == Transfer(g, b, OutOf(g, lin, b)) && Get(lout, b) == OutOf(g, lin, b)
  }

  lemma {:induction false} PathIsLive(g: Cfg, lin: RegMap, lout: RegMap, p: seq<BlockId>, b: BlockId, r: nat)
    requires forall x: BlockId :: Reachable(g, x) ==> Settled(g, lin, lout, x)
    requires Reachable(g, b) && LivePath(g, p, b, r)
    ensures r in Get(lin, b)
    decreases |p|
  {
    if |p| > 1 {
      var s := p[1];
      assert b in g.blocks;
      ReachableStep(g, b, s);
      assert LivePath(g, p[1..], s, r);
      PathIsLive(g, lin, lout, p[1..], s, r);
      assert r in AllUses(g);
      assert r in OutOf(g, lin, b);
    }
  }

  lemma EntryExact(g: Cfg, lin: RegMap, lout: RegMap, b: BlockId, r: nat)
    requires LiveInvariant(g, lin, lout)
    requires forall x: BlockId :: Reachable(g, x) ==> Settled(g, lin, lout, x)
    requires Reachable(g, b)
    ensures r in Get(lin, b) <==> LiveAtEntry(g, b, r)
  {
    if LiveAtEntry(g, b, r) {
      var p :| LivePath(g, p, b, r);
      PathIsLive(g, lin, lout, p, b, r);
    }
  }

  lemma ExitExact(g: Cfg, lin: RegMap, lout: RegMap, b: BlockId, r: nat)
    requires LiveInvariant(g, lin, lout)
    requires forall x: BlockId :: Reachable(g, x) ==> Settled(g, lin, lout, x)
    requires Reachable(g, b) && b in g.blocks
    ensures r in Get(lout, b) <==> LiveAtExit(g, b, r)
  {
    forall s | s in g.Succ(b) ensures r in Get(lin, s) <==> LiveAtEntry(g, s, r) {
      ReachableStep(g, b, s);
      EntryExact(g, lin, lout, s, r);
    }
    assert r in Get(lout, b) <==> r in OutOf(g, lin, b);
    if s :| s in g.Succ(b) && LiveAtEntry(g, s, r) {
      assert r in Get(lin, s) && r in AllUses(g);
    }
  }

  // ---------- The iteration

  method NewOut(g: Cfg, b: BlockId, lin: RegMap) returns (newOut: set<nat>)
    requires Bounded(g, lin)
    ensures newOut == OutOf(g, lin, b)
  {
    var succs := g.Succ(b);
    newOut := {};
    for i := 0 to |succs|
      invariant forall r :: r in newOut <==> exists k :: 0 <= k < i && r in Get(lin, succs[k])
    {
      newOut := newOut + Get(lin, succs[i]);
    }
    forall r: nat ensures r in newOut <==> r in OutOf(g, lin, b) {
      if r in newOut {
        var k :| 0 <= k < |succs| && r in Get(lin, succs[k]);
        assert succs[k] in succs && Get(lin, succs[k]) <= AllUses(g);
      }
    }
  }

  method NewSets(g: Cfg, b: BlockId, lin: RegMap) returns (newIn: set<nat>, newOut: set<nat>)
    requires b in g.blocks && Bounded(g, lin)
    ensures newOut == OutOf(g, lin, b) && newIn == Transfer(g, b, newOut)
  {
    newOut := NewOut(g, b, lin);
    var uses, defs := CollectUsesDefs(g.blocks[b]);
    newIn := newOut - defs;
    newIn := newIn + uses;
  }

  method RecomputeBlock(g: Cfg, b: BlockId, lin: RegMap, lout: RegMap)
    returns (lin': RegMap, lout': RegMap, changed: bool)
    requires b in g.blocks && Bounded(g, lin)
    ensures Recomputed(g, lin, lout, b, lin', lout')
    ensures changed <==> Get(lin', b) != Get(lin, b) || Get(lout', b) != Get(lout, b)
    ensures !changed ==> lin' == lin && lout' == lout
  {
    lin', lout', changed := lin, lout, false;
    var newIn, newOut := NewSets(g, b, lin);
    if newIn != Get(lin, b) {
      changed := true;
      lin' := lin[b := newIn];
      GetAfterUpdate(lin, lin', b, newIn);
    }
    if newOut != Get(lout, b) {
      changed := true;
      lout' := lout[b := newOut];
      GetAfterUpdate(lout, lout', b, newOut);
    }
  }

  lemma ChangeLowersSlack(g: Cfg, ids: seq<BlockId>, b: BlockId, lin: RegMap, lout: RegMap, lin': RegMap, lout': RegMap)
    requires b in g.blocks && b in ids
    requires LiveInvariant(g, lin, lout) && LiveInvariant(g, lin', lout')
    requires Recomputed(g, lin, lout, b, lin', lout')
    requires Get(lin', b) != Get(lin, b) || Get(lout', b) != Get(lout, b)
    ensures Slack(ids, AllUses(g), lin') + Slack(ids, AllUses(g), lout')
          < Slack(ids, AllUses(g), lin) + Slack(ids, AllUses(g), lout)
  {
    GrowthLowersSlack(ids, AllUses(g), lin, lin', b);
    GrowthLowersSlack(ids, AllUses(g), lout, lout', b);
  }

  method Initial(g: Cfg) returns (lin: RegMap, lout: RegMap)
    ensures LiveInvariant(g, lin, lout)
  {
    var ids := g.BlockIds();
    lin, lout := map[], map[];
    for i := 0 to |ids|
      invariant forall b: BlockId :: Get(lin, b) == {}
      invariant forall b: BlockId :: Get(lout, b) == {}
    {
      EmptyStays(lin, ids[i]);
      EmptyStays(lout, ids[i]);
      lin := lin[ids[i] := {}];
      lout := lout[ids[i] := {}];
    }
  }

  lemma EmptyStays(m: RegMap, b: BlockId)
    requires forall x: BlockId :: Get(m, x) == {}
    ensures var m' := m[b := {}]; forall x: BlockId :: Get(m', x) == {}
  {
    var m' := m[b := {}];
    forall x: BlockId ensures Get(m', x) == {} {
      assert Get(m, x) == {};
    }
  }

  ghost function Left(g: Cfg, ids: seq<BlockId>, lin: RegMap, lout: RegMap): nat {
    Slack(ids, AllUses(g), lin) + Slack(ids, AllUses(g), lout)
  }

  /** The blocks from position `n` on are settled. */
  ghost predicate SettledFrom(g: Cfg, ids: seq<BlockId>, n: nat, lin: RegMap, lout: RegMap)
    requires n <= |ids|
  {
    forall k :: n <= k < |ids| ==> Settled(g, lin, lout, ids[k])
  }

  lemma SettledOneMore(g: Cfg, ids: seq<BlockId>, n: nat, lin: RegMap, lout: RegMap)
    requires n < |ids| && SettledFrom(g, ids, n + 1, lin, lout) && Settled(g, lin, lout, ids[n])
    ensures SettledFrom(g, ids, n, lin, lout)
  {
  }

  /** Recomputes one reachable block, keeping the invariant. */
  method Visit(g: Cfg, rpo: seq<BlockId>, b: BlockId, lin: RegMap, lout: RegMap)
    returns (lin': RegMap, lout': RegMap, changed: bool)
    requires LiveInvariant(g, lin, lout) && b in rpo && Reachable(g, b)
    ensures LiveInvariant(g, lin', lout')
    ensures !changed ==> lin' == lin && lout' == lout && Settled(g, lin, lout, b)
    ensures changed ==> Left(g, rpo, lin', lout') < Left(g, rpo, lin, lout)
  {
    if b !in g.blocks {
      return lin, lout, false;
    }
    lin', lout', changed := RecomputeBlock(g, b, lin, lout);
    RecomputedKeepsInvariant(g, lin, lout, b, lin', lout');
    if changed {
      ChangeLowersSlack(g, rpo, b, lin, lout, lin', lout');
    }
  }

  /** One pass over the blocks, last first; reports whether any set changed. */
  method Pass(g: Cfg, rpo: seq<BlockId>, lin0: RegMap, lout0: RegMap)
    returns (lin: RegMap, lout: RegMap, changed: bool)
    requires LiveInvariant(g, lin0, lout0) && forall b :: b in rpo ==> Reachable(g, b)
    ensures LiveInvariant(g, lin, lout)
    ensures !changed ==> lin == lin0 && lout == lout0
    ensures !changed ==> SettledFrom(g, rpo, 0, lin, lout)
    ensures changed ==> Left(g, rpo, lin, lout) < Left(g, rpo, lin0, lout0)
  {
    lin, lout, changed := lin0, lout0, false;
    for i := |rpo| downto 0
      invariant LiveInvariant(g, lin, lout)
      invariant !changed ==> lin == lin0 && lout == lout0 && SettledFrom(g, rpo, i, lin, lout)
      invariant changed ==> Left(g, rpo, lin, lout) < Left(g, rpo, lin0, lout0)
    {
      var b := rpo[i];
      assert b in rpo;
      var blockChanged;
      lin, lout, blockChanged := Visit(g, rpo, b, lin, lout);
      if blockChanged {
        changed := true;
      } else if !changed {
        SettledOneMore(g, rpo, i, lin, lout);
      }
    }
  }

  /** Terminates with exactly the registers live at the entry and exit of each reachable
      block; blocks no root reaches keep empty sets. */
  method Analyze(g: Cfg) returns (lin: RegMap, lout: RegMap)
    ensures forall b: BlockId, r: nat :: Reachable(g, b) ==> (r in Get(lin, b) <==> LiveAtEntry(g, b, r))
    ensures forall b: BlockId, r: nat :: Reachable(g, b) && b in g.blocks ==> (r in Get(lout, b) <==> LiveAtExit(g, b, r))
    ensures forall b: BlockId :: !Reachable(g, b) ==> Get(lin, b) == {} && Get(lout, b) == {}
  {
    lin, lout := Initial(g);
    var rpo := ReversePostorder(g);
    var changed := true;
    while changed
      invariant LiveInvariant(g, lin, lout)
      invariant !changed ==> SettledFrom(g, rpo, 0, lin, lout)
      decreases Left(g, rpo, lin, lout), changed
    {
      lin, lout, changed := Pass(g, rpo, lin, lout);
    }
    forall x: BlockId | Reachable(g, x) ensures Settled(g, lin, lout, x) {
      var k :| 0 <= k < |rpo| && rpo[k] == x;
    }
    forall b: BlockId, r: nat | Reachable(g, b) ensures r in Get(lin, b) <==> LiveAtEntry(g, b, r) {
      EntryExact(g, lin, lout, b, r);
    }
    forall b: BlockId, r: nat | Reachable(g, b) && b in g.blocks ensures r in Get(lout, b) <==> LiveAtExit(g, b, r) {
      ExitExact(g, lin, lout, b, r);
    }
  }
}
