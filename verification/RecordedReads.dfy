/** Which reads the liveness collectors record, said of the program text alone. */
module RecordedReads {
  import opened Options
  import opened Ir
  import opened ControlFlow
  import opened ExprPaths
  import opened Liveness
  import FlowTargets

  /** The collectors go from `e` into its direct subexpression `p`: through operators, callees and
      arguments, and the objects of members. */
  predicate GoesInto(e: Expression, p: Expression) {
    e.Binary? || e.Unary? || e.Call? || e.New? || (e.Member? && p == e.obj)
  }

  predicate Collected(c: seq<Expression>) {
    forall i :: 0 <= i < |c| - 1 ==> GoesInto(c[i], c[i + 1])
  }

  /** A chain of such steps leads to the register. */
  ghost predicate Recorded(e: Expression, r: nat) {
    exists c :: Leads(c, e, Val(Read(Register(r)))) && Collected(c)
  }

  lemma RecordedThrough(e: Expression, p: Expression, r: nat)
    requires DirectlyIn(p, e) && GoesInto(e, p) && Recorded(p, r)
    ensures Recorded(e, r)
  {
    var c :| Leads(c, p, Val(Read(Register(r)))) && Collected(c);
    ChainLonger(e, c);
    assert Leads([e] + c, e, Val(Read(Register(r)))) && Collected([e] + c);
  }

  lemma {:induction false} ArgReadsExactly(args: seq<Expression>, r: nat)
    ensures r in ArgReads(args) <==> exists k :: 0 <= k < |args| && r in ExprReads(args[k])
  {
    if args != [] {
      var n := |args| - 1;
      ArgReadsExactly(args[..n], r);
      if r in ArgReads(args[..n]) {
        var k :| 0 <= k < n && r in ExprReads(args[..n][k]);
        assert r in ExprReads(args[k]);
      }
      if k :| 0 <= k < |args| && r in ExprReads(args[k]) {
        assert k < n ==> args[..n][k] == args[k];
      }
    }
  }

  /** One step of the recursive collector. */
  lemma ReadsStep(e: Expression, r: nat)
    requires !e.Val?
    ensures r in ExprReads(e) <==> exists p :: DirectlyIn(p, e) && GoesInto(e, p) && r in ExprReads(p)
  {
    if e.Call? || e.New? {
      ArgReadsExactly(e.arguments, r);
      if r in ArgReads(e.arguments) {
        var k :| 0 <= k < |e.arguments| && r in ExprReads(e.arguments[k]);
        assert DirectlyIn(e.arguments[k], e);
      }
      assert DirectlyIn(e.callee, e);
    } else if e.Binary? {
      assert DirectlyIn(e.left, e) && DirectlyIn(e.right, e);
    } else if e.Unary? {
      assert DirectlyIn(e.operand, e);
    } else if e.Member? {
      assert DirectlyIn(e.obj, e);
    }
  }

  lemma StepIsSmaller(e: Expression, p: Expression)
    requires DirectlyIn(p, e) && GoesInto(e, p)
    ensures p < e
  {
  }

  lemma {:induction false} ReadIsRecorded(e: Expression, r: nat)
    requires r in ExprReads(e)
    ensures Recorded(e, r)
    decreases e
  {
    if e.Val? {
      assert Leads([e], e, Val(Read(Register(r)))) && Collected([e]);
    } else {
      ReadsStep(e, r);
      var p :| DirectlyIn(p, e) && GoesInto(e, p) && r in ExprReads(p);
      StepIsSmaller(e, p);
      ReadIsRecorded(p, r);
      RecordedThrough(e, p, r);
    }
  }

  lemma {:induction false} ChainIsRead(c: seq<Expression>, r: nat)
    requires IsChain(c) && c[|c| - 1] == Val(Read(Register(r))) && Collected(c)
    ensures r in ExprReads(c[0])
    decreases |c|
  {
    if |c| > 1 {
      ChainRest(c);
      var rest := c[1..];
      forall i | 0 <= i < |rest| - 1
        ensures GoesInto(rest[i], rest[i + 1])
      {
        assert GoesInto(c[i + 1], c[i + 2]);
      }
      ChainIsRead(rest, r);
      assert GoesInto(c[0], c[1]);
      ReadsStep(c[0], r);
    }
  }

  /** The collector records a register exactly where such a chain leads to it. */
  lemma ReadsExactly(e: Expression, r: nat)
    ensures r in ExprReads(e) <==> Recorded(e, r)
  {
    if r in ExprReads(e) {
      ReadIsRecorded(e, r);
    }
    if Recorded(e, r) {
      var c :| Leads(c, e, Val(Read(Register(r)))) && Collected(c);
      ChainIsRead(c, r);
    }
  }

  // ---------- Statements and terminators

  /** The expression of a statement the collectors look at. */
  predicate LooksAt(q: Statement, e: Expression) {
    || ((q.Expr? || q.Throw?) && e == q.e)
    || ((q.Let? || q.Assign?) && e == q.value)
    || (q.Return? && q.result == Some(e))
  }

  predicate EndsOn(t: Terminator, e: Expression) {
    || (t.ReturnT? && t.result == Some(e))
    || (t.ThrowT? && t.e == e)
    || (t.Branch? && t.condition == e)
    || (t.SwitchT? && t.value == e)
  }

  /** Point `i` of the block, its end included, reads `r`. */
  ghost predicate ReadAt(b: BasicBlock, i: nat, r: nat)
    requires i <= |b.statements|
  {
    exists e :: (if i == |b.statements| then EndsOn(b.terminator, e) else LooksAt(b.statements[i], e)) && Recorded(e, r)
  }

  lemma PointExactly(b: BasicBlock, i: nat, r: nat)
    requires i <= |b.statements|
    ensures r in ReadsAt(b, i) <==> ReadAt(b, i, r)
  {
    forall e: Expression
      ensures r in ExprReads(e) <==> Recorded(e, r)
    {
      ReadsExactly(e, r);
    }
    if i == |b.statements| {
      TerminatorExactly(b.terminator, r);
    } else {
      StatementExactly(b.statements[i], r);
    }
  }

  lemma StatementExactly(q: Statement, r: nat)
    ensures r in StmtReads(q) <==> exists e :: LooksAt(q, e) && r in ExprReads(e)
  {
    match q
    case Expr(e) => assert LooksAt(q, e);
    case Throw(e) => assert LooksAt(q, e);
    case Let(_, value) => assert LooksAt(q, value);
    case Assign(_, value) => assert LooksAt(q, value);
    case Return(Some(e)) => assert LooksAt(q, e);
    case _ =>
  }

  lemma TerminatorExactly(t: Terminator, r: nat)
    ensures r in TerminatorReads(t) <==> exists e :: EndsOn(t, e) && r in ExprReads(e)
  {
    match t
    case ReturnT(Some(e)) => assert EndsOn(t, e);
    case ThrowT(e) => assert EndsOn(t, e);
    case Branch(c, _, _) => assert EndsOn(t, c);
    case SwitchT(v, _, _) => assert EndsOn(t, v);
    case _ =>
  }

  /** Some point of the block reads `r` ahead of every assignment of it. */
  ghost predicate ReadFirst(b: BasicBlock, r: nat) {
    exists i :: 0 <= i <= |b.statements| && ReadAt(b, i, r) && forall j :: 0 <= j < i ==> !FlowTargets.Assigns(b.statements[j], r)
  }

  /** A block's use set holds exactly the registers it reads ahead of any assignment of them. */
  lemma UsesExactly(b: BasicBlock, r: nat)
    ensures r in Uses(b) <==> ReadFirst(b, r)
  {
    UsesSpec(b, r);
    forall q: Statement
      ensures RegisterWritten(q) == Some(r) <==> FlowTargets.Assigns(q, r)
    {
      FlowTargets.WritesExactly(q, r);
    }
    forall i | 0 <= i <= |b.statements|
      ensures r in ReadsAt(b, i) <==> ReadAt(b, i, r)
    {
      PointExactly(b, i, r);
    }
    if UsedFirst(b, r) {
      var i :| 0 <= i <= |b.statements| && r in ReadsAt(b, i) && !WrittenBefore(b.statements, i, r);
      assert ReadAt(b, i, r);
      assert forall j :: 0 <= j < i ==> RegisterWritten(b.statements[j]) != Some(r);
    }
    if ReadFirst(b, r) {
      var i :| 0 <= i <= |b.statements| && ReadAt(b, i, r) && forall j :: 0 <= j < i ==> !FlowTargets.Assigns(b.statements[j], r);
      assert r in ReadsAt(b, i) && !WrittenBefore(b.statements, i, r);
    }
  }

  lemma DefsExactly(b: BasicBlock, r: nat)
    ensures r in Defs(b.statements) <==> exists i :: 0 <= i < |b.statements| && FlowTargets.Assigns(b.statements[i], r)
  {
    DefsSpec(b.statements, r);
    forall i | 0 <= i < |b.statements|
      ensures RegisterWritten(b.statements[i]) == Some(r) <==> FlowTargets.Assigns(b.statements[i], r)
    {
      FlowTargets.WritesExactly(b.statements[i], r);
    }
  }

  // ---------- Live registers

  /** Along the path no block but the last assigns `r`, and the last reads it ahead of assigning it. */
  ghost predicate ReadPath(g: Cfg, p: seq<BlockId>, b: BlockId, r: nat) {
    && p != [] && p[0] == b && (forall k :: 0 <= k < |p| ==> p[k] in g.blocks)
    && (forall k :: 0 <= k < |p| - 1 ==> PassesOn(g, p, k, r))
    && ReadFirst(g.blocks[p[|p| - 1]], r)
  }

  ghost predicate PassesOn(g: Cfg, p: seq<BlockId>, k: nat, r: nat)
    requires k + 1 < |p| && p[k] in g.blocks
  {
    && FlowTargets.Names(g.blocks[p[k]].terminator, p[k + 1])
    && forall q :: q in g.blocks[p[k]].statements ==> !FlowTargets.Assigns(q, r)
  }

  /** A register is live at a block's entry exactly when such a path starts there. */
  lemma LiveExactly(g: Cfg, b: BlockId, r: nat)
    ensures LiveAtEntry(g, b, r) <==> exists p :: ReadPath(g, p, b, r)
  {
    if LiveAtEntry(g, b, r) {
      var p :| LivePath(g, p, b, r);
      LiveIsRead(g, p, b, r);
    }
    if p :| ReadPath(g, p, b, r) {
      ReadIsLive(g, p, b, r);
    }
  }

  lemma BlockPasses(g: Cfg, b: BlockId, r: nat)
    requires b in g.blocks
    ensures Defines(g, b, r) <==> exists q :: q in g.blocks[b].statements && FlowTargets.Assigns(q, r)
  {
    DefsExactly(g.blocks[b], r);
    var qs := g.blocks[b].statements;
    if q :| q in qs && FlowTargets.Assigns(q, r) {
      var i :| 0 <= i < |qs| && qs[i] == q;
      assert FlowTargets.Assigns(qs[i], r);
    }
  }

  lemma LiveIsRead(g: Cfg, p: seq<BlockId>, b: BlockId, r: nat)
    requires LivePath(g, p, b, r)
    ensures ReadPath(g, p, b, r)
  {
    UsesExactly(g.blocks[p[|p| - 1]], r);
    forall k | 0 <= k < |p| - 1
      ensures p[k] in g.blocks && PassesOn(g, p, k, r)
    {
      assert p[k + 1] in g.Succ(p[k]);
      FlowTargets.EdgesExactly(g, p[k]);
      BlockPasses(g, p[k], r);
    }
  }

  lemma ReadIsLive(g: Cfg, p: seq<BlockId>, b: BlockId, r: nat)
    requires ReadPath(g, p, b, r)
    ensures LivePath(g, p, b, r)
  {
    UsesExactly(g.blocks[p[|p| - 1]], r);
    forall k | 0 <= k < |p| - 1
      ensures p[k + 1] in g.Succ(p[k]) && !Defines(g, p[k], r)
    {
      assert PassesOn(g, p, k, r);
      FlowTargets.EdgesExactly(g, p[k]);
      BlockPasses(g, p[k], r);
    }
  }
}
