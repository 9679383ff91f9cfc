/** Folding preserves meaning up to identities, whatever objects the stored values make. */
module FoldingRenamed {
  import opened Options
  import opened Ir
  import opened Machine
  import opened MachineFrames
  import opened ArrayLiterals
  import opened ArrayMeaning
  import opened ArrayRaises
  import opened ArrayFolding
  import opened Renaming
  import opened RunRenaming
  import opened LiteralMaking
  import opened ArrayRenaming

  /** The same outcome up to identities, or both raised. */
  ghost predicate SameUnlessRaised(x: Outcome, y: Outcome) {
    SameOutcome(x, y) || (x.Raised? && y.Raised?)
  }

  /** The same outcome up to identities, or both raised in states that correspond but for one register. */
  ghost predicate SameButArray(x: Outcome, y: Outcome) {
    SameOutcome(x, y) || (x.Raised? && y.Raised? && exists h: Ren, r: nat :: SameState(h, x.s, y.s, Some(Reg(r))))
  }

  // ---------- When the literal raises

  /** The original stands somewhere in its window, or has raised there, before statement `i`. */
  ghost predicate Underway(win: seq<Statement>, i: nat, r: nat, s: State, x: Outcome)
    requires i <= |win|
  {
    || (x.Running? && Standing(win, i, r, s, x.s))
    || (x.Raised? && exists j :: 0 <= j < i && Standing(win, j, r, s, x.s))
  }

  lemma {:induction false} RunsUnderway(w: World, win: seq<Statement>, i: nat, r: nat, s: State, obj: Obj)
    requires MovableWindow(win, r) && Closed(s.env, s.store) && i <= |win|
    requires obj.kind == ArrayKind && obj.slots == map[] && obj.props == map[]
    ensures Underway(win, i, r, s, Run(w, win[..i], WithNew(s, r, obj)))
    decreases i
  {
    if i == 0 {
      StartsStanding(win, r, s, obj);
    } else {
      var k := i - 1;
      RunsUnderway(w, win, k, r, s, obj);
      OneFurther(win, k);
      RunSnoc(w, win[..k], win[k], WithNew(s, r, obj));
      var x := Run(w, win[..k], WithNew(s, r, obj));
      if x.Running? {
        StepUnderway(w, win, k, r, s, x.s);
      }
    }
  }

  lemma StepUnderway(w: World, win: seq<Statement>, i: nat, r: nat, s: State, o: State)
    requires MovableWindow(win, r) && Closed(s.env, s.store) && i < |win| && Standing(win, i, r, s, o)
    ensures Underway(win, i + 1, r, s, Exec(w, win[i], o))
  {
    if IsPut(win[i], r) {
      ExecPutMakes(w, win[i], r, o, s.store.next);
      EvalClosed(w, win[i].value, o.env, o.store);
      var x := Eval(w, win[i].value, o.env, o.store);
      if x.Some? {
        PutStands(win, i, r, s, o, x.value.1, PutIndex(win[i], r), x.value.0);
      }
    } else {
      KeptStands(w, win, i, r, s, o);
    }
  }

  /** The original raises at the latest at the first store whose value cannot be worked out. */
  lemma RaisesAtStore(w: World, win: seq<Statement>, u: nat, r: nat, s: State, obj: Obj)
    requires MovableWindow(win, r) && Closed(s.env, s.store) && Blind(w)
    requires obj.kind == ArrayKind && obj.slots == map[] && obj.props == map[]
    requires u < |win| && IsPut(win[u], r) && Eval(w, win[u].value, s.env, s.store).None?
    ensures var x := Run(w, win, WithNew(s, r, obj)); x.Raised? && exists j :: 0 <= j <= u && Standing(win, j, r, s, x.s)
  {
    var s1 := WithNew(s, r, obj);
    RunsUnderway(w, win, u, r, s, obj);
    OneFurther(win, u);
    RunSnoc(w, win[..u], win[u], s1);
    RunConcat(w, win[..u + 1], win[u + 1..], s1);
    assert win == win[..u + 1] + win[u + 1..];
    var x := Run(w, win[..u], s1);
    if x.Running? {
      UndisturbedSoFar(win, u, r);
      ValueAsIn(win, u, r, s, x.s, win[u].value);
      AsInItself(win[u].value, s);
      var h := WorkedOutAlike(w, win[u].value, s, s.env, s.store, x.s.env, x.s.store);
      ExecPutMakes(w, win[u], r, x.s, s.store.next);
    }
  }

  /** In an orderly window nothing has been written by then. */
  lemma OrderlyStanding(w: World, win: seq<Statement>, u: nat, j: nat, r: nat, s: State, o: State)
    requires MovableWindow(win, r) && Orderly(win, r) && Closed(s.env, s.store) && j <= u < |win| && IsPut(win[u], r)
    requires Eval(w, win[u].value, s.env, s.store).None? && Standing(win, j, r, s, o)
    ensures SameState(Old(s), o, s, Some(Reg(r)))
  {
    UndisturbedSoFar(win, u, r);
    if !ReadsHeap(win[u].value) {
      EvalTotal(w, win[u].value, s.env, s.store);
    }
    assert forall v: Value :: !WrittenBy(win, j, r, v);
    assert !HeapWritten(win, j, r);
    ClosedIsSame(s);
    SameObjectsLater(Old(s), Old(s), Old(s).Keys, s.store.heap, s.store.heap, o.store.heap, s.store.heap);
  }

  lemma LiteralRaises(w: World, q: Statement, win: seq<Statement>, s: State)
    requires NewArrayIn(q).Some? && Closed(s.env, s.store) && Blind(w) && MovableWindow(win, NewArrayIn(q).value.0)
    requires Making(w, Elements(win, NewArrayIn(q).value.0), LiteralLen(win, NewArrayIn(q).value.0), s).None?
    ensures var r := NewArrayIn(q).value.0;
            var x, y := Run(w, [q] + win, s), Run(w, [Literal(win, r)] + Kept(win, r), s);
            x.Raised? && y.Raised? && (Orderly(win, r) ==> SameButArray(x, y))
  {
    var (r, hint) := NewArrayIn(q).value;
    var es := Elements(win, r);
    NewArrayRuns(w, q, s);
    RunCons(w, q, win, s);
    ExecMaking(w, win, r, s);
    RunCons(w, Literal(win, r), Kept(win, r), s);
    MakingDefined(w, es, LiteralLen(win, r), s);
    var k :| k in es && Eval(w, es[k], s.env, s.store).None?;
    ElementsAreStored(win, r, k);
    var u :| 0 <= u < |win| && IsPut(win[u], r) && PutIndex(win[u], r) == k && es[k] == win[u].value;
    RaisesAtStore(w, win, u, r, s, NewArrayObj(hint));
    var x := Run(w, win, WithNew(s, r, NewArrayObj(hint)));
    var j :| 0 <= j <= u && Standing(win, j, r, s, x.s);
    if Orderly(win, r) {
      OrderlyStanding(w, win, u, j, r, s, x.s);
    }
  }

  // ---------- When it does not

  lemma LiteralRuns(w: World, q: Statement, win: seq<Statement>, s: State)
    requires NewArrayIn(q).Some? && Closed(s.env, s.store) && Blind(w) && MovableWindow(win, NewArrayIn(q).value.0)
    requires Making(w, Elements(win, NewArrayIn(q).value.0), LiteralLen(win, NewArrayIn(q).value.0), s).Some?
    ensures var (r, hint) := NewArrayIn(q).value;
            var x, y := Run(w, [q] + win, s), Run(w, [Literal(win, r)] + Kept(win, r), s);
            && (x.Running? || x.Raised?) && (y.Running? || y.Raised?) && (x.Running? <==> y.Running?)
            && (x.Running? ==> (SameOutcome(x, y) <==> NewArrayObj(hint).length <= LiteralLen(win, r)))
            && (x.Raised? ==> SameButArray(x, y))
  {
    var (r, hint) := NewArrayIn(q).value;
    var obj, n := NewArrayObj(hint), LiteralLen(win, r);
    var (m, st) := Making(w, Elements(win, r), n, s).value;
    NewArrayRuns(w, q, s);
    RunCons(w, q, win, s);
    ExecMaking(w, win, r, s);
    RunCons(w, Literal(win, r), Kept(win, r), s);
    RunsTogether(w, win, |win|, r, s, obj);
    assert win[..|win|] == win;
    var x, y := Run(w, win, WithNew(s, r, obj)), Run(w, Kept(win, r), WithMade(s, r, n, m, st));
    if x.Running? {
      var h: Ren :| Simulates(w, win, |win|, r, s, obj.length, h, x.s, y.s);
      SlotsMeet(w, win, r, s, obj.length, h, x.s, y.s);
      LengthsMeet(win, r, obj.length);
      EndsMeet(h, x.s, y.s, r, s.store.next, st.next, x.s.store.heap[s.store.next], LiteralObj(n, m));
    }
  }

  /** Folding one window, whatever its values make: both sides come to their end or both raise. When they
      come to their end the outcomes are the same up to identities if and only if the size asked for is
      at most one more than the largest index; when they raise, and the window is orderly, the states
      correspond but for the array. */
  lemma WindowFoldRenamed(w: World, q: Statement, win: seq<Statement>, s: State)
    requires NewArrayIn(q).Some? && Closed(s.env, s.store) && Blind(w)
    requires MovableWindow(win, NewArrayIn(q).value.0)
    requires Folds(win, NewArrayIn(q).value.0, NewArrayIn(q).value.1)
    ensures var (r, hint) := NewArrayIn(q).value;
            var x, y := Run(w, [q] + win, s), Run(w, [Literal(win, r)] + Kept(win, r), s);
            && (x.Running? || x.Raised?) && (y.Running? || y.Raised?) && (x.Running? <==> y.Running?)
            && (x.Running? ==> (SameOutcome(x, y) <==> HintFits(win, r, hint)))
            && (x.Raised? && Orderly(win, r) ==> SameButArray(x, y))
  {
    var (r, hint) := NewArrayIn(q).value;
    HintFitsExactly(win, r, hint);
    if Making(w, Elements(win, r), LiteralLen(win, r), s).Some? {
      LiteralRuns(w, q, win, s);
    } else {
      LiteralRaises(w, q, win, s);
    }
  }

  lemma QuietMakes(w: World, win: seq<Statement>, r: nat, s: State)
    requires MovableWindow(win, r) && Quiet(win, r) && Blind(w) && Closed(s.env, s.store)
    ensures Making(w, Elements(win, r), LiteralLen(win, r), s).Some?
  {
    var es := Elements(win, r);
    MakingDefined(w, es, LiteralLen(win, r), s);
    forall k | k in es
      ensures Eval(w, es[k], s.env, s.store).Some?
    {
      ElementsAreStored(win, r, k);
      var m :| 0 <= m < |win| && IsPut(win[m], r) && PutIndex(win[m], r) == k && es[k] == win[m].value;
      assert PutMovable(win[m], r);
      EvalTotal(w, win[m].value, s.env, s.store);
    }
  }

  /** A window in which nothing can raise folds to the same up to identities if and only if the size fits. */
  lemma QuietFoldRenamed(w: World, q: Statement, win: seq<Statement>, s: State)
    requires NewArrayIn(q).Some? && Closed(s.env, s.store) && Blind(w)
    requires MovableWindow(win, NewArrayIn(q).value.0) && Quiet(win, NewArrayIn(q).value.0)
    requires Folds(win, NewArrayIn(q).value.0, NewArrayIn(q).value.1)
    ensures var (r, hint) := NewArrayIn(q).value;
            SameOutcome(Run(w, [q] + win, s), Run(w, [Literal(win, r)] + Kept(win, r), s)) <==> HintFits(win, r, hint)
  {
    var r := NewArrayIn(q).value.0;
    WindowFoldRenamed(w, q, win, s);
    QuietMakes(w, win, r, s);
    ExecMaking(w, win, r, s);
    RunCons(w, Literal(win, r), Kept(win, r), s);
    QuietRuns(w, win, r, Exec(w, Literal(win, r), s).s);
  }

  // ---------- Whole programs

  /** Every window that is folded meets the side conditions; its values may make objects. */
  ghost predicate WindowsMovable(ss: seq<Statement>)
    decreases |ss|
  {
    if ss == [] then true
    else if FoldsFirst(ss) then
      var (r, hint) := NewArrayIn(ss[0]).value;
      MovableWindow(Window(ss), r) && HintFits(Window(ss), r, hint) && WindowsMovable(BehindWindow(ss))
    else WindowsMovable(ss[1..])
  }

  lemma {:induction false} SafeAreMovable(ss: seq<Statement>)
    requires WindowsSafe(ss)
    ensures WindowsMovable(ss)
    decreases |ss|
  {
    if ss == [] {
    } else if FoldsFirst(ss) {
      SafeAreMovable(BehindWindow(ss));
    } else {
      SafeAreMovable(ss[1..]);
    }
  }

  lemma SameButArrayThen(x: Outcome, y: Outcome, z: Outcome)
    requires SameOutcome(x, y)
    ensures SameUnlessRaised(y, z) ==> SameUnlessRaised(x, z)
    ensures SameButArray(y, z) ==> SameButArray(x, z)
  {
    if SameOutcome(y, z) {
      SameOutcomeThen(x, y, z);
    } else if y.Raised? && z.Raised? && SameButArray(y, z) {
      var h: Ren :| SameState(h, x.s, y.s, None);
      var g: Ren, r: nat :| SameState(g, y.s, z.s, Some(Reg(r)));
      SameStateThen(h, g, x.s, y.s, z.s, Some(Reg(r)));
    }
  }

  /** A closed state runs to the same outcome as itself. */
  lemma RunItself(w: World, ss: seq<Statement>, s: State)
    requires BlindWorld(w) && Closed(s.env, s.store)
    ensures SameOutcome(Run(w, ss, s), Run(w, ss, s))
  {
    ClosedIsSame(s);
    RunSame(w, ss, Old(s), s, s);
  }

  lemma FoldedClosed(w: World, win: seq<Statement>, r: nat, s: State)
    requires MovableWindow(win, r) && Closed(s.env, s.store)
    ensures var y := Run(w, [Literal(win, r)] + Kept(win, r), s); y.Running? ==> Closed(y.s.env, y.s.store)
  {
    var lit := Literal(win, r);
    LiteralIsTransparent(win, r);
    assert StmtParts(lit) == [lit.value] && Tame(lit);
    KeptAreTame(win, r);
    RunKeepsClosed(w, [lit] + Kept(win, r), s);
  }

  /** The pass changes no program's outcome but for identities when every window it folds is movable: what
      registers, variables and the objects they lead to hold is alike, and there is an exception exactly
      when there was one. When every window is orderly too, the states at an exception correspond but
      for one register. */
  lemma {:induction false} TransformRenames(w: World, ss: seq<Statement>, s: State)
    requires GoodWorld(w) && BlindWorld(w) && WindowsMovable(ss) && Closed(s.env, s.store)
    ensures SameUnlessRaised(Run(w, ss, s), Run(w, Transformed(ss), s))
    ensures WindowsOrderly(ss) ==> SameButArray(Run(w, ss, s), Run(w, Transformed(ss), s))
    decreases |ss|
  {
    if ss == [] {
      RunItself(w, ss, s);
    } else if FoldsFirst(ss) {
      FoldedOn(w, ss, s);
    } else {
      var x := Exec(w, ss[0], s);
      RunCons(w, ss[0], Transformed(ss[1..]), s);
      if x.Running? {
        ExecClosed(w, ss[0], s);
        TransformRenames(w, ss[1..], x.s);
      } else {
        RunItself(w, ss, s);
      }
    }
  }

  lemma {:induction false} FoldedOn(w: World, ss: seq<Statement>, s: State)
    requires GoodWorld(w) && BlindWorld(w) && WindowsMovable(ss) && Closed(s.env, s.store) && FoldsFirst(ss)
    ensures SameUnlessRaised(Run(w, ss, s), Run(w, Transformed(ss), s))
    ensures WindowsOrderly(ss) ==> SameButArray(Run(w, ss, s), Run(w, Transformed(ss), s))
    decreases |ss|, 0
  {
    var win, r, rest := Window(ss), NewArrayIn(ss[0]).value.0, BehindWindow(ss);
    var first, folded := [ss[0]] + win, [Literal(win, r)] + Kept(win, r);
    WindowFoldRenamed(w, ss[0], win, s);
    SplitWindow(ss);
    FoldedForm(ss);
    RunConcat(w, first, rest, s);
    RunConcat(w, folded, Transformed(rest), s);
    var x, y := Run(w, first, s), Run(w, folded, s);
    if x.Running? {
      var h: Ren :| SameState(h, x.s, y.s, None);
      RunSame(w, rest, h, x.s, y.s);
      FoldedClosed(w, win, r, s);
      TransformRenames(w, rest, y.s);
      SameButArrayThen(Run(w, rest, x.s), Run(w, rest, y.s), Run(w, Transformed(rest), y.s));
    }
  }
}
