/** Folding array literals preserves meaning under the side conditions, and where it does not. */
module ArrayFolding {
  import opened Options
  import opened Ir
  import opened Machine
  import opened MachineFrames
  import opened ArrayLiterals
  import opened ArrayMeaning
  import opened ArrayRaises

  /** `s` with a new object in register `r`. */
  function WithNew(s: State, r: nat, o: Obj): State {
    State(s.env[Reg(r) := Ref(s.store.next)], Alloc(s.store, o).1)
  }

  /** Starting the array empty and starting it filled: the states differ in the array alone. */
  lemma StartsAlike(s: State, r: nat, o: Obj, p: Obj)
    requires Closed(s.env, s.store) && o.kind == ArrayKind && o.slots == map[] && o.props == map[]
    ensures Holding(WithNew(s, r, o), s.store.next, r)
    ensures Alike(WithNew(s, r, o), WithNew(s, r, p), s.store.next)
  {
    var o1 := WithNew(s, r, o);
    forall id | id in o1.store.heap
      ensures id < o1.store.next && ObjClosed(o1.store.heap[id], o1.store.heap)
    {
      if id != s.store.next {
        assert ObjClosed(s.store.heap[id], s.store.heap);
      }
    }
    forall id | id in o1.store.heap && id != s.store.next
      ensures ObjFree(o1.store.heap[id], s.store.next)
    {
      assert ObjClosed(s.store.heap[id], s.store.heap);
    }
  }

  /** A safe value is the same before and behind the making of the array. */
  lemma ValueBeforeNew(w: World, e: Expression, r: nat, s: State, o: Obj)
    requires ValueSafe(e, r) && Closed(s.env, s.store)
    ensures ValueIn(w, e, WithNew(s, r, o)) == ValueIn(w, e, s)
  {
    var s1 := WithNew(s, r, o);
    forall v | Mentions(e, v)
      ensures Lookup(s.env, v) == Lookup(s1.env, v)
    {
    }
    SteadySame(w, e, s.env, s.store, s1.env, s1.store);
  }

  lemma ElementsBeforeNew(w: World, win: seq<Statement>, r: nat, s: State, o: Obj)
    requires SafeWindow(win, r) && Closed(s.env, s.store)
    ensures var es, s1 := Elements(win, r), WithNew(s, r, o);
            && (ElementsDefined(w, es, s) <==> ElementsDefined(w, es, s1))
            && (ElementsDefined(w, es, s) ==> ElementValues(w, es, s) == ElementValues(w, es, s1))
  {
    var es := Elements(win, r);
    forall k | k in es
      ensures ValueIn(w, es[k], s) == ValueIn(w, es[k], WithNew(s, r, o))
    {
      ElementSafe(win, r, k);
      ValueBeforeNew(w, es[k], r, s, o);
    }
  }

  function LiteralObj(length: nat, slots: map<nat, V>): Obj {
    Obj(ArrayKind, length, slots, map[])
  }

  lemma EvalArrayLit(w: World, elements: map<nat, Expression>, n: nat, s: State)
    requires SteadyElements(elements) && Below(elements, n) == elements
    ensures Eval(w, ArrayLit(ElementList(elements, n)), s.env, s.store)
         == if ElementsDefined(w, elements, s) then Some(Alloc(s.store, LiteralObj(n, ElementValues(w, elements, s))))
            else None
  {
    var e := ArrayLit(ElementList(elements, n));
    PartsSmaller(e);
    assert Parts(e) == Present(ElementList(elements, n));
    ListEvaluates(w, e, elements, n, s);
  }

  lemma EvalOne(w: World, e: Expression, s: State)
    ensures var r := Eval(w, e, s.env, s.store);
            EvalParts(w, [e], s.env, s.store) == if r.None? then None else Some(([r.value.0], r.value.1))
  {
    PartsSmaller(Bundle([e]));
    assert [e][1..] == [];
    var r := Eval(w, e, s.env, s.store);
    if r.Some? {
      assert EvalAll(w, Bundle([e]), [], s.env, r.value.1) == Some(([], r.value.1));
      assert [r.value.0] + [] == [r.value.0];
    }
  }

  lemma {:induction false} TransparentList(elements: map<nat, Expression>, n: nat)
    requires forall k :: k in elements ==> Transparent(elements[k])
    ensures Transparent(ArrayLit(ElementList(elements, n)))
  {
    forall p | p in Present(ElementList(elements, n))
      ensures Transparent(p)
    {
      PresentFrom(elements, n, p);
    }
    assert Parts(ArrayLit(ElementList(elements, n))) == Present(ElementList(elements, n));
  }

  lemma AllBelow(win: seq<Statement>, r: nat)
    requires MovableWindow(win, r)
    ensures Below(Elements(win, r), LiteralLen(win, r)) == Elements(win, r)
  {
    LiteralLenExact(win, r);
    forall k | k in Elements(win, r)
      ensures k < LiteralLen(win, r)
    {
      ElementsAreStored(win, r, k);
    }
  }

  lemma SafeElements(win: seq<Statement>, r: nat)
    requires SafeWindow(win, r)
    ensures SteadyElements(Elements(win, r))
    ensures forall k :: k in Elements(win, r) ==> Transparent(Elements(win, r)[k])
  {
    forall k | k in Elements(win, r)
      ensures ValueSafe(Elements(win, r)[k], r)
    {
      ElementSafe(win, r, k);
    }
  }

  /** The literal makes an array of the collected elements, or raises when one of them does. */
  lemma ExecLiteral(w: World, win: seq<Statement>, r: nat, s: State)
    requires SafeWindow(win, r)
    ensures ElementsDefined(w, Elements(win, r), s) ==>
              var made := LiteralObj(LiteralLen(win, r), ElementValues(w, Elements(win, r), s));
              Exec(w, Literal(win, r), s) == Running(WithNew(s, r, made))
    ensures !ElementsDefined(w, Elements(win, r), s) ==> Exec(w, Literal(win, r), s) == Raised(s)
  {
    var es, n := Elements(win, r), LiteralLen(win, r);
    AllBelow(win, r);
    SafeElements(win, r);
    TransparentList(es, n);
    EvalArrayLit(w, es, n, s);
    ExecAssign(w, r, ArrayLit(ElementList(es, n)), s);
  }

  lemma ExecAssign(w: World, r: nat, e: Expression, s: State)
    requires Transparent(e)
    ensures var q, v := Assign(ToBinding(Register(r)), e), Eval(w, e, s.env, s.store);
            Exec(w, q, s) == if v.None? then Raised(s) else Running(State(s.env[Reg(r) := v.value.0], v.value.1))
  {
    var q := Assign(ToBinding(Register(r)), e);
    assert StmtParts(q) == [e] && Tame(q);
    EvalOne(w, e, s);
  }

  lemma NewArrayRuns(w: World, q: Statement, s: State)
    requires NewArrayIn(q).Some?
    ensures Exec(w, q, s) == Running(WithNew(s, NewArrayIn(q).value.0, NewArrayObj(NewArrayIn(q).value.1)))
  {
  }

  lemma RunCons(w: World, q: Statement, ss: seq<Statement>, s: State)
    ensures Run(w, [q] + ss, s) == ThenRun(w, Exec(w, q, s), ss)
  {
    assert ([q] + ss)[1..] == ss;
  }

  lemma AlikeEverywhere(x: State, y: State, a: nat)
    requires Alike(x, y, a) && x.store.heap[a] == y.store.heap[a]
    ensures x == y
  {
    assert x.store.heap == y.store.heap;
  }

  /** The original window and the folded one, side by side. */
  ghost predicate SideBySide(x: Outcome, y: Outcome, length: nat, literalLen: nat) {
    && (x.Running? || x.Raised?) && (y.Running? || y.Raised?) && (x.Running? <==> y.Running?)
    && (x.Running? ==> (x == y <==> length <= literalLen))
  }

  lemma WindowRuns(w: World, q: Statement, win: seq<Statement>, s: State)
    requires NewArrayIn(q).Some? && SafeWindow(win, NewArrayIn(q).value.0) && Closed(s.env, s.store)
    ensures var (r, hint) := NewArrayIn(q).value;
            SideBySide(Run(w, [q] + win, s), Run(w, [Literal(win, r)] + Kept(win, r), s),
                       NewArrayObj(hint).length, LiteralLen(win, r))
    ensures var r := NewArrayIn(q).value.0;
            Orderly(win, r) ==> AgreeOutsideArray(Run(w, [q] + win, s), Run(w, [Literal(win, r)] + Kept(win, r), s))
                                || Run(w, [q] + win, s).Running?
  {
    var (r, hint) := NewArrayIn(q).value;
    var es, o := Elements(win, r), NewArrayObj(hint);
    var s1 := WithNew(s, r, o);
    NewArrayRuns(w, q, s);
    RunCons(w, q, win, s);
    RunCons(w, Literal(win, r), Kept(win, r), s);
    ExecLiteral(w, win, r, s);
    ElementsBeforeNew(w, win, r, s, o);
    StoresCollect(w, win, r, s1, o);
    if ElementsDefined(w, es, s) {
      DefinedRuns(w, win, r, s, o);
    } else {
      UndefinedRuns(w, win, r, s, o);
    }
  }

  /** All values can be worked out: both sides run the kept statements from alike states. */
  lemma DefinedRuns(w: World, win: seq<Statement>, r: nat, s: State, o: Obj)
    requires SafeWindow(win, r) && Closed(s.env, s.store) && o.kind == ArrayKind && o.slots == map[] && o.props == map[]
    requires ElementsDefined(w, Elements(win, r), s) && ElementsDefined(w, Elements(win, r), WithNew(s, r, o))
    requires ElementValues(w, Elements(win, r), s) == ElementValues(w, Elements(win, r), WithNew(s, r, o))
    requires Collected(w, win, r, WithNew(s, r, o), o)
    ensures var p := LiteralObj(LiteralLen(win, r), ElementValues(w, Elements(win, r), s));
            var x, y := Run(w, win, WithNew(s, r, o)), Run(w, Kept(win, r), WithNew(s, r, p));
            SideBySide(x, y, o.length, LiteralLen(win, r)) && (x.Raised? ==> AgreeOutsideArray(x, y))
  {
    var p := LiteralObj(LiteralLen(win, r), ElementValues(w, Elements(win, r), s));
    var s1, t1, a := WithNew(s, r, o), WithNew(s, r, p), s.store.next;
    StartsAlike(s, r, o, p);
    WindowMatched(w, win, r, a, s1, t1);
    WindowsMeet(w, win, r, s, o, p);
    var x, y := Run(w, win, s1), Run(w, Kept(win, r), t1);
    if x.Raised? {
      FilledClosed(w, win, r, s);
      KeptAreTame(win, r);
      RunKeepsClosed(w, Kept(win, r), t1);
      AlikeIsApart(x.s, y.s, r, a);
    }
  }

  /** Some value cannot be worked out: the literal raises at once, the original at some store. */
  lemma UndefinedRuns(w: World, win: seq<Statement>, r: nat, s: State, o: Obj)
    requires SafeWindow(win, r) && Closed(s.env, s.store) && o.kind == ArrayKind && o.slots == map[] && o.props == map[]
    requires !AllDefined(w, win, r, WithNew(s, r, o))
    ensures var x := Run(w, win, WithNew(s, r, o));
            x.Raised? && (Orderly(win, r) ==> AgreeOutsideArray(x, Raised(s)))
  {
    var s1, a := WithNew(s, r, o), s.store.next;
    StartsAlike(s, r, o, o);
    WindowMatched(w, win, r, a, s1, s1);
    var x := Run(w, win, s1);
    if Orderly(win, r) {
      RaisesEarly(w, win, r, a, s1);
      StartIsApart(s, r, o, x.s);
    }
  }

  lemma StartIsApart(s: State, r: nat, o: Obj, x: State)
    requires Closed(s.env, s.store) && Unwritten(WithNew(s, r, o), x, s.store.next)
    ensures ApartFrom(x, s, r, s.store.next)
  {
    var a := s.store.next;
    forall id | id in s.store.heap && id != a
      ensures id in x.store.heap && x.store.heap[id] == s.store.heap[id] && ObjFree(s.store.heap[id], a)
    {
      assert id in WithNew(s, r, o).store.heap && ObjClosed(s.store.heap[id], s.store.heap);
    }
  }

  /** The literal's own state is closed. */
  lemma FilledClosed(w: World, win: seq<Statement>, r: nat, s: State)
    requires SafeWindow(win, r) && Closed(s.env, s.store) && ElementsDefined(w, Elements(win, r), s)
    ensures var t := WithNew(s, r, LiteralObj(LiteralLen(win, r), ElementValues(w, Elements(win, r), s)));
            Closed(t.env, t.store)
  {
    ExecLiteral(w, win, r, s);
    LiteralIsTame(win, r);
    TameClosed(w, Literal(win, r), s);
  }

  lemma LiteralIsTame(win: seq<Statement>, r: nat)
    requires SafeWindow(win, r)
    ensures Tame(Literal(win, r)) && !IsNewArray(Literal(win, r))
  {
    SafeElements(win, r);
    TransparentList(Elements(win, r), LiteralLen(win, r));
    assert StmtParts(Literal(win, r)) == [Literal(win, r).value];
  }

  lemma WindowsMeet(w: World, win: seq<Statement>, r: nat, s: State, o: Obj, p: Obj)
    requires SafeWindow(win, r) && o.kind == ArrayKind && o.props == map[]
    requires p.kind == ArrayKind && p.props == map[] && p.length == LiteralLen(win, r)
    requires Collected(w, win, r, WithNew(s, r, o), o)
    requires ElementsDefined(w, Elements(win, r), WithNew(s, r, o))
    requires p.slots == ElementValues(w, Elements(win, r), WithNew(s, r, o))
    requires Matched(w, win, r, s.store.next, WithNew(s, r, o), WithNew(s, r, p),
                     Run(w, win, WithNew(s, r, o)), Run(w, Kept(win, r), WithNew(s, r, p)))
    ensures var x, y := Run(w, win, WithNew(s, r, o)), Run(w, Kept(win, r), WithNew(s, r, p));
            x.Running? ==> (x == y <==> o.length <= LiteralLen(win, r))
  {
    var x, y, a := Run(w, win, WithNew(s, r, o)), Run(w, Kept(win, r), WithNew(s, r, p)), s.store.next;
    LiteralLenExact(win, r);
    if x.Running? && o.length <= LiteralLen(win, r) {
      AlikeEverywhere(x.s, y.s, a);
    }
  }

  lemma HintFitsExactly(win: seq<Statement>, r: nat, hint: Option<nat>)
    requires MovableWindow(win, r) && Folds(win, r, hint)
    ensures HintFits(win, r, hint) <==> NewArrayObj(hint).length <= LiteralLen(win, r)
  {
    LiteralLenExact(win, r);
  }

  /** Folding one safe window: both sides come to their end or both raise. When they come to their
      end they are equal if and only if the size asked for is at most one more than the largest index;
      when they raise, and the window is orderly, they agree outside the array. */
  lemma WindowFoldExact(w: World, q: Statement, win: seq<Statement>, s: State)
    requires NewArrayIn(q).Some? && Closed(s.env, s.store)
    requires SafeWindow(win, NewArrayIn(q).value.0)
    requires Folds(win, NewArrayIn(q).value.0, NewArrayIn(q).value.1)
    ensures var (r, hint) := NewArrayIn(q).value;
            var x, y := Run(w, [q] + win, s), Run(w, [Literal(win, r)] + Kept(win, r), s);
            && (x.Running? || x.Raised?) && (y.Running? || y.Raised?) && (x.Running? <==> y.Running?)
            && (x.Running? ==> (x == y <==> HintFits(win, r, hint)))
            && (x.Raised? && Orderly(win, r) ==> AgreeOutsideArray(x, y))
  {
    WindowRuns(w, q, win, s);
    HintFitsExactly(win, NewArrayIn(q).value.0, NewArrayIn(q).value.1);
  }

  /** Nothing in the window can raise: no member is read, and only the array is stored into. */
  ghost predicate Quiet(win: seq<Statement>, r: nat) {
    forall k :: 0 <= k < |win| ==>
      if IsPut(win[k], r) then !ReadsHeap(win[k].value)
      else !WritesHeap(win[k]) && forall p :: p in StmtParts(win[k]) ==> !ReadsHeap(p)
  }

  lemma QuietPartsRun(w: World, q: Statement, s: State)
    requires Tame(q) && !IsNewArray(q) && !WritesHeap(q) && forall p :: p in StmtParts(q) ==> !ReadsHeap(p)
    ensures Exec(w, q, s).Running?
  {
    var es := StmtParts(q);
    PartsSmaller(Bundle(es));
    assert Parts(Bundle(es)) == es;
    EvalAllTotal(w, Bundle(es), es, s.env, s.store);
  }

  lemma {:induction false} QuietRuns(w: World, win: seq<Statement>, r: nat, t: State)
    requires MovableWindow(win, r) && Quiet(win, r)
    ensures Run(w, Kept(win, r), t).Running?
    decreases |win|
  {
    if win != [] {
      var few, q := win[..|win| - 1], win[|win| - 1];
      MovablePrefix(win, r);
      QuietRuns(w, few, r, t);
      if IsPut(q, r) {
        Unchanged(Kept(few, r));
      } else {
        RunSnoc(w, Kept(few, r), q, t);
        KeptIsTame(q, r);
        QuietPartsRun(w, q, Run(w, Kept(few, r), t).s);
      }
    }
  }

  lemma QuietDefined(w: World, win: seq<Statement>, r: nat, s: State)
    requires SafeWindow(win, r) && Quiet(win, r)
    ensures ElementsDefined(w, Elements(win, r), s)
  {
    forall k | k in Elements(win, r)
      ensures ValueIn(w, Elements(win, r)[k], s).Some?
    {
      ElementsAreStored(win, r, k);
      var m :| 0 <= m < |win| && IsPut(win[m], r) && PutIndex(win[m], r) == k && Elements(win, r)[k] == win[m].value;
      assert PutSafe(win[m], r);
      EvalTotal(w, win[m].value, s.env, s.store);
    }
  }

  /** A safe window in which nothing can raise folds exactly if and only if the size asked for fits. */
  lemma QuietFoldExact(w: World, q: Statement, win: seq<Statement>, s: State)
    requires NewArrayIn(q).Some? && Closed(s.env, s.store)
    requires SafeWindow(win, NewArrayIn(q).value.0) && Quiet(win, NewArrayIn(q).value.0)
    requires Folds(win, NewArrayIn(q).value.0, NewArrayIn(q).value.1)
    ensures var (r, hint) := NewArrayIn(q).value;
            Run(w, [Literal(win, r)] + Kept(win, r), s) == Run(w, [q] + win, s) <==> HintFits(win, r, hint)
  {
    var r := NewArrayIn(q).value.0;
    WindowFoldExact(w, q, win, s);
    QuietDefined(w, win, r, s);
    ExecLiteral(w, win, r, s);
    RunCons(w, Literal(win, r), Kept(win, r), s);
    QuietRuns(w, win, r, Exec(w, Literal(win, r), s).s);
  }

  // ---------- Whole programs

  lemma ExecClosed(w: World, q: Statement, s: State)
    requires GoodWorld(w) && Closed(s.env, s.store) && Exec(w, q, s).Running?
    ensures Closed(Exec(w, q, s).s.env, Exec(w, q, s).s.store)
  {
    if IsNewArray(q) {
      AllocClosed(s.env, s.store, NewArrayObj(SizeHint(q.value)), []);
    } else if Tame(q) {
      TameClosed(w, q, s);
    }
  }

  lemma {:induction false} RunClosed(w: World, ss: seq<Statement>, s: State)
    requires GoodWorld(w) && Closed(s.env, s.store) && Run(w, ss, s).Running?
    ensures Closed(Run(w, ss, s).s.env, Run(w, ss, s).s.store)
    decreases |ss|
  {
    if ss != [] {
      ExecClosed(w, ss[0], s);
      RunClosed(w, ss[1..], Exec(w, ss[0], s).s);
    }
  }

  /** Statements that make no array pass through unchanged. */
  lemma {:induction false} PassesThrough(kept: seq<Statement>, rest: seq<Statement>)
    requires forall q :: q in kept ==> NewArrayIn(q).None?
    ensures Transformed(kept + rest) == kept + Transformed(rest)
    decreases |kept|
  {
    if kept == [] {
      assert kept + rest == rest && kept + Transformed(rest) == Transformed(rest);
    } else {
      assert kept[0] in kept && (kept + rest)[0] == kept[0] && (kept + rest)[1..] == kept[1..] + rest;
      PassesThrough(kept[1..], rest);
      assert [kept[0]] + (kept[1..] + Transformed(rest)) == kept + Transformed(rest);
    }
  }

  lemma SplitWindow(ss: seq<Statement>)
    requires FoldsFirst(ss)
    ensures ss == ([ss[0]] + Window(ss)) + BehindWindow(ss)
  {
    var win := Window(ss);
    assert ss[1..] == win + BehindWindow(ss);
    Regroup([ss[0]], win, BehindWindow(ss));
  }

  /** The pass folds the first window and goes on behind it. */
  lemma FoldedForm(ss: seq<Statement>)
    requires FoldsFirst(ss) && MovableWindow(Window(ss), NewArrayIn(ss[0]).value.0)
    ensures var win, r := Window(ss), NewArrayIn(ss[0]).value.0;
            Transformed(ss) == ([Literal(win, r)] + Kept(win, r)) + Transformed(BehindWindow(ss))
  {
    var win, r := Window(ss), NewArrayIn(ss[0]).value.0;
    KeptAreTame(win, r);
    PassesThrough(Kept(win, r), BehindWindow(ss));
    Regroup([Literal(win, r)], Kept(win, r), Transformed(BehindWindow(ss)));
  }

  /** The pass changes no program's outcome when every window it folds is safe: the same registers,
      variables and heap when it runs on or is left by another statement, and an exception exactly when
      there was one. When every window is orderly too, the state at an exception agrees outside one array. */
  lemma {:induction false} TransformPreservesMeaning(w: World, ss: seq<Statement>, s: State)
    requires GoodWorld(w) && WindowsSafe(ss) && Closed(s.env, s.store)
    ensures AgreeUnlessRaised(Run(w, ss, s), Run(w, Transformed(ss), s))
    ensures WindowsOrderly(ss) ==> AgreeOutsideArray(Run(w, ss, s), Run(w, Transformed(ss), s))
    decreases |ss|
  {
    if ss == [] {
    } else if FoldsFirst(ss) {
      var first, folded := [ss[0]] + Window(ss), [Literal(Window(ss), NewArrayIn(ss[0]).value.0)] + Kept(Window(ss), NewArrayIn(ss[0]).value.0);
      WindowFoldExact(w, ss[0], Window(ss), s);
      SplitWindow(ss);
      FoldedForm(ss);
      RunConcat(w, first, BehindWindow(ss), s);
      RunConcat(w, folded, Transformed(BehindWindow(ss)), s);
      var x := Run(w, first, s);
      if x.Running? {
        RunClosed(w, first, s);
        TransformPreservesMeaning(w, BehindWindow(ss), x.s);
      }
    } else {
      RunCons(w, ss[0], Transformed(ss[1..]), s);
      if Exec(w, ss[0], s).Running? {
        ExecClosed(w, ss[0], s);
        TransformPreservesMeaning(w, ss[1..], Exec(w, ss[0], s).s);
      }
    }
  }
}
