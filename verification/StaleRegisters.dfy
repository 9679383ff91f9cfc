/** A register written ahead of a store of it: exactly when folding then goes unnoticed.

    The window is safe but for one store, of a register that a statement ahead of it sets to a constant.
    The original stores the constant; the literal, made before that statement, takes what the register
    held until then. */
module StaleRegisters {
  import opened Options
  import opened Ir
  import opened Machine
  import opened MachineFrames
  import opened ArrayLiterals
  import opened ArrayMeaning
  import opened ArrayFolding
  import opened ArrayRenaming
  import opened FoldingRenamed

  /** The store `q` with another value. */
  function Storing(q: Statement, e: Expression): Statement
    requires q.Assign?
  {
    q.(value := e)
  }

  /** Only the value of the store at `m` is another one. */
  lemma {:induction false} ChangedStore(win: seq<Statement>, m: nat, r: nat, e: Expression)
    requires m < |win| && IsPut(win[m], r) && !StoredLater(win, m + 1, r, PutIndex(win[m], r))
    ensures var win' := win[m := Storing(win[m], e)];
            && Elements(win', r) == Elements(win, r)[PutIndex(win[m], r) := e]
            && Kept(win', r) == Kept(win, r) && MaxIndex(win', r) == MaxIndex(win, r) && LiteralLen(win', r) == LiteralLen(win, r)
    decreases |win|
  {
    var n, k, win' := |win| - 1, PutIndex(win[m], r), win[m := Storing(win[m], e)];
    LastStoreCounts(win, m, r);
    if m == n {
      assert win'[..n] == win[..n];
    } else {
      var few := win[..n];
      assert win'[..n] == few[m := Storing(few[m], e)];
      forall j | m + 1 <= j < |few| && IsPut(few[j], r)
        ensures PutIndex(few[j], r) != k
      {
        assert few[j] == win[j];
      }
      ChangedStore(few, m, r, e);
      assert IsPut(win[n], r) ==> PutIndex(win[n], r) != k;
    }
  }

  lemma ExecConstant(w: World, x: nat, c: Constant, o: State)
    ensures Exec(w, Assign(ToBinding(Register(x)), Val(Const(c))), o) == Running(State(o.env[Reg(x) := Prim(c)], o.store))
  {
    assert Parts(Val(Const(c))) == [];
    ExecAssign(w, x, Val(Const(c)), o);
  }

  /** The window: statement `i` sets the register, statement `m` stores it, and nothing in between
      writes it again. */
  ghost predicate SetThenStored(win: seq<Statement>, i: nat, m: nat, r: nat, x: nat, c: Constant) {
    && i < m < |win| && x != r && win[i] == Assign(ToBinding(Register(x)), Val(Const(c)))
    && IsPut(win[m], r) && win[m].value == Val(Reg(x)) && !StoredLater(win, m + 1, r, PutIndex(win[m], r))
    && forall k :: i < k < m && !IsPut(win[k], r) ==> WritesTo(win[k]) != Some(Reg(x))
  }

  lemma {:induction false} RegisterHolds(w: World, win: seq<Statement>, i: nat, j: nat, r: nat, x: nat, c: Constant, s: State, obj: Obj)
    requires MovableWindow(win, r) && Closed(s.env, s.store) && i < j <= |win| && x != r
    requires obj.kind == ArrayKind && obj.slots == map[] && obj.props == map[]
    requires win[i] == Assign(ToBinding(Register(x)), Val(Const(c)))
    requires forall k :: i < k < j && !IsPut(win[k], r) ==> WritesTo(win[k]) != Some(Reg(x))
    ensures var y := Run(w, win[..j], WithNew(s, r, obj)); y.Running? ==> Lookup(y.s.env, Reg(x)) == Prim(c)
    decreases j
  {
    var k, s1 := j - 1, WithNew(s, r, obj);
    OneFurther(win, k);
    RunSnoc(w, win[..k], win[k], s1);
    RunsUnderway(w, win, k, r, s, obj);
    var y := Run(w, win[..k], s1);
    if y.Running? {
      if k == i {
        ExecConstant(w, x, c, y.s);
      } else {
        RegisterHolds(w, win, i, k, r, x, c, s, obj);
        if IsPut(win[k], r) {
          ExecPutMakes(w, win[k], r, y.s, s.store.next);
        } else {
          KeptIsTame(win[k], r);
          KeptLeaves(w, win[k], y.s, Reg(x));
        }
      }
    }
  }

  lemma KeptLeaves(w: World, q: Statement, o: State, v: Value)
    requires Tame(q) && !IsNewArray(q) && Closed(o.env, o.store) && WritesTo(q) != Some(v)
    ensures Exec(w, q, o).Running? ==> Lookup(Exec(w, q, o).s.env, v) == Lookup(o.env, v)
  {
    if ExecTame(w, q, o).Some? {
      KeptFrame(w, q, o);
    }
  }

  /** Where the register holds the constant, storing one is storing the other. */
  lemma StoresAlike(w: World, q: Statement, r: nat, x: nat, c: Constant, o: State)
    requires IsPut(q, r) && q.value == Val(Reg(x)) && Lookup(o.env, Reg(x)) == Prim(c)
    ensures Exec(w, q, o) == Exec(w, Storing(q, Val(Const(c))), o)
  {
    var q', key := Storing(q, Val(Const(c))), PutKey(q, r).value;
    assert Parts(Val(Reg(x))) == [] && Parts(Val(Const(c))) == [] && Parts(Val(Reg(r))) == [] && Parts(Val(Const(key))) == [];
    ThreePartsMake(w, Reg(r), key, Val(Reg(x)), o);
    ThreePartsMake(w, Reg(r), key, Val(Const(c)), o);
    assert Eval(w, Val(Reg(x)), o.env, o.store) == Some((Prim(c), o.store));
    assert Eval(w, Val(Const(c)), o.env, o.store) == Some((Prim(c), o.store));
    assert StmtParts(q) == [Val(Reg(r)), Val(Const(key)), Val(Reg(x))];
    assert StmtParts(q') == [Val(Reg(r)), Val(Const(key)), Val(Const(c))];
  }

  /** The original stores the constant. */
  lemma OriginalStoresConstant(w: World, win: seq<Statement>, i: nat, m: nat, r: nat, x: nat, c: Constant, s: State, obj: Obj)
    requires SetThenStored(win, i, m, r, x, c) && Closed(s.env, s.store)
    requires obj.kind == ArrayKind && obj.slots == map[] && obj.props == map[]
    requires MovableWindow(win[m := Storing(win[m], Val(Const(c)))], r)
    ensures var win' := win[m := Storing(win[m], Val(Const(c)))];
            Run(w, win, WithNew(s, r, obj)) == Run(w, win', WithNew(s, r, obj))
  {
    var win', s1 := win[m := Storing(win[m], Val(Const(c)))], WithNew(s, r, obj);
    var before, after := win[..m], win[m + 1..];
    assert win == before + ([win[m]] + after) && win' == before + ([win'[m]] + after);
    RunConcat(w, before, [win[m]] + after, s1);
    RunConcat(w, before, [win'[m]] + after, s1);
    assert win'[..m] == before;
    RegisterHolds(w, win', i, m, r, x, c, s, obj);
    var y := Run(w, before, s1);
    if y.Running? {
      StoresAlike(w, win[m], r, x, c, y.s);
      RunCons(w, win[m], after, y.s);
      RunCons(w, win'[m], after, y.s);
    }
  }

  lemma ValueOfRegister(w: World, x: nat, c: Constant, s: State)
    ensures ValueIn(w, Val(Reg(x)), s) == Some(Lookup(s.env, Reg(x))) && ValueIn(w, Val(Const(c)), s) == Some(Prim(c))
    ensures !Allocates(Val(Reg(x))) && Transparent(Val(Reg(x)))
  {
    assert Parts(Val(Reg(x))) == [] && Parts(Val(Const(c))) == [];
    assert Eval(w, Val(Reg(x)), s.env, s.store) == Some((Lookup(s.env, Reg(x)), s.store));
    assert Eval(w, Val(Const(c)), s.env, s.store) == Some((Prim(c), s.store));
  }

  /** One element is the register instead of the constant. */
  lemma OneElementChanged(w: World, es: map<nat, Expression>, k: nat, x: nat, c: Constant, n: nat, s: State)
    requires k in es && es[k] == Val(Const(c)) && Below(es, n) == es && SteadyElements(es)
    requires (forall j :: j in es ==> Transparent(es[j])) && ElementsDefined(w, es, s)
    ensures var es', vs := es[k := Val(Reg(x))], ElementValues(w, es, s);
            && Below(es', n) == es' && SteadyElements(es') && (forall j :: j in es' ==> Transparent(es'[j]))
            && ElementsDefined(w, es', s) && vs[k] == Prim(c)
            && ElementValues(w, es', s) == vs[k := Lookup(s.env, Reg(x))]
  {
    ValueOfRegister(w, x, c, s);
    var es' := es[k := Val(Reg(x))];
    assert k in Below(es, n);
    forall j | j in es'
      ensures !Allocates(es'[j]) && Transparent(es'[j]) && ValueIn(w, es'[j], s).Some?
    {
      assert j != k ==> es'[j] == es[j];
    }
  }

  /** The literal takes what the register held before the window. */
  lemma LiteralTakesOld(w: World, win: seq<Statement>, m: nat, r: nat, x: nat, c: Constant, s: State)
    requires m < |win| && IsPut(win[m], r) && win[m].value == Val(Reg(x)) && !StoredLater(win, m + 1, r, PutIndex(win[m], r))
    requires SafeWindow(win[m := Storing(win[m], Val(Const(c)))], r)
    requires ElementsDefined(w, Elements(win[m := Storing(win[m], Val(Const(c)))], r), s)
    ensures var win', k := win[m := Storing(win[m], Val(Const(c)))], PutIndex(win[m], r);
            var vs := ElementValues(w, Elements(win', r), s);
            && k in vs && vs[k] == Prim(c)
            && Exec(w, Literal(win, r), s) == Running(WithNew(s, r, LiteralObj(LiteralLen(win', r), vs[k := Lookup(s.env, Reg(x))])))
  {
    var win', k := win[m := Storing(win[m], Val(Const(c)))], PutIndex(win[m], r);
    var es, es', n := Elements(win, r), Elements(win', r), LiteralLen(win', r);
    ChangedStore(win, m, r, Val(Const(c)));
    LastStoreCounts(win, m, r);
    SafeElements(win', r);
    AllBelow(win', r);
    OneElementChanged(w, es', k, x, c, n, s);
    ElementsBack(es', es, k, Val(Const(c)), Val(Reg(x)));
    assert Literal(win, r) == Assign(ToBinding(Register(r)), ArrayLit(ElementList(es, n)));
    ExecElements(w, es, n, r, s);
  }

  lemma ElementsBack(es': map<nat, Expression>, es: map<nat, Expression>, k: nat, e: Expression, was: Expression)
    requires es' == es[k := e] && k in es && es[k] == was
    ensures es == es'[k := was] && k in es' && es'[k] == e
  {
  }

  lemma ExecElements(w: World, es: map<nat, Expression>, n: nat, r: nat, s: State)
    requires Below(es, n) == es && SteadyElements(es) && (forall j :: j in es ==> Transparent(es[j])) && ElementsDefined(w, es, s)
    ensures Exec(w, Assign(ToBinding(Register(r)), ArrayLit(ElementList(es, n))), s)
         == Running(WithNew(s, r, LiteralObj(n, ElementValues(w, es, s))))
  {
    EvalArrayLit(w, es, n, s);
    TransparentList(es, n);
    ExecAssign(w, r, ArrayLit(ElementList(es, n)), s);
  }

  /** From arrays that hold different things, the kept statements end in different states. */
  lemma ArraysTellApart(w: World, win: seq<Statement>, r: nat, s: State, obj: Obj, p: Obj, p': Obj)
    requires SafeWindow(win, r) && Quiet(win, r) && Closed(s.env, s.store) && p != p'
    requires obj.kind == ArrayKind && obj.slots == map[] && obj.props == map[]
    ensures Run(w, Kept(win, r), WithNew(s, r, p)) != Run(w, Kept(win, r), WithNew(s, r, p'))
  {
    var s1, a := WithNew(s, r, obj), s.store.next;
    StartsAlike(s, r, obj, p);
    StartsAlike(s, r, obj, p');
    WindowMatched(w, win, r, a, s1, WithNew(s, r, p));
    WindowMatched(w, win, r, a, s1, WithNew(s, r, p'));
    QuietRuns(w, win, r, WithNew(s, r, p));
    QuietRuns(w, win, r, WithNew(s, r, p'));
    forall k | 0 <= k < |win| && IsPut(win[k], r)
      ensures ValueIn(w, win[k].value, s1).Some?
    {
      assert PutSafe(win[k], r);
      EvalTotal(w, win[k].value, s1.env, s1.store);
    }
  }

  /** A window that folds to the same outcome in every state. */
  ghost predicate OtherwiseSafe(win: seq<Statement>, r: nat, hint: Option<nat>) {
    SafeWindow(win, r) && Quiet(win, r) && Folds(win, r, hint) && HintFits(win, r, hint)
  }

  /** The two literals, and what stays run behind them. */
  lemma LiteralsCompared(w: World, win: seq<Statement>, m: nat, r: nat, x: nat, c: Constant, s: State, hint: Option<nat>)
    requires m < |win| && IsPut(win[m], r) && win[m].value == Val(Reg(x)) && !StoredLater(win, m + 1, r, PutIndex(win[m], r))
    requires OtherwiseSafe(win[m := Storing(win[m], Val(Const(c)))], r, hint) && Closed(s.env, s.store)
    ensures var win' := win[m := Storing(win[m], Val(Const(c)))];
            (Run(w, [Literal(win, r)] + Kept(win, r), s) == Run(w, [Literal(win', r)] + Kept(win', r), s)) <==>
            Lookup(s.env, Reg(x)) == Prim(c)
  {
    var win', k := win[m := Storing(win[m], Val(Const(c)))], PutIndex(win[m], r);
    var n := LiteralLen(win', r);
    QuietDefined(w, win', r, s);
    ChangedStore(win, m, r, Val(Const(c)));
    LiteralTakesOld(w, win, m, r, x, c, s);
    ExecLiteral(w, win', r, s);
    RunCons(w, Literal(win, r), Kept(win, r), s);
    RunCons(w, Literal(win', r), Kept(win', r), s);
    var vs := ElementValues(w, Elements(win', r), s);
    var vs' := vs[k := Lookup(s.env, Reg(x))];
    UpdateTells(vs, k, Lookup(s.env, Reg(x)));
    if vs' != vs {
      ArraysTellApart(w, win', r, s, NewArrayObj(None), LiteralObj(n, vs'), LiteralObj(n, vs));
    }
  }

  lemma UpdateTells(vs: map<nat, V>, k: nat, v: V)
    requires k in vs
    ensures vs[k := v] == vs <==> v == vs[k]
  {
    assert vs[k := v][k] == v;
  }

  /** A window that is safe, and in which nothing can raise, but for a store of a register set to a
      constant ahead of it: folding keeps the outcome if and only if the register held that constant
      before the window. */
  lemma StaleExactly(w: World, q: Statement, win: seq<Statement>, i: nat, m: nat, x: nat, c: Constant, s: State)
    requires NewArrayIn(q).Some? && Closed(s.env, s.store) && SetThenStored(win, i, m, NewArrayIn(q).value.0, x, c)
    requires OtherwiseSafe(win[m := Storing(win[m], Val(Const(c)))], NewArrayIn(q).value.0, NewArrayIn(q).value.1)
    ensures var r := NewArrayIn(q).value.0;
            Run(w, [Literal(win, r)] + Kept(win, r), s) == Run(w, [q] + win, s) <==> Lookup(s.env, Reg(x)) == Prim(c)
  {
    var (r, hint) := NewArrayIn(q).value;
    var win' := win[m := Storing(win[m], Val(Const(c)))];
    NewArrayRuns(w, q, s);
    RunCons(w, q, win, s);
    RunCons(w, q, win', s);
    OriginalStoresConstant(w, win, i, m, r, x, c, s, NewArrayObj(hint));
    QuietFoldExact(w, q, win', s);
    LiteralsCompared(w, win, m, r, x, c, s, hint);
  }
}
