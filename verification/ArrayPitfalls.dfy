/** Programs that folding array literals changes. */
module ArrayPitfalls {
  import opened Bytes
  import opened Options
  import opened Ir
  import opened Machine
  import opened MachineFrames
  import opened ArrayLiterals
  import opened ArrayMeaning
  import opened ArrayRaises
  import opened ArrayFolding
  import opened RunRenaming
  import opened Renaming
  import opened LiteralMaking
  import opened ArrayRenaming
  import opened FoldingRenamed

  function Make(r: nat, size: string): Statement {
    Assign(ToBinding(Register(r)), Unknown(NEW_ARRAY, [size]))
  }

  function Store1(r: nat, key: Constant, value: Expression): Statement {
    Assign(ToIndex(Val(Reg(r)), Val(Const(key))), value)
  }

  function One(): Expression {
    Val(Const(Integer(1)))
  }

  lemma SizeFive()
    ensures ParseSize("5") == Some(5)
  {
    assert "5"[..0] == "";
    assert Decimal("5") == 10 * Decimal("") + 5;
  }

  lemma SimpleValueSafe(c: Constant, r: nat)
    ensures ValueSafe(Val(Const(c)), r)
  {
    assert Parts(Val(Const(c))) == [];
  }

  lemma OneStoreWindow(r: nat, c: Constant)
    requires IndexOf(c).Some?
    ensures var win := [Store1(r, c, One())];
            && SafeWindow(win, r) && Elements(win, r) == map[IndexOf(c).value := One()]
            && MaxIndex(win, r) == IndexOf(c).value && Kept(win, r) == []
  {
    var q := Store1(r, c, One());
    assert [q][..0] == [];
    SimpleValueSafe(Integer(1), r);
    assert IsPut(q, r) && PutIndex(q, r) == IndexOf(c).value;
    assert PutSafe(q, r);
    assert Elements([], r) == map[] && MaxIndex([], r) == 0 && Kept([], r) == [];
  }

  /** A size above the largest index plus one is lost: the array is shorter than it was. */
  lemma SizeIsLost(w: World, s: State)
    requires Closed(s.env, s.store)
    ensures var q, win := Make(0, "5"), [Store1(0, Integer(0), One())];
            && Folds(win, 0, Some(5)) && SafeWindow(win, 0)
            && Run(w, [Literal(win, 0)] + Kept(win, 0), s) != Run(w, [q] + win, s)
  {
    var q, win := Make(0, "5"), [Store1(0, Integer(0), One())];
    SizeFive();
    OneStoreWindow(0, Integer(0));
    assert NewArrayIn(q) == Some((0, Some(5)));
    LiteralLenExact(win, 0);
    assert 0 in Elements(win, 0);
    assert Parts(One()) == [];
    assert Quiet(win, 0);
    QuietFoldExact(w, q, win, s);
  }

  /** `r1 := 2` between the new array and a store of `r1`. */
  function Rewritten(): seq<Statement> {
    [Assign(ToBinding(Register(1)), Val(Const(Integer(2)))), Store1(0, Integer(0), Val(Reg(1)))]
  }

  lemma NothingYet(r: nat)
    ensures Elements([], r) == map[] && MaxIndex([], r) == 0 && Kept([], r) == [] && WindowLen([], r) == 0
  {
  }

  /** A window of one statement that stays. */
  lemma OneKept(p: Statement, r: nat)
    requires !IsPut(p, r)
    ensures Elements([p], r) == map[] && MaxIndex([p], r) == 0 && Kept([p], r) == [p]
  {
    assert [p][..0] == [];
    NothingYet(r);
  }

  /** A statement that stays and then a store at index 0. */
  lemma KeptThenStore(p: Statement, q: Statement, r: nat)
    requires !IsPut(p, r) && !EndsWindow(p, r) && IsPut(q, r) && PutIndex(q, r) == 0
    ensures var win := [p, q];
            && WindowLen(win, r) == 2 && Elements(win, r) == map[0 := q.value] && Kept(win, r) == [p]
            && LiteralLen(win, r) == 1 && Folds(win, r, Some(1))
  {
    var win := [p, q];
    assert win[1..] == [q] && [q][1..] == [] && win[..1] == [p];
    NothingYet(r);
    OneKept(p, r);
    assert WindowLen([q], r) == 1;
    assert Elements(win, r) == map[][0 := q.value];
    assert 0 in Elements(win, r);
    Unchanged([p]);
  }

  lemma RewrittenWindow()
    ensures var win := Rewritten();
            && WindowLen(win, 0) == 2 && Elements(win, 0) == map[0 := Val(Reg(1))] && Kept(win, 0) == [win[0]]
            && LiteralLen(win, 0) == 1 && Folds(win, 0, Some(1))
  {
    KeptThenStore(Rewritten()[0], Rewritten()[1], 0);
  }

  lemma MoveTwo(w: World, s: State)
    ensures Run(w, [Rewritten()[0]], s) == Running(State(s.env[Reg(1) := Prim(Integer(2))], s.store))
  {
    assert Parts(Val(Const(Integer(2)))) == [];
    ExecAssign(w, 1, Val(Const(Integer(2))), s);
    assert Eval(w, Val(Const(Integer(2))), s.env, s.store) == Some((Prim(Integer(2)), s.store));
    RunOne(w, Rewritten()[0], s);
  }

  lemma HoldsAfterMove(w: World, s: State, a: nat)
    requires Holding(s, a, 0)
    ensures Holding(State(s.env[Reg(1) := Prim(Integer(2))], s.store), a, 0)
  {
  }

  lemma StoreOfRegister(w: World, s: State, a: nat)
    requires Holding(s, a, 0)
    ensures Exec(w, Rewritten()[1], s) == Running(WithArray(s, a, Set(s.store.heap[a], Slot(0), Lookup(s.env, Reg(1)))))
  {
    var q := Rewritten()[1];
    assert Parts(Val(Reg(1))) == [];
    assert IsPut(q, 0) && PutSafe(q, 0) && PutIndex(q, 0) == 0;
    assert ValueIn(w, Val(Reg(1)), s) == Some(Lookup(s.env, Reg(1)));
    ExecPut(w, q, 0, s, a);
  }

  lemma OriginalStoresTwo(w: World, q: Statement, s: State)
    requires NewArrayIn(q).Some? && NewArrayIn(q).value.0 == 0 && Closed(s.env, s.store)
    ensures var x := Run(w, [q] + Rewritten(), s);
            && x.Running? && s.store.next in x.s.store.heap
            && Get(x.s.store.heap[s.store.next], Slot(0)) == Prim(Integer(2))
  {
    var o, a := NewArrayObj(NewArrayIn(q).value.1), s.store.next;
    var s1 := WithNew(s, 0, o);
    NewArrayRuns(w, q, s);
    StartsAlike(s, 0, o, o);
    RunCons(w, q, Rewritten(), s);
    MoveTwo(w, s1);
    HoldsAfterMove(w, s1, a);
    StoreOfRegister(w, State(s1.env[Reg(1) := Prim(Integer(2))], s1.store), a);
    RunSnoc(w, [Rewritten()[0]], Rewritten()[1], s1);
    assert [Rewritten()[0]] + [Rewritten()[1]] == Rewritten();
  }

  lemma OneRegister(w: World, s: State)
    ensures var es, was := map[0 := Val(Reg(1))], Lookup(s.env, Reg(1));
            && SteadyElements(es) && Below(es, 1) == es && Transparent(Val(Reg(1)))
            && ElementsDefined(w, es, s) && ElementValues(w, es, s) == map[0 := was]
  {
    var es, was := map[0 := Val(Reg(1))], Lookup(s.env, Reg(1));
    assert Parts(Val(Reg(1))) == [];
    assert ValueIn(w, Val(Reg(1)), s) == Some(was);
    assert es[0] == Val(Reg(1));
  }

  lemma LiteralOfRegister(w: World, s: State)
    ensures Exec(w, Assign(ToBinding(Register(0)), ArrayLit(ElementList(map[0 := Val(Reg(1))], 1))), s)
         == Running(WithNew(s, 0, LiteralObj(1, map[0 := Lookup(s.env, Reg(1))])))
  {
    var es := map[0 := Val(Reg(1))];
    OneRegister(w, s);
    EvalArrayLit(w, es, 1, s);
    TransparentList(es, 1);
    ExecAssign(w, 0, ArrayLit(ElementList(es, 1)), s);
  }

  lemma FoldedStoresOld(w: World, s: State)
    ensures var y := Run(w, [Literal(Rewritten(), 0)] + Kept(Rewritten(), 0), s);
            && y.Running? && s.store.next in y.s.store.heap
            && Get(y.s.store.heap[s.store.next], Slot(0)) == Lookup(s.env, Reg(1))
  {
    RewrittenWindow();
    LiteralOfRegister(w, s);
    MoveTwo(w, WithNew(s, 0, LiteralObj(1, map[0 := Lookup(s.env, Reg(1))])));
    RunCons(w, Literal(Rewritten(), 0), Kept(Rewritten(), 0), s);
  }

  /** A register rewritten ahead of a store is read too early by the literal. */
  lemma RewrittenRegisterIsStale(w: World, s: State)
    requires Closed(s.env, s.store) && Lookup(s.env, Reg(1)) != Prim(Integer(2))
    ensures var q, win := Make(0, "1"), Rewritten();
            && Folds(win, 0, Some(1)) && !SafeWindow(win, 0)
            && Run(w, [Literal(win, 0)] + Kept(win, 0), s) != Run(w, [q] + win, s)
  {
    RewrittenWindow();
    RewrittenIsUnsafe();
    OriginalStoresTwo(w, Make(0, "1"), s);
    FoldedStoresOld(w, s);
  }

  lemma RewrittenIsUnsafe()
    ensures !SafeWindow(Rewritten(), 0)
  {
    var win := Rewritten();
    assert Mentions(Val(Reg(1)), Reg(1));
    assert IsPut(win[1], 0) && !IsPut(win[0], 0) && !PairSafe(win[0], win[1], 0);
  }

  // ---------- The largest index, and when the literal is long enough for it

  lemma {:induction false} MaxIndexFits(win: seq<Statement>, r: nat)
    ensures MaxIndex(win, r) < TWO32
  {
    if win != [] {
      var q := win[|win| - 1];
      MaxIndexFits(win[..|win| - 1], r);
      if IsPut(q, r) {
        IndexKeyFits(PutKey(q, r).value);
      }
    }
  }

  lemma IndexKeyFits(c: Constant)
    ensures IndexKey(c).Some? ==> IndexKey(c).value < TWO32
  {
  }

  lemma {:induction false} KeptHasNoStores(win: seq<Statement>, r: nat)
    ensures forall q :: q in Kept(win, r) ==> !IsPut(q, r)
  {
    if win != [] {
      KeptHasNoStores(win[..|win| - 1], r);
    }
  }

  /** The literal is as long as its largest index asks for if and only if that index is not 2^32 - 1.
      Otherwise its length wraps to zero: whatever size was asked for, the window folds into an empty
      array and every one of its stores is gone. */
  lemma LiteralLenExactly(win: seq<Statement>, r: nat, hint: Option<nat>)
    requires Elements(win, r) != map[]
    ensures LiteralLen(win, r) == MaxIndex(win, r) + 1 <==> MaxIndex(win, r) < 0xffff_ffff
    ensures MaxIndex(win, r) >= 0xffff_ffff ==>
              && Folds(win, r, hint) && Literal(win, r) == Assign(ToBinding(Register(r)), ArrayLit([]))
              && forall q :: q in Kept(win, r) ==> !IsPut(q, r)
  {
    MaxIndexFits(win, r);
    KeptHasNoStores(win, r);
    if MaxIndex(win, r) < 0xffff_ffff {
      assert (MaxIndex(win, r) + 1) % TWO32 == MaxIndex(win, r) + 1;
    } else {
      assert (MaxIndex(win, r) + 1) % TWO32 == 0;
      assert ElementList(Elements(win, r), 0) == [];
    }
  }

  /** A store at index 0 and one at 2^32 - 1. */
  function FirstAndLast(): seq<Statement> {
    [Store1(0, Integer(0), One()), Store1(0, Number(4294967295.0), One())]
  }

  lemma FirstAndLastWindow()
    ensures var win := FirstAndLast();
            && WindowLen(win, 0) == 2 && Folds(win, 0, Some(1)) && Kept(win, 0) == []
            && Literal(win, 0) == Assign(ToBinding(Register(0)), ArrayLit([]))
  {
    var win := FirstAndLast();
    assert 4294967295.0.Floor == 4294967295;
    assert IsPut(win[0], 0) && IsPut(win[1], 0) && PutIndex(win[1], 0) == 4294967295;
    assert win[1..] == [win[1]] && win[1..][1..] == [] && win[..1] == [win[0]] && win[..1][..0] == [];
    assert WindowLen(win[1..], 0) == 1;
    assert Kept(win[..1], 0) == [];
    assert 4294967295 in Elements(win, 0);
    assert MaxIndex(win, 0) == 4294967295;
    LiteralLenExactly(win, 0, Some(1));
  }

  lemma OneIsSteady()
    ensures Transparent(One()) && !Allocates(One())
  {
    assert Parts(One()) == [];
  }

  /** Storing 1 under any constant key into the array in register 0. */
  lemma ExecStore(w: World, c: Constant, s: State, a: nat)
    requires Reg(0) in s.env && s.env[Reg(0)] == Ref(a) && a in s.store.heap
    ensures Exec(w, Store1(0, c, One()), s)
         == Running(WithArray(s, a, Set(s.store.heap[a], KeyOf(w, Prim(c)), Prim(Integer(1)))))
  {
    var q := Store1(0, c, One());
    OneIsSteady();
    assert StmtParts(q) == [Val(Reg(0)), Val(Const(c)), One()];
    assert Parts(Val(Reg(0))) == [] && Parts(Val(Const(c))) == [];
    assert Tame(q);
    assert ValueIn(w, One(), s) == Some(Prim(Integer(1)));
    ThreeParts(w, Reg(0), c, One(), s);
  }

  /** A later store under another key leaves slot 0 in place. */
  lemma SlotZeroStays(o: Obj, key: Key)
    requires 0 in o.slots && o.slots[0] == Prim(Integer(1))
    ensures var o1 := Set(o, key, Prim(Integer(1))); 0 in o1.slots && o1.slots[0] == Prim(Integer(1))
  {
  }

  lemma BothStores(w: World, s: State, a: nat)
    requires Reg(0) in s.env && s.env[Reg(0)] == Ref(a) && a in s.store.heap
    ensures var x := Run(w, FirstAndLast(), s);
            x.Running? && a in x.s.store.heap && 0 in x.s.store.heap[a].slots
  {
    var win := FirstAndLast();
    ExecStore(w, Integer(0), s, a);
    var o := Set(s.store.heap[a], Slot(0), Prim(Integer(1)));
    var s1 := WithArray(s, a, o);
    assert Exec(w, win[0], s) == Running(s1);
    ExecStore(w, Number(4294967295.0), s1, a);
    SlotZeroStays(o, KeyOf(w, Prim(Number(4294967295.0))));
    RunOne(w, win[0], s);
    RunSnoc(w, [win[0]], win[1], s);
    assert win == [win[0]] + [win[1]];
  }

  lemma OriginalKeepsFirst(w: World, s: State)
    ensures var x := Run(w, [Make(0, "1")] + FirstAndLast(), s);
            && x.Running? && s.store.next in x.s.store.heap
            && 0 in x.s.store.heap[s.store.next].slots
  {
    var q := Make(0, "1");
    NewArrayRuns(w, q, s);
    RunCons(w, q, FirstAndLast(), s);
    BothStores(w, WithNew(s, 0, NewArrayObj(NewArrayIn(q).value.1)), s.store.next);
  }

  lemma EmptyLiteralRuns(w: World, s: State)
    ensures Run(w, [Assign(ToBinding(Register(0)), ArrayLit([]))], s)
         == Running(WithNew(s, 0, LiteralObj(0, map[])))
  {
    var q := Assign(ToBinding(Register(0)), ArrayLit([]));
    var none: map<nat, Expression> := map[];
    assert ElementList(none, 0) == [] && Below(none, 0) == none;
    EvalArrayLit(w, none, 0, s);
    assert ElementValues(w, none, s) == map[];
    assert Parts(ArrayLit([])) == [];
    ExecAssign(w, 0, ArrayLit([]), s);
    RunOne(w, q, s);
  }

  /** A store at 2^32 - 1 takes the other stores of its window with it: the folded program ends with
      an array that lacks element 0. */
  lemma LastIndexDropsAll(w: World, s: State)
    ensures var q, win := Make(0, "1"), FirstAndLast();
            && WindowLen(win, 0) == |win| && Folds(win, 0, Some(1))
            && Run(w, [Literal(win, 0)] + Kept(win, 0), s) != Run(w, [q] + win, s)
  {
    var win := FirstAndLast();
    FirstAndLastWindow();
    OriginalKeepsFirst(w, s);
    EmptyLiteralRuns(w, s);
    assert [Literal(win, 0)] + [] == [Literal(win, 0)];
  }

  // ---------- Uses the scan does not see

  /** `let y = r0[0]` ahead of the store of element 0: declarations are not searched for the register. */
  function SeenEarly(): seq<Statement> {
    [Let("y", Member(Val(Reg(0)), Index(0), false)), Store1(0, Integer(0), One())]
  }

  lemma SeenEarlyWindow()
    ensures var win := SeenEarly();
            && WindowLen(win, 0) == 2 && Elements(win, 0) == map[0 := One()] && Kept(win, 0) == [win[0]]
            && LiteralLen(win, 0) == 1 && Folds(win, 0, Some(1)) && !MovableWindow(win, 0)
  {
    var win := SeenEarly();
    KeptThenStore(win[0], win[1], 0);
    var e := win[0].value;
    assert Parts(e) == [Val(Reg(0))] + [] == [Val(Reg(0))];
    assert Mentions(Val(Reg(0)), Reg(0)) && Val(Reg(0)) in Parts(e);
    assert e in StmtParts(win[0]) && Mentions(e, Reg(0));
    assert !IsPut(win[0], 0) && !KeptSafe(win[0], 0);
  }

  lemma LetElement(w: World, s: State, a: nat)
    requires Lookup(s.env, Reg(0)) == Ref(a) && a in s.store.heap
    ensures Exec(w, SeenEarly()[0], s) == Running(State(s.env[Read(Variable("y")) := Get(s.store.heap[a], Slot(0))], s.store))
  {
    var e := SeenEarly()[0].value;
    PartsSmaller(e);
    assert Parts(Val(Reg(0))) == [];
    assert Parts(e) == [Val(Reg(0))] + [] == [Val(Reg(0))];
    assert [Val(Reg(0))][1..] == [];
    assert Eval(w, Val(Reg(0)), s.env, s.store) == Some((Ref(a), s.store));
    assert EvalAll(w, e, [], s.env, s.store) == Some(([], s.store));
    assert [Ref(a)] + [] == [Ref(a)];
    assert EvalAll(w, e, Parts(e), s.env, s.store) == Some(([Ref(a)], s.store));
    assert Eval(w, e, s.env, s.store) == Some((Get(s.store.heap[a], Slot(0)), s.store));
    assert StmtParts(SeenEarly()[0]) == [e] && Transparent(e);
    EvalOne(w, e, s);
  }

  lemma OriginalSeesNothing(w: World, s: State)
    ensures var x := Run(w, [Make(0, "1")] + SeenEarly(), s); x.Running? && Lookup(x.s.env, Read(Variable("y"))) == UNDEFINED
  {
    var q, win, a := Make(0, "1"), SeenEarly(), s.store.next;
    var s1 := WithNew(s, 0, NewArrayObj(NewArrayIn(q).value.1));
    NewArrayRuns(w, q, s);
    RunCons(w, q, win, s);
    LetElement(w, s1, a);
    var s2 := State(s1.env[Read(Variable("y")) := UNDEFINED], s1.store);
    ExecStore(w, Integer(0), s2, a);
    RunOne(w, win[0], s1);
    RunSnoc(w, [win[0]], win[1], s1);
    assert win == [win[0]] + [win[1]];
  }

  lemma OneElement(w: World, s: State)
    ensures var es := map[0 := One()];
            && SteadyElements(es) && Below(es, 1) == es && ElementsDefined(w, es, s) && ElementValues(w, es, s) == map[0 := Prim(Integer(1))]
  {
    var es := map[0 := One()];
    OneIsSteady();
    assert ValueIn(w, One(), s) == Some(Prim(Integer(1)));
    assert es[0] == One();
  }

  lemma LiteralOfOne(w: World, s: State)
    ensures Exec(w, Assign(ToBinding(Register(0)), ArrayLit(ElementList(map[0 := One()], 1))), s)
         == Running(WithNew(s, 0, LiteralObj(1, map[0 := Prim(Integer(1))])))
  {
    var es := map[0 := One()];
    OneElement(w, s);
    EvalArrayLit(w, es, 1, s);
    OneIsSteady();
    TransparentList(es, 1);
    ExecAssign(w, 0, ArrayLit(ElementList(es, 1)), s);
  }

  lemma FoldedSeesElement(w: World, s: State)
    ensures var win := SeenEarly();
            var y := Run(w, [Literal(win, 0)] + Kept(win, 0), s); y.Running? && Lookup(y.s.env, Read(Variable("y"))) == Prim(Integer(1))
  {
    var win, t := SeenEarly(), WithNew(s, 0, LiteralObj(1, map[0 := Prim(Integer(1))]));
    SeenEarlyWindow();
    LiteralOfOne(w, s);
    LetElement(w, t, s.store.next);
    RunCons(w, Literal(win, 0), Kept(win, 0), s);
    RunOne(w, win[0], t);
  }

  /** A declaration that reads the array sees the element before it is stored: whatever the state, the
      outcomes differ. */
  lemma DeclarationSeesEarly(w: World, s: State)
    ensures var q, win := Make(0, "1"), SeenEarly();
            && WindowLen(win, 0) == |win| && Folds(win, 0, Some(1)) && !MovableWindow(win, 0)
            && Run(w, [Literal(win, 0)] + Kept(win, 0), s) != Run(w, [q] + win, s)
  {
    SeenEarlyWindow();
    OriginalSeesNothing(w, s);
    FoldedSeesElement(w, s);
  }

  // ---------- Calls

  function CallOf(name: string): Expression {
    Call(Val(Read(Variable(name))), [])
  }

  /** The function called last when these are evaluated in turn. */
  function LastCalled(es: seq<Expression>): Option<string> {
    if es == [] then None
    else
      match es[|es| - 1]
      case Call(Val(Read(Variable(n))), _) => Some(n)
      case _ => LastCalled(es[..|es| - 1])
  }

  function CalledBy(q: Statement): Option<string> {
    match q
    case Assign(ToIndex(_, _), value) => LastCalled([value])
    case Assign(ToBinding(_), ArrayLit(elements)) => LastCalled(Present(elements))
    case _ => None
  }

  /** Statements with calls leave the name of the last function called in a variable. */
  function Logged(q: Statement, s: State): Outcome {
    match CalledBy(q)
    case Some(n) => Running(State(s.env[Read(Variable("last")) := Prim(Text(n))], s.store))
    case None => Running(s)
  }

  /** `r0[1] = f()` and then `r0[0] = g()`. */
  function CallsBackwards(): seq<Statement> {
    [Store1(0, Integer(1), CallOf("f")), Store1(0, Integer(0), CallOf("g"))]
  }

  lemma StoreOfCall(c: Constant, name: string)
    ensures !Tame(Store1(0, c, CallOf(name))) && !IsNewArray(Store1(0, c, CallOf(name)))
    ensures CalledBy(Store1(0, c, CallOf(name))) == Some(name)
  {
    var q := Store1(0, c, CallOf(name));
    assert CallOf(name) in StmtParts(q) && !Transparent(CallOf(name));
  }

  lemma CallsBackwardsWindow()
    ensures var win := CallsBackwards();
            && WindowLen(win, 0) == 2 && Elements(win, 0) == map[1 := CallOf("f"), 0 := CallOf("g")] && Kept(win, 0) == []
            && LiteralLen(win, 0) == 2 && Folds(win, 0, None) && !MovableWindow(win, 0)
  {
    var win := CallsBackwards();
    assert win[1..] == [win[1]] && win[1..][1..] == [] && win[..1] == [win[0]] && win[..1][..0] == [];
    NothingYet(0);
    assert WindowLen(win[1..], 0) == 1;
    assert Elements(win[..1], 0) == map[1 := CallOf("f")] && MaxIndex(win[..1], 0) == 1 && Kept(win[..1], 0) == [];
    assert 1 in Elements(win, 0);
    assert IsPut(win[0], 0) && !PutMovable(win[0], 0);
  }

  lemma PresentCalls()
    ensures Present(ElementList(map[1 := CallOf("f"), 0 := CallOf("g")], 2)) == [CallOf("g"), CallOf("f")]
  {
    var es := map[1 := CallOf("f"), 0 := CallOf("g")];
    LastPresent(es, 1);
    LastPresent(es, 2);
    assert Present(ElementList(es, 0)) == [];
    assert [] + [CallOf("g")] == [CallOf("g")] && [CallOf("g")] + [CallOf("f")] == [CallOf("g"), CallOf("f")];
  }

  lemma LiteralOfCalls()
    ensures var q := Literal(CallsBackwards(), 0); !Tame(q) && !IsNewArray(q) && CalledBy(q) == Some("f")
  {
    CallsBackwardsWindow();
    PresentCalls();
    var q := Literal(CallsBackwards(), 0);
    assert Parts(q.value) == [CallOf("g"), CallOf("f")];
    assert CallOf("f") in Parts(q.value) && !Transparent(q.value);
    assert q.value in StmtParts(q);
  }

  ghost function Logging(w: World): World {
    w.(other := (q: Statement, s: State) => Logged(q, s))
  }

  const LAST: Value := Read(Variable("last"))

  lemma ExecLogged(w: World, q: Statement, s: State, name: string)
    requires !Tame(q) && !IsNewArray(q) && CalledBy(q) == Some(name)
    ensures Exec(Logging(w), q, s) == Running(State(s.env[LAST := Prim(Text(name))], s.store))
  {
  }

  lemma OriginalCallsG(w: World, s: State)
    ensures var x := Run(Logging(w), [Make(0, "")] + CallsBackwards(), s); x.Running? && Lookup(x.s.env, LAST) == Prim(Text("g"))
  {
    var log, q, win := Logging(w), Make(0, ""), CallsBackwards();
    var s1 := WithNew(s, 0, NewArrayObj(None));
    NewArrayRuns(log, q, s);
    RunCons(log, q, win, s);
    StoreOfCall(Integer(1), "f");
    StoreOfCall(Integer(0), "g");
    ExecLogged(w, win[0], s1, "f");
    ExecLogged(w, win[1], Exec(log, win[0], s1).s, "g");
    RunOne(log, win[0], s1);
    RunSnoc(log, [win[0]], win[1], s1);
    assert win == [win[0]] + [win[1]];
  }

  lemma FoldedCallsF(w: World, s: State)
    ensures var win := CallsBackwards();
            var y := Run(Logging(w), [Literal(win, 0)] + Kept(win, 0), s); y.Running? && Lookup(y.s.env, LAST) == Prim(Text("f"))
  {
    var win := CallsBackwards();
    CallsBackwardsWindow();
    LiteralOfCalls();
    ExecLogged(w, Literal(win, 0), s, "f");
    RunOne(Logging(w), Literal(win, 0), s);
    assert [Literal(win, 0)] + [] == [Literal(win, 0)];
  }

  /** Calls stored out of index order are made in index order by the literal: where that can be told,
      the outcomes differ in every state. */
  lemma CallsChangeOrder(w: World, s: State)
    ensures var log, q, win := Logging(w), Make(0, ""), CallsBackwards();
            && WindowLen(win, 0) == |win| && Folds(win, 0, None) && !MovableWindow(win, 0)
            && Run(log, [Literal(win, 0)] + Kept(win, 0), s) != Run(log, [q] + win, s)
  {
    CallsBackwardsWindow();
    OriginalCallsG(w, s);
    FoldedCallsF(w, s);
  }

  // ---------- Values that make objects

  /** The store of a new object at index 0. */
  function ObjectStored(): seq<Statement> {
    [Store1(0, Integer(0), ObjectLit([]))]
  }

  lemma ObjectStoredWindow()
    ensures var win := ObjectStored();
            && WindowLen(win, 0) == 1 && Elements(win, 0) == map[0 := ObjectLit([])] && Kept(win, 0) == [] && LiteralLen(win, 0) == 1
            && Folds(win, 0, None) && MovableWindow(win, 0) && Quiet(win, 0) && !SafeWindow(win, 0)
  {
    var win := ObjectStored();
    var q := win[0];
    assert [q][..0] == [] && win[1..] == [];
    NothingYet(0);
    assert Parts(ObjectLit([])) == [];
    assert IsPut(q, 0) && PutIndex(q, 0) == 0 && PutMovable(q, 0);
    assert Elements(win, 0) == map[][0 := q.value];
    assert 0 in Elements(win, 0);
    assert Allocates(q.value);
  }

  lemma ArrayIsFirst(w: World, s: State)
    requires Closed(s.env, s.store)
    ensures var x := Run(w, [Make(0, "")] + ObjectStored(), s); x.Running? ==> Lookup(x.s.env, Reg(0)) == Ref(s.store.next)
  {
    var q, p := Make(0, ""), ObjectStored()[0];
    var obj := NewArrayObj(NewArrayIn(q).value.1);
    ObjectStoredWindow();
    NewArrayRuns(w, q, s);
    RunCons(w, q, [p], s);
    StartsAlike(s, 0, obj, obj);
    ExecPutMakes(w, p, 0, WithNew(s, 0, obj), s.store.next);
    RunOne(w, p, WithNew(s, 0, obj));
  }

  lemma ArrayIsLast(w: World, s: State)
    ensures var win := ObjectStored();
            var y := Run(w, [Literal(win, 0)] + Kept(win, 0), s); y.Running? ==> Lookup(y.s.env, Reg(0)) == Ref(s.store.next + 1)
  {
    var win, e := ObjectStored(), ObjectLit([]);
    ObjectStoredWindow();
    ExecMaking(w, win, 0, s);
    RunCons(w, Literal(win, 0), [], s);
    PartsSmaller(e);
    assert Parts(e) == [];
    assert EvalAll(w, e, [], s.env, s.store) == Some(([], s.store));
    assert Eval(w, e, s.env, s.store) == Some(Alloc(s.store, WithProps(w, [], [])));
    var es := Elements(win, 0);
    assert Making(w, es, 0, s) == Some((map[], s.store));
    assert Making(w, es, 1, s).value.1.next == s.store.next + 1;
  }

  /** Folding a store of a new object swaps identities: the outcomes are never equal, and always the same
      up to identities. */
  lemma IdentitiesSwap(w: World, s: State)
    requires Closed(s.env, s.store) && Blind(w)
    ensures var win := ObjectStored();
            var x, y := Run(w, [Make(0, "")] + win, s), Run(w, [Literal(win, 0)] + Kept(win, 0), s);
            Folds(win, 0, None) && MovableWindow(win, 0) && !SafeWindow(win, 0) && x != y && SameOutcome(x, y)
  {
    var q, win := Make(0, ""), ObjectStored();
    ObjectStoredWindow();
    assert NewArrayIn(q) == Some((0, None));
    WindowFoldRenamed(w, q, win, s);
    QuietFoldRenamed(w, q, win, s);
    ArrayIsFirst(w, s);
    ArrayIsLast(w, s);
    QuietMakes(w, win, 0, s);
    ExecMaking(w, win, 0, s);
    RunCons(w, Literal(win, 0), [], s);
  }

  // ---------- The order of exceptions

  /** `let x = 1` ahead of a store of `r2.y`. */
  function LateRead(): seq<Statement> {
    [Let("x", One()), Store1(0, Integer(0), Member(Val(Reg(2)), Ident("y"), false))]
  }

  lemma LateReadShape()
    ensures var e := LateRead()[1].value;
            Transparent(e) && !Allocates(e) && !Mentions(e, Reg(0)) && !Mentions(e, Read(Variable("x"))) && ReadsHeap(e)
  {
    var e := LateRead()[1].value;
    assert Parts(Val(Reg(2))) == [];
    assert Parts(e) == [Val(Reg(2))] + [] == [Val(Reg(2))];
  }

  lemma LateReadWindow()
    ensures var win := LateRead();
            && WindowLen(win, 0) == 2 && Elements(win, 0) == map[0 := win[1].value] && Kept(win, 0) == [win[0]]
            && Folds(win, 0, Some(1)) && SafeWindow(win, 0) && !Orderly(win, 0)
  {
    var win := LateRead();
    LateReadShape();
    KeptThenStore(win[0], win[1], 0);
    assert PutSafe(win[1], 0);
    assert KeptSafe(win[0], 0) by {
      OneIsSteady();
      assert StmtParts(win[0]) == [One()];
    }
    assert PairSafe(win[0], win[1], 0);
  }

  lemma ReadOfNothing(w: World, s: State)
    requires Lookup(s.env, Reg(2)) == UNDEFINED
    ensures ValueIn(w, LateRead()[1].value, s) == None
  {
    var e := LateRead()[1].value;
    PartsSmaller(e);
    assert Parts(e) == [Val(Reg(2))];
    assert [Val(Reg(2))][1..] == [];
    assert Eval(w, Val(Reg(2)), s.env, s.store) == Some((UNDEFINED, s.store));
    assert EvalAll(w, e, [], s.env, s.store) == Some(([], s.store));
    assert [UNDEFINED] + [] == [UNDEFINED];
    assert EvalAll(w, e, Parts(e), s.env, s.store) == Some(([UNDEFINED], s.store));
  }

  lemma LetOne(w: World, s: State)
    ensures Exec(w, LateRead()[0], s) == Running(State(s.env[Read(Variable("x")) := Prim(Integer(1))], s.store))
  {
    OneIsSteady();
    assert StmtParts(LateRead()[0]) == [One()];
    EvalOne(w, One(), s);
    assert Eval(w, One(), s.env, s.store) == Some((Prim(Integer(1)), s.store));
  }

  lemma BindKeepsHolding(s: State, a: nat)
    requires Holding(s, a, 0)
    ensures Holding(State(s.env[Read(Variable("x")) := Prim(Integer(1))], s.store), a, 0)
  {
  }

  lemma LateReadIsSafe()
    ensures IsPut(LateRead()[1], 0) && PutSafe(LateRead()[1], 0)
  {
    LateReadShape();
  }

  lemma BindsThenRaises(w: World, s: State, a: nat)
    requires Holding(s, a, 0) && Lookup(s.env, Reg(2)) == UNDEFINED
    ensures Run(w, LateRead(), s) == Raised(State(s.env[Read(Variable("x")) := Prim(Integer(1))], s.store))
  {
    var win := LateRead();
    var s1 := State(s.env[Read(Variable("x")) := Prim(Integer(1))], s.store);
    LetOne(w, s);
    BindKeepsHolding(s, a);
    assert Exec(w, win[1], s1) == Raised(s1) by {
      ReadOfNothing(w, s1);
      LateReadIsSafe();
      ExecPut(w, win[1], 0, s1, a);
    }
    RunOne(w, win[0], s);
    RunSnoc(w, [win[0]], win[1], s);
    assert win == [win[0]] + [win[1]];
  }

  lemma OriginalBindsFirst(w: World, s: State)
    requires Closed(s.env, s.store) && Lookup(s.env, Reg(2)) == UNDEFINED
    ensures var x := Run(w, [Make(0, "1")] + LateRead(), s);
            x.Raised? && Lookup(x.s.env, Read(Variable("x"))) == Prim(Integer(1))
  {
    var q := Make(0, "1");
    var o := NewArrayObj(NewArrayIn(q).value.1);
    NewArrayRuns(w, q, s);
    StartsAlike(s, 0, o, o);
    RunCons(w, q, LateRead(), s);
    BindsThenRaises(w, WithNew(s, 0, o), s.store.next);
  }

  /** A read that raises is moved ahead of `let x`, so a handler that looks at x sees the difference:
      a safe window that is not orderly. */
  lemma RaiseIsEarly(w: World, s: State)
    requires Closed(s.env, s.store) && Lookup(s.env, Reg(2)) == UNDEFINED
    requires Lookup(s.env, Read(Variable("x"))) != Prim(Integer(1))
    ensures var q, win := Make(0, "1"), LateRead();
            var x, y := Run(w, [q] + win, s), Run(w, [Literal(win, 0)] + Kept(win, 0), s);
            && Folds(win, 0, Some(1)) && SafeWindow(win, 0) && !Orderly(win, 0)
            && x.Raised? && y.Raised? && !AgreeOutsideArray(x, y)
  {
    var win := LateRead();
    LateReadWindow();
    OriginalBindsFirst(w, s);
    ReadOfNothing(w, s);
    assert !ElementsDefined(w, Elements(win, 0), s) by {
      assert 0 in Elements(win, 0);
    }
    ExecLiteral(w, win, 0, s);
    RunCons(w, Literal(win, 0), Kept(win, 0), s);
  }
}
