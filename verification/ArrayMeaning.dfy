/** When folding stores into an array literal keeps what a program does.

    The side conditions on a window are syntactic. A stored value calls nothing, does not mention the
    array's register, and is not disturbed by a statement it is moved ahead of; a store that is written
    over cannot raise; the statements that stay have nothing to do with the array; keys are array
    indices. Here stored values make no objects either, so that states can be compared for equality.
    Under these conditions, running the window and running only the statements that stay keep two
    states alike but for what the array holds, and the array ends up holding the collected elements.
    The last part evaluates the literal: its present elements from left to right, each put at its
    index. */
module ArrayMeaning {
  import opened Options
  import opened Ir
  import opened Machine
  import opened MachineFrames
  import opened ArrayLiterals

  function Reg(r: nat): Value {
    Read(Register(r))
  }

  // ---------- The side conditions

  /** A stored value that can be worked out early: it calls nothing and is not about the array itself. */
  ghost predicate ValueMovable(e: Expression, r: nat) {
    Transparent(e) && !Mentions(e, Reg(r))
  }

  /** One that makes no object either, so that working it out leaves no trace. */
  ghost predicate ValueSafe(e: Expression, r: nat) {
    ValueMovable(e, r) && !Allocates(e)
  }

  /** The key is an array index, so it is not changed by being read as 32 bits. */
  predicate KeyExact(q: Statement, r: nat)
    requires IsPut(q, r)
  {
    IndexOf(PutKey(q, r).value) == Some(PutIndex(q, r))
  }

  ghost predicate PutMovable(q: Statement, r: nat)
    requires IsPut(q, r)
  {
    ValueMovable(q.value, r) && KeyExact(q, r)
  }

  ghost predicate PutSafe(q: Statement, r: nat)
    requires IsPut(q, r)
  {
    PutMovable(q, r) && !Allocates(q.value)
  }

  /** A statement that stays behind: it has nothing to do with the array. */
  ghost predicate KeptSafe(q: Statement, r: nat) {
    Tame(q) && !IsRegAssigned(q, r) && forall p :: p in StmtParts(q) ==> !Mentions(p, Reg(r))
  }

  function WritesTo(q: Statement): Option<Value> {
    match q
    case Let(name, _) => Some(Read(Variable(name)))
    case Assign(ToBinding(b), _) => Some(Read(b))
    case _ => None
  }

  predicate WritesHeap(q: Statement) {
    q.Assign? && (q.target.ToMember? || q.target.ToIndex?)
  }

  /** The statement may change the value of the expression. */
  ghost predicate Disturbs(q: Statement, e: Expression) {
    (WritesTo(q).Some? && Mentions(e, WritesTo(q).value)) || (WritesHeap(q) && ReadsHeap(e))
  }

  ghost predicate PairSafe(p: Statement, q: Statement, r: nat)
    requires IsPut(q, r)
  {
    if IsPut(p, r) then PutIndex(p, r) == PutIndex(q, r) ==> !ReadsHeap(p.value)
    else !Disturbs(p, q.value)
  }

  /** No stored value depends on a statement it is moved ahead of, and a store that is written over
      cannot raise. */
  ghost predicate MovableWindow(win: seq<Statement>, r: nat) {
    && (forall k :: 0 <= k < |win| ==> if IsPut(win[k], r) then PutMovable(win[k], r) else KeptSafe(win[k], r))
    && (forall k, m :: 0 <= k < m < |win| && IsPut(win[m], r) ==> PairSafe(win[k], win[m], r))
  }

  /** No stored value makes an object. */
  ghost predicate Flat(win: seq<Statement>, r: nat) {
    forall k :: 0 <= k < |win| && IsPut(win[k], r) ==> !Allocates(win[k].value)
  }

  ghost predicate SafeWindow(win: seq<Statement>, r: nat) {
    MovableWindow(win, r) && Flat(win, r)
  }

  /** The array was not asked to be longer than its elements make it. */
  predicate HintFits(win: seq<Statement>, r: nat, hint: Option<nat>) {
    Elements(win, r) != map[] && hint.Some? ==> hint.value <= MaxIndex(win, r) + 1
  }

  /** What follows the first window. */
  function BehindWindow(ss: seq<Statement>): (rest: seq<Statement>)
    requires FoldsFirst(ss)
    ensures |rest| < |ss|
  {
    ss[1..][|Window(ss)|..]
  }

  /** Every window that is folded meets the side conditions. */
  ghost predicate WindowsSafe(ss: seq<Statement>)
    decreases |ss|
  {
    if ss == [] then true
    else if FoldsFirst(ss) then
      var (r, hint) := NewArrayIn(ss[0]).value;
      SafeWindow(Window(ss), r) && HintFits(Window(ss), r, hint) && WindowsSafe(BehindWindow(ss))
    else WindowsSafe(ss[1..])
  }

  /** What is not modelled makes no dangling references. */
  ghost predicate GoodWorld(w: World) {
    forall q: Statement, s: State :: Closed(s.env, s.store) && w.other(q, s).Running? ==>
      Closed(w.other(q, s).s.env, w.other(q, s).s.store)
  }

  // ---------- One statement of a window

  /** The array `a` is in register `r` and nowhere else. */
  ghost predicate Holding(s: State, a: nat, r: nat) {
    && Reg(r) in s.env && s.env[Reg(r)] == Ref(a)
    && a in s.store.heap && s.store.heap[a].kind == ArrayKind
    && Closed(s.env, s.store) && Sealed(s.env, s.store.heap, a, Reg(r))
  }

  /** Two states that differ at most in what the array `a` holds. */
  ghost predicate Alike(o: State, t: State, a: nat) {
    o.env == t.env && SameBut(o.store, t.store, a)
  }

  function WithArray(s: State, a: nat, o: Obj): State {
    State(s.env, s.store.(heap := s.store.heap[a := o]))
  }

  ghost function ValueIn(w: World, e: Expression, s: State): Option<V> {
    ValueOf(w, e, s.env, s.store)
  }

  /** A location, a constant and an expression, evaluated in turn. */
  lemma ThreePartsMake(w: World, v: Value, c: Constant, e: Expression, s: State)
    ensures EvalParts(w, [Val(v), Val(Const(c)), e], s.env, s.store)
         == if Eval(w, e, s.env, s.store).None? then None
            else Some(([Lookup(s.env, v), Prim(c), Eval(w, e, s.env, s.store).value.0], Eval(w, e, s.env, s.store).value.1))
  {
    var es := [Val(v), Val(Const(c)), e];
    var top := Bundle(es);
    PartsSmaller(top);
    assert Eval(w, Val(v), s.env, s.store) == Some((Lookup(s.env, v), s.store));
    assert Eval(w, Val(Const(c)), s.env, s.store) == Some((Prim(c), s.store));
    assert es[1..] == [Val(Const(c)), e] && es[1..][1..] == [e] && [e][1..] == [];
    var r := Eval(w, e, s.env, s.store);
    if r.Some? {
      var (x, st) := r.value;
      assert [x] + [] == [x] && [Prim(c)] + [x] == [Prim(c), x];
      assert EvalAll(w, top, [], s.env, st) == Some(([], st));
      assert EvalAll(w, top, [e], s.env, s.store) == Some(([x], st));
      assert EvalAll(w, top, es[1..], s.env, s.store) == Some(([Prim(c), x], st));
      assert [Lookup(s.env, v)] + [Prim(c), x] == [Lookup(s.env, v), Prim(c), x];
    } else {
      assert EvalAll(w, top, [e], s.env, s.store) == None;
      assert EvalAll(w, top, es[1..], s.env, s.store) == None;
    }
  }

  lemma ThreeParts(w: World, v: Value, c: Constant, e: Expression, s: State)
    requires !Allocates(e)
    ensures EvalParts(w, [Val(v), Val(Const(c)), e], s.env, s.store)
         == if ValueIn(w, e, s).None? then None else Some(([Lookup(s.env, v), Prim(c), ValueIn(w, e, s).value], s.store))
  {
    ThreePartsMake(w, v, c, e, s);
    SteadyStore(w, e, s.env, s.store);
  }

  lemma PutIsTame(q: Statement, r: nat)
    requires IsPut(q, r) && PutMovable(q, r)
    ensures Tame(q) && !IsNewArray(q)
  {
    assert StmtParts(q) == [Val(Reg(r)), Val(Const(PutKey(q, r).value)), q.value];
    assert Transparent(Val(Reg(r))) && Transparent(Val(Const(PutKey(q, r).value)));
  }

  /** A store of the window puts its value into the array and changes nothing else. */
  lemma ExecPut(w: World, q: Statement, r: nat, o: State, a: nat)
    requires IsPut(q, r) && PutSafe(q, r) && Holding(o, a, r)
    ensures ValueIn(w, q.value, o).None? ==> Exec(w, q, o) == Raised(o)
    ensures ValueIn(w, q.value, o).Some? ==>
              Exec(w, q, o) == Running(WithArray(o, a, Set(o.store.heap[a], Slot(PutIndex(q, r)), ValueIn(w, q.value, o).value)))
  {
    PutIsTame(q, r);
    ThreeParts(w, Reg(r), PutKey(q, r).value, q.value, o);
    assert StmtParts(q) == [Val(Reg(r)), Val(Const(PutKey(q, r).value)), q.value];
    assert KeyOf(w, Prim(PutKey(q, r).value)) == Slot(PutIndex(q, r));
  }

  /** A safe value is in the heap and is not the array. */
  lemma ValueApart(w: World, e: Expression, r: nat, o: State, a: nat)
    requires ValueSafe(e, r) && Holding(o, a, r) && ValueIn(w, e, o).Some?
    ensures InHeap(ValueIn(w, e, o).value, o.store.heap) && ValueIn(w, e, o).value != Ref(a)
  {
    EvalClosed(w, e, o.env, o.store);
    SteadyStore(w, e, o.env, o.store);
    EvalApart(w, e, o.env, o.store, o.store, a, Reg(r));
  }

  lemma PutHolds(o: State, a: nat, r: nat, k: nat, v: V)
    requires Holding(o, a, r) && InHeap(v, o.store.heap) && v != Ref(a)
    ensures Holding(WithArray(o, a, Set(o.store.heap[a], Slot(k), v)), a, r)
  {
    var o' := WithArray(o, a, Set(o.store.heap[a], Slot(k), v));
    assert ObjClosed(o.store.heap[a], o.store.heap);
    forall id | id in o'.store.heap
      ensures id < o'.store.next && ObjClosed(o'.store.heap[id], o'.store.heap)
    {
      assert ObjClosed(o.store.heap[id], o.store.heap);
    }
  }

  /** What happens inside the array does not show in safe values. */
  lemma ValueAfterPut(w: World, e: Expression, r: nat, o: State, a: nat, obj: Obj)
    requires ValueSafe(e, r) && Holding(o, a, r)
    ensures ValueIn(w, e, WithArray(o, a, obj)) == ValueIn(w, e, o)
  {
    EvalApart(w, e, o.env, o.store, WithArray(o, a, obj).store, a, Reg(r));
  }

  lemma SetFree(o: Obj, key: Key, v: V, a: nat)
    requires ObjFree(o, a) && v != Ref(a)
    ensures ObjFree(Set(o, key, v), a)
  {
  }

  lemma SetClosed(o: Obj, key: Key, v: V, heap: map<nat, Obj>)
    requires ObjClosed(o, heap) && InHeap(v, heap)
    ensures ObjClosed(Set(o, key, v), heap)
  {
  }

  lemma PutAtClosed(env: Env, target: V, key: Key, v: V, st: Store)
    requires Closed(env, st) && InHeap(v, st.heap)
    ensures PutAt(target, key, v, st).Some? ==> Closed(env, PutAt(target, key, v, st).value)
  {
    var st1 := PutAt(target, key, v, st);
    if st1.Some? {
      if target.Ref? && target.id in st.heap {
        SetClosed(st.heap[target.id], key, v, st.heap);
      }
      forall id | id in st1.value.heap
        ensures id < st1.value.next && ObjClosed(st1.value.heap[id], st1.value.heap)
      {
        assert ObjClosed(st.heap[id], st.heap);
      }
    }
  }

  lemma PutAtApart(env: Env, target: V, key: Key, v: V, s: Store, t: Store, a: nat, r: Value)
    requires ApartStores(env, s, t, s, t, a, r) && target != Ref(a) && v != Ref(a)
    ensures var s1, t1 := PutAt(target, key, v, s), PutAt(target, key, v, t);
            if s1.None? then t1.None? else t1.Some? && ApartStores(env, s, t, s1.value, t1.value, a, r)
  {
    if target.Ref? && target.id in s.heap {
      SetFree(s.heap[target.id], key, v, a);
    }
  }

  lemma ApplyClosed(w: World, q: Statement, vs: seq<V>, env: Env, st: Store)
    requires |vs| == |StmtParts(q)| && Closed(env, st) && AllInHeap(vs, st.heap)
    ensures var s := Apply(w, q, vs, env, st); s.Some? ==> Closed(s.value.env, s.value.store)
  {
    match q
    case Assign(ToMember(_, name), _) => PutAtClosed(env, vs[0], w.nameKey(name), vs[1], st);
    case Assign(ToIndex(_, _), _) => PutAtClosed(env, vs[0], KeyOf(w, vs[1]), vs[2], st);
    case _ =>
  }

  lemma TameClosed(w: World, q: Statement, s: State)
    requires Closed(s.env, s.store) && ExecTame(w, q, s).Some?
    ensures var s1 := ExecTame(w, q, s).value; Closed(s1.env, s1.store)
  {
    PartsSmaller(Bundle(StmtParts(q)));
    EvalAllClosed(w, Bundle(StmtParts(q)), StmtParts(q), s.env, s.store);
    var r := EvalParts(w, StmtParts(q), s.env, s.store);
    ApplyClosed(w, q, r.value.0, s.env, r.value.1);
  }

  /** The outcomes of applying a statement to states that differ in the array only. */
  ghost predicate AppliedAlike(x: Option<State>, y: Option<State>, s: Store, t: Store, a: nat, r: Value) {
    if x.None? then y.None?
    else
      && y.Some? && x.value.env == y.value.env
      && ApartStores(x.value.env, s, t, x.value.store, y.value.store, a, r)
      && (r in x.value.env && x.value.env[r] == Ref(a))
  }

  lemma ApplyApart(w: World, q: Statement, vs: seq<V>, env: Env, s: Store, t: Store, a: nat, r: Value)
    requires |vs| == |StmtParts(q)| && Ref(a) !in vs && WritesTo(q) != Some(r)
    requires ApartStores(env, s, t, s, t, a, r) && r in env && env[r] == Ref(a)
    ensures AppliedAlike(Apply(w, q, vs, env, s), Apply(w, q, vs, env, t), s, t, a, r)
  {
    match q
    case Assign(ToMember(_, name), _) => PutAtApart(env, vs[0], w.nameKey(name), vs[1], s, t, a, r);
    case Assign(ToIndex(_, _), _) => PutAtApart(env, vs[0], KeyOf(w, vs[1]), vs[2], s, t, a, r);
    case _ =>
  }

  lemma KeptIsTame(q: Statement, r: nat)
    requires KeptSafe(q, r)
    ensures !IsNewArray(q) && WritesTo(q) != Some(Reg(r))
  {
    NewArrayIsForeign(q);
  }

  lemma NewArrayIsForeign(q: Statement)
    ensures IsNewArray(q) ==> !Tame(q)
  {
    if IsNewArray(q) {
      assert StmtParts(q) == [q.value];
      assert q.value in StmtParts(q) && !Transparent(q.value);
    }
  }

  /** A kept statement does the same with and without the stores already made. */
  lemma ExecKept(w: World, q: Statement, r: nat, o: State, t: State, a: nat)
    requires KeptSafe(q, r) && Holding(o, a, r) && Alike(o, t, a)
    ensures var x, y := Exec(w, q, o), Exec(w, q, t);
            if x.Raised? then x == Raised(o) && y == Raised(t)
            else
              && x.Running? && y.Running? && Holding(x.s, a, r) && Alike(x.s, y.s, a)
              && x.s.store.heap[a] == o.store.heap[a] && y.s.store.heap[a] == t.store.heap[a]
  {
    KeptIsTame(q, r);
    var es := StmtParts(q);
    PartsSmaller(Bundle(es));
    assert Parts(Bundle(es)) == es;
    EvalAllApart(w, Bundle(es), es, o.env, o.store, t.store, a, Reg(r));
    var x, y := EvalParts(w, es, o.env, o.store), EvalParts(w, es, t.env, t.store);
    if x.Some? {
      ApartAgain(o.env, o.store, t.store, x.value.1, y.value.1, a, Reg(r));
      ApplyApart(w, q, x.value.0, o.env, x.value.1, y.value.1, a, Reg(r));
      if ExecTame(w, q, o).Some? {
        TameClosed(w, q, o);
      }
    }
  }

  lemma NoHeapWrite(w: World, q: Statement, vs: seq<V>, env: Env, st: Store)
    requires |vs| == |StmtParts(q)| && !WritesHeap(q)
    ensures var s := Apply(w, q, vs, env, st);
            s.Some? && s.value.store == st && forall v :: WritesTo(q) != Some(v) ==> Lookup(s.value.env, v) == Lookup(env, v)
  {
  }

  lemma HeapWriteOnly(w: World, q: Statement, vs: seq<V>, env: Env, st: Store)
    requires |vs| == |StmtParts(q)| && WritesHeap(q)
    ensures var s := Apply(w, q, vs, env, st); s.Some? ==> s.value.env == env
  {
  }

  /** A value that a statement does not disturb is the same behind it. */
  lemma ValueAfterKept(w: World, q: Statement, e: Expression, o: State)
    requires !Allocates(e) && !Disturbs(q, e) && Closed(o.env, o.store)
    requires ExecTame(w, q, o).Some?
    ensures ValueIn(w, e, ExecTame(w, q, o).value) == ValueIn(w, e, o)
  {
    var es := StmtParts(q);
    var r := EvalParts(w, es, o.env, o.store).value;
    var o' := ExecTame(w, q, o).value;
    if WritesHeap(q) {
      HeapWriteOnly(w, q, r.0, o.env, r.1);
    } else {
      NoHeapWrite(w, q, r.0, o.env, r.1);
      PartsSmaller(Bundle(es));
      assert Parts(Bundle(es)) == es;
      EvalAllClosed(w, Bundle(es), es, o.env, o.store);
    }
    SteadySame(w, e, o.env, o.store, o'.env, o'.store);
  }

  // ---------- A whole window

  /** Every stored value can be worked out in `s`. */
  ghost predicate AllDefined(w: World, win: seq<Statement>, r: nat, s: State) {
    forall k :: 0 <= k < |win| && IsPut(win[k], r) ==> ValueIn(w, win[k].value, s).Some?
  }

  /** The array once all stores are made, with the values they have in `s`. */
  ghost function Stored(w: World, win: seq<Statement>, r: nat, s: State, obj: Obj): Obj
    requires AllDefined(w, win, r, s)
  {
    if win == [] then obj
    else
      var n := |win| - 1;
      var q := win[n];
      assert AllDefined(w, win[..n], r, s);
      var before := Stored(w, win[..n], r, s, obj);
      if IsPut(q, r) then Set(before, Slot(PutIndex(q, r)), ValueIn(w, q.value, s).value) else before
  }

  /** The original run `x` against the run `y` of the kept statements alone. */
  ghost predicate Matched(w: World, win: seq<Statement>, r: nat, a: nat, o: State, t: State, x: Outcome, y: Outcome)
    requires a in o.store.heap && a in t.store.heap
  {
    && (x.Raised? || x.Running?) && (y.Raised? || y.Running?)
    && (AllDefined(w, win, r, o) ==> (x.Running? <==> y.Running?))
    && (x.Running? ==>
          && AllDefined(w, win, r, o) && Holding(x.s, a, r) && Alike(x.s, y.s, a)
          && x.s.store.heap[a] == Stored(w, win, r, o, o.store.heap[a])
          && y.s.store.heap[a] == t.store.heap[a])
    && (x.Raised? && AllDefined(w, win, r, o) ==> Holding(x.s, a, r) && Alike(x.s, y.s, a))
  }

  lemma MovablePrefix(win: seq<Statement>, r: nat)
    requires MovableWindow(win, r) && win != []
    ensures MovableWindow(win[..|win| - 1], r)
  {
  }

  lemma SafePrefix(win: seq<Statement>, r: nat)
    requires SafeWindow(win, r) && win != []
    ensures SafeWindow(win[..|win| - 1], r)
  {
  }

  lemma RunOne(w: World, q: Statement, s: State)
    ensures Run(w, [q], s) == Exec(w, q, s)
  {
  }

  ghost function ThenExec(w: World, x: Outcome, q: Statement): Outcome {
    if x.Running? then Exec(w, q, x.s) else x
  }

  lemma RunSnoc(w: World, few: seq<Statement>, q: Statement, s: State)
    ensures Run(w, few + [q], s) == ThenExec(w, Run(w, few, s), q)
  {
    RunConcat(w, few, [q], s);
    if Run(w, few, s).Running? {
      RunOne(w, q, Run(w, few, s).s);
    }
  }

  lemma {:induction false} WindowMatched(w: World, win: seq<Statement>, r: nat, a: nat, o: State, t: State)
    requires SafeWindow(win, r) && Holding(o, a, r) && Alike(o, t, a)
    ensures Matched(w, win, r, a, o, t, Run(w, win, o), Run(w, Kept(win, r), t))
    decreases |win|, 1
  {
    if win != [] {
      var few, q := win[..|win| - 1], win[|win| - 1];
      assert win == few + [q];
      SafePrefix(win, r);
      WindowMatched(w, few, r, a, o, t);
      RunSnoc(w, few, q, o);
      if IsPut(q, r) {
        assert Kept(win, r) == Kept(few, r);
        PutMatched(w, few, q, r, a, o, t);
      } else {
        RunSnoc(w, Kept(few, r), q, t);
        KeptMatched(w, few, q, r, a, o, t);
      }
    }
  }

  lemma PutMatched(w: World, few: seq<Statement>, q: Statement, r: nat, a: nat, o: State, t: State)
    requires SafeWindow(few + [q], r) && Holding(o, a, r) && Alike(o, t, a) && IsPut(q, r)
    requires Matched(w, few, r, a, o, t, Run(w, few, o), Run(w, Kept(few, r), t))
    requires Run(w, few + [q], o) == ThenExec(w, Run(w, few, o), q)
    ensures Matched(w, few + [q], r, a, o, t, Run(w, few + [q], o), Run(w, Kept(few, r), t))
    decreases |few| + 1, 0
  {
    var x, y := Run(w, few, o), Run(w, Kept(few, r), t);
    LastIsPut(few, q, r);
    DefinedSnoc(w, few, q, r, o);
    if x.Running? {
      ValueThrough(w, few, r, a, o, q.value);
      PutStep(w, few, q, r, a, o, t, x.s, y);
    }
  }

  /** The last store of a safe window: safe itself, and undisturbed by what precedes it. */
  lemma LastIsPut(few: seq<Statement>, q: Statement, r: nat)
    requires SafeWindow(few + [q], r) && IsPut(q, r)
    ensures SafeWindow(few, r) && PutSafe(q, r)
    ensures forall k :: 0 <= k < |few| && !IsPut(few[k], r) ==> !Disturbs(few[k], q.value)
  {
    var win := few + [q];
    assert win[|few|] == q && win[..|few|] == few;
    SafePrefix(win, r);
    forall k | 0 <= k < |few| && !IsPut(few[k], r)
      ensures !Disturbs(few[k], q.value)
    {
      assert win[k] == few[k] && PairSafe(win[k], win[|few|], r);
    }
  }

  lemma StoredSnoc(w: World, few: seq<Statement>, q: Statement, r: nat, s: State, obj: Obj)
    requires IsPut(q, r) && AllDefined(w, few, r, s) && ValueIn(w, q.value, s).Some? && AllDefined(w, few + [q], r, s)
    ensures Stored(w, few + [q], r, s, obj) == Set(Stored(w, few, r, s, obj), Slot(PutIndex(q, r)), ValueIn(w, q.value, s).value)
  {
    var win := few + [q];
    assert win[|few|] == q && win[..|few|] == few;
  }

  lemma AlikeAfterPut(s: State, t: State, a: nat, obj: Obj)
    requires Alike(s, t, a)
    ensures Alike(WithArray(s, a, obj), t, a)
  {
  }

  lemma PutStep(w: World, few: seq<Statement>, q: Statement, r: nat, a: nat, o: State, t: State, s: State, y: Outcome)
    requires IsPut(q, r) && PutSafe(q, r) && ValueIn(w, q.value, s) == ValueIn(w, q.value, o)
    requires a in o.store.heap && a in t.store.heap && Matched(w, few, r, a, o, t, Running(s), y)
    requires AllDefined(w, few + [q], r, o) <==> AllDefined(w, few, r, o) && ValueIn(w, q.value, o).Some?
    ensures Matched(w, few + [q], r, a, o, t, Exec(w, q, s), y)
  {
    ExecPut(w, q, r, s, a);
    if ValueIn(w, q.value, o).Some? {
      StoredSnoc(w, few, q, r, o, o.store.heap[a]);
      ValueApart(w, q.value, r, s, a);
      PutHolds(s, a, r, PutIndex(q, r), ValueIn(w, q.value, o).value);
      if y.Running? {
        AlikeAfterPut(s, y.s, a, Set(s.store.heap[a], Slot(PutIndex(q, r)), ValueIn(w, q.value, o).value));
      }
    }
  }

  lemma KeptMatched(w: World, few: seq<Statement>, q: Statement, r: nat, a: nat, o: State, t: State)
    requires SafeWindow(few + [q], r) && Holding(o, a, r) && Alike(o, t, a) && !IsPut(q, r)
    requires Matched(w, few, r, a, o, t, Run(w, few, o), Run(w, Kept(few, r), t))
    requires Run(w, few + [q], o) == ThenExec(w, Run(w, few, o), q)
    requires Run(w, Kept(few, r) + [q], t) == ThenExec(w, Run(w, Kept(few, r), t), q)
    ensures Matched(w, few + [q], r, a, o, t, Run(w, few + [q], o), Run(w, Kept(few, r) + [q], t))
  {
    var win := few + [q];
    var x, y := Run(w, few, o), Run(w, Kept(few, r), t);
    assert win[|few|] == q && win[..|few|] == few;
    DefinedSnoc(w, few, q, r, o);
    assert KeptSafe(q, r);
    if x.Running? {
      ExecKept(w, q, r, x.s, y.s, a);
    } else if y.Running? {
      ExecKept(w, q, r, o, o, a);
      KeptStops(w, q, y.s);
      KeptIsTame(q, r);
    }
  }

  lemma KeptStops(w: World, q: Statement, s: State)
    requires Tame(q)
    ensures !IsNewArray(q) ==> Exec(w, q, s).Raised? || Exec(w, q, s).Running?
  {
  }

  lemma DefinedSnoc(w: World, few: seq<Statement>, q: Statement, r: nat, s: State)
    ensures AllDefined(w, few + [q], r, s) <==> AllDefined(w, few, r, s) && (IsPut(q, r) ==> ValueIn(w, q.value, s).Some?)
  {
    var win := few + [q];
    assert win[|few|] == q;
    forall k | 0 <= k < |few|
      ensures win[k] == few[k]
    {
    }
    if AllDefined(w, win, r, s) {
      forall k | 0 <= k < |few| && IsPut(few[k], r)
        ensures ValueIn(w, few[k].value, s).Some?
      {
        assert win[k] == few[k];
      }
    }
  }

  /** Running a window does not change a value nothing in it disturbs. */
  lemma {:induction false} ValueThrough(w: World, win: seq<Statement>, r: nat, a: nat, o: State, e: Expression)
    requires SafeWindow(win, r) && Holding(o, a, r) && ValueSafe(e, r)
    requires forall k :: 0 <= k < |win| && !IsPut(win[k], r) ==> !Disturbs(win[k], e)
    ensures Run(w, win, o).Running? ==> ValueIn(w, e, Run(w, win, o).s) == ValueIn(w, e, o)
    decreases |win|, 2
  {
    if win != [] && Run(w, win, o).Running? {
      var few, q := win[..|win| - 1], win[|win| - 1];
      assert win == few + [q];
      SafePrefix(win, r);
      RunSnoc(w, few, q, o);
      ValueThrough(w, few, r, a, o, e);
      WindowMatched(w, few, r, a, o, o);
      var s := Run(w, few, o).s;
      if IsPut(q, r) {
        ExecPut(w, q, r, s, a);
        ValueAfterPut(w, e, r, s, a, Set(s.store.heap[a], Slot(PutIndex(q, r)), ValueIn(w, q.value, s).value));
      } else {
        KeptIsTame(q, r);
        ValueAfterKept(w, q, e, s);
      }
    }
  }

  // ---------- The literal

  /** Some store writes element `k`. */
  lemma {:induction false} ElementsAreStored(win: seq<Statement>, r: nat, k: nat)
    requires k in Elements(win, r)
    ensures exists m :: 0 <= m < |win| && IsPut(win[m], r) && PutIndex(win[m], r) == k && Elements(win, r)[k] == win[m].value
    ensures k <= MaxIndex(win, r)
  {
    var n := |win| - 1;
    var few := win[..n];
    if IsPut(win[n], r) && PutIndex(win[n], r) == k {
    } else {
      ElementsAreStored(few, r, k);
      var m :| 0 <= m < |few| && IsPut(few[m], r) && PutIndex(few[m], r) == k && Elements(few, r)[k] == few[m].value;
      assert win[m] == few[m];
    }
  }

  lemma {:induction false} MaxIsStored(win: seq<Statement>, r: nat)
    ensures Elements(win, r) == map[] ==> MaxIndex(win, r) == 0
    ensures Elements(win, r) != map[] ==> MaxIndex(win, r) in Elements(win, r)
  {
    if win != [] {
      var n := |win| - 1;
      MaxIsStored(win[..n], r);
      if IsPut(win[n], r) {
        assert PutIndex(win[n], r) in Elements(win, r);
      }
    }
  }

  lemma ElementMovable(win: seq<Statement>, r: nat, k: nat)
    requires MovableWindow(win, r) && k in Elements(win, r)
    ensures ValueMovable(Elements(win, r)[k], r) && k < 0xffff_ffff
  {
    ElementsAreStored(win, r, k);
    var m :| 0 <= m < |win| && IsPut(win[m], r) && PutIndex(win[m], r) == k && Elements(win, r)[k] == win[m].value;
    assert PutMovable(win[m], r);
    IndexSmall(PutKey(win[m], r).value);
  }

  lemma ElementSafe(win: seq<Statement>, r: nat, k: nat)
    requires SafeWindow(win, r) && k in Elements(win, r)
    ensures ValueSafe(Elements(win, r)[k], r)
  {
    ElementMovable(win, r, k);
    ElementsAreStored(win, r, k);
  }

  lemma IndexSmall(c: Constant)
    ensures IndexOf(c).Some? ==> IndexOf(c).value < 0xffff_ffff
  {
  }

  /** With exact keys the literal is exactly one longer than its largest index. */
  lemma LiteralLenExact(win: seq<Statement>, r: nat)
    requires MovableWindow(win, r)
    ensures LiteralLen(win, r) == if Elements(win, r) == map[] then 0 else MaxIndex(win, r) + 1
  {
    MaxIsStored(win, r);
    if Elements(win, r) != map[] {
      ElementMovable(win, r, MaxIndex(win, r));
    }
  }

  /** Every element has a value in `s`. */
  ghost predicate ElementsDefined(w: World, elements: map<nat, Expression>, s: State) {
    forall k :: k in elements ==> ValueIn(w, elements[k], s).Some?
  }

  ghost function ElementValues(w: World, elements: map<nat, Expression>, s: State): map<nat, V>
    requires ElementsDefined(w, elements, s)
  {
    map k | k in elements :: ValueIn(w, elements[k], s).value
  }

  /** The stores of a safe window leave the values of the collected elements in the array. */
  ghost predicate Collected(w: World, win: seq<Statement>, r: nat, s: State, obj: Obj) {
    && (AllDefined(w, win, r, s) <==> ElementsDefined(w, Elements(win, r), s))
    && (AllDefined(w, win, r, s) ==>
          && Stored(w, win, r, s, obj).slots == ElementValues(w, Elements(win, r), s)
          && Stored(w, win, r, s, obj).props == obj.props && Stored(w, win, r, s, obj).kind == obj.kind
          && Stored(w, win, r, s, obj).length ==
               if Elements(win, r) != map[] && MaxIndex(win, r) >= obj.length then MaxIndex(win, r) + 1 else obj.length)
  }

  lemma {:induction false} StoresCollect(w: World, win: seq<Statement>, r: nat, s: State, obj: Obj)
    requires SafeWindow(win, r) && obj.kind == ArrayKind && obj.slots == map[]
    ensures Collected(w, win, r, s, obj)
    decreases |win|
  {
    if win == [] {
      assert ElementValues(w, Elements(win, r), s) == map[];
    } else {
      var few, q := win[..|win| - 1], win[|win| - 1];
      assert win == few + [q];
      SafePrefix(win, r);
      StoresCollect(w, few, r, s, obj);
      DefinedSnoc(w, few, q, r, s);
      if IsPut(q, r) {
        OverwrittenDefined(w, few, q, r, s);
        PutCollects(w, few, q, r, s, obj);
      }
    }
  }

  /** A value that a later store replaces can always be worked out. */
  lemma OverwrittenDefined(w: World, few: seq<Statement>, q: Statement, r: nat, s: State)
    requires SafeWindow(few + [q], r) && IsPut(q, r)
    ensures PutIndex(q, r) in Elements(few, r) ==> ValueIn(w, Elements(few, r)[PutIndex(q, r)], s).Some?
  {
    var win, k := few + [q], PutIndex(q, r);
    if k in Elements(few, r) {
      ElementsAreStored(few, r, k);
      var m :| 0 <= m < |few| && IsPut(few[m], r) && PutIndex(few[m], r) == k && Elements(few, r)[k] == few[m].value;
      assert win[m] == few[m] && win[|few|] == q && PairSafe(win[m], win[|few|], r) && PutSafe(win[m], r);
      EvalTotal(w, few[m].value, s.env, s.store);
    }
  }

  lemma PutCollects(w: World, few: seq<Statement>, q: Statement, r: nat, s: State, obj: Obj)
    requires IsPut(q, r) && obj.kind == ArrayKind && Collected(w, few, r, s, obj)
    requires AllDefined(w, few + [q], r, s) <==> AllDefined(w, few, r, s) && ValueIn(w, q.value, s).Some?
    requires PutIndex(q, r) in Elements(few, r) ==> ValueIn(w, Elements(few, r)[PutIndex(q, r)], s).Some?
    ensures Collected(w, few + [q], r, s, obj)
  {
    var win, k := few + [q], PutIndex(q, r);
    assert win[|few|] == q && win[..|few|] == few;
    var before, after := Elements(few, r), Elements(win, r);
    assert after == before[k := q.value];
    MaxIsStored(few, r);
    assert ElementsDefined(w, after, s) <==> ElementsDefined(w, before, s) && ValueIn(w, q.value, s).Some? by {
      if ElementsDefined(w, after, s) {
        assert ValueIn(w, after[k], s).Some?;
        forall m | m in before
          ensures ValueIn(w, before[m], s).Some?
        {
          if m != k {
            assert after[m] == before[m];
          }
        }
      }
    }
    if AllDefined(w, win, r, s) {
      assert ElementValues(w, after, s) == ElementValues(w, before, s)[k := ValueIn(w, q.value, s).value];
    }
  }

  ghost predicate Inside(es: seq<Expression>, top: Expression) {
    forall k :: 0 <= k < |es| ==> es[k] < top
  }

  /** One more value behind the others, if there is one. */
  ghost function Append(all: Option<(seq<V>, Store)>, v: Option<V>): Option<(seq<V>, Store)> {
    if all.None? || v.None? then None else Some((all.value.0 + [v.value], all.value.1))
  }

  lemma PrependAppend(first: V, all: Option<(seq<V>, Store)>, v: Option<V>)
    ensures Prepend(first, Append(all, v)) == Append(Prepend(first, all), v)
  {
    if all.Some? && v.Some? {
      assert [first] + (all.value.0 + [v.value]) == [first] + all.value.0 + [v.value];
    }
  }

  lemma SteadyFirst(w: World, top: Expression, es: seq<Expression>, s: State)
    requires es != [] && Inside(es, top) && !Allocates(es[0])
    ensures EvalAll(w, top, es, s.env, s.store)
         == if ValueIn(w, es[0], s).None? then None
            else Prepend(ValueIn(w, es[0], s).value, EvalAll(w, top, es[1..], s.env, s.store))
  {
    SteadyStore(w, es[0], s.env, s.store);
  }

  lemma EvalAllOne(w: World, top: Expression, e: Expression, s: State)
    requires e < top && !Allocates(e)
    ensures EvalAll(w, top, [e], s.env, s.store) == Append(Some(([], s.store)), ValueIn(w, e, s))
  {
    SteadyFirst(w, top, [e], s);
    assert [e][1..] == [];
    assert EvalAll(w, top, [], s.env, s.store) == Some(([], s.store));
    if ValueIn(w, e, s).Some? {
      assert [ValueIn(w, e, s).value] + [] == [] + [ValueIn(w, e, s).value];
    }
  }

  lemma {:induction false} EvalAllSnoc(w: World, top: Expression, es: seq<Expression>, e: Expression, s: State)
    requires Inside(es, top) && e < top && Inside(es + [e], top) && !Allocates(e)
    requires forall k :: 0 <= k < |es| ==> !Allocates(es[k])
    ensures EvalAll(w, top, es + [e], s.env, s.store) == Append(EvalAll(w, top, es, s.env, s.store), ValueIn(w, e, s))
    decreases |es|
  {
    if es == [] {
      assert [] + [e] == [e];
      EvalAllOne(w, top, e, s);
    } else {
      assert (es + [e])[1..] == es[1..] + [e] && (es + [e])[0] == es[0];
      SteadyFirst(w, top, es + [e], s);
      SteadyFirst(w, top, es, s);
      EvalAllSnoc(w, top, es[1..], e, s);
      if ValueIn(w, es[0], s).Some? {
        PrependAppend(ValueIn(w, es[0], s).value, EvalAll(w, top, es[1..], s.env, s.store), ValueIn(w, e, s));
      }
    }
  }

  /** The elements below `n`. */
  function Below(elements: map<nat, Expression>, n: nat): map<nat, Expression> {
    map k | k in elements && k < n :: elements[k]
  }

  ghost predicate SteadyElements(elements: map<nat, Expression>) {
    forall k :: k in elements ==> !Allocates(elements[k])
  }

  /** Evaluating the literal's elements gives their values, each at its index. */
  ghost predicate ListMatches(w: World, top: Expression, elements: map<nat, Expression>, n: nat, s: State)
    requires Inside(Present(ElementList(elements, n)), top)
  {
    var all := EvalAll(w, top, Present(ElementList(elements, n)), s.env, s.store);
    if ElementsDefined(w, Below(elements, n), s) then
      && all.Some? && all.value.1 == s.store
      && Filled(ElementList(elements, n), all.value.0) == ElementValues(w, Below(elements, n), s)
    else all.None?
  }

  lemma {:induction false} ListEvaluates(w: World, top: Expression, elements: map<nat, Expression>, n: nat, s: State)
    requires SteadyElements(elements)
    requires Inside(Present(ElementList(elements, n)), top)
    ensures ListMatches(w, top, elements, n, s)
    decreases n, 1
  {
    if n == 0 {
      NoElements(w, top, elements, s);
    } else if n - 1 in elements {
      LongerList(w, top, elements, n, s);
    } else {
      HoleAtEnd(elements, n);
      ListEvaluates(w, top, elements, n - 1, s);
      HoleMatches(w, top, elements, n, s);
    }
  }

  lemma HoleMatches(w: World, top: Expression, elements: map<nat, Expression>, n: nat, s: State)
    requires n > 0 && n - 1 !in elements
    requires Present(ElementList(elements, n)) == Present(ElementList(elements, n - 1))
    requires Below(elements, n) == Below(elements, n - 1)
    requires Inside(Present(ElementList(elements, n - 1)), top)
    requires ListMatches(w, top, elements, n - 1, s)
    ensures ListMatches(w, top, elements, n, s)
  {
    var all := EvalAll(w, top, Present(ElementList(elements, n)), s.env, s.store);
    if all.Some? {
      HoleFilled(elements, n, all.value.0);
    }
  }

  lemma NoElements(w: World, top: Expression, elements: map<nat, Expression>, s: State)
    ensures ListMatches(w, top, elements, 0, s)
  {
    assert Below(elements, 0) == map[];
    assert ElementValues(w, Below(elements, 0), s) == map[];
  }

  lemma HoleAtEnd(elements: map<nat, Expression>, n: nat)
    requires n > 0 && n - 1 !in elements
    ensures Below(elements, n) == Below(elements, n - 1)
    ensures Present(ElementList(elements, n)) == Present(ElementList(elements, n - 1))
  {
    var list, few := ElementList(elements, n), ElementList(elements, n - 1);
    assert list[..n - 1] == few && list[n - 1] == None;
    assert Present(few) + [] == Present(few);
  }

  lemma HoleFilled(elements: map<nat, Expression>, n: nat, vs: seq<V>)
    requires n > 0 && n - 1 !in elements && |vs| == |Present(ElementList(elements, n))|
    requires Present(ElementList(elements, n)) == Present(ElementList(elements, n - 1))
    ensures Filled(ElementList(elements, n), vs) == Filled(ElementList(elements, n - 1), vs)
  {
    var list, few := ElementList(elements, n), ElementList(elements, n - 1);
    assert list[..n - 1] == few && list[n - 1] == None;
  }

  lemma {:induction false} LongerList(w: World, top: Expression, elements: map<nat, Expression>, n: nat, s: State)
    requires n > 0 && n - 1 in elements && SteadyElements(elements)
    requires Inside(Present(ElementList(elements, n)), top)
    ensures ListMatches(w, top, elements, n, s)
    decreases n, 0
  {
    var es, e := Present(ElementList(elements, n - 1)), elements[n - 1];
    LastPresent(elements, n);
    InsideSnoc(es, e, top);
    SteadyPresent(elements, n - 1);
    ListEvaluates(w, top, elements, n - 1, s);
    EvalAllSnoc(w, top, es, e, s);
    LongerMatches(w, top, elements, n, s);
  }

  lemma SteadyPresent(elements: map<nat, Expression>, n: nat)
    requires SteadyElements(elements)
    ensures forall k :: 0 <= k < |Present(ElementList(elements, n))| ==> !Allocates(Present(ElementList(elements, n))[k])
  {
    var es := Present(ElementList(elements, n));
    forall k | 0 <= k < |es|
      ensures !Allocates(es[k])
    {
      PresentFrom(elements, n, es[k]);
    }
  }

  lemma InsideSnoc(es: seq<Expression>, e: Expression, top: Expression)
    requires Inside(es + [e], top)
    ensures Inside(es, top) && e < top
  {
    forall k | 0 <= k < |es|
      ensures es[k] < top
    {
      assert (es + [e])[k] == es[k];
    }
    assert (es + [e])[|es|] == e;
  }

  lemma LastPresent(elements: map<nat, Expression>, n: nat)
    requires n > 0 && n - 1 in elements
    ensures Present(ElementList(elements, n)) == Present(ElementList(elements, n - 1)) + [elements[n - 1]]
  {
    var list := ElementList(elements, n);
    assert list[..n - 1] == ElementList(elements, n - 1) && list[n - 1] == Some(elements[n - 1]);
  }

  lemma LastFilled(elements: map<nat, Expression>, n: nat, vs: seq<V>, v: V)
    requires n > 0 && n - 1 in elements && |vs| == |Present(ElementList(elements, n - 1))|
    requires |vs + [v]| == |Present(ElementList(elements, n))|
    ensures Filled(ElementList(elements, n), vs + [v]) == Filled(ElementList(elements, n - 1), vs)[n - 1 := v]
  {
    var list := ElementList(elements, n);
    assert list[..n - 1] == ElementList(elements, n - 1) && list[n - 1] == Some(elements[n - 1]);
    assert (vs + [v])[..|vs|] == vs;
  }

  lemma LongerMatches(w: World, top: Expression, elements: map<nat, Expression>, n: nat, s: State)
    requires n > 0 && n - 1 in elements
    requires Inside(Present(ElementList(elements, n)), top) && Inside(Present(ElementList(elements, n - 1)), top)
    requires ListMatches(w, top, elements, n - 1, s)
    requires Present(ElementList(elements, n)) == Present(ElementList(elements, n - 1)) + [elements[n - 1]]
    requires EvalAll(w, top, Present(ElementList(elements, n)), s.env, s.store)
          == Append(EvalAll(w, top, Present(ElementList(elements, n - 1)), s.env, s.store), ValueIn(w, elements[n - 1], s))
    ensures ListMatches(w, top, elements, n, s)
  {
    LastElementDefined(w, elements, n, s);
    if ElementsDefined(w, Below(elements, n), s) {
      var all, v := EvalAll(w, top, Present(ElementList(elements, n - 1)), s.env, s.store), ValueIn(w, elements[n - 1], s).value;
      LastFilled(elements, n, all.value.0, v);
      LastValue(w, elements, n, s);
    }
  }

  lemma LastValue(w: World, elements: map<nat, Expression>, n: nat, s: State)
    requires n > 0 && n - 1 in elements
    requires ElementsDefined(w, Below(elements, n), s) && ElementsDefined(w, Below(elements, n - 1), s)
    requires ValueIn(w, elements[n - 1], s).Some?
    ensures ElementValues(w, Below(elements, n), s)
         == ElementValues(w, Below(elements, n - 1), s)[n - 1 := ValueIn(w, elements[n - 1], s).value]
  {
  }

  lemma LastElementDefined(w: World, elements: map<nat, Expression>, n: nat, s: State)
    requires n > 0 && n - 1 in elements
    ensures ElementsDefined(w, Below(elements, n), s) <==>
            (ElementsDefined(w, Below(elements, n - 1), s) && ValueIn(w, elements[n - 1], s).Some?)
  {
    var big, small := Below(elements, n), Below(elements, n - 1);
    assert n - 1 in big && big[n - 1] == elements[n - 1];
    forall k | k in small
      ensures k in big && big[k] == small[k]
    {
    }
    forall k | k in big && k != n - 1
      ensures k in small && small[k] == big[k]
    {
    }
  }

  lemma {:induction false} ListAt(elements: map<nat, Expression>, n: nat, k: nat)
    requires k < n
    ensures ElementList(elements, n)[k] == ElementAt(elements, k)
    decreases n
  {
    if k < n - 1 {
      ListAt(elements, n - 1, k);
    }
  }

  lemma PresentFrom(elements: map<nat, Expression>, n: nat, p: Expression)
    requires p in Present(ElementList(elements, n))
    ensures exists k :: k in elements && elements[k] == p
  {
    var k :| 0 <= k < n && ElementList(elements, n)[k] == Some(p);
    ListAt(elements, n, k);
    assert k in elements && elements[k] == p;
  }
}
