/** An array literal whose elements make objects: they are worked out in index order, each in the store
    the ones before it leave. */
module LiteralMaking {
  import opened Options
  import opened Ir
  import opened Machine
  import opened MachineFrames
  import opened ArrayLiterals
  import opened ArrayMeaning
  import opened ArrayFolding
  import opened Renaming
  import opened RunRenaming

  /** The values of the elements below `n`, and the store once they are made. */
  ghost function Making(w: World, es: map<nat, Expression>, n: nat, s: State): Option<(map<nat, V>, Store)> {
    if n == 0 then Some((map[], s.store))
    else
      var (m, st) :- Making(w, es, n - 1, s);
      if n - 1 in es then
        var (v, st1) :- Eval(w, es[n - 1], s.env, st);
        Some((m[n - 1 := v], st1))
      else Some((m, st))
  }

  // ---------- The literal's own evaluation

  /** One more expression behind the others. */
  ghost function ThenLast(w: World, all: Option<(seq<V>, Store)>, e: Expression, env: Env): Option<(seq<V>, Store)> {
    var (vs, st) :- all;
    var (v, st1) :- Eval(w, e, env, st);
    Some((vs + [v], st1))
  }

  lemma PrependLast(w: World, first: V, all: Option<(seq<V>, Store)>, e: Expression, env: Env)
    ensures Prepend(first, ThenLast(w, all, e, env)) == ThenLast(w, Prepend(first, all), e, env)
  {
    if all.Some? && Eval(w, e, env, all.value.1).Some? {
      assert [first] + (all.value.0 + [Eval(w, e, env, all.value.1).value.0]) == [first] + all.value.0 + [Eval(w, e, env, all.value.1).value.0];
    }
  }

  lemma OneMade(w: World, top: Expression, e: Expression, env: Env, st: Store)
    requires e < top
    ensures EvalAll(w, top, [e], env, st) == ThenLast(w, Some(([], st)), e, env)
  {
    assert [e][1..] == [];
    var x := Eval(w, e, env, st);
    if x.Some? {
      assert EvalAll(w, top, [], env, x.value.1) == Some(([], x.value.1));
      assert [x.value.0] + [] == [] + [x.value.0];
    }
  }

  lemma {:induction false} EvalAllLast(w: World, top: Expression, es: seq<Expression>, e: Expression, env: Env, st: Store)
    requires Inside(es, top) && e < top && Inside(es + [e], top)
    ensures EvalAll(w, top, es + [e], env, st) == ThenLast(w, EvalAll(w, top, es, env, st), e, env)
    decreases |es|
  {
    if es == [] {
      assert [] + [e] == [e];
      OneMade(w, top, e, env, st);
    } else {
      assert (es + [e])[1..] == es[1..] + [e] && (es + [e])[0] == es[0];
      var x := Eval(w, es[0], env, st);
      if x.Some? {
        EvalAllPrepends(w, top, es + [e], env, st);
        EvalAllPrepends(w, top, es, env, st);
        EvalAllLast(w, top, es[1..], e, env, x.value.1);
        PrependLast(w, x.value.0, EvalAll(w, top, es[1..], env, x.value.1), e, env);
      }
    }
  }

  /** Evaluating the literal's elements is making them. */
  ghost predicate ListMakes(w: World, top: Expression, es: map<nat, Expression>, n: nat, s: State)
    requires Inside(Present(ElementList(es, n)), top)
  {
    var all, made := EvalAll(w, top, Present(ElementList(es, n)), s.env, s.store), Making(w, es, n, s);
    if made.None? then all.None?
    else all.Some? && all.value.1 == made.value.1 && Filled(ElementList(es, n), all.value.0) == made.value.0
  }

  lemma {:induction false} ListIsMade(w: World, top: Expression, es: map<nat, Expression>, n: nat, s: State)
    requires Inside(Present(ElementList(es, n)), top)
    ensures ListMakes(w, top, es, n, s)
    decreases n
  {
    if n == 0 {
    } else if n - 1 in es {
      var few, e := Present(ElementList(es, n - 1)), es[n - 1];
      LastPresent(es, n);
      InsideSnoc(few, e, top);
      ListIsMade(w, top, es, n - 1, s);
      EvalAllLast(w, top, few, e, s.env, s.store);
      LongerMakes(w, top, es, n, s);
    } else {
      HoleAtEnd(es, n);
      ListIsMade(w, top, es, n - 1, s);
      HoleMakes(w, top, es, n, s);
    }
  }

  lemma HoleMakes(w: World, top: Expression, es: map<nat, Expression>, n: nat, s: State)
    requires n > 0 && n - 1 !in es
    requires Present(ElementList(es, n)) == Present(ElementList(es, n - 1))
    requires Inside(Present(ElementList(es, n - 1)), top) && ListMakes(w, top, es, n - 1, s)
    ensures ListMakes(w, top, es, n, s)
  {
    var all := EvalAll(w, top, Present(ElementList(es, n)), s.env, s.store);
    if all.Some? {
      HoleFilled(es, n, all.value.0);
    }
  }

  lemma LongerMakes(w: World, top: Expression, es: map<nat, Expression>, n: nat, s: State)
    requires n > 0 && n - 1 in es
    requires Inside(Present(ElementList(es, n)), top) && Inside(Present(ElementList(es, n - 1)), top)
    requires ListMakes(w, top, es, n - 1, s)
    requires Present(ElementList(es, n)) == Present(ElementList(es, n - 1)) + [es[n - 1]]
    requires EvalAll(w, top, Present(ElementList(es, n)), s.env, s.store)
          == ThenLast(w, EvalAll(w, top, Present(ElementList(es, n - 1)), s.env, s.store), es[n - 1], s.env)
    ensures ListMakes(w, top, es, n, s)
  {
    var all := EvalAll(w, top, Present(ElementList(es, n - 1)), s.env, s.store);
    if Making(w, es, n, s).Some? {
      LastFilled(es, n, all.value.0, Eval(w, es[n - 1], s.env, all.value.1).value.0);
    }
  }

  /** The state once the literal is made: the array comes last. */
  function WithMade(s: State, r: nat, n: nat, m: map<nat, V>, st: Store): State {
    WithNew(State(s.env, st), r, LiteralObj(n, m))
  }

  lemma LiteralIsTransparent(win: seq<Statement>, r: nat)
    requires MovableWindow(win, r)
    ensures Transparent(Literal(win, r).value)
  {
    var es := Elements(win, r);
    forall k | k in es
      ensures Transparent(es[k])
    {
      ElementMovable(win, r, k);
    }
    TransparentList(es, LiteralLen(win, r));
  }

  /** The literal makes its elements and then the array, or raises when one of them does. */
  lemma ExecMaking(w: World, win: seq<Statement>, r: nat, s: State)
    requires MovableWindow(win, r)
    ensures var n, made := LiteralLen(win, r), Making(w, Elements(win, r), LiteralLen(win, r), s);
            Exec(w, Literal(win, r), s) == if made.None? then Raised(s) else Running(WithMade(s, r, n, made.value.0, made.value.1))
  {
    var es, n := Elements(win, r), LiteralLen(win, r);
    var e := ArrayLit(ElementList(es, n));
    LiteralIsTransparent(win, r);
    PartsSmaller(e);
    assert Parts(e) == Present(ElementList(es, n));
    ListIsMade(w, e, es, n, s);
    ExecAssign(w, r, e, s);
  }

  // ---------- Worked out elsewhere

  /** For the expression, nothing it looks at is other than in `s`. */
  ghost predicate AsIn(e: Expression, s: State, env: Env, st: Store) {
    && (forall v :: Mentions(e, v) ==> Lookup(env, v) == Lookup(s.env, v))
    && (ReadsHeap(e) ==> Extends(s.store.heap, st.heap))
    && s.store.next <= st.next && Bounded(st)
  }

  function Old(s: State): Ren {
    Identity(s.store.heap.Keys)
  }

  /** Wherever it is worked out, it raises or does not, and what it yields corresponds. */
  lemma WorkedOutAlike(w: World, e: Expression, s: State, env: Env, st: Store, env': Env, st': Store) returns (h: Ren)
    requires Blind(w) && Closed(s.env, s.store) && AsIn(e, s, env, st) && AsIn(e, s, env', st')
    ensures SameResult(Old(s), st, st', h, Eval(w, e, env, st), Eval(w, e, env', st'))
  {
    var olds := Old(s);
    ClosedIsSame(s);
    if ReadsHeap(e) {
      forall id | id in olds.Keys
        ensures id in st.heap && olds[id] in st'.heap && SameObj(olds, st.heap[id], st'.heap[olds[id]])
      {
        assert SameObj(olds, s.store.heap[id], s.store.heap[olds[id]]);
      }
    }
    forall v | Mentions(e, v)
      ensures Same(olds, Lookup(env, v), Lookup(env', v))
    {
      assert Same(olds, Lookup(s.env, v), Lookup(s.env, v));
    }
    h := EvalSame(w, olds, e, env, st, env', st');
  }

  lemma AsInItself(e: Expression, s: State)
    requires Closed(s.env, s.store)
    ensures AsIn(e, s, s.env, s.store)
  {
  }

  lemma AsInLater(e: Expression, s: State, st: Store)
    requires Grown(s.env, s.store, st) && s.store.next <= st.next
    ensures AsIn(e, s, s.env, st)
  {
  }

  lemma {:induction false} MakingGrows(w: World, es: map<nat, Expression>, n: nat, s: State)
    requires Closed(s.env, s.store) && Making(w, es, n, s).Some?
    ensures var (m, st) := Making(w, es, n, s).value;
            && Grown(s.env, s.store, st) && s.store.next <= st.next
            && (forall k :: k in m <==> k in es && k < n)
            && (forall k :: k in m ==> InHeap(m[k], st.heap))
  {
    if n > 0 {
      MakingGrows(w, es, n - 1, s);
      var (m, st) := Making(w, es, n - 1, s).value;
      if n - 1 in es {
        EvalClosed(w, es[n - 1], s.env, st);
        NextRises(w, es[n - 1], s.env, st);
      }
    }
  }

  lemma {:induction false} NextRises(w: World, e: Expression, env: Env, st: Store)
    requires Closed(env, st)
    ensures var x := Eval(w, e, env, st); x.Some? ==> st.next <= x.value.1.next
    decreases e, 1, 0
  {
    PartsSmaller(e);
    if IsForeign(e) {
    } else if e.Conditional? {
      var c := Eval(w, e.condition, env, st);
      NextRises(w, e.condition, env, st);
      if c.Some? {
        EvalClosed(w, e.condition, env, st);
        NextRises(w, e.thenExpr, env, c.value.1);
        NextRises(w, e.elseExpr, env, c.value.1);
      }
    } else {
      NextRisesAll(w, e, Parts(e), env, st);
    }
  }

  lemma {:induction false} NextRisesAll(w: World, top: Expression, es: seq<Expression>, env: Env, st: Store)
    requires Closed(env, st) && Inside(es, top)
    ensures var x := EvalAll(w, top, es, env, st); x.Some? ==> st.next <= x.value.1.next
    decreases top, 0, |es|
  {
    if es != [] {
      var x := Eval(w, es[0], env, st);
      NextRises(w, es[0], env, st);
      EvalClosed(w, es[0], env, st);
      if x.Some? {
        NextRisesAll(w, top, es[1..], env, x.value.1);
      }
    }
  }

  lemma MakingStep(w: World, es: map<nat, Expression>, k: nat, s: State)
    requires k in es && Making(w, es, k + 1, s).Some?
    ensures Making(w, es, k, s).Some?
    ensures var (m, st) := Making(w, es, k + 1, s).value;
            k in m && Eval(w, es[k], s.env, Making(w, es, k, s).value.1) == Some((m[k], st))
  {
    var n := k + 1;
    var before := Making(w, es, n - 1, s);
    var x := Eval(w, es[n - 1], s.env, before.value.1);
    assert Making(w, es, n, s) == Some((before.value.0[n - 1 := x.value.0], x.value.1));
  }

  /** An earlier stage of making the same elements. */
  lemma {:induction false} MakingStages(w: World, es: map<nat, Expression>, k: nat, n: nat, s: State)
    requires Closed(s.env, s.store) && k <= n && Making(w, es, n, s).Some?
    ensures Making(w, es, k, s).Some?
    ensures var (m, st), (m', st') := Making(w, es, k, s).value, Making(w, es, n, s).value;
            Extends(st.heap, st'.heap) && st.next <= st'.next && forall j :: j in m ==> j in m' && m'[j] == m[j]
    decreases n
  {
    if k < n {
      MakingStages(w, es, k, n - 1, s);
      MakingGrows(w, es, k, s);
      MakingGrows(w, es, n - 1, s);
      if n - 1 in es {
        var st := Making(w, es, n - 1, s).value.1;
        EvalClosed(w, es[n - 1], s.env, st);
        NextRises(w, es[n - 1], s.env, st);
      }
    }
  }

  /** The literal raises exactly when one of its elements does. */
  lemma {:induction false} MakingDefined(w: World, es: map<nat, Expression>, n: nat, s: State)
    requires Blind(w) && Closed(s.env, s.store)
    ensures Making(w, es, n, s).Some? <==> forall k :: k in es && k < n ==> Eval(w, es[k], s.env, s.store).Some?
  {
    if n > 0 {
      MakingDefined(w, es, n - 1, s);
      if Making(w, es, n - 1, s).Some? && n - 1 in es {
        var e, st := es[n - 1], Making(w, es, n - 1, s).value.1;
        MakingGrows(w, es, n - 1, s);
        AsInLater(e, s, st);
        AsInItself(e, s);
        var h := WorkedOutAlike(w, e, s, s.env, s.store, s.env, st);
      }
    }
  }
}
