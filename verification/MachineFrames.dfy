/** What evaluating an expression leaves alone, and what its value does not depend on.

    Three facts are proved by induction on expressions. Evaluation only adds objects, and no reference
    it yields dangles. An expression that does not mention the one location that refers to an object
    neither sees nor touches that object: it does the same in two stores that differ there only. An
    expression that makes no object depends on the locations it mentions, and on the heap only if it
    reads members. */
module MachineFrames {
  import opened Options
  import opened Ir
  import opened Machine

  // ---------- References stay inside the heap

  ghost predicate InHeap(v: V, heap: map<nat, Obj>) {
    v.Ref? ==> v.id in heap
  }

  ghost predicate AllInHeap(vs: seq<V>, heap: map<nat, Obj>) {
    forall v :: v in vs ==> InHeap(v, heap)
  }

  ghost predicate ObjClosed(o: Obj, heap: map<nat, Obj>) {
    && (forall k :: k in o.slots ==> InHeap(o.slots[k], heap))
    && (forall s :: s in o.props ==> InHeap(o.props[s], heap))
  }

  ghost predicate HeapClosed(st: Store) {
    forall id :: id in st.heap ==> id < st.next && ObjClosed(st.heap[id], st.heap)
  }

  ghost predicate EnvClosed(env: Env, heap: map<nat, Obj>) {
    forall v :: v in env ==> InHeap(env[v], heap)
  }

  /** No reference dangles and identities are used up in order. */
  ghost predicate Closed(env: Env, st: Store) {
    EnvClosed(env, st.heap) && HeapClosed(st)
  }

  /** Every object is still there, unchanged. */
  ghost predicate Extends(h: map<nat, Obj>, h': map<nat, Obj>) {
    forall id :: id in h ==> id in h' && h'[id] == h[id]
  }

  ghost predicate Grown(env: Env, st: Store, st1: Store) {
    Extends(st.heap, st1.heap) && Closed(env, st1)
  }

  ghost predicate GrownBy(r: Option<(V, Store)>, env: Env, st: Store) {
    r.Some? ==> Grown(env, st, r.value.1) && InHeap(r.value.0, r.value.1.heap)
  }

  ghost predicate GrownByAll(r: Option<(seq<V>, Store)>, env: Env, st: Store) {
    r.Some? ==> Grown(env, st, r.value.1) && AllInHeap(r.value.0, r.value.1.heap)
  }

  lemma StaysInHeap(vs: seq<V>, h: map<nat, Obj>, h': map<nat, Obj>)
    requires AllInHeap(vs, h) && Extends(h, h')
    ensures AllInHeap(vs, h')
  {
  }

  lemma {:induction false} FilledFrom(elements: seq<Option<Expression>>, vs: seq<V>)
    requires |vs| == |Present(elements)|
    ensures forall k :: k in Filled(elements, vs) ==> Filled(elements, vs)[k] in vs
  {
    if elements != [] {
      var n := |elements| - 1;
      if elements[n].Some? {
        FilledFrom(elements[..n], vs[..|vs| - 1]);
      } else {
        FilledFrom(elements[..n], vs);
      }
    }
  }

  /** The values an object holds are all constants or come from `vs`. */
  ghost predicate HoldsOnly(o: Obj, vs: seq<V>) {
    && (forall k :: k in o.slots ==> o.slots[k].Prim? || o.slots[k] in vs)
    && (forall s :: s in o.props ==> o.props[s].Prim? || o.props[s] in vs)
  }

  lemma {:induction false} WithPropsFrom(w: World, props: seq<ObjectProperty>, vs: seq<V>)
    requires |vs| == |PropParts(props)|
    ensures HoldsOnly(WithProps(w, props, vs), vs)
  {
    if props != [] {
      var n, last := |props| - 1, props[|props| - 1];
      var m := |vs| - 1 - |KeyParts(last.key)|;
      var few, v := vs[..m], vs[|vs| - 1];
      WithPropsFrom(w, props[..n], few);
      SetFrom(WithProps(w, props[..n], few), PropertyKeyOf(w, last.key, vs[m..|vs| - 1]), v, few, vs);
    }
  }

  lemma SetFrom(o: Obj, key: Key, v: V, few: seq<V>, vs: seq<V>)
    requires HoldsOnly(o, few) && v in vs && forall x :: x in few ==> x in vs
    ensures HoldsOnly(Set(o, key, v), vs)
  {
  }

  /** The object an expression makes, if it makes one itself. */
  ghost function Made(w: World, e: Expression, vs: seq<V>): Option<Obj>
    requires |vs| == |Parts(e)|
  {
    match e
    case ArrayLit(elements) => Some(Obj(ArrayKind, |elements|, Filled(elements, vs), map[]))
    case ObjectLit(props) => Some(WithProps(w, props, vs))
    case Function(id) => Some(Obj(Closure(id), 0, map[], map[]))
    case RegExp(p, f) => Some(Obj(Pattern(p, f), 0, map[], map[]))
    case _ => None
  }

  lemma MadeFrom(w: World, e: Expression, vs: seq<V>)
    requires |vs| == |Parts(e)|
    ensures Made(w, e, vs).Some? ==> HoldsOnly(Made(w, e, vs).value, vs) && Combine(w, e, vs, map[], Store(map[], 0)).Some?
    ensures Made(w, e, vs).Some? ==> forall env: Env, st: Store {:trigger Combine(w, e, vs, env, st)} ::
                                       Combine(w, e, vs, env, st) == Some(Alloc(st, Made(w, e, vs).value))
  {
    match e
    case ArrayLit(elements) => FilledFrom(elements, vs);
    case ObjectLit(props) => WithPropsFrom(w, props, vs);
    case _ =>
  }

  lemma AllocClosed(env: Env, st: Store, o: Obj, vs: seq<V>)
    requires Closed(env, st) && AllInHeap(vs, st.heap) && HoldsOnly(o, vs)
    ensures GrownBy(Some(Alloc(st, o)), env, st)
  {
    var st1 := Alloc(st, o).1;
    assert ObjClosed(o, st1.heap);
    forall id | id in st1.heap
      ensures id < st1.next && ObjClosed(st1.heap[id], st1.heap)
    {
      if id != st.next {
        assert ObjClosed(st.heap[id], st.heap);
      }
    }
  }

  lemma GetClosed(o: Obj, key: Key, heap: map<nat, Obj>)
    requires ObjClosed(o, heap)
    ensures InHeap(Get(o, key), heap)
  {
  }

  lemma CombineClosed(w: World, e: Expression, vs: seq<V>, env: Env, st: Store)
    requires |vs| == |Parts(e)| && Closed(env, st) && AllInHeap(vs, st.heap)
    ensures GrownBy(Combine(w, e, vs, env, st), env, st)
  {
    MadeFrom(w, e, vs);
    if Made(w, e, vs).Some? {
      AllocClosed(env, st, Made(w, e, vs).value, vs);
    } else if e.Member? {
      if vs[0].Ref? && vs[0].id in st.heap {
        GetClosed(st.heap[vs[0].id], PropertyKeyOf(w, e.property, vs[1..]), st.heap);
      }
    }
  }

  /** Evaluation only adds objects, and yields a constant or an object of the heap. */
  lemma {:induction false} EvalClosed(w: World, e: Expression, env: Env, st: Store)
    requires Closed(env, st)
    ensures GrownBy(Eval(w, e, env, st), env, st)
    decreases e, 1, 0
  {
    PartsSmaller(e);
    if IsForeign(e) {
    } else if e.Conditional? {
      var c := Eval(w, e.condition, env, st);
      EvalClosed(w, e.condition, env, st);
      if c.Some? {
        EvalClosed(w, e.thenExpr, env, c.value.1);
        EvalClosed(w, e.elseExpr, env, c.value.1);
      }
    } else {
      var all := EvalAll(w, e, Parts(e), env, st);
      EvalAllClosed(w, e, Parts(e), env, st);
      if all.Some? {
        CombineClosed(w, e, all.value.0, env, all.value.1);
      }
    }
  }

  lemma {:induction false} EvalAllClosed(w: World, top: Expression, es: seq<Expression>, env: Env, st: Store)
    requires Closed(env, st) && forall k :: 0 <= k < |es| ==> es[k] < top
    ensures GrownByAll(EvalAll(w, top, es, env, st), env, st)
    decreases top, 0, |es|
  {
    if es != [] {
      var first := Eval(w, es[0], env, st);
      EvalClosed(w, es[0], env, st);
      if first.Some? {
        var rest := EvalAll(w, top, es[1..], env, first.value.1);
        EvalAllClosed(w, top, es[1..], env, first.value.1);
        if rest.Some? {
          StaysInHeap([first.value.0], first.value.1.heap, rest.value.1.heap);
        }
      }
    }
  }

  // ---------- An object nothing else refers to

  ghost predicate ObjFree(o: Obj, a: nat) {
    (forall k :: k in o.slots ==> o.slots[k] != Ref(a)) && (forall s :: s in o.props ==> o.props[s] != Ref(a))
  }

  /** Only the location `r` refers to the object `a`. */
  ghost predicate Sealed(env: Env, heap: map<nat, Obj>, a: nat, r: Value) {
    && (forall v :: v in env && v != r ==> env[v] != Ref(a))
    && (forall id :: id in heap && id != a ==> ObjFree(heap[id], a))
  }

  /** Two stores that differ at most in the object `a`. */
  ghost predicate SameBut(s: Store, t: Store, a: nat) {
    && s.next == t.next && a < s.next && a in s.heap && s.heap.Keys == t.heap.Keys
    && forall id :: id in s.heap && id != a ==> s.heap[id] == t.heap[id]
  }

  /** The same, and `a` is as it was in `s0` and `t0`. */
  ghost predicate ApartStores(env: Env, s0: Store, t0: Store, s: Store, t: Store, a: nat, r: Value) {
    && SameBut(s, t, a) && Sealed(env, s.heap, a, r)
    && a in s0.heap && a in t0.heap && s.heap[a] == s0.heap[a] && t.heap[a] == t0.heap[a]
  }

  ghost predicate Apart(x: Option<(V, Store)>, y: Option<(V, Store)>, env: Env, s: Store, t: Store, a: nat, r: Value) {
    if x.None? then y.None?
    else
      && y.Some? && x.value.0 == y.value.0 && x.value.0 != Ref(a)
      && ApartStores(env, s, t, x.value.1, y.value.1, a, r)
  }

  ghost predicate ApartAll(x: Option<(seq<V>, Store)>, y: Option<(seq<V>, Store)>, env: Env, s: Store, t: Store, a: nat, r: Value) {
    if x.None? then y.None?
    else
      && y.Some? && x.value.0 == y.value.0 && Ref(a) !in x.value.0
      && ApartStores(env, s, t, x.value.1, y.value.1, a, r)
  }

  lemma AllocApart(env: Env, s: Store, t: Store, o: Obj, vs: seq<V>, a: nat, r: Value)
    requires ApartStores(env, s, t, s, t, a, r) && Ref(a) !in vs && HoldsOnly(o, vs)
    ensures Apart(Some(Alloc(s, o)), Some(Alloc(t, o)), env, s, t, a, r)
  {
    assert ObjFree(o, a);
  }

  lemma CombineApart(w: World, e: Expression, vs: seq<V>, env: Env, s: Store, t: Store, a: nat, r: Value)
    requires |vs| == |Parts(e)| && Ref(a) !in vs && e != Val(r)
    requires ApartStores(env, s, t, s, t, a, r)
    ensures Apart(Combine(w, e, vs, env, s), Combine(w, e, vs, env, t), env, s, t, a, r)
  {
    MadeFrom(w, e, vs);
    if Made(w, e, vs).Some? {
      AllocApart(env, s, t, Made(w, e, vs).value, vs, a, r);
    } else if e.Member? {
      if vs[0].Ref? && vs[0].id in s.heap {
        GetFree(s.heap[vs[0].id], PropertyKeyOf(w, e.property, vs[1..]), a);
      }
    }
  }

  lemma GetFree(o: Obj, key: Key, a: nat)
    requires ObjFree(o, a)
    ensures Get(o, key) != Ref(a)
  {
  }

  /** An expression that does not mention `r` neither sees nor touches the object only `r` refers to. */
  lemma {:induction false} EvalApart(w: World, e: Expression, env: Env, s: Store, t: Store, a: nat, r: Value)
    requires !Mentions(e, r) && ApartStores(env, s, t, s, t, a, r)
    ensures Apart(Eval(w, e, env, s), Eval(w, e, env, t), env, s, t, a, r)
    decreases e, 1, 0
  {
    PartsSmaller(e);
    if IsForeign(e) {
    } else if e.Conditional? {
      var x, y := Eval(w, e.condition, env, s), Eval(w, e.condition, env, t);
      assert e.condition in Parts(e) && e.thenExpr in Parts(e) && e.elseExpr in Parts(e);
      EvalApart(w, e.condition, env, s, t, a, r);
      if x.Some? {
        var s1, t1 := x.value.1, y.value.1;
        ApartAgain(env, s, t, s1, t1, a, r);
        var branch := if IsTruthy(w, x.value.0) then e.thenExpr else e.elseExpr;
        EvalApart(w, branch, env, s1, t1, a, r);
        ApartThen(Eval(w, branch, env, s1), Eval(w, branch, env, t1), env, s, t, s1, t1, a, r);
      }
    } else {
      var x, y := EvalAll(w, e, Parts(e), env, s), EvalAll(w, e, Parts(e), env, t);
      EvalAllApart(w, e, Parts(e), env, s, t, a, r);
      if x.Some? {
        var s1, t1 := x.value.1, y.value.1;
        ApartAgain(env, s, t, s1, t1, a, r);
        CombineApart(w, e, x.value.0, env, s1, t1, a, r);
        ApartThen(Combine(w, e, x.value.0, env, s1), Combine(w, e, x.value.0, env, t1), env, s, t, s1, t1, a, r);
      }
    }
  }

  lemma ApartThen(x: Option<(V, Store)>, y: Option<(V, Store)>,
                  env: Env, s: Store, t: Store, s1: Store, t1: Store, a: nat, r: Value)
    requires ApartStores(env, s, t, s1, t1, a, r) && Apart(x, y, env, s1, t1, a, r)
    ensures Apart(x, y, env, s, t, a, r)
  {
  }

  /** The first value put before the others. */
  ghost function Prepend(first: V, rest: Option<(seq<V>, Store)>): Option<(seq<V>, Store)> {
    if rest.None? then None else Some(([first] + rest.value.0, rest.value.1))
  }

  lemma PrependApart(v: V, x: Option<(seq<V>, Store)>, y: Option<(seq<V>, Store)>,
                     env: Env, s: Store, t: Store, s1: Store, t1: Store, a: nat, r: Value)
    requires v != Ref(a) && ApartStores(env, s, t, s1, t1, a, r) && ApartAll(x, y, env, s1, t1, a, r)
    ensures ApartAll(Prepend(v, x), Prepend(v, y), env, s, t, a, r)
  {
  }

  lemma ApartAgain(env: Env, s: Store, t: Store, s1: Store, t1: Store, a: nat, r: Value)
    requires ApartStores(env, s, t, s1, t1, a, r)
    ensures ApartStores(env, s1, t1, s1, t1, a, r)
  {
  }

  lemma {:induction false} EvalAllApart(w: World, top: Expression, es: seq<Expression>, env: Env, s: Store, t: Store, a: nat, r: Value)
    requires forall k :: 0 <= k < |es| ==> es[k] < top && !Mentions(es[k], r)
    requires ApartStores(env, s, t, s, t, a, r)
    ensures ApartAll(EvalAll(w, top, es, env, s), EvalAll(w, top, es, env, t), env, s, t, a, r)
    decreases top, 0, |es|
  {
    if es != [] {
      var x, y := Eval(w, es[0], env, s), Eval(w, es[0], env, t);
      EvalApart(w, es[0], env, s, t, a, r);
      if x.Some? {
        var s1, t1 := x.value.1, y.value.1;
        ApartAgain(env, s, t, s1, t1, a, r);
        EvalAllApart(w, top, es[1..], env, s1, t1, a, r);
        var xs, ys := EvalAll(w, top, es[1..], env, s1), EvalAll(w, top, es[1..], env, t1);
        PrependApart(x.value.0, xs, ys, env, s, t, s1, t1, a, r);
        EvalAllPrepends(w, top, es, env, s);
        EvalAllPrepends(w, top, es, env, t);
      }
    }
  }

  lemma EvalAllPrepends(w: World, top: Expression, es: seq<Expression>, env: Env, st: Store)
    requires es != [] && (forall k :: 0 <= k < |es| ==> es[k] < top) && Eval(w, es[0], env, st).Some?
    ensures var (v, st1) := Eval(w, es[0], env, st).value;
            EvalAll(w, top, es, env, st) == Prepend(v, EvalAll(w, top, es[1..], env, st1))
  {
  }

  // ---------- Values that stay the same

  ghost function ValueOf(w: World, e: Expression, env: Env, st: Store): Option<V> {
    var r := Eval(w, e, env, st);
    if r.Some? then Some(r.value.0) else None
  }

  /** An expression that makes nothing leaves the store as it is. */
  lemma {:induction false} SteadyStore(w: World, e: Expression, env: Env, st: Store)
    requires !Allocates(e)
    ensures Eval(w, e, env, st).Some? ==> Eval(w, e, env, st).value.1 == st
    decreases e, 1, 0
  {
    PartsSmaller(e);
    if IsForeign(e) {
    } else if e.Conditional? {
      assert e.condition in Parts(e) && e.thenExpr in Parts(e) && e.elseExpr in Parts(e);
      SteadyStore(w, e.condition, env, st);
      SteadyStore(w, e.thenExpr, env, st);
      SteadyStore(w, e.elseExpr, env, st);
    } else {
      SteadyStoreAll(w, e, Parts(e), env, st);
    }
  }

  lemma {:induction false} SteadyStoreAll(w: World, top: Expression, es: seq<Expression>, env: Env, st: Store)
    requires forall k :: 0 <= k < |es| ==> es[k] < top && !Allocates(es[k])
    ensures EvalAll(w, top, es, env, st).Some? ==> EvalAll(w, top, es, env, st).value.1 == st
    decreases top, 0, |es|
  {
    if es != [] {
      SteadyStore(w, es[0], env, st);
      SteadyStoreAll(w, top, es[1..], env, st);
    }
  }

  /** Only reading a member of nothing raises. */
  lemma {:induction false} EvalTotal(w: World, e: Expression, env: Env, st: Store)
    requires Transparent(e) && !ReadsHeap(e)
    ensures Eval(w, e, env, st).Some?
    decreases e, 1, 0
  {
    PartsSmaller(e);
    if e.Conditional? {
      assert e.condition in Parts(e) && e.thenExpr in Parts(e) && e.elseExpr in Parts(e);
      EvalTotal(w, e.condition, env, st);
      var st1 := Eval(w, e.condition, env, st).value.1;
      EvalTotal(w, e.thenExpr, env, st1);
      EvalTotal(w, e.elseExpr, env, st1);
    } else {
      EvalAllTotal(w, e, Parts(e), env, st);
    }
  }

  lemma {:induction false} EvalAllTotal(w: World, top: Expression, es: seq<Expression>, env: Env, st: Store)
    requires forall k :: 0 <= k < |es| ==> es[k] < top && Transparent(es[k]) && !ReadsHeap(es[k])
    ensures EvalAll(w, top, es, env, st).Some?
    decreases top, 0, |es|
  {
    if es != [] {
      EvalTotal(w, es[0], env, st);
      EvalAllTotal(w, top, es[1..], env, Eval(w, es[0], env, st).value.1);
    }
  }

  /** Everything the expression looks at is alike in both states. */
  ghost predicate LooksAlike(e: Expression, env: Env, st: Store, env': Env, st': Store) {
    && (forall v :: Mentions(e, v) ==> Lookup(env, v) == Lookup(env', v))
    && (ReadsHeap(e) ==> Closed(env, st) && Extends(st.heap, st'.heap))
  }

  lemma PartLooksAlike(e: Expression, p: Expression, env: Env, st: Store, env': Env, st': Store)
    requires p in Parts(e) && LooksAlike(e, env, st, env', st')
    ensures LooksAlike(p, env, st, env', st')
  {
  }

  lemma SelfMentioned(v: Value)
    ensures Mentions(Val(v), v)
  {
  }

  lemma CombineAlike(w: World, e: Expression, vs: seq<V>, env: Env, st: Store, env': Env, st': Store)
    requires |vs| == |Parts(e)| && !Allocates(e) && LooksAlike(e, env, st, env', st')
    requires ReadsHeap(e) ==> AllInHeap(vs, st.heap)
    ensures var x, y := Combine(w, e, vs, env, st), Combine(w, e, vs, env', st');
            if x.None? then y.None? else y.Some? && x.value.0 == y.value.0
  {
    if e.Val? {
      SelfMentioned(e.v);
    } else if e.Member? {
      assert ReadsHeap(e) && vs[0] in vs;
    }
  }

  /** The value of an expression that makes nothing depends on the locations it mentions, and on
      the heap only if it reads members. */
  lemma {:induction false} SteadySame(w: World, e: Expression, env: Env, st: Store, env': Env, st': Store)
    requires !Allocates(e) && LooksAlike(e, env, st, env', st')
    ensures ValueOf(w, e, env, st) == ValueOf(w, e, env', st')
    decreases e, 1, 0
  {
    PartsSmaller(e);
    if IsForeign(e) {
    } else if e.Conditional? {
      assert e.condition in Parts(e) && e.thenExpr in Parts(e) && e.elseExpr in Parts(e);
      PartLooksAlike(e, e.condition, env, st, env', st');
      PartLooksAlike(e, e.thenExpr, env, st, env', st');
      PartLooksAlike(e, e.elseExpr, env, st, env', st');
      SteadySame(w, e.condition, env, st, env', st');
      SteadySame(w, e.thenExpr, env, st, env', st');
      SteadySame(w, e.elseExpr, env, st, env', st');
      SteadyStore(w, e.condition, env, st);
      SteadyStore(w, e.condition, env', st');
    } else {
      forall k | 0 <= k < |Parts(e)|
        ensures LooksAlike(Parts(e)[k], env, st, env', st')
      {
        PartLooksAlike(e, Parts(e)[k], env, st, env', st');
      }
      SteadyPartsSame(w, e, env, st, env', st');
    }
  }

  lemma {:induction false} SteadyPartsSame(w: World, e: Expression, env: Env, st: Store, env': Env, st': Store)
    requires !Allocates(e) && !IsForeign(e) && !e.Conditional? && LooksAlike(e, env, st, env', st')
    requires forall k :: 0 <= k < |Parts(e)| ==> LooksAlike(Parts(e)[k], env, st, env', st')
    ensures ValueOf(w, e, env, st) == ValueOf(w, e, env', st')
    decreases e, 0, |Parts(e)| + 1
  {
    PartsSmaller(e);
    var x, y := EvalAll(w, e, Parts(e), env, st), EvalAll(w, e, Parts(e), env', st');
    SteadySameAll(w, e, Parts(e), env, st, env', st');
    SteadyStoreAll(w, e, Parts(e), env, st);
    SteadyStoreAll(w, e, Parts(e), env', st');
    if x.Some? {
      if ReadsHeap(e) {
        EvalAllClosed(w, e, Parts(e), env, st);
      }
      CombineAlike(w, e, x.value.0, env, st, env', st');
    }
  }

  ghost predicate SameValues(x: Option<(seq<V>, Store)>, y: Option<(seq<V>, Store)>) {
    if x.None? then y.None? else y.Some? && x.value.0 == y.value.0
  }

  lemma {:induction false} SteadySameAll(w: World, top: Expression, es: seq<Expression>, env: Env, st: Store, env': Env, st': Store)
    requires forall k :: 0 <= k < |es| ==> es[k] < top && !Allocates(es[k]) && LooksAlike(es[k], env, st, env', st')
    ensures SameValues(EvalAll(w, top, es, env, st), EvalAll(w, top, es, env', st'))
    decreases top, 0, |es|
  {
    if es != [] {
      var x, y := Eval(w, es[0], env, st), Eval(w, es[0], env', st');
      assert ValueOf(w, es[0], env, st) == ValueOf(w, es[0], env', st') by {
        SteadySame(w, es[0], env, st, env', st');
      }
      if x.Some? {
        SteadyStore(w, es[0], env, st);
        SteadyStore(w, es[0], env', st');
        SteadySameAll(w, top, es[1..], env, st, env', st');
        assert EvalAll(w, top, es, env, st) == Prepend(x.value.0, EvalAll(w, top, es[1..], env, st));
        assert EvalAll(w, top, es, env', st') == Prepend(x.value.0, EvalAll(w, top, es[1..], env', st'));
      }
    }
  }
}
