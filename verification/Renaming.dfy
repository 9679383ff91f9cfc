/** Evaluation does not see identities.

    Two stores can hold the same objects under different numbers, and either may hold others besides.
    A renaming says which object of the second stands for which of the first. Evaluated in two such
    stores, an expression raises in both or yields values that correspond, and each object it makes in
    one corresponds to one it makes in the other. An expression that reads no member does not even need
    the old objects to hold the same. */
module Renaming {
  import opened Options
  import opened Ir
  import opened Machine
  import opened MachineFrames

  type Ren = map<nat, nat>

  ghost predicate OneToOne(h: Ren) {
    forall i, j :: i in h && j in h && h[i] == h[j] ==> i == j
  }

  /** `u` is what `v` is called on the other side. */
  ghost predicate Same(h: Ren, v: V, u: V) {
    match v
    case Prim(_) => u == v
    case Ref(id) => id in h && u == Ref(h[id])
  }

  ghost predicate SameAll(h: Ren, vs: seq<V>, us: seq<V>) {
    |vs| == |us| && forall k :: 0 <= k < |vs| ==> Same(h, vs[k], us[k])
  }

  ghost predicate SameMap<K(!new)>(h: Ren, m: map<K, V>, n: map<K, V>) {
    m.Keys == n.Keys && forall k :: k in m ==> Same(h, m[k], n[k])
  }

  ghost predicate SameObj(h: Ren, o: Obj, p: Obj) {
    o.kind == p.kind && o.length == p.length && SameMap(h, o.slots, p.slots) && SameMap(h, o.props, p.props)
  }

  /** The objects with these identities, and their counterparts, hold the same. */
  ghost predicate SameObjects(h: Ren, ids: set<nat>, heap: map<nat, Obj>, heap': map<nat, Obj>) {
    forall id :: id in ids ==> id in h && id in heap && h[id] in heap' && SameObj(h, heap[id], heap'[h[id]])
  }

  ghost predicate Bounded(st: Store) {
    forall id :: id in st.heap ==> id < st.next
  }

  /** The renaming speaks of identities in use. */
  ghost predicate Fits(h: Ren, s: Store, t: Store) {
    OneToOne(h) && Bounded(s) && Bounded(t) && forall id :: id in h ==> id < s.next && h[id] < t.next
  }

  /** From `s` and `t` to `s'` and `t'` only objects were added; the renaming grew by new ones that
      correspond. */
  ghost predicate Follows(h: Ren, s: Store, t: Store, h': Ren, s': Store, t': Store) {
    && Fits(h', s', t') && s.next <= s'.next && t.next <= t'.next
    && Extends(s.heap, s'.heap) && Extends(t.heap, t'.heap)
    && (forall id :: id in h ==> id in h' && h'[id] == h[id])
    && (forall id :: id in h' && id !in h ==> s.next <= id && t.next <= h'[id])
    && SameObjects(h', h'.Keys - h.Keys, s'.heap, t'.heap)
  }

  ghost predicate Grows(h: Ren, h': Ren) {
    forall id :: id in h ==> id in h' && h'[id] == h[id]
  }

  lemma SameLater(h: Ren, h': Ren, v: V, u: V)
    requires Grows(h, h') && Same(h, v, u)
    ensures Same(h', v, u)
  {
  }

  lemma SameObjLater(h: Ren, h': Ren, o: Obj, p: Obj)
    requires Grows(h, h') && SameObj(h, o, p)
    ensures SameObj(h', o, p)
  {
  }

  lemma SameObjectsLater(h: Ren, h': Ren, ids: set<nat>, a: map<nat, Obj>, b: map<nat, Obj>, a': map<nat, Obj>, b': map<nat, Obj>)
    requires Grows(h, h') && SameObjects(h, ids, a, b) && Extends(a, a') && Extends(b, b')
    ensures SameObjects(h', ids, a', b')
  {
    forall id | id in ids
      ensures id in h' && id in a' && h'[id] in b' && SameObj(h', a'[id], b'[h'[id]])
    {
      SameObjLater(h, h', a[id], b[h[id]]);
    }
  }

  lemma FollowsSelf(h: Ren, s: Store, t: Store)
    requires Fits(h, s, t)
    ensures Follows(h, s, t, h, s, t)
  {
  }

  lemma FollowsOn(h: Ren, s: Store, t: Store, h1: Ren, s1: Store, t1: Store, h2: Ren, s2: Store, t2: Store)
    requires Follows(h, s, t, h1, s1, t1) && Follows(h1, s1, t1, h2, s2, t2)
    ensures Follows(h, s, t, h2, s2, t2)
  {
    SameObjectsLater(h1, h2, h1.Keys - h.Keys, s1.heap, t1.heap, s2.heap, t2.heap);
    forall id | id in h2.Keys - h.Keys
      ensures id in s2.heap && h2[id] in t2.heap && SameObj(h2, s2.heap[id], t2.heap[h2[id]])
    {
      if id in h1 {
        assert id in h1.Keys - h.Keys;
      } else {
        assert id in h2.Keys - h1.Keys;
      }
    }
  }

  // ---------- What an expression looks at

  /** All the expression looks at corresponds. */
  ghost predicate Sees(h: Ren, e: Expression, env: Env, s: Store, env': Env, t: Store) {
    && (forall v :: Mentions(e, v) ==> Same(h, Lookup(env, v), Lookup(env', v)))
    && (ReadsHeap(e) ==> SameObjects(h, h.Keys, s.heap, t.heap))
  }

  lemma PartSees(h: Ren, e: Expression, p: Expression, env: Env, s: Store, env': Env, t: Store)
    requires p in Parts(e) && Sees(h, e, env, s, env', t)
    ensures Sees(h, p, env, s, env', t)
  {
  }

  lemma SeesLater(h: Ren, e: Expression, env: Env, s: Store, env': Env, t: Store, h': Ren, s': Store, t': Store)
    requires Sees(h, e, env, s, env', t) && Follows(h, s, t, h', s', t')
    ensures Sees(h', e, env, s', env', t')
  {
    forall v | Mentions(e, v)
      ensures Same(h', Lookup(env, v), Lookup(env', v))
    {
      SameLater(h, h', Lookup(env, v), Lookup(env', v));
    }
    if ReadsHeap(e) {
      SameObjectsLater(h, h', h.Keys, s.heap, t.heap, s'.heap, t'.heap);
      forall id | id in h'.Keys
        ensures id in s'.heap && h'[id] in t'.heap && SameObj(h', s'.heap[id], t'.heap[h'[id]])
      {
        assert id in h.Keys || id in h'.Keys - h.Keys;
      }
    }
  }

  // ---------- Operators that do not look at identities

  ghost predicate BlindBinary(w: World) {
    forall h: Ren, op: string, a: V, b: V, c: V, d: V ::
      OneToOne(h) && Same(h, a, c) && Same(h, b, d) ==> w.binary(op, a, b) == w.binary(op, c, d)
  }

  ghost predicate BlindUnary(w: World) {
    forall h: Ren, op: string, a: V, c: V :: OneToOne(h) && Same(h, a, c) ==> w.unary(op, a) == w.unary(op, c)
  }

  ghost predicate BlindText(w: World) {
    forall h: Ren, a: V, c: V :: OneToOne(h) && Same(h, a, c) ==> w.text(a) == w.text(c)
  }

  ghost predicate BlindTemplate(w: World) {
    forall h: Ren, quasis: seq<string>, vs: seq<V>, us: seq<V> ::
      OneToOne(h) && SameAll(h, vs, us) ==> w.template(quasis, vs) == w.template(quasis, us)
  }

  /** Operators may compare identities, and do not otherwise depend on them. */
  ghost predicate Blind(w: World) {
    BlindBinary(w) && BlindUnary(w) && BlindText(w) && BlindTemplate(w)
  }

  // ---------- One step of evaluation

  lemma KeySame(w: World, h: Ren, v: V, u: V)
    requires Blind(w) && OneToOne(h) && Same(h, v, u)
    ensures KeyOf(w, v) == KeyOf(w, u)
  {
    assert w.text(v) == w.text(u);
  }

  lemma PropertyKeySame(w: World, h: Ren, key: PropertyKey, vs: seq<V>, us: seq<V>)
    requires Blind(w) && OneToOne(h) && SameAll(h, vs, us) && (key.Computed? ==> vs != [])
    ensures PropertyKeyOf(w, key, vs) == PropertyKeyOf(w, key, us)
  {
    if key.Computed? {
      KeySame(w, h, vs[0], us[0]);
    }
  }

  lemma GetSame(h: Ren, o: Obj, p: Obj, key: Key)
    requires SameObj(h, o, p)
    ensures Same(h, Get(o, key), Get(p, key))
  {
  }

  lemma SetSame(h: Ren, o: Obj, p: Obj, key: Key, v: V, u: V)
    requires SameObj(h, o, p) && Same(h, v, u)
    ensures SameObj(h, Set(o, key, v), Set(p, key, u))
  {
  }

  lemma AccessSame(w: World, h: Ren, v: V, u: V, key: Key, s: Store, t: Store, optional: bool)
    requires Same(h, v, u) && SameObjects(h, h.Keys, s.heap, t.heap)
    ensures var x, y := Access(w, v, key, s.heap, optional), Access(w, u, key, t.heap, optional);
            if x.None? then y.None? else y.Some? && Same(h, x.value, y.value)
  {
    if v.Ref? {
      assert v.id in h.Keys;
      GetSame(h, s.heap[v.id], t.heap[h[v.id]], key);
    }
  }

  lemma SameSlice(h: Ren, vs: seq<V>, us: seq<V>, i: nat, j: nat)
    requires SameAll(h, vs, us) && i <= j <= |vs|
    ensures SameAll(h, vs[i..j], us[i..j])
  {
  }

  lemma {:induction false} FilledSame(h: Ren, elements: seq<Option<Expression>>, vs: seq<V>, us: seq<V>)
    requires |vs| == |Present(elements)| && SameAll(h, vs, us)
    ensures SameMap(h, Filled(elements, vs), Filled(elements, us))
  {
    if elements != [] {
      var n := |elements| - 1;
      if elements[n].Some? {
        FilledSame(h, elements[..n], vs[..|vs| - 1], us[..|us| - 1]);
      } else {
        FilledSame(h, elements[..n], vs, us);
      }
    }
  }

  lemma {:induction false} WithPropsSame(w: World, h: Ren, props: seq<ObjectProperty>, vs: seq<V>, us: seq<V>)
    requires Blind(w) && OneToOne(h) && |vs| == |PropParts(props)| && SameAll(h, vs, us)
    ensures SameObj(h, WithProps(w, props, vs), WithProps(w, props, us))
  {
    if props != [] {
      var n, last := |props| - 1, props[|props| - 1];
      var m := |vs| - 1 - |KeyParts(last.key)|;
      SameSlice(h, vs, us, m, |vs| - 1);
      WithPropsSame(w, h, props[..n], vs[..m], us[..m]);
      PropertyKeySame(w, h, last.key, vs[m..|vs| - 1], us[m..|us| - 1]);
      SetSame(h, WithProps(w, props[..n], vs[..m]), WithProps(w, props[..n], us[..m]),
              PropertyKeyOf(w, last.key, vs[m..|vs| - 1]), vs[|vs| - 1], us[|us| - 1]);
    }
  }

  lemma MadeSame(w: World, h: Ren, e: Expression, vs: seq<V>, us: seq<V>)
    requires Blind(w) && OneToOne(h) && |vs| == |Parts(e)| && SameAll(h, vs, us) && Made(w, e, vs).Some?
    ensures Made(w, e, us).Some? && SameObj(h, Made(w, e, vs).value, Made(w, e, us).value)
  {
    match e
    case ArrayLit(elements) => FilledSame(h, elements, vs, us);
    case ObjectLit(props) => WithPropsSame(w, h, props, vs, us);
    case _ =>
  }

  /** Two objects made at the same time are called after each other. */
  lemma AllocSame(h: Ren, s: Store, t: Store, o: Obj, p: Obj)
    requires Fits(h, s, t) && SameObj(h, o, p)
    ensures var h' := h[s.next := t.next];
            Follows(h, s, t, h', Alloc(s, o).1, Alloc(t, p).1) && Same(h', Ref(s.next), Ref(t.next))
  {
    var h' := h[s.next := t.next];
    SameObjLater(h, h', o, p);
    assert h'.Keys - h.Keys == {s.next};
  }

  /** What an evaluation yields on either side. */
  ghost predicate SameResult(h: Ren, s: Store, t: Store, h': Ren, x: Option<(V, Store)>, y: Option<(V, Store)>) {
    if x.None? then y.None?
    else y.Some? && Same(h', x.value.0, y.value.0) && Follows(h, s, t, h', x.value.1, y.value.1)
  }

  ghost predicate SameResults(h: Ren, s: Store, t: Store, h': Ren, x: Option<(seq<V>, Store)>, y: Option<(seq<V>, Store)>) {
    if x.None? then y.None?
    else y.Some? && SameAll(h', x.value.0, y.value.0) && Follows(h, s, t, h', x.value.1, y.value.1)
  }

  lemma CombineSame(w: World, h: Ren, e: Expression, vs: seq<V>, us: seq<V>, env: Env, s: Store, env': Env, t: Store) returns (h': Ren)
    requires Blind(w) && Fits(h, s, t) && |vs| == |Parts(e)| && SameAll(h, vs, us) && Sees(h, e, env, s, env', t)
    ensures SameResult(h, s, t, h', Combine(w, e, vs, env, s), Combine(w, e, us, env', t))
  {
    MadeFrom(w, e, vs);
    MadeFrom(w, e, us);
    h' := h;
    if Made(w, e, vs).Some? {
      MadeSame(w, h, e, vs, us);
      AllocSame(h, s, t, Made(w, e, vs).value, Made(w, e, us).value);
      h' := h[s.next := t.next];
    } else {
      FollowsSelf(h, s, t);
      CombineReads(w, h, e, vs, us, env, s, env', t);
    }
  }

  lemma CombineReads(w: World, h: Ren, e: Expression, vs: seq<V>, us: seq<V>, env: Env, s: Store, env': Env, t: Store)
    requires Blind(w) && Fits(h, s, t) && |vs| == |Parts(e)| && SameAll(h, vs, us) && Sees(h, e, env, s, env', t)
    requires Made(w, e, vs).None? && Follows(h, s, t, h, s, t)
    ensures SameResult(h, s, t, h, Combine(w, e, vs, env, s), Combine(w, e, us, env', t))
  {
    match e
    case Val(v) => SelfMentioned(v);
    case Binary(op, _, _) => assert w.binary(op, vs[0], vs[1]) == w.binary(op, us[0], us[1]);
    case Unary(op, _) => assert w.unary(op, vs[0]) == w.unary(op, us[0]);
    case Member(_, property, optional) =>
      SameSlice(h, vs, us, 1, |vs|);
      PropertyKeySame(w, h, property, vs[1..], us[1..]);
      AccessSame(w, h, vs[0], us[0], PropertyKeyOf(w, property, vs[1..]), s, t, optional);
    case TemplateLiteral(quasis, _) => assert w.template(quasis, vs) == w.template(quasis, us);
    case _ =>
  }

  // ---------- Whole expressions

  lemma {:induction false} EvalSame(w: World, h: Ren, e: Expression, env: Env, s: Store, env': Env, t: Store) returns (h': Ren)
    requires Blind(w) && Fits(h, s, t) && Sees(h, e, env, s, env', t)
    ensures SameResult(h, s, t, h', Eval(w, e, env, s), Eval(w, e, env', t))
    decreases e, 1, 0
  {
    PartsSmaller(e);
    h' := h;
    if IsForeign(e) {
    } else if e.Conditional? {
      var x, y := Eval(w, e.condition, env, s), Eval(w, e.condition, env', t);
      PartSees(h, e, e.condition, env, s, env', t);
      var h1 := EvalSame(w, h, e.condition, env, s, env', t);
      if x.Some? {
        var branch := if IsTruthy(w, x.value.0) then e.thenExpr else e.elseExpr;
        PartSees(h, e, branch, env, s, env', t);
        SeesLater(h, branch, env, s, env', t, h1, x.value.1, y.value.1);
        h' := EvalSame(w, h1, branch, env, x.value.1, env', y.value.1);
        ResultAfter(h, s, t, h1, x.value.1, y.value.1, h', Eval(w, branch, env, x.value.1), Eval(w, branch, env', y.value.1));
      }
    } else {
      var x, y := EvalAll(w, e, Parts(e), env, s), EvalAll(w, e, Parts(e), env', t);
      forall k | 0 <= k < |Parts(e)|
        ensures Sees(h, Parts(e)[k], env, s, env', t)
      {
        PartSees(h, e, Parts(e)[k], env, s, env', t);
      }
      var h1 := EvalAllSame(w, h, e, Parts(e), env, s, env', t);
      if x.Some? {
        SeesLater(h, e, env, s, env', t, h1, x.value.1, y.value.1);
        h' := CombineSame(w, h1, e, x.value.0, y.value.0, env, x.value.1, env', y.value.1);
        ResultAfter(h, s, t, h1, x.value.1, y.value.1, h',
                    Combine(w, e, x.value.0, env, x.value.1), Combine(w, e, y.value.0, env', y.value.1));
      }
    }
  }

  lemma ResultAfter(h: Ren, s: Store, t: Store, h1: Ren, s1: Store, t1: Store, h': Ren, x: Option<(V, Store)>, y: Option<(V, Store)>)
    requires Follows(h, s, t, h1, s1, t1) && SameResult(h1, s1, t1, h', x, y)
    ensures SameResult(h, s, t, h', x, y)
  {
    if x.Some? {
      FollowsOn(h, s, t, h1, s1, t1, h', x.value.1, y.value.1);
    }
  }

  lemma ResultsAfter(h: Ren, s: Store, t: Store, h1: Ren, s1: Store, t1: Store, v: V, u: V,
                     h': Ren, x: Option<(seq<V>, Store)>, y: Option<(seq<V>, Store)>)
    requires Follows(h, s, t, h1, s1, t1) && Same(h1, v, u) && SameResults(h1, s1, t1, h', x, y)
    ensures SameResults(h, s, t, h', Prepend(v, x), Prepend(u, y))
  {
    if x.Some? {
      FollowsOn(h, s, t, h1, s1, t1, h', x.value.1, y.value.1);
      SameLater(h1, h', v, u);
    }
  }

  ghost predicate AllSee(h: Ren, es: seq<Expression>, env: Env, s: Store, env': Env, t: Store) {
    forall k :: 0 <= k < |es| ==> Sees(h, es[k], env, s, env', t)
  }

  lemma AllSeeLater(h: Ren, es: seq<Expression>, env: Env, s: Store, env': Env, t: Store, h': Ren, s': Store, t': Store)
    requires AllSee(h, es, env, s, env', t) && Follows(h, s, t, h', s', t')
    ensures AllSee(h', es, env, s', env', t')
  {
    forall k | 0 <= k < |es|
      ensures Sees(h', es[k], env, s', env', t')
    {
      SeesLater(h, es[k], env, s, env', t, h', s', t');
    }
  }

  lemma AllResults(w: World, h: Ren, top: Expression, es: seq<Expression>, env: Env, s: Store, env': Env, t: Store, h1: Ren, h': Ren)
    requires es != [] && forall k :: 0 <= k < |es| ==> es[k] < top
    requires var x, y := Eval(w, es[0], env, s), Eval(w, es[0], env', t);
             && x.Some? && SameResult(h, s, t, h1, x, y)
             && SameResults(h1, x.value.1, y.value.1, h', EvalAll(w, top, es[1..], env, x.value.1), EvalAll(w, top, es[1..], env', y.value.1))
    ensures SameResults(h, s, t, h', EvalAll(w, top, es, env, s), EvalAll(w, top, es, env', t))
  {
    var x, y := Eval(w, es[0], env, s).value, Eval(w, es[0], env', t).value;
    ResultsAfter(h, s, t, h1, x.1, y.1, x.0, y.0, h', EvalAll(w, top, es[1..], env, x.1), EvalAll(w, top, es[1..], env', y.1));
    EvalAllPrepends(w, top, es, env, s);
    EvalAllPrepends(w, top, es, env', t);
  }

  lemma {:induction false} EvalAllSame(w: World, h: Ren, top: Expression, es: seq<Expression>, env: Env, s: Store, env': Env, t: Store)
    returns (h': Ren)
    requires Blind(w) && Fits(h, s, t)
    requires (forall k :: 0 <= k < |es| ==> es[k] < top) && AllSee(h, es, env, s, env', t)
    ensures SameResults(h, s, t, h', EvalAll(w, top, es, env, s), EvalAll(w, top, es, env', t))
    decreases top, 0, |es|
  {
    h' := h;
    if es == [] {
      FollowsSelf(h, s, t);
    } else {
      var x, y := Eval(w, es[0], env, s), Eval(w, es[0], env', t);
      var h1 := EvalSame(w, h, es[0], env, s, env', t);
      if x.Some? {
        var s1, t1 := x.value.1, y.value.1;
        AllSeeLater(h, es[1..], env, s, env', t, h1, s1, t1);
        h' := EvalAllSame(w, h1, top, es[1..], env, s1, env', t1);
        AllResults(w, h, top, es, env, s, env', t, h1, h');
      }
    }
  }
}
