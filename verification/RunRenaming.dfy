/** Running statements does not see identities either: from states that correspond, a program comes to
    outcomes that correspond. */
module RunRenaming {
  import opened Options
  import opened Ir
  import opened Machine
  import opened MachineFrames
  import opened Renaming

  /** Every location holds what corresponds, except perhaps one. */
  ghost predicate SameEnv(h: Ren, env: Env, env': Env, except: Option<Value>) {
    forall v: Value :: Some(v) != except ==> Same(h, Lookup(env, v), Lookup(env', v))
  }

  /** The states correspond: whatever can be reached from a location, the excepted one aside, is alike
      on both sides but for the identities. What nothing refers to is not compared. */
  ghost predicate SameState(h: Ren, s: State, t: State, except: Option<Value>) {
    && Fits(h, s.store, t.store) && SameEnv(h, s.env, t.env, except)
    && SameObjects(h, h.Keys, s.store.heap, t.store.heap)
  }

  /** The same ending, in states that correspond. */
  ghost predicate SameOutcome(x: Outcome, y: Outcome) {
    match x
    case Running(s) => y.Running? && exists h: Ren :: SameState(h, s, y.s, None)
    case Raised(s) => y.Raised? && exists h: Ren :: SameState(h, s, y.s, None)
    case Ended(v, s) => y.Ended? && exists h: Ren :: SameState(h, s, y.s, None) && Same(h, v, y.v)
  }

  /** No statement the world decides looks at identities, or at what nothing refers to. */
  ghost predicate BlindWorld(w: World) {
    Blind(w) && forall q: Statement, h: Ren, s: State, t: State ::
                  SameState(h, s, t, None) ==> SameOutcome(w.other(q, s), w.other(q, t))
  }

  // ---------- Renamings one after the other

  function Identity(ids: set<nat>): Ren {
    map id | id in ids :: id
  }

  function Then(h: Ren, g: Ren): Ren {
    map id | id in h && h[id] in g :: g[h[id]]
  }

  lemma ClosedIsSame(s: State)
    requires Closed(s.env, s.store)
    ensures SameState(Identity(s.store.heap.Keys), s, s, None)
  {
    var h := Identity(s.store.heap.Keys);
    forall id | id in h.Keys
      ensures id in s.store.heap && h[id] in s.store.heap && SameObj(h, s.store.heap[id], s.store.heap[h[id]])
    {
      assert ObjClosed(s.store.heap[id], s.store.heap);
    }
  }

  lemma SameThen(h: Ren, g: Ren, v: V, u: V, x: V)
    requires Same(h, v, u) && Same(g, u, x)
    ensures Same(Then(h, g), v, x)
  {
  }

  lemma SameObjThen(h: Ren, g: Ren, o: Obj, p: Obj, q: Obj)
    requires SameObj(h, o, p) && SameObj(g, p, q)
    ensures SameObj(Then(h, g), o, q)
  {
  }

  lemma SameStateThen(h: Ren, g: Ren, s: State, t: State, u: State, except: Option<Value>)
    requires SameState(h, s, t, None) && SameState(g, t, u, except)
    ensures SameState(Then(h, g), s, u, except)
  {
    var f := Then(h, g);
    forall v: Value | Some(v) != except
      ensures Same(f, Lookup(s.env, v), Lookup(u.env, v))
    {
      SameThen(h, g, Lookup(s.env, v), Lookup(t.env, v), Lookup(u.env, v));
    }
    forall id | id in f.Keys
      ensures id in s.store.heap && f[id] in u.store.heap && SameObj(f, s.store.heap[id], u.store.heap[f[id]])
    {
      assert id in h.Keys && h[id] in g.Keys;
      SameObjThen(h, g, s.store.heap[id], t.store.heap[h[id]], u.store.heap[f[id]]);
    }
  }

  lemma SameOutcomeThen(x: Outcome, y: Outcome, z: Outcome)
    requires SameOutcome(x, y) && SameOutcome(y, z)
    ensures SameOutcome(x, z)
  {
    if x.Ended? {
      var h: Ren :| SameState(h, x.s, y.s, None) && Same(h, x.v, y.v);
      var g: Ren :| SameState(g, y.s, z.s, None) && Same(g, y.v, z.v);
      SameStateThen(h, g, x.s, y.s, z.s, None);
      SameThen(h, g, x.v, y.v, z.v);
    } else {
      var h: Ren :| SameState(h, x.s, y.s, None);
      var g: Ren :| SameState(g, y.s, z.s, None);
      SameStateThen(h, g, x.s, y.s, z.s, None);
    }
  }

  // ---------- One statement

  ghost predicate Untouched(ids: set<nat>, heap: map<nat, Obj>, heap': map<nat, Obj>) {
    forall id :: id in heap && id !in ids ==> id in heap' && heap'[id] == heap[id]
  }

  /** A step from `s` and `t`: it raises on both sides, or leads to states that correspond, having
      touched nothing the renaming does not speak of. */
  ghost predicate SameStep(h: Ren, s: State, t: State, h': Ren, x: Option<State>, y: Option<State>, except: Option<Value>) {
    if x.None? then y.None?
    else
      && y.Some? && SameState(h', x.value, y.value, except)
      && (forall id :: id in h ==> id in h' && h'[id] == h[id])
      && (forall id :: id in h' && id !in h ==> s.store.next <= id && t.store.next <= h'[id])
      && s.store.next <= x.value.store.next && t.store.next <= y.value.store.next
      && Untouched(h.Keys, s.store.heap, x.value.store.heap) && Untouched(h.Values, t.store.heap, y.value.store.heap)
  }

  lemma AllSameObjects(h: Ren, s: Store, t: Store, h': Ren, s': Store, t': Store)
    requires Follows(h, s, t, h', s', t') && SameObjects(h, h.Keys, s.heap, t.heap)
    ensures SameObjects(h', h'.Keys, s'.heap, t'.heap)
  {
    SameObjectsLater(h, h', h.Keys, s.heap, t.heap, s'.heap, t'.heap);
    forall id | id in h'.Keys
      ensures id in s'.heap && h'[id] in t'.heap && SameObj(h', s'.heap[id], t'.heap[h'[id]])
    {
      assert id in h.Keys || id in h'.Keys - h.Keys;
    }
  }

  lemma SameEnvLater(h: Ren, h': Ren, env: Env, env': Env, except: Option<Value>)
    requires SameEnv(h, env, env', except) && Grows(h, h')
    ensures SameEnv(h', env, env', except)
  {
    forall v: Value | Some(v) != except
      ensures Same(h', Lookup(env, v), Lookup(env', v))
    {
      SameLater(h, h', Lookup(env, v), Lookup(env', v));
    }
  }

  lemma SameEnvWrite(h: Ren, env: Env, env': Env, b: Binding, v: V, u: V, except: Option<Value>)
    requires SameEnv(h, env, env', except) && Same(h, v, u)
    ensures SameEnv(h, env[Read(b) := v], env'[Read(b) := u], except)
  {
  }

  /** Storing what corresponds into objects that correspond. */
  lemma ObjectsSet(h: Ren, heap: map<nat, Obj>, heap': map<nat, Obj>, id: nat, o: Obj, p: Obj)
    requires OneToOne(h) && SameObjects(h, h.Keys, heap, heap') && id in h && SameObj(h, o, p)
    ensures SameObjects(h, h.Keys, heap[id := o], heap'[h[id] := p])
    ensures Untouched(h.Keys, heap, heap[id := o]) && Untouched(h.Values, heap', heap'[h[id] := p])
  {
    assert id in h.Keys && h[id] in h.Values;
  }

  /** What storing leads to on either side. */
  ghost predicate SameStore(h: Ren, s: State, t: State, x: Option<Store>, y: Option<Store>, except: Option<Value>) {
    if x.None? then y.None?
    else
      && y.Some? && SameState(h, State(s.env, x.value), State(t.env, y.value), except)
      && s.store.next == x.value.next && t.store.next == y.value.next
      && Untouched(h.Keys, s.store.heap, x.value.heap) && Untouched(h.Values, t.store.heap, y.value.heap)
  }

  lemma PutAtSame(h: Ren, s: State, t: State, target: V, target': V, key: Key, v: V, u: V, except: Option<Value>)
    requires SameState(h, s, t, except) && Same(h, target, target') && Same(h, v, u)
    ensures SameStore(h, s, t, PutAt(target, key, v, s.store), PutAt(target', key, u, t.store), except)
  {
    if target.Ref? {
      PutAtObject(h, s, t, target.id, key, v, u, except);
    }
  }

  lemma PutAtObject(h: Ren, s: State, t: State, id: nat, key: Key, v: V, u: V, except: Option<Value>)
    requires SameState(h, s, t, except) && id in h && Same(h, v, u)
    ensures SameStore(h, s, t, PutAt(Ref(id), key, v, s.store), PutAt(Ref(h[id]), key, u, t.store), except)
  {
    assert id in h.Keys;
    var o, p := Set(s.store.heap[id], key, v), Set(t.store.heap[h[id]], key, u);
    SetSame(h, s.store.heap[id], t.store.heap[h[id]], key, v, u);
    ObjectsSet(h, s.store.heap, t.store.heap, id, o, p);
    WithHeaps(h, s, t, s.store.heap[id := o], t.store.heap[h[id] := p], except);
  }

  lemma WithHeaps(h: Ren, s: State, t: State, heap: map<nat, Obj>, heap': map<nat, Obj>, except: Option<Value>)
    requires SameState(h, s, t, except) && SameObjects(h, h.Keys, heap, heap')
    requires heap.Keys <= s.store.heap.Keys && heap'.Keys <= t.store.heap.Keys
    ensures SameState(h, State(s.env, s.store.(heap := heap)), State(t.env, t.store.(heap := heap')), except)
  {
  }

  lemma ApplySame(w: World, q: Statement, h: Ren, vs: seq<V>, us: seq<V>, s: State, t: State, except: Option<Value>)
    requires Blind(w) && |vs| == |StmtParts(q)| && SameAll(h, vs, us) && SameState(h, s, t, except)
    ensures SameStep(h, s, t, h, Apply(w, q, vs, s.env, s.store), Apply(w, q, us, t.env, t.store), except)
  {
    match q
    case Let(name, _) => SameEnvWrite(h, s.env, t.env, Variable(name), vs[0], us[0], except);
    case Assign(ToBinding(b), _) => SameEnvWrite(h, s.env, t.env, b, vs[0], us[0], except);
    case Assign(ToMember(_, name), _) => PutAtSame(h, s, t, vs[0], us[0], w.nameKey(name), vs[1], us[1], except);
    case Assign(ToIndex(_, _), _) =>
      KeySame(w, h, vs[1], us[1]);
      PutAtSame(h, s, t, vs[0], us[0], KeyOf(w, vs[1]), vs[2], us[2], except);
    case _ =>
  }

  lemma StepAfter(h: Ren, s: State, t: State, h': Ren, s1: Store, t1: Store, x: Option<State>, y: Option<State>, except: Option<Value>)
    requires Follows(h, s.store, t.store, h', s1, t1) && Fits(h, s.store, t.store)
    requires SameStep(h', State(s.env, s1), State(t.env, t1), h', x, y, except)
    ensures SameStep(h, s, t, h', x, y, except)
  {
    if x.Some? {
      forall id | id in s.store.heap && id !in h.Keys
        ensures id in x.value.store.heap && x.value.store.heap[id] == s.store.heap[id]
      {
        assert id !in h'.Keys && id in s1.heap;
      }
      forall id | id in t.store.heap && id !in h.Values
        ensures id in y.value.store.heap && y.value.store.heap[id] == t.store.heap[id]
      {
        assert id !in h'.Values && id in t1.heap;
      }
    }
  }

  /** The statement's expressions have nothing to do with the excepted location. */
  ghost predicate Avoids(q: Statement, except: Option<Value>) {
    except.Some? ==> forall p :: p in StmtParts(q) ==> !Mentions(p, except.value)
  }

  lemma PartsSee(q: Statement, h: Ren, s: State, t: State, except: Option<Value>)
    requires SameState(h, s, t, except) && Avoids(q, except)
    ensures AllSee(h, StmtParts(q), s.env, s.store, t.env, t.store)
  {
    var es := StmtParts(q);
    forall k | 0 <= k < |es|
      ensures Sees(h, es[k], s.env, s.store, t.env, t.store)
    {
      assert es[k] in es;
    }
  }

  lemma ExecTameSame(w: World, q: Statement, h: Ren, s: State, t: State, except: Option<Value>) returns (h': Ren)
    requires Blind(w) && SameState(h, s, t, except) && Avoids(q, except)
    ensures SameStep(h, s, t, h', ExecTame(w, q, s), ExecTame(w, q, t), except)
  {
    var es := StmtParts(q);
    PartsSmaller(Bundle(es));
    assert Parts(Bundle(es)) == es;
    PartsSee(q, h, s, t, except);
    h' := EvalAllSame(w, h, Bundle(es), es, s.env, s.store, t.env, t.store);
    var x, y := EvalParts(w, es, s.env, s.store), EvalParts(w, es, t.env, t.store);
    if x.Some? {
      var s1, t1 := x.value.1, y.value.1;
      AllSameObjects(h, s.store, t.store, h', s1, t1);
      SameEnvLater(h, h', s.env, t.env, except);
      ApplySame(w, q, h', x.value.0, y.value.0, State(s.env, s1), State(t.env, t1), except);
      StepAfter(h, s, t, h', s1, t1, ExecTame(w, q, s), ExecTame(w, q, t), except);
    }
  }

  lemma NewArraySame(q: Statement, w: World, h: Ren, s: State, t: State)
    requires IsNewArray(q) && SameState(h, s, t, None)
    ensures SameOutcome(Exec(w, q, s), Exec(w, q, t))
  {
    var o := NewArrayObj(SizeHint(q.value));
    var h' := h[s.store.next := t.store.next];
    AllocSame(h, s.store, t.store, o, o);
    AllSameObjects(h, s.store, t.store, h', Alloc(s.store, o).1, Alloc(t.store, o).1);
    SameEnvLater(h, h', s.env, t.env, None);
    SameEnvWrite(h', s.env, t.env, q.target.binding, Ref(s.store.next), Ref(t.store.next), None);
    assert SameState(h', Exec(w, q, s).s, Exec(w, q, t).s, None);
  }

  lemma ExecSame(w: World, q: Statement, h: Ren, s: State, t: State)
    requires BlindWorld(w) && SameState(h, s, t, None)
    ensures SameOutcome(Exec(w, q, s), Exec(w, q, t))
  {
    if IsNewArray(q) {
      NewArraySame(q, w, h, s, t);
    } else if Tame(q) {
      var h' := ExecTameSame(w, q, h, s, t, None);
    }
  }

  /** From states that correspond, a program comes to outcomes that correspond. */
  lemma {:induction false} RunSame(w: World, ss: seq<Statement>, h: Ren, s: State, t: State)
    requires BlindWorld(w) && SameState(h, s, t, None)
    ensures SameOutcome(Run(w, ss, s), Run(w, ss, t))
    decreases |ss|
  {
    if ss != [] {
      ExecSame(w, ss[0], h, s, t);
      var x, y := Exec(w, ss[0], s), Exec(w, ss[0], t);
      if x.Running? {
        var h': Ren :| SameState(h', x.s, y.s, None);
        RunSame(w, ss[1..], h', x.s, y.s);
      }
    }
  }
}
