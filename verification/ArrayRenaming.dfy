/** Folding array literals whose elements make objects themselves.

    The original makes the array first and each element when its store comes; the literal makes all
    elements first and the array last. So the two give the same objects different identities, and the
    original also keeps what was stored and then written over. Outcomes are compared up to that. */
module ArrayRenaming {
  import opened Options
  import opened Ir
  import opened Machine
  import opened MachineFrames
  import opened ArrayLiterals
  import opened ArrayMeaning
  import opened ArrayFolding
  import opened Renaming
  import opened RunRenaming
  import opened LiteralMaking

  // ---------- The original, part way through its window

  /** One of the first `i` statements stays and writes the location. */
  ghost predicate WrittenBy(win: seq<Statement>, i: nat, r: nat, v: Value)
    requires i <= |win|
  {
    exists k :: 0 <= k < i && !IsPut(win[k], r) && WritesTo(win[k]) == Some(v)
  }

  ghost predicate HeapWritten(win: seq<Statement>, i: nat, r: nat)
    requires i <= |win|
  {
    exists k :: 0 <= k < i && !IsPut(win[k], r) && WritesHeap(win[k])
  }

  /** After the first `i` statements: the array is still sealed off, and everything not written by a
      statement that stays is as it was in `s`. */
  ghost predicate Standing(win: seq<Statement>, i: nat, r: nat, s: State, o: State)
    requires i <= |win|
  {
    && Holding(o, s.store.next, r)
    && (forall v: Value :: v != Reg(r) && !WrittenBy(win, i, r, v) ==> Lookup(o.env, v) == Lookup(s.env, v))
    && (!HeapWritten(win, i, r) ==> Extends(s.store.heap, o.store.heap))
  }

  lemma StartsStanding(win: seq<Statement>, r: nat, s: State, obj: Obj)
    requires Closed(s.env, s.store) && obj.kind == ArrayKind && obj.slots == map[] && obj.props == map[]
    ensures Standing(win, 0, r, s, WithNew(s, r, obj))
  {
    StartsAlike(s, r, obj, obj);
  }

  lemma NotWrittenBefore(win: seq<Statement>, i: nat, r: nat, v: Value)
    requires i < |win| && !WrittenBy(win, i + 1, r, v)
    ensures !WrittenBy(win, i, r, v)
  {
  }

  lemma HeapNotWrittenBefore(win: seq<Statement>, i: nat, r: nat)
    requires i < |win| && !HeapWritten(win, i + 1, r)
    ensures !HeapWritten(win, i, r)
  {
  }

  /** A store of the window, with what working out its value makes. */
  lemma ExecPutMakes(w: World, q: Statement, r: nat, o: State, a: nat)
    requires IsPut(q, r) && PutMovable(q, r) && Holding(o, a, r)
    ensures var x := Eval(w, q.value, o.env, o.store);
      if x.None? then Exec(w, q, o) == Raised(o)
      else
        var (v, st) := x.value;
        && a in st.heap && st.heap[a] == o.store.heap[a]
        && Holding(State(o.env, st), a, r) && InHeap(v, st.heap) && v != Ref(a)
        && Exec(w, q, o) == Running(WithArray(State(o.env, st), a, Set(st.heap[a], Slot(PutIndex(q, r)), v)))
  {
    PutIsTame(q, r);
    ThreePartsMake(w, Reg(r), PutKey(q, r).value, q.value, o);
    assert StmtParts(q) == [Val(Reg(r)), Val(Const(PutKey(q, r).value)), q.value];
    assert KeyOf(w, Prim(PutKey(q, r).value)) == Slot(PutIndex(q, r));
    EvalClosed(w, q.value, o.env, o.store);
    EvalApart(w, q.value, o.env, o.store, o.store, a, Reg(r));
  }

  lemma PutStands(win: seq<Statement>, i: nat, r: nat, s: State, o: State, st: Store, k: nat, v: V)
    requires i < |win| && Standing(win, i, r, s, o) && Closed(s.env, s.store)
    requires Holding(State(o.env, st), s.store.next, r) && InHeap(v, st.heap) && v != Ref(s.store.next)
    requires Extends(o.store.heap, st.heap)
    ensures Standing(win, i + 1, r, s, WithArray(State(o.env, st), s.store.next, Set(st.heap[s.store.next], Slot(k), v)))
  {
    PutHolds(State(o.env, st), s.store.next, r, k, v);
    StandsLonger(win, i, r, s, o, st.heap[s.store.next := Set(st.heap[s.store.next], Slot(k), v)]);
  }

  lemma StandsLonger(win: seq<Statement>, i: nat, r: nat, s: State, o: State, heap: map<nat, Obj>)
    requires i < |win| && Standing(win, i, r, s, o) && Closed(s.env, s.store)
    requires forall id :: id in o.store.heap && id != s.store.next ==> id in heap && heap[id] == o.store.heap[id]
    ensures forall v: Value :: v != Reg(r) && !WrittenBy(win, i + 1, r, v) ==> Lookup(o.env, v) == Lookup(s.env, v)
    ensures !HeapWritten(win, i + 1, r) ==> Extends(s.store.heap, heap)
  {
    forall v: Value | v != Reg(r) && !WrittenBy(win, i + 1, r, v)
      ensures Lookup(o.env, v) == Lookup(s.env, v)
    {
      NotWrittenBefore(win, i, r, v);
    }
    if !HeapWritten(win, i + 1, r) {
      HeapNotWrittenBefore(win, i, r);
    }
  }

  lemma KeptStands(w: World, win: seq<Statement>, i: nat, r: nat, s: State, o: State)
    requires i < |win| && !IsPut(win[i], r) && KeptSafe(win[i], r) && Standing(win, i, r, s, o)
    ensures var x := Exec(w, win[i], o);
      if x.Raised? then x == Raised(o)
      else
        && x.Running? && Standing(win, i + 1, r, s, x.s)
        && x.s.store.heap[s.store.next] == o.store.heap[s.store.next]
  {
    var q, a := win[i], s.store.next;
    ExecKept(w, q, r, o, o, a);
    KeptIsTame(q, r);
    var x := Exec(w, q, o);
    if x.Running? {
      KeptFrame(w, q, o);
      forall v: Value | v != Reg(r) && !WrittenBy(win, i + 1, r, v)
        ensures Lookup(x.s.env, v) == Lookup(s.env, v)
      {
        NotWrittenBefore(win, i, r, v);
        assert WritesTo(q) != Some(v);
      }
      if !HeapWritten(win, i + 1, r) {
        HeapNotWrittenBefore(win, i, r);
        assert !WritesHeap(q);
      }
    }
  }

  /** A statement changes the location it writes, and old objects only if it stores into one. */
  lemma KeptFrame(w: World, q: Statement, o: State)
    requires Closed(o.env, o.store) && ExecTame(w, q, o).Some?
    ensures var o' := ExecTame(w, q, o).value;
      && (forall v: Value :: WritesTo(q) != Some(v) ==> Lookup(o'.env, v) == Lookup(o.env, v))
      && (!WritesHeap(q) ==> Extends(o.store.heap, o'.store.heap))
  {
    var es := StmtParts(q);
    var x := EvalParts(w, es, o.env, o.store).value;
    PartsSmaller(Bundle(es));
    assert Parts(Bundle(es)) == es;
    EvalAllClosed(w, Bundle(es), es, o.env, o.store);
    if WritesHeap(q) {
      HeapWriteOnly(w, q, x.0, o.env, x.1);
    } else {
      NoHeapWrite(w, q, x.0, o.env, x.1);
    }
  }

  /** A value that no statement so far disturbs still looks at what it would look at in `s`. */
  lemma ValueAsIn(win: seq<Statement>, i: nat, r: nat, s: State, o: State, e: Expression)
    requires i <= |win| && Standing(win, i, r, s, o) && Closed(s.env, s.store) && ValueMovable(e, r)
    requires forall k :: 0 <= k < i && !IsPut(win[k], r) ==> !Disturbs(win[k], e)
    ensures AsIn(e, s, o.env, o.store)
  {
    forall v | Mentions(e, v)
      ensures Lookup(o.env, v) == Lookup(s.env, v)
    {
      assert v != Reg(r) && !WrittenBy(win, i, r, v);
    }
    if ReadsHeap(e) {
      assert !HeapWritten(win, i, r);
    }
  }

  lemma UndisturbedSoFar(win: seq<Statement>, i: nat, r: nat)
    requires MovableWindow(win, r) && i < |win| && IsPut(win[i], r)
    ensures PutMovable(win[i], r) && forall k :: 0 <= k < i && !IsPut(win[k], r) ==> !Disturbs(win[k], win[i].value)
  {
    forall k | 0 <= k < i && !IsPut(win[k], r)
      ensures !Disturbs(win[k], win[i].value)
    {
      assert PairSafe(win[k], win[i], r);
    }
  }

  // ---------- The two sides, part way through

  /** The index is stored to once more from statement `i` on. */
  ghost predicate StoredLater(win: seq<Statement>, i: nat, r: nat, k: nat) {
    exists m :: i <= m < |win| && IsPut(win[m], r) && PutIndex(win[m], r) == k
  }

  ghost predicate StoredBefore(win: seq<Statement>, i: nat, r: nat, k: nat)
    requires i <= |win|
  {
    exists m :: 0 <= m < i && IsPut(win[m], r) && PutIndex(win[m], r) == k
  }

  lemma {:induction false} LastStoreCounts(win: seq<Statement>, i: nat, r: nat)
    requires i < |win| && IsPut(win[i], r) && !StoredLater(win, i + 1, r, PutIndex(win[i], r))
    ensures PutIndex(win[i], r) in Elements(win, r) && Elements(win, r)[PutIndex(win[i], r)] == win[i].value
    decreases |win|
  {
    var n := |win| - 1;
    if i < n {
      var few := win[..n];
      assert few[i] == win[i];
      forall m | i + 1 <= m < |few| && IsPut(few[m], r)
        ensures PutIndex(few[m], r) != PutIndex(win[i], r)
      {
        assert few[m] == win[m];
      }
      LastStoreCounts(few, i, r);
      if IsPut(win[n], r) {
        assert PutIndex(win[n], r) != PutIndex(win[i], r);
      }
    }
  }

  /** How long the array is after the stores of `few`. */
  function LengthAfter(few: seq<Statement>, r: nat, length: nat): nat {
    if Elements(few, r) != map[] && MaxIndex(few, r) >= length then MaxIndex(few, r) + 1 else length
  }

  /** What the array holds after `i` statements: the slots stored to, and in those not stored to again
      what the literal holds there. */
  ghost predicate HoldsSoFar(win: seq<Statement>, i: nat, r: nat, h: Ren, obj: Obj, length: nat, m: map<nat, V>)
    requires i <= |win|
  {
    && obj.kind == ArrayKind && obj.props == map[] && obj.length == LengthAfter(win[..i], r, length)
    && (forall k :: k in obj.slots <==> StoredBefore(win, i, r, k))
    && (forall k :: k in obj.slots && !StoredLater(win, i, r, k) ==> k in m && Same(h, obj.slots[k], m[k]))
  }

  /** The objects made between `lo` and `hi` are as they were, and have no counterpart yet. */
  ghost predicate Reserved(lo: Store, hi: Store, h: Ren, t: State) {
    forall id :: lo.next <= id < hi.next ==>
      id !in h.Values && (id in hi.heap ==> id in t.store.heap && t.store.heap[id] == hi.heap[id])
  }

  ghost predicate AllReserved(w: World, win: seq<Statement>, i: nat, r: nat, s: State, h: Ren, t: State)
    requires Making(w, Elements(win, r), LiteralLen(win, r), s).Some?
  {
    forall k: nat, lo: Store, hi: Store ::
      k < LiteralLen(win, r) && StoredLater(win, i, r, k) && StageAt(w, win, r, s, k, lo, hi) ==> Reserved(lo, hi, h, t)
  }

  /** The stores before and after the literal makes its element `k`. */
  ghost predicate StageAt(w: World, win: seq<Statement>, r: nat, s: State, k: nat, lo: Store, hi: Store) {
    var es := Elements(win, r);
    && Making(w, es, k, s).Some? && Making(w, es, k, s).value.1 == lo
    && Making(w, es, k + 1, s).Some? && Making(w, es, k + 1, s).value.1 == hi
  }

  /** The folded side: the literal in place. */
  ghost predicate LiteralIn(r: nat, t: State, b: nat, literal: Obj) {
    Reg(r) in t.env && t.env[Reg(r)] == Ref(b) && b in t.store.heap && t.store.heap[b] == literal && b < t.store.next
  }

  ghost predicate Simulates(w: World, win: seq<Statement>, i: nat, r: nat, s: State, length: nat, h: Ren, o: State, t: State)
    requires i <= |win| && Making(w, Elements(win, r), LiteralLen(win, r), s).Some?
  {
    var (m, st) := Making(w, Elements(win, r), LiteralLen(win, r), s).value;
    && Standing(win, i, r, s, o) && SameState(h, o, t, Some(Reg(r)))
    && s.store.next !in h && st.next !in h.Values && Grows(Old(s), h)
    && LiteralIn(r, t, st.next, LiteralObj(LiteralLen(win, r), m))
    && HoldsSoFar(win, i, r, h, o.store.heap[s.store.next], length, m)
    && AllReserved(w, win, i, r, s, h, t)
  }

  lemma StartSimulates(w: World, win: seq<Statement>, r: nat, s: State, obj: Obj)
    requires MovableWindow(win, r) && Closed(s.env, s.store) && obj.kind == ArrayKind && obj.slots == map[] && obj.props == map[]
    requires Making(w, Elements(win, r), LiteralLen(win, r), s).Some?
    ensures var (m, st) := Making(w, Elements(win, r), LiteralLen(win, r), s).value;
            Simulates(w, win, 0, r, s, obj.length, Old(s), WithNew(s, r, obj), WithMade(s, r, LiteralLen(win, r), m, st))
  {
    var n, h := LiteralLen(win, r), Old(s);
    var (m, st) := Making(w, Elements(win, r), n, s).value;
    var o, t := WithNew(s, r, obj), WithMade(s, r, n, m, st);
    StartsStanding(win, r, s, obj);
    MakingGrows(w, Elements(win, r), n, s);
    StartStates(s, r, obj, n, m, st);
    assert win[..0] == [];
    forall k: nat, lo: Store, hi: Store | k < n && StoredLater(win, 0, r, k) && StageAt(w, win, r, s, k, lo, hi)
      ensures Reserved(lo, hi, h, t)
    {
      StageInside(w, win, r, s, k, lo, hi);
    }
  }

  lemma StartStates(s: State, r: nat, obj: Obj, n: nat, m: map<nat, V>, st: Store)
    requires Closed(s.env, s.store) && Grown(s.env, s.store, st) && s.store.next <= st.next
    ensures SameState(Old(s), WithNew(s, r, obj), WithMade(s, r, n, m, st), Some(Reg(r)))
  {
    ClosedIsSame(s);
    var h, o, t := Old(s), WithNew(s, r, obj), WithMade(s, r, n, m, st);
    assert Extends(s.store.heap, o.store.heap) && Extends(s.store.heap, t.store.heap);
    SameObjectsLater(h, h, h.Keys, s.store.heap, s.store.heap, o.store.heap, t.store.heap);
    EnvsButOne(h, s.env, Reg(r), Ref(s.store.next), Ref(st.next));
  }

  lemma EnvsButOne(h: Ren, env: Env, r: Value, v: V, u: V)
    requires SameEnv(h, env, env, None)
    ensures SameEnv(h, env[r := v], env[r := u], Some(r))
  {
    var env1, env2 := env[r := v], env[r := u];
    forall x: Value | x != r
      ensures Same(h, Lookup(env1, x), Lookup(env2, x))
    {
      assert Same(h, Lookup(env, x), Lookup(env, x));
    }
  }

  /** A stage of the making lies between its start and its end. */
  lemma StageInside(w: World, win: seq<Statement>, r: nat, s: State, k: nat, lo: Store, hi: Store)
    requires Closed(s.env, s.store) && k < LiteralLen(win, r) && StageAt(w, win, r, s, k, lo, hi)
    requires Making(w, Elements(win, r), LiteralLen(win, r), s).Some?
    ensures var st := Making(w, Elements(win, r), LiteralLen(win, r), s).value.1;
            Extends(hi.heap, st.heap) && hi.next <= st.next && s.store.next <= lo.next <= hi.next
  {
    var es := Elements(win, r);
    MakingStages(w, es, k + 1, LiteralLen(win, r), s);
    MakingStages(w, es, k, k + 1, s);
    MakingGrows(w, es, k, s);
  }

  /** Different elements are made one after the other. */
  lemma StagesApart(w: World, win: seq<Statement>, r: nat, s: State, j: nat, lo: Store, hi: Store, k: nat, lo': Store, hi': Store)
    requires Closed(s.env, s.store) && j != k && StageAt(w, win, r, s, j, lo, hi) && StageAt(w, win, r, s, k, lo', hi')
    ensures hi.next <= lo'.next || hi'.next <= lo.next
  {
    var es := Elements(win, r);
    if j < k {
      MakingStages(w, es, j + 1, k, s);
    } else {
      MakingStages(w, es, k + 1, j, s);
    }
  }

  // ---------- A store

  /** Both renamings in one. */
  function Both(h: Ren, g: Ren): Ren {
    map id | id in h.Keys + g.Keys :: if id in h then h[id] else g[id]
  }

  lemma BothOneToOne(h: Ren, g: Ren)
    requires OneToOne(h) && OneToOne(g)
    requires forall id :: id in g ==> if id in h then g[id] == h[id] else g[id] !in h.Values
    ensures OneToOne(Both(h, g)) && Grows(h, Both(h, g)) && Grows(g, Both(h, g))
  {
    assert forall id :: id in h ==> h[id] in h.Values;
  }

  /** The objects a stored value is made of find their counterparts among those the literal made for it. */
  lemma MergeSame(olds: Ren, h: Ren, g: Ren, o: State, t: State, except: Option<Value>, o1: Store, lo: Store, hi: Store)
    requires SameState(h, o, t, except) && Grows(olds, h) && Follows(olds, o.store, lo, g, o1, hi) && Reserved(lo, hi, h, t)
    requires hi.next <= t.store.next
    ensures var f := Both(h, g);
            && Grows(h, f) && Grows(g, f) && SameState(f, State(o.env, o1), t, except)
            && (forall id :: id in f && id !in h ==> o.store.next <= id && lo.next <= f[id] < hi.next)
  {
    var f := Both(h, g);
    forall id | id in g
      ensures if id in h then g[id] == h[id] else g[id] !in h.Values && o.store.next <= id && lo.next <= g[id] < hi.next
    {
      if id in h {
        assert id < o.store.next && id in olds;
      } else {
        assert id !in olds;
      }
    }
    BothOneToOne(h, g);
    SameEnvLater(h, f, o.env, t.env, except);
    MergedObjects(olds, h, g, o, t, o1, lo, hi);
  }

  lemma MergedObjects(olds: Ren, h: Ren, g: Ren, o: State, t: State, o1: Store, lo: Store, hi: Store)
    requires SameObjects(h, h.Keys, o.store.heap, t.store.heap) && Extends(o.store.heap, o1.heap)
    requires SameObjects(g, g.Keys - olds.Keys, o1.heap, hi.heap) && Grows(olds, h)
    requires Grows(h, Both(h, g)) && Grows(g, Both(h, g)) && Reserved(lo, hi, h, t)
    requires forall id :: id in g && id !in h ==> lo.next <= g[id] < hi.next
    ensures SameObjects(Both(h, g), Both(h, g).Keys, o1.heap, t.store.heap)
  {
    var f := Both(h, g);
    forall id | id in f.Keys
      ensures id in o1.heap && f[id] in t.store.heap && SameObj(f, o1.heap[id], t.store.heap[f[id]])
    {
      if id in h {
        assert id in h.Keys;
        SameObjLater(h, f, o.store.heap[id], t.store.heap[h[id]]);
      } else {
        assert id in g.Keys - olds.Keys;
        SameObjLater(g, f, o1.heap[id], hi.heap[g[id]]);
      }
    }
  }

  /** Where the value of the store at `i` is worked out: it yields something, and what it makes extends
      the renaming so that, unless the slot is stored to again, the literal holds its counterpart. */
  ghost predicate PutMatches(w: World, win: seq<Statement>, i: nat, r: nat, s: State, h: Ren, o: State, t: State, h': Ren)
    requires i < |win| && IsPut(win[i], r) && Making(w, Elements(win, r), LiteralLen(win, r), s).Some?
  {
    var x, k := Eval(w, win[i].value, o.env, o.store), PutIndex(win[i], r);
    var (m, st) := Making(w, Elements(win, r), LiteralLen(win, r), s).value;
    && x.Some? && SameState(h', State(o.env, x.value.1), t, Some(Reg(r))) && Grows(h, h')
    && (forall id :: id in h' && id !in h ==> o.store.next <= id && h'[id] != st.next)
    && (!StoredLater(win, i + 1, r, k) ==> k in m && Same(h', x.value.0, m[k]))
    && AllReserved(w, win, i + 1, r, s, h', t)
  }

  lemma LaterStill(win: seq<Statement>, i: nat, r: nat, k: nat)
    requires StoredLater(win, i + 1, r, k)
    ensures StoredLater(win, i, r, k)
  {
  }

  /** A value that is written over later: what it makes is never seen again. */
  lemma OverwrittenMatches(w: World, win: seq<Statement>, i: nat, r: nat, s: State, length: nat, h: Ren, o: State, t: State)
    requires MovableWindow(win, r) && i < |win| && IsPut(win[i], r) && StoredLater(win, i + 1, r, PutIndex(win[i], r))
    requires Making(w, Elements(win, r), LiteralLen(win, r), s).Some? && Simulates(w, win, i, r, s, length, h, o, t)
    ensures PutMatches(w, win, i, r, s, h, o, t, h)
  {
    var e := win[i].value;
    var m :| i + 1 <= m < |win| && IsPut(win[m], r) && PutIndex(win[m], r) == PutIndex(win[i], r);
    assert PairSafe(win[i], win[m], r) && PutMovable(win[i], r);
    EvalTotal(w, e, o.env, o.store);
    EvalClosed(w, e, o.env, o.store);
    NextRises(w, e, o.env, o.store);
    StoreGrows(h, o, t, Some(Reg(r)), Eval(w, e, o.env, o.store).value.1);
    FewerReserved(w, win, i, r, s, h, t);
  }

  lemma StoreGrows(h: Ren, o: State, t: State, except: Option<Value>, st: Store)
    requires SameState(h, o, t, except) && Grown(o.env, o.store, st) && o.store.next <= st.next
    ensures SameState(h, State(o.env, st), t, except)
  {
    SameObjectsLater(h, h, h.Keys, o.store.heap, t.store.heap, st.heap, t.store.heap);
  }

  lemma FewerReserved(w: World, win: seq<Statement>, i: nat, r: nat, s: State, h: Ren, t: State)
    requires Making(w, Elements(win, r), LiteralLen(win, r), s).Some? && AllReserved(w, win, i, r, s, h, t)
    ensures AllReserved(w, win, i + 1, r, s, h, t)
  {
    forall k: nat, lo: Store, hi: Store |
      k < LiteralLen(win, r) && StoredLater(win, i + 1, r, k) && StageAt(w, win, r, s, k, lo, hi)
      ensures Reserved(lo, hi, h, t)
    {
      LaterStill(win, i, r, k);
    }
  }

  /** The literal's element `k` and the stores around its making. */
  lemma ElementStage(w: World, win: seq<Statement>, r: nat, s: State, k: nat) returns (lo: Store, hi: Store)
    requires MovableWindow(win, r) && Closed(s.env, s.store) && k in Elements(win, r)
    requires Making(w, Elements(win, r), LiteralLen(win, r), s).Some?
    ensures k < LiteralLen(win, r) && StageAt(w, win, r, s, k, lo, hi) && AsIn(Elements(win, r)[k], s, s.env, lo)
    ensures var m := Making(w, Elements(win, r), LiteralLen(win, r), s).value.0;
            k in m && Eval(w, Elements(win, r)[k], s.env, lo) == Some((m[k], hi))
  {
    var es, n := Elements(win, r), LiteralLen(win, r);
    AllBelow(win, r);
    assert k in Below(es, n);
    MakingStages(w, es, k + 1, n, s);
    MakingStep(w, es, k, s);
    MakingGrows(w, es, k, s);
    lo, hi := Making(w, es, k, s).value.1, Making(w, es, k + 1, s).value.1;
    AsInLater(es[k], s, lo);
  }

  lemma FinalMatches(w: World, win: seq<Statement>, i: nat, r: nat, s: State, length: nat, h: Ren, o: State, t: State) returns (h': Ren)
    requires MovableWindow(win, r) && Closed(s.env, s.store) && Blind(w)
    requires i < |win| && IsPut(win[i], r) && !StoredLater(win, i + 1, r, PutIndex(win[i], r))
    requires Making(w, Elements(win, r), LiteralLen(win, r), s).Some? && Simulates(w, win, i, r, s, length, h, o, t)
    requires AsIn(win[i].value, s, o.env, o.store)
    ensures PutMatches(w, win, i, r, s, h, o, t, h')
  {
    var e, k := win[i].value, PutIndex(win[i], r);
    LastStoreCounts(win, i, r);
    var lo, hi := ElementStage(w, win, r, s, k);
    var g := WorkedOutAlike(w, e, s, o.env, o.store, s.env, lo);
    assert StoredLater(win, i, r, k);
    StageInside(w, win, r, s, k, lo, hi);
    MergeSame(Old(s), h, g, o, t, Some(Reg(r)), Eval(w, e, o.env, o.store).value.1, lo, hi);
    h' := Both(h, g);
    SameLater(g, h', Eval(w, e, o.env, o.store).value.0, Making(w, Elements(win, r), LiteralLen(win, r), s).value.0[k]);
    StillReserved(w, win, i, r, s, h, h', t, k, lo, hi);
  }

  lemma StillReserved(w: World, win: seq<Statement>, i: nat, r: nat, s: State, h: Ren, h': Ren, t: State, k: nat, lo: Store, hi: Store)
    requires Making(w, Elements(win, r), LiteralLen(win, r), s).Some? && Closed(s.env, s.store)
    requires AllReserved(w, win, i, r, s, h, t) && StageAt(w, win, r, s, k, lo, hi) && !StoredLater(win, i + 1, r, k)
    requires Grows(h, h') && forall id :: id in h' && id !in h ==> lo.next <= h'[id] < hi.next
    ensures AllReserved(w, win, i + 1, r, s, h', t)
  {
    forall j: nat, lo': Store, hi': Store |
      j < LiteralLen(win, r) && StoredLater(win, i + 1, r, j) && StageAt(w, win, r, s, j, lo', hi')
      ensures Reserved(lo', hi', h', t)
    {
      LaterStill(win, i, r, j);
      StagesApart(w, win, r, s, j, lo', hi', k, lo, hi);
      assert Reserved(lo', hi', h, t);
      forall id | lo'.next <= id < hi'.next
        ensures id !in h'.Values
      {
        forall x | x in h'
          ensures h'[x] != id
        {
          if x in h {
            assert h[x] in h.Values;
          }
        }
      }
    }
  }

  lemma LengthStep(few: seq<Statement>, q: Statement, r: nat, length: nat)
    ensures var before, after := LengthAfter(few, r, length), LengthAfter(few + [q], r, length);
            if !IsPut(q, r) then after == before
            else after == if PutIndex(q, r) >= before then PutIndex(q, r) + 1 else before
  {
    assert (few + [q])[..|few|] == few;
    MaxIsStored(few, r);
    MaxIsStored(few + [q], r);
    if IsPut(q, r) {
      assert PutIndex(q, r) in Elements(few + [q], r);
    }
  }

  lemma HoldsMore(win: seq<Statement>, i: nat, r: nat, h: Ren, h': Ren, obj: Obj, length: nat, m: map<nat, V>, v: V)
    requires i < |win| && IsPut(win[i], r) && HoldsSoFar(win, i, r, h, obj, length, m) && Grows(h, h')
    requires !StoredLater(win, i + 1, r, PutIndex(win[i], r)) ==> PutIndex(win[i], r) in m && Same(h', v, m[PutIndex(win[i], r)])
    ensures HoldsSoFar(win, i + 1, r, h', Set(obj, Slot(PutIndex(win[i], r)), v), length, m)
  {
    var k := PutIndex(win[i], r);
    var obj' := Set(obj, Slot(k), v);
    OneFurther(win, i);
    LengthStep(win[..i], win[i], r, length);
    forall j: nat
      ensures j in obj'.slots <==> StoredBefore(win, i + 1, r, j)
    {
      StoredNow(win, i, r, j);
    }
    forall j | j in obj'.slots && !StoredLater(win, i + 1, r, j)
      ensures j in m && Same(h', obj'.slots[j], m[j])
    {
      if j != k {
        StillStoredLater(win, i, r, j);
        SameLater(h, h', obj.slots[j], m[j]);
      }
    }
  }

  lemma StoredNow(win: seq<Statement>, i: nat, r: nat, j: nat)
    requires i < |win|
    ensures StoredBefore(win, i + 1, r, j) <==> StoredBefore(win, i, r, j) || (IsPut(win[i], r) && PutIndex(win[i], r) == j)
  {
  }

  lemma StillStoredLater(win: seq<Statement>, i: nat, r: nat, j: nat)
    requires i < |win| && (IsPut(win[i], r) ==> PutIndex(win[i], r) != j)
    ensures StoredLater(win, i, r, j) <==> StoredLater(win, i + 1, r, j)
  {
  }

  lemma HoldsStill(win: seq<Statement>, i: nat, r: nat, h: Ren, h': Ren, obj: Obj, length: nat, m: map<nat, V>)
    requires i < |win| && !IsPut(win[i], r) && HoldsSoFar(win, i, r, h, obj, length, m) && Grows(h, h')
    ensures HoldsSoFar(win, i + 1, r, h', obj, length, m)
  {
    OneFurther(win, i);
    LengthStep(win[..i], win[i], r, length);
    forall j: nat
      ensures StoredBefore(win, i + 1, r, j) <==> StoredBefore(win, i, r, j)
    {
      StoredNow(win, i, r, j);
    }
    forall j | j in obj.slots && !StoredLater(win, i + 1, r, j)
      ensures j in m && Same(h', obj.slots[j], m[j])
    {
      StillStoredLater(win, i, r, j);
      SameLater(h, h', obj.slots[j], m[j]);
    }
  }

  lemma ArrayApart(h: Ren, o: State, t: State, except: Option<Value>, a: nat, obj: Obj)
    requires SameState(h, o, t, except) && a !in h && a in o.store.heap
    ensures SameState(h, WithArray(o, a, obj), t, except)
  {
  }

  /** A store keeps the two sides together. */
  lemma PutSimulates(w: World, win: seq<Statement>, i: nat, r: nat, s: State, length: nat, h: Ren, o: State, t: State) returns (h': Ren)
    requires MovableWindow(win, r) && Closed(s.env, s.store) && Blind(w) && i < |win| && IsPut(win[i], r)
    requires Making(w, Elements(win, r), LiteralLen(win, r), s).Some? && Simulates(w, win, i, r, s, length, h, o, t)
    ensures var x := Exec(w, win[i], o); x.Running? && Simulates(w, win, i + 1, r, s, length, h', x.s, t)
  {
    UndisturbedSoFar(win, i, r);
    ValueAsIn(win, i, r, s, o, win[i].value);
    if StoredLater(win, i + 1, r, PutIndex(win[i], r)) {
      h' := h;
      OverwrittenMatches(w, win, i, r, s, length, h, o, t);
    } else {
      h' := FinalMatches(w, win, i, r, s, length, h, o, t);
    }
    PutDone(w, win, i, r, s, length, h, o, t, h');
  }

  lemma PutDone(w: World, win: seq<Statement>, i: nat, r: nat, s: State, length: nat, h: Ren, o: State, t: State, h': Ren)
    requires MovableWindow(win, r) && Closed(s.env, s.store) && i < |win| && IsPut(win[i], r)
    requires Making(w, Elements(win, r), LiteralLen(win, r), s).Some? && Simulates(w, win, i, r, s, length, h, o, t)
    requires PutMatches(w, win, i, r, s, h, o, t, h')
    ensures var x := Exec(w, win[i], o); x.Running? && Simulates(w, win, i + 1, r, s, length, h', x.s, t)
  {
    var q, a := win[i], s.store.next;
    var k, m := PutIndex(q, r), Making(w, Elements(win, r), LiteralLen(win, r), s).value.0;
    assert PutMovable(q, r);
    ExecPutMakes(w, q, r, o, a);
    EvalClosed(w, q.value, o.env, o.store);
    var (v, st) := Eval(w, q.value, o.env, o.store).value;
    PutStands(win, i, r, s, o, st, k, v);
    HoldsMore(win, i, r, h, h', o.store.heap[a], length, m, v);
    assert a !in h' by {
      assert a < o.store.next;
    }
    ArrayApart(h', State(o.env, st), t, Some(Reg(r)), a, Set(st.heap[a], Slot(k), v));
  }

  // ---------- A statement that stays

  lemma ReservedThrough(w: World, win: seq<Statement>, i: nat, r: nat, s: State, h: Ren, t: State, h': Ren, t': State)
    requires Making(w, Elements(win, r), LiteralLen(win, r), s).Some? && Closed(s.env, s.store)
    requires AllReserved(w, win, i, r, s, h, t) && Making(w, Elements(win, r), LiteralLen(win, r), s).value.1.next < t.store.next
    requires Grows(h, h') && (forall id :: id in h' && id !in h ==> t.store.next <= h'[id])
    requires Untouched(h.Values, t.store.heap, t'.store.heap)
    ensures AllReserved(w, win, i + 1, r, s, h', t')
  {
    forall k: nat, lo: Store, hi: Store |
      k < LiteralLen(win, r) && StoredLater(win, i + 1, r, k) && StageAt(w, win, r, s, k, lo, hi)
      ensures Reserved(lo, hi, h', t')
    {
      LaterStill(win, i, r, k);
      StageInside(w, win, r, s, k, lo, hi);
      assert Reserved(lo, hi, h, t);
      forall id | lo.next <= id < hi.next
        ensures id !in h'.Values
      {
        forall x | x in h'
          ensures h'[x] != id
        {
          if x in h {
            assert h[x] in h.Values;
          }
        }
      }
    }
  }

  lemma LiteralStays(r: nat, q: Statement, w: World, t: State, b: nat, literal: Obj, ids: set<nat>)
    requires LiteralIn(r, t, b, literal) && WritesTo(q) != Some(Reg(r)) && b !in ids && ExecTame(w, q, t).Some?
    requires var t' := ExecTame(w, q, t).value; Untouched(ids, t.store.heap, t'.store.heap) && t.store.next <= t'.store.next
    ensures LiteralIn(r, ExecTame(w, q, t).value, b, literal)
  {
    var x := EvalParts(w, StmtParts(q), t.env, t.store).value;
    WritesOne(w, q, x.0, t.env, x.1);
  }

  lemma WritesOne(w: World, q: Statement, vs: seq<V>, env: Env, st: Store)
    requires |vs| == |StmtParts(q)|
    ensures var x := Apply(w, q, vs, env, st);
            x.Some? ==> forall v :: v in env && WritesTo(q) != Some(v) ==> v in x.value.env && x.value.env[v] == env[v]
  {
  }

  /** A statement that stays raises on both sides or keeps them together. */
  lemma KeptSimulates(w: World, win: seq<Statement>, i: nat, r: nat, s: State, length: nat, h: Ren, o: State, t: State) returns (h': Ren)
    requires MovableWindow(win, r) && Closed(s.env, s.store) && Blind(w) && i < |win| && !IsPut(win[i], r)
    requires Making(w, Elements(win, r), LiteralLen(win, r), s).Some? && Simulates(w, win, i, r, s, length, h, o, t)
    ensures var x, y := Exec(w, win[i], o), Exec(w, win[i], t);
      if x.Raised? then x == Raised(o) && y == Raised(t)
      else x.Running? && y.Running? && Simulates(w, win, i + 1, r, s, length, h', x.s, y.s)
  {
    var q, a := win[i], s.store.next;
    var (m, st) := Making(w, Elements(win, r), LiteralLen(win, r), s).value;
    assert KeptSafe(q, r);
    KeptIsTame(q, r);
    KeptStands(w, win, i, r, s, o);
    h' := ExecTameSame(w, q, h, o, t, Some(Reg(r)));
    if ExecTame(w, q, o).Some? {
      var o', t' := ExecTame(w, q, o).value, ExecTame(w, q, t).value;
      ReservedThrough(w, win, i, r, s, h, t, h', t');
      LiteralStays(r, q, w, t, st.next, LiteralObj(LiteralLen(win, r), m), h.Values);
      HoldsStill(win, i, r, h, h', o.store.heap[a], length, m);
      assert a !in h' by {
        assert a < o.store.next;
      }
    }
  }

  // ---------- The whole window

  /** Both run on together, or both have raised in states that correspond but for the array. */
  ghost predicate Together(w: World, win: seq<Statement>, i: nat, r: nat, s: State, length: nat, x: Outcome, y: Outcome)
    requires i <= |win| && Making(w, Elements(win, r), LiteralLen(win, r), s).Some?
  {
    || (x.Running? && y.Running? && exists h: Ren :: Simulates(w, win, i, r, s, length, h, x.s, y.s))
    || (x.Raised? && y.Raised? && exists h: Ren :: SameState(h, x.s, y.s, Some(Reg(r))))
  }

  lemma {:induction false} RunsTogether(w: World, win: seq<Statement>, i: nat, r: nat, s: State, obj: Obj)
    requires MovableWindow(win, r) && Closed(s.env, s.store) && Blind(w) && i <= |win|
    requires obj.kind == ArrayKind && obj.slots == map[] && obj.props == map[]
    requires Making(w, Elements(win, r), LiteralLen(win, r), s).Some?
    ensures var n := LiteralLen(win, r);
            var (m, st) := Making(w, Elements(win, r), n, s).value;
            Together(w, win, i, r, s, obj.length, Run(w, win[..i], WithNew(s, r, obj)), Run(w, Kept(win[..i], r), WithMade(s, r, n, m, st)))
    decreases i
  {
    var n := LiteralLen(win, r);
    var (m, st) := Making(w, Elements(win, r), n, s).value;
    if i == 0 {
      StartSimulates(w, win, r, s, obj);
    } else {
      RunsTogether(w, win, i - 1, r, s, obj);
      TogetherStep(w, win, i - 1, r, s, obj.length, WithNew(s, r, obj), WithMade(s, r, n, m, st));
    }
  }

  lemma TogetherStep(w: World, win: seq<Statement>, i: nat, r: nat, s: State, length: nat, o: State, t: State)
    requires MovableWindow(win, r) && Closed(s.env, s.store) && Blind(w) && i < |win|
    requires Making(w, Elements(win, r), LiteralLen(win, r), s).Some?
    requires Together(w, win, i, r, s, length, Run(w, win[..i], o), Run(w, Kept(win[..i], r), t))
    ensures Together(w, win, i + 1, r, s, length, Run(w, win[..i + 1], o), Run(w, Kept(win[..i + 1], r), t))
  {
    var few, q := win[..i], win[i];
    OneFurther(win, i);
    KeptSnoc(few, q, r);
    RunSnoc(w, few, q, o);
    var x, y := Run(w, few, o), Run(w, Kept(few, r), t);
    if IsPut(q, r) {
      PutTogether(w, win, i, r, s, length, x, y);
    } else {
      RunSnoc(w, Kept(few, r), q, t);
      KeptTogether(w, win, i, r, s, length, x, y);
    }
  }

  lemma OneFurther<T>(s: seq<T>, i: nat)
    requires i < |s|
    ensures s[..i + 1] == s[..i] + [s[i]]
  {
  }

  lemma KeptSnoc(few: seq<Statement>, q: Statement, r: nat)
    ensures Kept(few + [q], r) == if IsPut(q, r) then Kept(few, r) else Kept(few, r) + [q]
  {
    assert (few + [q])[..|few|] == few;
    Unchanged(Kept(few, r));
  }

  lemma PutTogether(w: World, win: seq<Statement>, i: nat, r: nat, s: State, length: nat, x: Outcome, y: Outcome)
    requires MovableWindow(win, r) && Closed(s.env, s.store) && Blind(w) && i < |win| && IsPut(win[i], r)
    requires Making(w, Elements(win, r), LiteralLen(win, r), s).Some? && Together(w, win, i, r, s, length, x, y)
    ensures Together(w, win, i + 1, r, s, length, ThenExec(w, x, win[i]), y)
  {
    if x.Running? {
      var h: Ren :| Simulates(w, win, i, r, s, length, h, x.s, y.s);
      var h' := PutSimulates(w, win, i, r, s, length, h, x.s, y.s);
    }
  }

  lemma KeptTogether(w: World, win: seq<Statement>, i: nat, r: nat, s: State, length: nat, x: Outcome, y: Outcome)
    requires MovableWindow(win, r) && Closed(s.env, s.store) && Blind(w) && i < |win| && !IsPut(win[i], r)
    requires Making(w, Elements(win, r), LiteralLen(win, r), s).Some? && Together(w, win, i, r, s, length, x, y)
    ensures Together(w, win, i + 1, r, s, length, ThenExec(w, x, win[i]), ThenExec(w, y, win[i]))
  {
    if x.Running? {
      var h: Ren :| Simulates(w, win, i, r, s, length, h, x.s, y.s);
      var h' := KeptSimulates(w, win, i, r, s, length, h, x.s, y.s);
      if Exec(w, win[i], x.s).Raised? {
        assert SameState(h, x.s, y.s, Some(Reg(r)));
      }
    }
  }

  // ---------- Where the window ends

  lemma {:induction false} StoredIsElement(win: seq<Statement>, r: nat, k: nat)
    ensures StoredBefore(win, |win|, r, k) <==> k in Elements(win, r)
    decreases |win|
  {
    if win != [] {
      var n := |win| - 1;
      var few := win[..n];
      StoredIsElement(few, r, k);
      if StoredBefore(few, n, r, k) {
        var m :| 0 <= m < n && IsPut(few[m], r) && PutIndex(few[m], r) == k;
        assert win[m] == few[m];
      }
      if StoredBefore(win, |win|, r, k) {
        var m :| 0 <= m < |win| && IsPut(win[m], r) && PutIndex(win[m], r) == k;
        if m < n {
          assert few[m] == win[m];
        }
      }
    }
  }

  /** At the end the array holds what the literal does, at every slot. */
  lemma SlotsMeet(w: World, win: seq<Statement>, r: nat, s: State, length: nat, h: Ren, o: State, t: State)
    requires MovableWindow(win, r) && Closed(s.env, s.store) && Making(w, Elements(win, r), LiteralLen(win, r), s).Some?
    requires Simulates(w, win, |win|, r, s, length, h, o, t)
    ensures var obj, m := o.store.heap[s.store.next], Making(w, Elements(win, r), LiteralLen(win, r), s).value.0;
            obj.kind == ArrayKind && obj.props == map[] && obj.length == LengthAfter(win, r, length) && SameMap(h, obj.slots, m)
  {
    var obj, m := o.store.heap[s.store.next], Making(w, Elements(win, r), LiteralLen(win, r), s).value.0;
    MakingGrows(w, Elements(win, r), LiteralLen(win, r), s);
    AllBelow(win, r);
    assert win[..|win|] == win;
    forall k: nat
      ensures k in obj.slots <==> k in m
    {
      StoredIsElement(win, r, k);
      assert k in Elements(win, r) <==> k in Below(Elements(win, r), LiteralLen(win, r));
    }
    assert obj.slots.Keys == m.Keys;
    forall k | k in obj.slots
      ensures Same(h, obj.slots[k], m[k])
    {
      assert !StoredLater(win, |win|, r, k);
    }
  }

  lemma LengthsMeet(win: seq<Statement>, r: nat, length: nat)
    requires MovableWindow(win, r)
    ensures LengthAfter(win, r, length) == LiteralLen(win, r) <==> length <= LiteralLen(win, r)
  {
    LiteralLenExact(win, r);
  }

  /** With the array paired with the literal, the states correspond if the lengths agree; otherwise no
      renaming makes them correspond. */
  lemma EndsMeet(h: Ren, o: State, t: State, r: nat, a: nat, b: nat, obj: Obj, literal: Obj)
    requires SameState(h, o, t, Some(Reg(r))) && a !in h && b !in h.Values
    requires Holding(o, a, r) && o.store.heap[a] == obj && LiteralIn(r, t, b, literal)
    requires obj.kind == literal.kind && obj.props == map[] == literal.props && SameMap(h, obj.slots, literal.slots)
    ensures obj.length == literal.length <==> exists g: Ren :: SameState(g, o, t, None)
  {
    if obj.length == literal.length {
      PairedStates(h, o, t, r, a, b);
    }
    forall g: Ren | SameState(g, o, t, None)
      ensures obj.length == literal.length
    {
      LengthsAgree(g, o, t, r, a, b);
    }
  }

  lemma LengthsAgree(g: Ren, o: State, t: State, r: nat, a: nat, b: nat)
    requires SameState(g, o, t, None) && Lookup(o.env, Reg(r)) == Ref(a) && Lookup(t.env, Reg(r)) == Ref(b)
    ensures a in o.store.heap && b in t.store.heap && o.store.heap[a].length == t.store.heap[b].length
  {
    assert Same(g, Lookup(o.env, Reg(r)), Lookup(t.env, Reg(r)));
    assert a in g.Keys;
  }

  lemma PairedStates(h: Ren, o: State, t: State, r: nat, a: nat, b: nat)
    requires SameState(h, o, t, Some(Reg(r))) && a !in h && b !in h.Values
    requires Holding(o, a, r) && b in t.store.heap && LiteralIn(r, t, b, t.store.heap[b]) && SameObj(h, o.store.heap[a], t.store.heap[b])
    ensures SameState(h[a := b], o, t, None)
  {
    var f := h[a := b];
    forall i, j | i in f && j in f && f[i] == f[j]
      ensures i == j
    {
      assert i != a ==> h[i] in h.Values;
      assert j != a ==> h[j] in h.Values;
    }
    forall v: Value
      ensures Same(f, Lookup(o.env, v), Lookup(t.env, v))
    {
      if v != Reg(r) {
        SameLater(h, f, Lookup(o.env, v), Lookup(t.env, v));
      }
    }
    forall id | id in f.Keys
      ensures id in o.store.heap && f[id] in t.store.heap && SameObj(f, o.store.heap[id], t.store.heap[f[id]])
    {
      assert id != a ==> id in h.Keys;
      SameObjLater(h, f, o.store.heap[id], t.store.heap[f[id]]);
    }
  }
}
