/** What a window leaves behind when it raises: where the original program stops and where the folded
    one does, the locations other than the array's register hold the same. */
module ArrayRaises {
  import opened Options
  import opened Ir
  import opened Machine
  import opened MachineFrames
  import opened ArrayLiterals
  import opened ArrayMeaning

  /** No stored value that may raise is moved ahead of a statement that writes a location. */
  ghost predicate Orderly(win: seq<Statement>, r: nat) {
    forall k, m :: 0 <= k < m < |win| && !IsPut(win[k], r) && IsPut(win[m], r) && ReadsHeap(win[m].value) ==>
      WritesTo(win[k]).None?
  }

  ghost predicate WindowsOrderly(ss: seq<Statement>)
    decreases |ss|
  {
    if ss == [] then true
    else if FoldsFirst(ss) then Orderly(Window(ss), NewArrayIn(ss[0]).value.0) && WindowsOrderly(BehindWindow(ss))
    else WindowsOrderly(ss[1..])
  }

  /** From `o` to `s` no location was written and no object but `a` was changed. */
  ghost predicate Unwritten(o: State, s: State, a: nat) {
    s.env == o.env && forall id :: id in o.store.heap && id != a ==> id in s.store.heap && s.store.heap[id] == o.store.heap[id]
  }

  ghost predicate Writeless(win: seq<Statement>, r: nat) {
    forall k :: 0 <= k < |win| && !IsPut(win[k], r) ==> WritesTo(win[k]).None? && !WritesHeap(win[k])
  }

  lemma KeptUnwritten(w: World, q: Statement, r: nat, o: State, a: nat)
    requires KeptSafe(q, r) && Holding(o, a, r) && WritesTo(q).None? && !WritesHeap(q)
    ensures var x := Exec(w, q, o);
            (x.Raised? || x.Running?) && Unwritten(o, x.s, a)
  {
    KeptIsTame(q, r);
    var es := StmtParts(q);
    var v := EvalParts(w, es, o.env, o.store);
    if v.Some? {
      PartsSmaller(Bundle(es));
      EvalAllClosed(w, Bundle(es), es, o.env, o.store);
      assert Apply(w, q, v.value.0, o.env, v.value.1) == Some(State(o.env, v.value.1));
    }
  }

  lemma UnwrittenTwice(o: State, s: State, t: State, a: nat)
    requires Unwritten(o, s, a) && Unwritten(s, t, a)
    ensures Unwritten(o, t, a)
  {
  }

  /** A window whose kept statements write nothing changes nothing but the array, however it ends. */
  lemma {:induction false} WritelessRun(w: World, win: seq<Statement>, r: nat, a: nat, o: State)
    requires SafeWindow(win, r) && Writeless(win, r) && Holding(o, a, r)
    ensures var x := Run(w, win, o);
            (x.Raised? || x.Running?) && Unwritten(o, x.s, a)
    decreases |win|
  {
    if win != [] {
      var few, q := win[..|win| - 1], win[|win| - 1];
      assert win == few + [q];
      SafePrefix(win, r);
      WritelessRun(w, few, r, a, o);
      WindowMatched(w, few, r, a, o, o);
      RunSnoc(w, few, q, o);
      var x := Run(w, few, o);
      if x.Running? {
        if IsPut(q, r) {
          ExecPut(w, q, r, x.s, a);
        } else {
          KeptUnwritten(w, q, r, x.s, a);
        }
        UnwrittenTwice(o, x.s, Exec(w, q, x.s).s, a);
      }
    }
  }

  lemma OrderlyPrefix(win: seq<Statement>, r: nat)
    requires Orderly(win, r) && win != []
    ensures Orderly(win[..|win| - 1], r)
  {
  }

  /** Ahead of a value that may raise, an orderly safe window writes nothing. */
  lemma WritelessAhead(few: seq<Statement>, q: Statement, r: nat)
    requires SafeWindow(few + [q], r) && Orderly(few + [q], r) && IsPut(q, r) && ReadsHeap(q.value)
    ensures Writeless(few, r)
  {
    var win := few + [q];
    LastIsPut(few, q, r);
    assert win[|few|] == q;
    forall k | 0 <= k < |few| && !IsPut(few[k], r)
      ensures WritesTo(few[k]).None? && !WritesHeap(few[k])
    {
      assert win[k] == few[k];
    }
  }

  /** When some stored value cannot be worked out, the original raises with nothing written yet. */
  lemma {:induction false} RaisesEarly(w: World, win: seq<Statement>, r: nat, a: nat, o: State)
    requires SafeWindow(win, r) && Orderly(win, r) && Holding(o, a, r) && !AllDefined(w, win, r, o)
    ensures var x := Run(w, win, o); x.Raised? && Unwritten(o, x.s, a)
    decreases |win|
  {
    var few, q := win[..|win| - 1], win[|win| - 1];
    assert win == few + [q];
    SafePrefix(win, r);
    OrderlyPrefix(win, r);
    RunSnoc(w, few, q, o);
    DefinedSnoc(w, few, q, r, o);
    if !AllDefined(w, few, r, o) {
      RaisesEarly(w, few, r, a, o);
    } else {
      LastIsPut(few, q, r);
      if !ReadsHeap(q.value) {
        EvalTotal(w, q.value, o.env, o.store);
      }
      WritelessAhead(few, q, r);
      WritelessRun(w, few, r, a, o);
      LastRaises(w, few, q, r, a, o);
    }
  }

  lemma LastRaises(w: World, few: seq<Statement>, q: Statement, r: nat, a: nat, o: State)
    requires SafeWindow(few + [q], r) && IsPut(q, r) && Holding(o, a, r) && ValueIn(w, q.value, o).None?
    requires Run(w, few + [q], o) == ThenExec(w, Run(w, few, o), q)
    requires var x := Run(w, few, o); (x.Raised? || x.Running?) && Unwritten(o, x.s, a)
    ensures var x := Run(w, few + [q], o); x.Raised? && Unwritten(o, x.s, a)
  {
    LastIsPut(few, q, r);
    var x := Run(w, few, o);
    if x.Running? {
      WindowMatched(w, few, r, a, o, o);
      ValueThrough(w, few, r, a, o, q.value);
      ExecPut(w, q, r, x.s, a);
    }
  }

  // ---------- The two states compared

  /** Outside the register `r` and the array `a` it holds, the raised states agree: every other
      location holds the same and refers to nothing but what both heaps have alike. */
  ghost predicate ApartFrom(o: State, t: State, r: nat, a: nat) {
    && (forall v: Value :: v != Reg(r) ==> Lookup(o.env, v) == Lookup(t.env, v))
    && (forall id :: id in t.store.heap && id != a ==> id in o.store.heap && o.store.heap[id] == t.store.heap[id])
    && Closed(t.env, t.store) && Sealed(t.env, t.store.heap, a, Reg(r))
  }

  /** Equal, or both raised with states that agree outside one array. */
  ghost predicate AgreeOutsideArray(x: Outcome, y: Outcome) {
    x == y || (x.Raised? && y.Raised? && exists r: nat, a: nat :: ApartFrom(x.s, y.s, r, a))
  }

  /** Equal, or both raised. */
  ghost predicate AgreeUnlessRaised(x: Outcome, y: Outcome) {
    x == y || (x.Raised? && y.Raised?)
  }

  lemma {:induction false} RunKeepsClosed(w: World, ss: seq<Statement>, s: State)
    requires (forall q :: q in ss ==> Tame(q) && !IsNewArray(q)) && Closed(s.env, s.store)
    ensures var x := Run(w, ss, s); (x.Raised? || x.Running?) && Closed(x.s.env, x.s.store)
    decreases |ss|
  {
    if ss != [] {
      var x := Exec(w, ss[0], s);
      assert ss[0] in ss;
      if x.Running? {
        TameClosed(w, ss[0], s);
        RunKeepsClosed(w, ss[1..], x.s);
      }
    }
  }

  lemma {:induction false} KeptAreTame(win: seq<Statement>, r: nat)
    requires MovableWindow(win, r)
    ensures forall q :: q in Kept(win, r) ==> Tame(q) && !IsNewArray(q) && NewArrayIn(q).None?
    decreases |win|
  {
    if win != [] {
      var few, q := win[..|win| - 1], win[|win| - 1];
      MovablePrefix(win, r);
      KeptAreTame(few, r);
      if !IsPut(q, r) {
        KeptIsTame(q, r);
      }
    }
  }

  /** States that differ in the array alone agree outside it. */
  lemma AlikeIsApart(o: State, t: State, r: nat, a: nat)
    requires Holding(o, a, r) && Alike(o, t, a) && Closed(t.env, t.store)
    ensures ApartFrom(o, t, r, a)
  {
  }
}
