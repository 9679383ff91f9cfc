/** What the scan behind a new array stops at, said of the program text alone.

    The search for the array's register, and the search for effects, each look through some forms of
    expression and not through others. Where they look is stated here as the existence of a chain of
    subexpressions that leads to what is searched for and passes through none of the skipped forms. */
module ArrayScan {
  import opened Bytes
  import opened Options
  import opened Ir
  import opened Machine
  import opened ExprPaths
  import opened ArrayLiterals
  import opened ArrayMeaning

  // ---------- Parts are direct subexpressions

  lemma {:induction false} PresentExactly(elements: seq<Option<Expression>>, p: Expression)
    ensures p in Present(elements) <==> Some(p) in elements
  {
    if elements != [] {
      PresentExactly(elements[..|elements| - 1], p);
      assert elements == elements[..|elements| - 1] + [elements[|elements| - 1]];
    }
  }

  predicate InProp(p: Expression, q: ObjectProperty) {
    p == q.value || q.key == Computed(p)
  }

  lemma InThree<T>(a: seq<T>, b: seq<T>, c: seq<T>, x: T)
    ensures x in a + b + c <==> x in a || x in b || x in c
  {
  }

  lemma KeyPartsExactly(key: PropertyKey, p: Expression)
    ensures p in KeyParts(key) <==> key == Computed(p)
  {
  }

  lemma LastProp(props: seq<ObjectProperty>, p: Expression)
    requires props != []
    ensures var n := |props| - 1; p in PropParts(props) <==> p in PropParts(props[..n]) || InProp(p, props[n])
  {
    var n := |props| - 1;
    InThree(PropParts(props[..n]), KeyParts(props[n].key), [props[n].value], p);
    KeyPartsExactly(props[n].key, p);
  }

  ghost predicate InSome(props: seq<ObjectProperty>, p: Expression) {
    exists q :: q in props && InProp(p, q)
  }

  lemma OneMoreProp(props: seq<ObjectProperty>, p: Expression)
    requires props != []
    ensures var n := |props| - 1; InSome(props, p) <==> InSome(props[..n], p) || InProp(p, props[n])
  {
    var few, last := props[..|props| - 1], props[|props| - 1];
    assert props == few + [last];
    if InSome(few, p) {
      var q :| q in few && InProp(p, q);
      assert q in few + [last];
    }
    if InProp(p, last) {
      assert last in few + [last];
    }
  }

  lemma {:induction false} PropPartsExactly(props: seq<ObjectProperty>, p: Expression)
    ensures p in PropParts(props) <==> InSome(props, p)
  {
    if props != [] {
      PropPartsExactly(props[..|props| - 1], p);
      LastProp(props, p);
      OneMoreProp(props, p);
    }
  }

  lemma PartsExactly(e: Expression, p: Expression)
    requires !IsForeign(e)
    ensures p in Parts(e) <==> DirectlyIn(p, e)
  {
    match e
    case ArrayLit(elements) => PresentExactly(elements, p);
    case ObjectLit(props) =>
      PropPartsExactly(props, p);
      assert forall q :: q in props ==> (InProp(p, q) <==> p == q.value || q.key == Computed(p));
    case _ =>
  }

  // ---------- The search for the register

  /** Forms the search for a register does not look into. */
  predicate Hides(e: Expression) {
    e.TemplateLiteral? || e.Spread? || e.Assignment? || e.Yield? || e.Await? || e.JsxElement?
  }

  predicate Shown(c: seq<Expression>) {
    forall i :: 0 <= i < |c| - 1 ==> !Hides(c[i])
  }

  /** The register stands in the expression, and not only inside forms that hide it. */
  ghost predicate Shows(e: Expression, r: nat) {
    exists c :: Leads(c, e, Val(Reg(r))) && Shown(c)
  }

  lemma ShowsItself(r: nat)
    ensures Shows(Val(Reg(r)), r)
  {
    var c := [Val(Reg(r))];
    assert Leads(c, Val(Reg(r)), Val(Reg(r))) && Shown(c);
  }

  lemma ShowsThrough(e: Expression, p: Expression, r: nat)
    requires DirectlyIn(p, e) && !Hides(e) && Shows(p, r)
    ensures Shows(e, r)
  {
    var c :| Leads(c, p, Val(Reg(r))) && Shown(c);
    ChainLonger(e, c);
    assert Leads([e] + c, e, Val(Reg(r))) && Shown([e] + c);
  }

  lemma FoundInCall(e: Expression, r: nat) returns (p: Expression)
    requires (e.Call? || e.New?) && UsesRegister(e, r)
    ensures DirectlyIn(p, e) && p < e && UsesRegister(p, r)
  {
    p := e.callee;
    if !UsesRegister(e.callee, r) {
      var k :| 0 <= k < |e.arguments| && UsesRegister(e.arguments[k], r);
      p := e.arguments[k];
    }
  }

  /** What the search finds it finds in a direct subexpression. */
  lemma FoundBelow(e: Expression, r: nat) returns (p: Expression)
    requires UsesRegister(e, r) && !e.Val?
    ensures DirectlyIn(p, e) && p < e && !Hides(e) && UsesRegister(p, r)
  {
    if e.Call? || e.New? {
      p := FoundInCall(e, r);
    } else {
      PartsSmaller(e);
      p :| p in Parts(e) && UsesRegister(p, r);
      PartsExactly(e, p);
    }
  }

  lemma {:induction false} FoundIsShown(e: Expression, r: nat)
    requires UsesRegister(e, r)
    ensures Shows(e, r)
    decreases e
  {
    if e.Val? {
      ShowsItself(r);
    } else {
      var p := FoundBelow(e, r);
      FoundIsShown(p, r);
      ShowsThrough(e, p, r);
    }
  }

  lemma FoundThrough(e: Expression, p: Expression, r: nat)
    requires DirectlyIn(p, e) && !Hides(e) && UsesRegister(p, r)
    ensures UsesRegister(e, r)
  {
    if e.Call? || e.New? {
      if p != e.callee {
        var k :| 0 <= k < |e.arguments| && e.arguments[k] == p;
      }
    } else {
      PartsExactly(e, p);
    }
  }

  lemma {:induction false} ShownIsFound(c: seq<Expression>, r: nat)
    requires IsChain(c) && c[|c| - 1] == Val(Reg(r)) && Shown(c)
    ensures UsesRegister(c[0], r)
    decreases |c|
  {
    if |c| > 1 {
      ChainRest(c);
      assert Shown(c[1..]) by {
        assert forall i :: 0 <= i < |c[1..]| - 1 ==> c[1..][i] == c[i + 1];
      }
      ShownIsFound(c[1..], r);
      FoundThrough(c[0], c[1], r);
    }
  }

  /** The search finds the register exactly where it stands outside the forms that hide it. */
  lemma SearchExactly(e: Expression, r: nat)
    ensures UsesRegister(e, r) <==> Shows(e, r)
  {
    if UsesRegister(e, r) {
      FoundIsShown(e, r);
    }
    if Shows(e, r) {
      var c :| Leads(c, e, Val(Reg(r))) && Shown(c);
      ShownIsFound(c, r);
    }
  }

  // ---------- The search for effects

  predicate IsEffect(e: Expression) {
    e.Call? || e.New? || e.Assignment? || e.Yield? || e.Await? || e.Unknown?
  }

  predicate Open(c: seq<Expression>) {
    forall i :: 0 <= i < |c| - 1 ==> !c[i].Spread? && !c[i].JsxElement?
  }

  /** A call, an assignment or the like stands in the expression, and not only inside spreads and
      elements. */
  ghost predicate Acts(e: Expression) {
    exists c :: IsChain(c) && c[0] == e && IsEffect(c[|c| - 1]) && Open(c)
  }

  lemma {:induction false} EffectIsThere(e: Expression)
    requires SideEffects(e)
    ensures Acts(e)
    decreases e
  {
    PartsSmaller(e);
    if IsEffect(e) {
      assert IsChain([e]) && Open([e]);
    } else {
      var p :| p in Parts(e) && SideEffects(p);
      EffectIsThere(p);
      var c :| IsChain(c) && c[0] == p && IsEffect(c[|c| - 1]) && Open(c);
      PartsExactly(e, p);
      ChainLonger(e, c);
      assert Open([e] + c);
    }
  }

  lemma {:induction false} ActIsFound(c: seq<Expression>)
    requires IsChain(c) && IsEffect(c[|c| - 1]) && Open(c)
    ensures SideEffects(c[0])
    decreases |c|
  {
    if |c| > 1 && !IsEffect(c[0]) {
      ChainRest(c);
      assert Open(c[1..]) by {
        assert forall i :: 0 <= i < |c[1..]| - 1 ==> c[1..][i] == c[i + 1];
      }
      ActIsFound(c[1..]);
      PartsExactly(c[0], c[1]);
    }
  }

  lemma EffectsExactly(e: Expression)
    ensures SideEffects(e) <==> Acts(e)
  {
    if SideEffects(e) {
      EffectIsThere(e);
    }
    if Acts(e) {
      var c :| IsChain(c) && c[0] == e && IsEffect(c[|c| - 1]) && Open(c);
      ActIsFound(c);
    }
  }

  // ---------- Stores

  /** The constant names element `k`: a non-negative integer by its low 32 bits, a whole number by its
      value, all those from 2^32 - 1 on as the last one. */
  predicate Names(c: Constant, k: nat) {
    || (c.Integer? && c.i >= 0 && c.i % 0x1_0000_0000 == k)
    || (c.Number? && k < 0xffff_ffff && c.n == k as real)
    || (c.Number? && k == 0xffff_ffff && c.n >= 4294967295.0 && c.n.Floor as real == c.n)
  }

  /** The statement stores `e` into element `k` of what register `r` holds. */
  predicate Stores(q: Statement, r: nat, k: nat, e: Expression) {
    && q.Assign? && q.value == e && q.target.ToIndex? && q.target.obj == Val(Reg(r))
    && q.target.key.Val? && q.target.key.v.Const? && Names(q.target.key.v.c, k)
  }

  lemma KeyExactly(c: Constant, k: nat)
    ensures IndexKey(c) == Some(k) <==> Names(c, k)
  {
    match c
    case Number(n) =>
      if n >= 0.0 && n.Floor as real == n {
        assert n.Floor >= 0;
        if n == k as real {
          assert n.Floor == k;
        }
      }
      if n == k as real {
        assert (k as real).Floor == k;
      }
    case _ =>
  }

  lemma StoresExactly(q: Statement, r: nat, k: nat, e: Expression)
    ensures IsPut(q, r) && PutIndex(q, r) == k && q.value == e <==> Stores(q, r, k, e)
  {
    if PutKey(q, r).Some? {
      KeyExactly(PutKey(q, r).value, k);
    }
    if Stores(q, r, k, e) {
      KeyExactly(q.target.key.v.c, k);
    }
  }

  // ---------- The window

  /** The scan goes on past the statement: it is of a form without effects of its own, does not write
      the register, shows it nowhere but in declarations, and calls or assigns nothing in its value. */
  ghost predicate PassedOver(q: Statement, r: nat) {
    && (q.Assign? || q.Expr? || q.Let? || q.Comment?)
    && (q.Assign? ==>
          && q.target != ToBinding(Register(r)) && !Shows(q.value, r) && !Acts(q.value)
          && (q.target.ToMember? ==> !Shows(q.target.obj, r))
          && (q.target.ToIndex? ==> !Shows(q.target.obj, r) && !Shows(q.target.key, r)))
    && (q.Expr? ==> !Shows(q.e, r) && !Acts(q.e))
    && (q.Let? ==> !Acts(q.value))
  }

  lemma EndsExactly(q: Statement, r: nat)
    ensures EndsWindow(q, r) <==> !PassedOver(q, r)
  {
    match q
    case Assign(target, value) =>
      SearchExactly(value, r);
      EffectsExactly(value);
      if target.ToMember? {
        SearchExactly(target.obj, r);
      } else if target.ToIndex? {
        SearchExactly(target.obj, r);
        SearchExactly(target.key, r);
      }
    case Expr(e) =>
      SearchExactly(e, r);
      EffectsExactly(e);
    case Let(_, value) => EffectsExactly(value);
    case _ =>
  }

  /** A store into the array. */
  ghost predicate IsStore(q: Statement, r: nat) {
    q.Assign? && exists k: nat :: Stores(q, r, k, q.value)
  }

  lemma PutsAreStores(q: Statement, r: nat)
    ensures IsPut(q, r) <==> IsStore(q, r)
  {
    if IsPut(q, r) {
      StoresExactly(q, r, PutIndex(q, r), q.value);
    }
    if IsStore(q, r) {
      var k: nat :| Stores(q, r, k, q.value);
      StoresExactly(q, r, k, q.value);
    }
  }

  /** The window behind a new array holds stores into it and statements passed over, and ends at the
      first statement that is neither. */
  lemma {:induction false} WindowExactly(ss: seq<Statement>, r: nat)
    ensures var n := WindowLen(ss, r);
            && (forall k :: 0 <= k < n ==> IsStore(ss[k], r) || PassedOver(ss[k], r))
            && (n < |ss| ==> !IsStore(ss[n], r) && !PassedOver(ss[n], r))
  {
    if ss != [] {
      WindowExactly(ss[1..], r);
      PutsAreStores(ss[0], r);
      EndsExactly(ss[0], r);
    }
  }

  // ---------- What is folded

  /** Some statement of the window stores into element `k`. */
  ghost predicate StoredAt(win: seq<Statement>, r: nat, k: nat) {
    exists m :: 0 <= m < |win| && win[m].Assign? && Stores(win[m], r, k, win[m].value)
  }

  lemma {:induction false} ElementsExactly(win: seq<Statement>, r: nat, k: nat)
    ensures k in Elements(win, r) <==> StoredAt(win, r, k)
    ensures StoredAt(win, r, k) ==> k <= MaxIndex(win, r)
    decreases |win|
  {
    if win != [] {
      var n := |win| - 1;
      var few, q := win[..n], win[n];
      ElementsExactly(few, r, k);
      if StoredAt(few, r, k) {
        var m :| 0 <= m < n && few[m].Assign? && Stores(few[m], r, k, few[m].value);
        assert win[m] == few[m];
      }
      if q.Assign? {
        StoresExactly(q, r, k, q.value);
      }
      if StoredAt(win, r, k) {
        var m :| 0 <= m < |win| && win[m].Assign? && Stores(win[m], r, k, win[m].value);
        if m < n {
          assert few[m] == win[m];
        }
      }
    }
  }

  /** A new array folds exactly when something is stored and no index is above 998, or else is the last
      one; and when nothing is stored, exactly when a size of 0 was asked for. */
  lemma FoldsExactly(win: seq<Statement>, r: nat, hint: Option<nat>)
    ensures Folds(win, r, hint) <==>
            if exists k: nat :: StoredAt(win, r, k) then
              (forall k: nat :: StoredAt(win, r, k) ==> k <= 998) || StoredAt(win, r, 0xffff_ffff)
            else hint == Some(0)
  {
    var es, max := Elements(win, r), MaxIndex(win, r);
    forall k: nat
      ensures (k in es <==> StoredAt(win, r, k)) && (StoredAt(win, r, k) ==> k <= max)
    {
      ElementsExactly(win, r, k);
    }
    MaxIsStored(win, r);
    if es != map[] {
      assert StoredAt(win, r, max);
      IndicesFit(win, r);
    } else {
      forall k: nat
        ensures !StoredAt(win, r, k)
      {
        assert k !in es;
      }
    }
  }

  lemma {:induction false} IndicesFit(win: seq<Statement>, r: nat)
    ensures MaxIndex(win, r) <= 0xffff_ffff
  {
    if win != [] {
      IndicesFit(win[..|win| - 1], r);
    }
  }

  // ---------- The new array itself

  /** `n` written in decimal. */
  function Written(n: nat): (s: string)
    ensures s != [] && forall k :: 0 <= k < |s| ==> '0' <= s[k] <= '9'
  {
    var digit := (n % 10 + '0' as int) as char;
    if n < 10 then [digit] else Written(n / 10) + [digit]
  }

  lemma {:induction false} WrittenReads(n: nat)
    ensures Decimal(Written(n)) == n
  {
    var s, digit := Written(n), (n % 10 + '0' as int) as char;
    if n < 10 {
      assert s == [digit] && s[..|s| - 1] == "";
    } else {
      WrittenReads(n / 10);
      assert s == Written(n / 10) + [digit] && s[..|s| - 1] == Written(n / 10);
    }
  }

  /** A size is a decimal number below 2^32, with or without a plus sign. */
  lemma SizesExactly(n: nat)
    ensures ParseSize(Written(n)) == if n < 0x1_0000_0000 then Some(n) else None
    ensures ParseSize("+" + Written(n)) == ParseSize(Written(n))
  {
    WrittenReads(n);
    assert ("+" + Written(n))[1..] == Written(n);
  }

  /** A new array is an assignment of the array-making instruction to a register; its size is the
      instruction's first operand, if that is a size. */
  lemma NewArrayExactly(q: Statement, r: nat, hint: Option<nat>)
    ensures NewArrayIn(q) == Some((r, hint)) <==>
            && q.Assign? && q.target == ToBinding(Register(r)) && q.value.Unknown? && q.value.opcode == "NewArray"
            && hint == if q.value.operands == [] then None else ParseSize(q.value.operands[0])
  {
  }

  // ---------- What stays behind

  /** Nothing of the expression is hidden: no template, and nothing foreign, anywhere inside. */
  ghost predicate Plain(e: Expression)
    decreases e
  {
    PartsSmaller(e);
    !e.TemplateLiteral? && !IsForeign(e) && forall p :: p in Parts(e) ==> Plain(p)
  }

  lemma {:induction false} PlainMentions(e: Expression, r: nat)
    requires Plain(e) && !Shows(e, r)
    ensures !Mentions(e, Reg(r))
    decreases e
  {
    PartsSmaller(e);
    if e == Val(Reg(r)) {
      ShowsItself(r);
    }
    forall p | p in Parts(e)
      ensures !Mentions(p, Reg(r))
    {
      PartsExactly(e, p);
      if Shows(p, r) {
        ShowsThrough(e, p, r);
      }
      PlainMentions(p, r);
    }
  }

  /** An assignment, a store elsewhere or an expression statement that stays in the window does not
      mention the register at all, unless inside a template or a foreign form. */
  lemma KeptMentionsNot(ss: seq<Statement>, r: nat, k: nat, p: Expression)
    requires k < WindowLen(ss, r) && !IsStore(ss[k], r) && (ss[k].Assign? || ss[k].Expr?)
    requires p in StmtParts(ss[k]) && Plain(p)
    ensures !Mentions(p, Reg(r))
  {
    WindowExactly(ss, r);
    assert PassedOver(ss[k], r);
    PlainMentions(p, r);
  }
}
