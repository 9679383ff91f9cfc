/** Folding a new array and the constant-index stores behind it into one array literal. */
module ArrayLiterals {
  import opened Bytes
  import opened Options
  import opened Ir
  import opened Machine

  /** Literals of this many elements or more are not built. */
  const LITERAL_LIMIT: nat := 1000

  // ---------- What the pass looks at

  predicate SideEffects(e: Expression)
    decreases e
  {
    PartsSmaller(e);
    if e.Call? || e.New? || e.Assignment? || e.Yield? || e.Await? || e.Unknown? then true
    else exists p :: p in Parts(e) && SideEffects(p)
  }

  predicate StmtSideEffects(q: Statement) {
    match q
    case Assign(_, value) => SideEffects(value)
    case Expr(e) => SideEffects(e)
    case Let(_, value) => SideEffects(value)
    case Comment(_) => false
    case _ => true
  }

  /** Register uses as the pass finds them: not inside templates, spreads or assignments. */
  predicate UsesRegister(e: Expression, r: nat)
    decreases e
  {
    PartsSmaller(e);
    match e
    case Val(v) => v == Read(Register(r))
    case Call(callee, args) => UsesRegister(callee, r) || exists k :: 0 <= k < |args| && UsesRegister(args[k], r)
    case New(callee, args) => UsesRegister(callee, r) || exists k :: 0 <= k < |args| && UsesRegister(args[k], r)
    case TemplateLiteral(_, _) => false
    case _ => exists p :: p in Parts(e) && UsesRegister(p, r)
  }

  predicate IsRegUsed(q: Statement, r: nat) {
    match q
    case Assign(ToIndex(obj, key), value) => UsesRegister(obj, r) || UsesRegister(key, r) || UsesRegister(value, r)
    case Assign(ToMember(obj, _), value) => UsesRegister(obj, r) || UsesRegister(value, r)
    case Assign(_, value) => UsesRegister(value, r)
    case Expr(e) => UsesRegister(e, r)
    case Return(Some(e)) => UsesRegister(e, r)
    case Throw(e) => UsesRegister(e, r)
    case If(c, _, _) => UsesRegister(c, r)
    case While(c, _) => UsesRegister(c, r)
    case Switch(d, _) => UsesRegister(d, r)
    case _ => false
  }

  predicate IsRegAssigned(q: Statement, r: nat) {
    RegisterWritten(q) == Some(r)
  }

  /** The register and the size of a new array. */
  function NewArrayIn(q: Statement): Option<(nat, Option<nat>)> {
    match q
    case Assign(ToBinding(Register(r)), value) => if MakesArray(value) then Some((r, SizeHint(value))) else None
    case _ => None
  }

  /** A constant key as a 32-bit index: integers keep their low bits, numbers stop at the largest. */
  function IndexKey(c: Constant): Option<nat> {
    match c
    case Integer(i) => if i >= 0 then Some(i % TWO32) else None
    case Number(n) =>
      if n >= 0.0 && n.Floor as real == n then Some(if n.Floor < TWO32 then n.Floor else TWO32 - 1) else None
    case _ => None
  }

  /** The constant key of a store into the object in register `r`. */
  function PutKey(q: Statement, r: nat): Option<Constant> {
    match q
    case Assign(ToIndex(Val(Read(Register(x))), Val(Const(c))), _) => if x == r then Some(c) else None
    case _ => None
  }

  predicate IsPut(q: Statement, r: nat) {
    PutKey(q, r).Some? && IndexKey(PutKey(q, r).value).Some?
  }

  function PutIndex(q: Statement, r: nat): nat
    requires IsPut(q, r)
  {
    IndexKey(PutKey(q, r).value).value
  }

  predicate EndsWindow(q: Statement, r: nat) {
    IsRegUsed(q, r) || IsRegAssigned(q, r) || StmtSideEffects(q)
  }

  // ---------- The transformation

  /** How many of the statements behind a new array are looked at. */
  function WindowLen(ss: seq<Statement>, r: nat): (n: nat)
    ensures n <= |ss|
  {
    if ss == [] || (!IsPut(ss[0], r) && EndsWindow(ss[0], r)) then 0 else 1 + WindowLen(ss[1..], r)
  }

  /** The values stored, by index; a later store to the same index replaces an earlier one. */
  function Elements(win: seq<Statement>, r: nat): map<nat, Expression> {
    if win == [] then map[]
    else
      var q := win[|win| - 1];
      var before := Elements(win[..|win| - 1], r);
      if IsPut(q, r) then before[PutIndex(q, r) := q.value] else before
  }

  function MaxIndex(win: seq<Statement>, r: nat): nat {
    if win == [] then 0
    else
      var q := win[|win| - 1];
      var before := MaxIndex(win[..|win| - 1], r);
      if IsPut(q, r) && PutIndex(q, r) > before then PutIndex(q, r) else before
  }

  /** The statements of the window that stay. */
  function Kept(win: seq<Statement>, r: nat): (k: seq<Statement>)
    ensures |k| <= |win|
  {
    if win == [] then []
    else
      var q := win[|win| - 1];
      Kept(win[..|win| - 1], r) + if IsPut(q, r) then [] else [q]
  }

  /** Positions of the stores, for a window that starts at `at`. */
  function Consumed(win: seq<Statement>, r: nat, at: nat): seq<nat> {
    if win == [] then []
    else
      Consumed(win[..|win| - 1], r, at) + if IsPut(win[|win| - 1], r) then [at + |win| - 1] else []
  }

  /** The literal's length, in 32-bit arithmetic. */
  function LiteralLen(win: seq<Statement>, r: nat): nat {
    if Elements(win, r) == map[] then 0 else (MaxIndex(win, r) + 1) % TWO32
  }

  function ElementAt(elements: map<nat, Expression>, k: nat): Option<Expression> {
    if k in elements then Some(elements[k]) else None
  }

  function ElementList(elements: map<nat, Expression>, n: nat): (es: seq<Option<Expression>>)
    ensures |es| == n
  {
    if n == 0 then [] else ElementList(elements, n - 1) + [ElementAt(elements, n - 1)]
  }

  function Literal(win: seq<Statement>, r: nat): Statement {
    Assign(ToBinding(Register(r)), ArrayLit(ElementList(Elements(win, r), LiteralLen(win, r))))
  }

  predicate Folds(win: seq<Statement>, r: nat, hint: Option<nat>) {
    (Elements(win, r) != map[] || hint == Some(0)) && LiteralLen(win, r) < LITERAL_LIMIT
  }

  /** The statements behind the first one that the pass looks at. */
  function Window(ss: seq<Statement>): seq<Statement>
    requires ss != [] && NewArrayIn(ss[0]).Some?
  {
    ss[1..][..WindowLen(ss[1..], NewArrayIn(ss[0]).value.0)]
  }

  predicate FoldsFirst(ss: seq<Statement>) {
    && ss != [] && NewArrayIn(ss[0]).Some?
    && Folds(Window(ss), NewArrayIn(ss[0]).value.0, NewArrayIn(ss[0]).value.1)
  }

  /** What is still to be looked at once the first array is folded. */
  function AfterFold(ss: seq<Statement>): (rest: seq<Statement>)
    requires FoldsFirst(ss)
    ensures |rest| < |ss|
  {
    var r := NewArrayIn(ss[0]).value.0;
    Kept(Window(ss), r) + ss[1..][|Window(ss)|..]
  }

  function Transformed(ss: seq<Statement>): seq<Statement>
    decreases |ss|
  {
    if ss == [] then []
    else if FoldsFirst(ss) then
      [Literal(Window(ss), NewArrayIn(ss[0]).value.0)] + Transformed(AfterFold(ss))
    else [ss[0]] + Transformed(ss[1..])
  }

  // ---------- The pass

  /** Removes the statements at the listed positions, last position first. */
  method RemoveConsumed(ss: seq<Statement>, consumed: seq<nat>) returns (out: seq<Statement>)
    requires forall n, m :: 0 <= n < m < |consumed| ==> consumed[n] < consumed[m]
    requires consumed != [] ==> consumed[|consumed| - 1] < |ss|
    ensures out == RemoveAll(ss, consumed)
  {
    out := ss;
    var n := |consumed|;
    assert consumed[..n] == consumed;
    while n > 0
      invariant 0 <= n <= |consumed|
      invariant n > 0 ==> consumed[n - 1] < |out|
      invariant RemoveAll(out, consumed[..n]) == RemoveAll(ss, consumed)
    {
      n := n - 1;
      assert consumed[..n + 1][..n] == consumed[..n];
      out := out[..consumed[n]] + out[consumed[n] + 1..];
    }
  }

  function RemoveAll(ss: seq<Statement>, consumed: seq<nat>): seq<Statement>
    decreases |consumed|
  {
    if consumed == [] then ss
    else
      var last := consumed[|consumed| - 1];
      if last >= |ss| then ss
      else RemoveAll(ss[..last] + ss[last + 1..], consumed[..|consumed| - 1])
  }

  lemma {:induction false} ConsumedRises(win: seq<Statement>, r: nat, at: nat)
    ensures forall n :: 0 <= n < |Consumed(win, r, at)| ==> at <= Consumed(win, r, at)[n] < at + |win|
    ensures forall n, m :: 0 <= n < m < |Consumed(win, r, at)| ==> Consumed(win, r, at)[n] < Consumed(win, r, at)[m]
  {
    if win != [] {
      ConsumedRises(win[..|win| - 1], r, at);
    }
  }

  lemma Regroup<T>(a: seq<T>, b: seq<T>, c: seq<T>)
    ensures a + (b + c) == a + b + c
  {
  }

  lemma Replaced<T>(s: seq<T>, i: nat, x: T)
    requires i < |s|
    ensures s[i := x] == s[..i] + [x] + s[i + 1..]
  {
  }

  lemma TakenOut<T>(before: seq<T>, few: seq<T>, q: T, after: seq<T>)
    ensures var ss, k := before + (few + [q]) + after, |before| + |few|;
            ss[..k] + ss[k + 1..] == before + few + after
  {
    var ss, k := before + (few + [q]) + after, |before| + |few|;
    assert ss[..k] == before + few && ss[k + 1..] == after;
  }

  lemma PassedOn<T>(before: seq<T>, few: seq<T>, q: T, after: seq<T>)
    ensures before + (few + [q]) + after == before + few + ([q] + after)
  {
  }

  lemma Unchanged<T>(s: seq<T>)
    ensures s + [] == s
  {
  }

  /** Removing the consumed positions removes exactly the stores and keeps the rest in order. */
  lemma {:induction false} RemovedAreStores(before: seq<Statement>, win: seq<Statement>, after: seq<Statement>, r: nat)
    ensures RemoveAll(before + win + after, Consumed(win, r, |before|)) == before + Kept(win, r) + after
    decreases |win|
  {
    if win != [] {
      var few, q := win[..|win| - 1], win[|win| - 1];
      assert win == few + [q];
      if IsPut(q, r) {
        TakenOut(before, few, q, after);
        RemoveLast(before + win + after, Consumed(few, r, |before|), |before| + |few|);
        RemovedAreStores(before, few, after, r);
        Unchanged(Kept(few, r));
      } else {
        PassedOn(before, few, q, after);
        PassedOn(before, Kept(few, r), q, after);
        Unchanged(Consumed(few, r, |before|));
        RemovedAreStores(before, few, [q] + after, r);
      }
    }
  }

  lemma RemoveLast(ss: seq<Statement>, consumed: seq<nat>, last: nat)
    requires last < |ss|
    ensures RemoveAll(ss, consumed + [last]) == RemoveAll(ss[..last] + ss[last + 1..], consumed)
  {
    assert (consumed + [last])[..|consumed|] == consumed;
  }

  /** `win` is looked at from its start on, and `rest` is what follows it. */
  ghost predicate LookedAt(ss: seq<Statement>, r: nat, win: seq<Statement>, rest: seq<Statement>) {
    ss == win + rest && WindowLen(ss, r) == |win| + WindowLen(rest, r)
  }

  lemma {:induction false} LookFurther(ss: seq<Statement>, r: nat, win: seq<Statement>, rest: seq<Statement>)
    requires LookedAt(ss, r, win, rest) && rest != [] && (IsPut(rest[0], r) || !EndsWindow(rest[0], r))
    ensures LookedAt(ss, r, win + [rest[0]], rest[1..])
  {
    assert win + rest == win + [rest[0]] + rest[1..];
  }

  /** What has been collected from `win`, whose first statement is at `at`. */
  ghost predicate Gathered(win: seq<Statement>, r: nat, at: nat, elements: map<nat, Expression>, maxIndex: nat, consumed: seq<nat>) {
    elements == Elements(win, r) && maxIndex == MaxIndex(win, r) && consumed == Consumed(win, r, at)
  }

  lemma OneMore(win: seq<Statement>, q: Statement, r: nat, at: nat, elements: map<nat, Expression>, maxIndex: nat, consumed: seq<nat>)
    requires Gathered(win, r, at, elements, maxIndex, consumed)
    ensures IsPut(q, r) ==>
              var k := PutIndex(q, r);
              Gathered(win + [q], r, at, elements[k := q.value], if k > maxIndex then k else maxIndex, consumed + [at + |win|])
    ensures !IsPut(q, r) ==> Gathered(win + [q], r, at, elements, maxIndex, consumed)
  {
    assert (win + [q])[..|win|] == win;
    Unchanged(consumed);
  }

  lemma DropOne<T>(s: seq<T>, j: nat)
    requires j < |s|
    ensures s[j..] != [] && s[j..][0] == s[j] && s[j..][1..] == s[j + 1..]
  {
  }

  lemma WindowTaken(ss: seq<Statement>, r: nat, win: seq<Statement>, rest: seq<Statement>)
    requires LookedAt(ss, r, win, rest) && WindowLen(rest, r) == 0
    ensures win == ss[..WindowLen(ss, r)]
  {
  }

  /** Collects the stores behind a new array at `i` into register `r`. */
  method Collect(ss: seq<Statement>, i: nat, r: nat)
    returns (elements: map<nat, Expression>, maxIndex: nat, consumed: seq<nat>)
    requires i < |ss|
    ensures var win := ss[i + 1..][..WindowLen(ss[i + 1..], r)];
            elements == Elements(win, r) && maxIndex == MaxIndex(win, r) && consumed == Consumed(win, r, i + 1)
  {
    elements, maxIndex, consumed := map[], 0, [];
    ghost var win: seq<Statement> := [];
    var j := i + 1;
    while j < |ss|
      invariant i + 1 <= j <= |ss| && |win| == j - i - 1
      invariant LookedAt(ss[i + 1..], r, win, ss[j..])
      invariant Gathered(win, r, i + 1, elements, maxIndex, consumed)
    {
      var q := ss[j];
      DropOne(ss, j);
      OneMore(win, q, r, i + 1, elements, maxIndex, consumed);
      if IsPut(q, r) {
        elements := elements[PutIndex(q, r) := q.value];
        if PutIndex(q, r) > maxIndex {
          maxIndex := PutIndex(q, r);
        }
        consumed := consumed + [j];
      } else if EndsWindow(q, r) {
        break;
      }
      LookFurther(ss[i + 1..], r, win, ss[j..]);
      win := win + [q];
      j := j + 1;
    }
    WindowTaken(ss[i + 1..], r, win, ss[j..]);
  }

  method BuildElements(elements: map<nat, Expression>, n: nat) returns (es: seq<Option<Expression>>)
    ensures es == ElementList(elements, n)
  {
    es := [];
    for k := 0 to n
      invariant es == ElementList(elements, k)
    {
      es := es + [ElementAt(elements, k)];
    }
  }

  /** The statements before `i` are final; the ones from `i` on are still to be looked at. */
  ghost predicate DoneUpTo(ss: seq<Statement>, now: seq<Statement>, i: nat) {
    i <= |now| && Transformed(ss) == now[..i] + Transformed(now[i..])
  }

  lemma StepOver(ss: seq<Statement>, now: seq<Statement>, i: nat)
    requires DoneUpTo(ss, now, i) && i < |now| && !FoldsFirst(now[i..])
    ensures DoneUpTo(ss, now, i + 1)
  {
    assert now[i..][1..] == now[i + 1..];
    assert now[..i] + ([now[i]] + Transformed(now[i + 1..])) == now[..i + 1] + Transformed(now[i + 1..]);
  }

  lemma StepFolded(ss: seq<Statement>, now: seq<Statement>, i: nat, next: seq<Statement>, literal: Statement)
    requires DoneUpTo(ss, now, i) && i < |now| && FoldsFirst(now[i..])
    requires literal == Literal(Window(now[i..]), NewArrayIn(now[i]).value.0)
    requires next == now[..i] + [literal] + AfterFold(now[i..])
    ensures DoneUpTo(ss, next, i + 1)
  {
    var after := AfterFold(now[i..]);
    Regroup(now[..i], [literal], Transformed(after));
    Taken(now[..i] + [literal], after);
  }

  lemma Taken<T>(a: seq<T>, b: seq<T>)
    ensures (a + b)[..|a|] == a && (a + b)[|a|..] == b
  {
  }

  lemma WindowParts(now: seq<Statement>, i: nat, r: nat, win: seq<Statement>, literal: Statement, after: seq<Statement>)
    requires i < |now| && now[i + 1..] == win + after
    ensures RemoveAll(now[i := literal], Consumed(win, r, i + 1)) == now[..i] + [literal] + (Kept(win, r) + after)
  {
    var before := now[..i] + [literal];
    Replaced(now, i, literal);
    Regroup(before, win, after);
    RemovedAreStores(before, win, after, r);
    Regroup(before, Kept(win, r), after);
  }

  /** Puts the literal in the place of the new array and removes the stores it stands for. */
  method PutLiteral(now: seq<Statement>, i: nat, r: nat, elements: map<nat, Expression>, n: nat, consumed: seq<nat>, ghost win: seq<Statement>)
    returns (next: seq<Statement>)
    requires i < |now| && |win| <= |now[i + 1..]| && win == now[i + 1..][..|win|]
    requires consumed == Consumed(win, r, i + 1) && elements == Elements(win, r) && n == LiteralLen(win, r)
    ensures next == now[..i] + [Literal(win, r)] + (Kept(win, r) + now[i + 1..][|win|..])
  {
    var es := BuildElements(elements, n);
    var literal := Assign(ToBinding(Register(r)), ArrayLit(es));
    ConsumedRises(win, r, i + 1);
    WindowParts(now, i, r, win, literal, now[i + 1..][|win|..]);
    next := RemoveConsumed(now[i := literal], consumed);
  }

  /** One round at a new array: the statement list with the array at `i` folded, if it folds. */
  method FoldAt(now: seq<Statement>, i: nat, r: nat, hint: Option<nat>) returns (next: seq<Statement>)
    requires i < |now| && NewArrayIn(now[i]) == Some((r, hint))
    ensures if FoldsFirst(now[i..]) then
              next == now[..i] + [Literal(Window(now[i..]), r)] + AfterFold(now[i..])
            else next == now
  {
    var elements, maxIndex, consumed := Collect(now, i, r);
    ghost var win := Window(now[i..]);
    assert now[i..][1..] == now[i + 1..];
    if elements != map[] || hint == Some(0) {
      var n := if elements != map[] then (maxIndex + 1) % TWO32 else 0;
      if n < LITERAL_LIMIT {
        next := PutLiteral(now, i, r, elements, n, consumed, win);
        return;
      }
    }
    next := now;
  }

  /** Folds every new array it can, editing the statements in place. */
  method TransformArrayLiterals(ss: seq<Statement>) returns (out: seq<Statement>)
    ensures out == Transformed(ss)
  {
    out := ss;
    var i := 0;
    assert ss[..0] + Transformed(ss[0..]) == Transformed(ss) by {
      assert ss[0..] == ss;
    }
    while i < |out|
      invariant DoneUpTo(ss, out, i)
      decreases |out| - i
    {
      var made := NewArrayIn(out[i]);
      if made.Some? {
        var next := FoldAt(out, i, made.value.0, made.value.1);
        if FoldsFirst(out[i..]) {
          StepFolded(ss, out, i, next, Literal(Window(out[i..]), made.value.0));
        } else {
          StepOver(ss, out, i);
        }
        out := next;
      } else {
        StepOver(ss, out, i);
      }
      i := i + 1;
    }
    assert out[i..] == [] && out[..i] == out;
  }
}
