/** What straight-line statements do to registers, variables and a heap of objects.

    Expressions without calls are given a meaning here; every other expression and statement
    behaves as the `World` says, which may be anything. */
module Machine {
  import opened Bytes
  import opened Options
  import opened Ir

  datatype V = Prim(c: Constant) | Ref(id: nat)

  datatype Kind = ArrayKind | Plain | Closure(fn: nat) | Pattern(text: string, flags: string)

  datatype Obj = Obj(kind: Kind, length: nat, slots: map<nat, V>, props: map<string, V>)

  /** Objects by identity; `next` is the identity of the next one made. */
  datatype Store = Store(heap: map<nat, Obj>, next: nat)

  type Env = map<Value, V>

  datatype State = State(env: Env, store: Store)

  datatype Key = Slot(k: nat) | Name(s: string)

  /** What an operator yields: one of its operands, or a constant. */
  datatype Pick = First | Second | Result(c: Constant)

  /** `Raised` holds the state before the statement that raised: a statement raises before it writes,
      and what its expressions have made by then nothing refers to. */
  datatype Outcome =
    | Running(s: State)
    | Raised(s: State)
    | Ended(v: V, s: State)

  /** Operators, conversions and every statement that is not modelled. */
  datatype World = World(
    binary: (string, V, V) -> Pick,
    unary: (string, V) -> Constant,
    truthy: Constant -> bool,
    template: (seq<string>, seq<V>) -> Constant,
    nameKey: string -> Key,
    text: V -> string,
    primitive: (Constant, Key) -> Constant,
    other: (Statement, State) -> Outcome)

  const UNDEFINED: V := Prim(Undefined)

  // ---------- Shape of expressions

  function Present(elements: seq<Option<Expression>>): (es: seq<Expression>)
    ensures forall p :: p in es ==> Some(p) in elements
  {
    if elements == [] then []
    else
      var n := |elements| - 1;
      Present(elements[..n]) + if elements[n].Some? then [elements[n].value] else []
  }

  function KeyParts(key: PropertyKey): seq<Expression> {
    if key.Computed? then [key.e] else []
  }

  function PropParts(props: seq<ObjectProperty>): (es: seq<Expression>)
    ensures forall p :: p in es ==> exists q :: q in props && (p == q.value || q.key == Computed(p))
  {
    if props == [] then []
    else
      var n := |props| - 1;
      PropParts(props[..n]) + KeyParts(props[n].key) + [props[n].value]
  }

  /** The direct subexpressions, in the order they are evaluated. */
  function Parts(e: Expression): seq<Expression> {
    match e
    case Binary(_, l, r) => [l, r]
    case Unary(_, x) => [x]
    case Conditional(c, t, f) => [c, t, f]
    case Member(obj, property, _) => [obj] + KeyParts(property)
    case ArrayLit(elements) => Present(elements)
    case ObjectLit(props) => PropParts(props)
    case TemplateLiteral(_, es) => es
    case _ => []
  }

  lemma PartsSmaller(e: Expression)
    ensures forall p :: p in Parts(e) ==> p < e
    ensures forall k :: 0 <= k < |Parts(e)| ==> Parts(e)[k] < e
  {
    forall p | p in Parts(e)
      ensures p < e
    {
      match e
      case ArrayLit(elements) =>
        var k :| 0 <= k < |elements| && elements[k] == Some(p);
        assert elements[k] < e;
      case ObjectLit(props) =>
        var q :| q in props && (p == q.value || q.key == Computed(p));
        assert q < e;
      case TemplateLiteral(_, es) =>
        var k :| 0 <= k < |es| && es[k] == p;
      case Member(obj, property, _) =>
        assert property < e;
      case _ =>
    }
    forall k | 0 <= k < |Parts(e)|
      ensures Parts(e)[k] < e
    {
      assert Parts(e)[k] in Parts(e);
    }
  }

  /** Calls, assignments and the forms whose meaning is left to the world. */
  predicate IsForeign(e: Expression) {
    e.Call? || e.New? || e.Assignment? || e.Spread? || e.Yield? || e.Await? || e.JsxElement? || e.Unknown?
  }

  /** Foreign expressions appear nowhere inside. */
  ghost predicate Transparent(e: Expression)
    decreases e
  {
    PartsSmaller(e);
    !IsForeign(e) && forall p :: p in Parts(e) ==> Transparent(p)
  }

  ghost predicate Mentions(e: Expression, v: Value)
    decreases e
  {
    PartsSmaller(e);
    e == Val(v) || exists p :: p in Parts(e) && Mentions(p, v)
  }

  /** Some member is read inside. */
  ghost predicate ReadsHeap(e: Expression)
    decreases e
  {
    PartsSmaller(e);
    e.Member? || exists p :: p in Parts(e) && ReadsHeap(p)
  }

  /** Some object is made inside. */
  ghost predicate Allocates(e: Expression)
    decreases e
  {
    PartsSmaller(e);
    e.ArrayLit? || e.ObjectLit? || e.Function? || e.RegExp? || exists p :: p in Parts(e) && Allocates(p)
  }

  // ---------- Objects

  /** The index a constant key names, if it is one: array indices stop short of 2^32 - 1. */
  function IndexOf(c: Constant): Option<nat> {
    match c
    case Integer(i) => if 0 <= i < 0xffff_ffff then Some(i) else None
    case Number(n) =>
      if 0.0 <= n < 4294967295.0 && n.Floor as real == n then Some(n.Floor) else None
    case _ => None
  }

  ghost function KeyOf(w: World, v: V): Key {
    if v.Prim? && IndexOf(v.c).Some? then Slot(IndexOf(v.c).value)
    else if v.Prim? && v.c.Text? then w.nameKey(v.c.s)
    else Name(w.text(v))
  }

  ghost function PropertyKeyOf(w: World, key: PropertyKey, computed: seq<V>): Key
    requires key.Computed? ==> computed != []
  {
    match key
    case Ident(n) => w.nameKey(n)
    case Str(s) => w.nameKey(s)
    case Index(i) => KeyOf(w, Prim(Integer(i)))
    case Computed(_) => KeyOf(w, computed[0])
  }

  function Get(o: Obj, key: Key): V {
    match key
    case Slot(k) => if k in o.slots then o.slots[k] else UNDEFINED
    case Name(s) =>
      if s == "length" && o.kind.ArrayKind? then Prim(Integer(o.length))
      else if s in o.props then o.props[s] else UNDEFINED
  }

  /** Storing past the end of an array makes it longer; storing a length cuts or extends it. */
  function Set(o: Obj, key: Key, v: V): Obj {
    match key
    case Slot(k) =>
      o.(slots := o.slots[k := v], length := if o.kind.ArrayKind? && k >= o.length then k + 1 else o.length)
    case Name(s) =>
      if s == "length" && o.kind.ArrayKind? then
        if v.Prim? && IndexOf(v.c).Some? then
          o.(length := IndexOf(v.c).value, slots := map k | k in o.slots && k < IndexOf(v.c).value :: o.slots[k])
        else o
      else o.(props := o.props[s := v])
  }

  function IsNullish(v: V): bool {
    v == UNDEFINED || v == Prim(Null)
  }

  ghost function Access(w: World, target: V, key: Key, heap: map<nat, Obj>, optional: bool): Option<V> {
    if IsNullish(target) then if optional then Some(UNDEFINED) else None
    else
      match target
      case Prim(c) => Some(Prim(w.primitive(c, key)))
      case Ref(id) => Some(if id in heap then Get(heap[id], key) else UNDEFINED)
  }

  function PutAt(target: V, key: Key, v: V, st: Store): Option<Store> {
    if IsNullish(target) then None
    else if target.Ref? && target.id in st.heap then
      Some(st.(heap := st.heap[target.id := Set(st.heap[target.id], key, v)]))
    else Some(st)
  }

  function Alloc(st: Store, o: Obj): (V, Store) {
    (Ref(st.next), Store(st.heap[st.next := o], st.next + 1))
  }

  /** An array literal's slots: `vs` are the values of its present elements. */
  function Filled(elements: seq<Option<Expression>>, vs: seq<V>): map<nat, V>
    requires |vs| == |Present(elements)|
  {
    if elements == [] then map[]
    else
      var n := |elements| - 1;
      if elements[n].Some? then Filled(elements[..n], vs[..|vs| - 1])[n := vs[|vs| - 1]]
      else Filled(elements[..n], vs)
  }

  ghost function WithProps(w: World, props: seq<ObjectProperty>, vs: seq<V>): Obj
    requires |vs| == |PropParts(props)|
  {
    if props == [] then Obj(Plain, 0, map[], map[])
    else
      var n, last := |props| - 1, props[|props| - 1];
      var m := |vs| - 1 - |KeyParts(last.key)|;
      Set(WithProps(w, props[..n], vs[..m]), PropertyKeyOf(w, last.key, vs[m..|vs| - 1]), vs[|vs| - 1])
  }

  // ---------- Expressions

  function Lookup(env: Env, v: Value): V {
    match v
    case Const(c) => Prim(c)
    case _ => if v in env then env[v] else UNDEFINED
  }

  ghost function Picked(p: Pick, a: V, b: V): V {
    match p
    case First => a
    case Second => b
    case Result(c) => Prim(c)
  }

  /** The expression's own step, its parts evaluated. */
  ghost function Combine(w: World, e: Expression, vs: seq<V>, env: Env, st: Store): Option<(V, Store)>
    requires |vs| == |Parts(e)|
  {
    match e
    case Val(v) => Some((Lookup(env, v), st))
    case Binary(op, _, _) => Some((Picked(w.binary(op, vs[0], vs[1]), vs[0], vs[1]), st))
    case Unary(op, _) => Some((Prim(w.unary(op, vs[0])), st))
    case Member(_, property, optional) =>
      var got :- Access(w, vs[0], PropertyKeyOf(w, property, vs[1..]), st.heap, optional);
      Some((got, st))
    case ArrayLit(elements) => Some(Alloc(st, Obj(ArrayKind, |elements|, Filled(elements, vs), map[])))
    case ObjectLit(props) => Some(Alloc(st, WithProps(w, props, vs)))
    case Function(id) => Some(Alloc(st, Obj(Closure(id), 0, map[], map[])))
    case RegExp(p, f) => Some(Alloc(st, Obj(Pattern(p, f), 0, map[], map[])))
    case TemplateLiteral(quasis, _) => Some((Prim(w.template(quasis, vs)), st))
    case _ => None
  }

  ghost predicate IsTruthy(w: World, v: V) {
    v.Ref? || w.truthy(v.c)
  }

  /** An expression's value and the store behind it; `None` when evaluation raises. */
  ghost function Eval(w: World, e: Expression, env: Env, st: Store): Option<(V, Store)>
    decreases e, 1, 0
  {
    PartsSmaller(e);
    if IsForeign(e) then None
    else if e.Conditional? then
      var (c, st1) :- Eval(w, e.condition, env, st);
      if IsTruthy(w, c) then Eval(w, e.thenExpr, env, st1) else Eval(w, e.elseExpr, env, st1)
    else
      var (vs, st1) :- EvalAll(w, e, Parts(e), env, st);
      Combine(w, e, vs, env, st1)
  }

  /** Expressions inside `top`, from left to right. */
  ghost function EvalAll(w: World, top: Expression, es: seq<Expression>, env: Env, st: Store): (r: Option<(seq<V>, Store)>)
    requires forall k :: 0 <= k < |es| ==> es[k] < top
    ensures r.Some? ==> |r.value.0| == |es|
    decreases top, 0, |es|
  {
    if es == [] then Some(([], st))
    else
      var (v, st1) :- Eval(w, es[0], env, st);
      var (vs, st2) :- EvalAll(w, top, es[1..], env, st1);
      Some(([v] + vs, st2))
  }

  // ---------- Statements

  /** The size operand of an array-making instruction: an optional plus sign and decimal digits,
      below 2^32. */
  function ParseSize(text: string): Option<nat> {
    var digits := if text != "" && text[0] == '+' then text[1..] else text;
    if digits == "" || exists k :: 0 <= k < |digits| && !('0' <= digits[k] <= '9') then None
    else if Decimal(digits) < TWO32 then Some(Decimal(digits)) else None
  }

  function Decimal(digits: string): nat
    requires forall k :: 0 <= k < |digits| ==> '0' <= digits[k] <= '9'
  {
    if digits == "" then 0
    else 10 * Decimal(digits[..|digits| - 1]) + (digits[|digits| - 1] as int - '0' as int)
  }

  const NEW_ARRAY := "NewArray"

  predicate MakesArray(e: Expression) {
    e.Unknown? && e.opcode == NEW_ARRAY
  }

  function SizeHint(e: Expression): Option<nat>
    requires MakesArray(e)
  {
    if e.operands == [] then None else ParseSize(e.operands[0])
  }

  /** A new array has the length asked for and no elements. */
  function NewArrayObj(hint: Option<nat>): Obj {
    Obj(ArrayKind, if hint.Some? then hint.value else 0, map[], map[])
  }

  /** The expressions a statement evaluates, in order. */
  function StmtParts(q: Statement): seq<Expression> {
    match q
    case Expr(e) => [e]
    case Let(_, value) => [value]
    case Assign(ToBinding(_), value) => [value]
    case Assign(ToMember(obj, _), value) => [obj, value]
    case Assign(ToIndex(obj, key), value) => [obj, key, value]
    case _ => []
  }

  predicate IsSimple(q: Statement) {
    q.Expr? || q.Let? || q.Comment? || (q.Assign? && !q.target.Destructuring?)
  }

  /** Statements with a meaning of their own; the world decides all others. */
  ghost predicate Tame(q: Statement) {
    IsSimple(q) && forall p :: p in StmtParts(q) ==> Transparent(p)
  }

  /** A statement's expressions as the parts of one. */
  function Bundle(es: seq<Expression>): Expression {
    TemplateLiteral([], es)
  }

  ghost function EvalParts(w: World, es: seq<Expression>, env: Env, st: Store): (r: Option<(seq<V>, Store)>)
    ensures r.Some? ==> |r.value.0| == |es|
  {
    PartsSmaller(Bundle(es));
    assert Parts(Bundle(es)) == es;
    EvalAll(w, Bundle(es), es, env, st)
  }

  ghost function Apply(w: World, q: Statement, vs: seq<V>, env: Env, st: Store): Option<State>
    requires |vs| == |StmtParts(q)|
  {
    match q
    case Let(name, _) => Some(State(env[Read(Variable(name)) := vs[0]], st))
    case Assign(ToBinding(b), _) => Some(State(env[Read(b) := vs[0]], st))
    case Assign(ToMember(_, name), _) =>
      var st1 :- PutAt(vs[0], w.nameKey(name), vs[1], st);
      Some(State(env, st1))
    case Assign(ToIndex(_, _), _) =>
      var st1 :- PutAt(vs[0], KeyOf(w, vs[1]), vs[2], st);
      Some(State(env, st1))
    case _ => Some(State(env, st))
  }

  ghost function ExecTame(w: World, q: Statement, s: State): Option<State> {
    var (vs, st) :- EvalParts(w, StmtParts(q), s.env, s.store);
    Apply(w, q, vs, s.env, st)
  }

  predicate IsNewArray(q: Statement) {
    q.Assign? && q.target.ToBinding? && MakesArray(q.value)
  }

  ghost function Exec(w: World, q: Statement, s: State): Outcome {
    if IsNewArray(q) then
      var (v, st) := Alloc(s.store, NewArrayObj(SizeHint(q.value)));
      Running(State(s.env[Read(q.target.binding) := v], st))
    else if Tame(q) then
      match ExecTame(w, q, s)
      case Some(s1) => Running(s1)
      case None => Raised(s)
    else w.other(q, s)
  }

  ghost function Run(w: World, ss: seq<Statement>, s: State): Outcome {
    if ss == [] then Running(s)
    else
      match Exec(w, ss[0], s)
      case Running(s1) => Run(w, ss[1..], s1)
      case stop => stop
  }

  /** What follows only runs if what precedes it comes to its end. */
  ghost function ThenRun(w: World, x: Outcome, ys: seq<Statement>): Outcome {
    if x.Running? then Run(w, ys, x.s) else x
  }

  lemma {:induction false} RunConcat(w: World, xs: seq<Statement>, ys: seq<Statement>, s: State)
    ensures Run(w, xs + ys, s) == ThenRun(w, Run(w, xs, s), ys)
    decreases |xs|
  {
    if xs == [] {
      assert xs + ys == ys;
    } else {
      assert (xs + ys)[1..] == xs[1..] + ys;
      if Exec(w, xs[0], s).Running? {
        RunConcat(w, xs[1..], ys, Exec(w, xs[0], s).s);
      }
    }
  }
}
