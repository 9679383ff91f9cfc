/** Where one expression stands inside another, in whatever form: chains of direct subexpressions. */
module ExprPaths {
  import opened Options
  import opened Ir

  /** `p` is a direct subexpression of `e`. */
  predicate DirectlyIn(p: Expression, e: Expression) {
    || (e.Binary? && (p == e.left || p == e.right))
    || (e.Unary? && p == e.operand)
    || (e.Conditional? && (p == e.condition || p == e.thenExpr || p == e.elseExpr))
    || (e.Member? && (p == e.obj || e.property == Computed(p)))
    || (e.Call? && (p == e.callee || p in e.arguments))
    || (e.New? && (p == e.callee || p in e.arguments))
    || (e.ArrayLit? && Some(p) in e.elements)
    || (e.ObjectLit? && exists q :: q in e.properties && (p == q.value || q.key == Computed(p)))
    || (e.Assignment? && (p == e.value || InTarget(p, e.target)))
    || (e.Spread? && p == e.inner)
    || (e.TemplateLiteral? && p in e.expressions)
    || (e.Yield? && p == e.value)
    || (e.Await? && p == e.inner)
    || (e.JsxElement? && p in e.children)
  }

  predicate InTarget(p: Expression, t: AssignTarget) {
    || (t.ToMember? && p == t.obj)
    || (t.ToIndex? && (p == t.obj || p == t.key))
    || (t.Destructuring? && exists u :: u in t.targets && InTarget(p, u))
  }

  /** Each expression stands directly inside the one before it. */
  predicate IsChain(c: seq<Expression>) {
    c != [] && forall i :: 0 <= i < |c| - 1 ==> LinkAt(c, i)
  }

  predicate LinkAt(c: seq<Expression>, i: nat)
    requires i + 1 < |c|
  {
    DirectlyIn(c[i + 1], c[i])
  }

  /** The chain leads from `e` to `x`. */
  predicate Leads(c: seq<Expression>, e: Expression, x: Expression) {
    IsChain(c) && c[0] == e && c[|c| - 1] == x
  }

  lemma ChainRest(c: seq<Expression>)
    requires IsChain(c) && |c| > 1
    ensures IsChain(c[1..]) && DirectlyIn(c[1], c[0])
  {
    assert LinkAt(c, 0);
    forall i | 0 <= i < |c[1..]| - 1
      ensures LinkAt(c[1..], i)
    {
      assert LinkAt(c, i + 1);
    }
  }

  lemma ChainLonger(e: Expression, c: seq<Expression>)
    requires IsChain(c) && DirectlyIn(c[0], e)
    ensures IsChain([e] + c)
  {
    var longer := [e] + c;
    forall i | 0 <= i < |longer| - 1
      ensures LinkAt(longer, i)
    {
      if i > 0 {
        assert LinkAt(c, i - 1);
      }
    }
  }
}
