/** The machine's arrays behave as arrays do (section 10.4.2 of ECMA-262), and operators work out their
    left side first. */
module ArrayObjects {
  import opened Options
  import opened Ir
  import opened Machine

  /** An index is an integer, or a whole number, below 2^32 - 1. */
  lemma IndicesExactly(c: Constant, k: nat)
    ensures IndexOf(c) == Some(k) <==> k < 0xffff_ffff && (c == Integer(k) || (c.Number? && c.n == k as real))
  {
    if c.Number? && c.n == k as real {
      assert (k as real).Floor == k;
    }
  }

  /** The key whose value an array computes. */
  predicate IsLength(o: Obj, key: Key) {
    o.kind.ArrayKind? && key == Name("length")
  }

  /** What is stored is read back. */
  lemma StoredIsRead(o: Obj, key: Key, v: V)
    requires !IsLength(o, key)
    ensures Get(Set(o, key, v), key) == v
  {
  }

  /** Storing changes what is read at no other key, but for the length of an array. */
  lemma OthersAreKept(o: Obj, key: Key, other: Key, v: V)
    requires key != other && !IsLength(o, key) && !IsLength(o, other)
    ensures Get(Set(o, key, v), other) == Get(o, other)
  {
  }

  /** An array reads its length. Storing at an index makes it just long enough; a property leaves it;
      storing a length cuts off every element from there on and keeps the others. */
  lemma LengthsExactly(o: Obj, key: Key, v: V, n: nat, k: nat)
    requires o.kind.ArrayKind? && n < 0xffff_ffff
    ensures Get(o, Name("length")) == Prim(Integer(o.length))
    ensures key.Slot? ==> Set(o, key, v).length == if key.k < o.length then o.length else key.k + 1
    ensures key.Name? && key.s != "length" ==> Set(o, key, v).length == o.length
    ensures Get(Set(o, Name("length"), Prim(Integer(n))), Name("length")) == Prim(Integer(n))
    ensures Get(Set(o, Name("length"), Prim(Integer(n))), Slot(k)) == if k < n then Get(o, Slot(k)) else Prim(Undefined)
  {
    IndicesExactly(Integer(n), n);
  }

  /** An array has no element at its length or behind it. */
  ghost predicate Bounded(o: Obj) {
    o.kind.ArrayKind? ==> forall k :: k in o.slots ==> k < o.length
  }

  lemma StoresKeepBounds(o: Obj, key: Key, v: V)
    requires Bounded(o)
    ensures Bounded(Set(o, key, v))
  {
  }

  /** A literal has the elements that are present, at their places. */
  lemma {:induction false} FilledExactly(elements: seq<Option<Expression>>, vs: seq<V>, k: nat)
    requires |vs| == |Present(elements)|
    ensures k in Filled(elements, vs) <==> k < |elements| && elements[k].Some?
    ensures k < |elements| && elements[k].Some? ==>
              |Present(elements[..k])| < |vs| && Filled(elements, vs)[k] == vs[|Present(elements[..k])|]
  {
    if elements != [] {
      var n := |elements| - 1;
      var few := if elements[n].Some? then vs[..|vs| - 1] else vs;
      FilledExactly(elements[..n], few, k);
      if k < n {
        assert elements[..n][..k] == elements[..k];
      }
    }
  }

  /** New arrays and array literals start out within their bounds, empty or as long as written. */
  lemma NewArraysAreBounded(hint: Option<nat>, elements: seq<Option<Expression>>, vs: seq<V>)
    requires |vs| == |Present(elements)|
    ensures Bounded(NewArrayObj(hint)) && NewArrayObj(hint).slots == map[] && NewArrayObj(None).length == 0
    ensures hint.Some? ==> NewArrayObj(hint).length == hint.value
    ensures Bounded(Obj(ArrayKind, |elements|, Filled(elements, vs), map[]))
  {
    forall k | k in Filled(elements, vs)
      ensures k < |elements|
    {
      FilledExactly(elements, vs, k);
    }
  }

  /** The left side is worked out first, and what it makes is there for the right side. */
  lemma LeftFirst(w: World, op: string, l: Expression, r: Expression, env: Env, st: Store)
    ensures Eval(w, Binary(op, l, r), env, st) ==
            match Eval(w, l, env, st)
            case None => None
            case Some(left) =>
              match Eval(w, r, env, left.1)
              case None => None
              case Some(right) => Some((Picked(w.binary(op, left.0, right.0), left.0, right.0), right.1))
  {
    var e := Binary(op, l, r);
    PartsSmaller(e);
    var parts := Parts(e);
    assert parts[1..] == [r] && parts[1..][1..] == [];
    if Eval(w, l, env, st).Some? {
      var st1 := Eval(w, l, env, st).value.1;
      assert EvalAll(w, e, parts, env, st) ==
             match EvalAll(w, e, [r], env, st1) case None => None case Some(rest) => Some(([Eval(w, l, env, st).value.0] + rest.0, rest.1));
      if Eval(w, r, env, st1).Some? {
        var right := Eval(w, r, env, st1).value;
        assert EvalAll(w, e, [], env, right.1) == Some(([], right.1));
        assert EvalAll(w, e, [r], env, st1) == Some(([right.0], right.1)) by {
          assert [right.0] + [] == [right.0];
        }
      }
    }
  }
}
