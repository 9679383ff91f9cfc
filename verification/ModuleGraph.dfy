/** The module dependency graph: walks over it, and a sort of id lists. */
module ModuleGraph {
  type Id = nat
  type Graph = map<Id, seq<Id>>

  function Out(g: Graph, m: Id): seq<Id> {
    if m in g then g[m] else []
  }

  /** The ids listed for `m` in the graph are where its edges lead. */
  lemma OutExactly(g: Graph, m: Id, d: Id)
    ensures d in Out(g, m) <==> m in g && d in g[m]
  {
  }

  ghost predicate IsWalk(g: Graph, p: seq<Id>) {
    p != [] && forall i :: 0 <= i < |p| - 1 ==> StepAt(g, p, i)
  }

  ghost predicate StepAt(g: Graph, p: seq<Id>, i: nat)
    requires i + 1 < |p|
  {
    p[i + 1] in Out(g, p[i])
  }

  /** A walk of at most `k` hops leads from `root` to `x`. */
  ghost predicate Within(g: Graph, root: Id, k: nat, x: Id) {
    exists p :: IsWalk(g, p) && p[0] == root && p[|p| - 1] == x && |p| <= k + 1
  }

  lemma WithinRoot(g: Graph, root: Id, k: nat)
    ensures Within(g, root, k, root)
  {
    assert IsWalk(g, [root]);
  }

  lemma WithinStep(g: Graph, root: Id, k: nat, x: Id, y: Id)
    requires Within(g, root, k, x) && y in Out(g, x)
    ensures Within(g, root, k + 1, y)
  {
    var p :| IsWalk(g, p) && p[0] == root && p[|p| - 1] == x && |p| <= k + 1;
    var q := p + [y];
    forall i | 0 <= i < |q| - 1 ensures StepAt(g, q, i) {
      if i < |p| - 1 {
        assert StepAt(g, p, i);
      }
    }
    assert IsWalk(g, q);
  }

  lemma ShortenWalk(g: Graph, p: seq<Id>)
    requires IsWalk(g, p) && |p| > 1
    ensures IsWalk(g, p[..|p| - 1]) && p[|p| - 1] in Out(g, p[|p| - 2])
  {
    var q := p[..|p| - 1];
    forall i | 0 <= i < |q| - 1 ensures StepAt(g, q, i) {
      assert StepAt(g, p, i);
    }
    assert StepAt(g, p, |p| - 2);
  }

  /** Every id a walk from `root` can meet. */
  ghost function Nodes(g: Graph, root: Id): set<Id> {
    {root} + set m, d | m in g && d in g[m] :: d
  }

  // ---------- Sorting a list of ids, repeats kept

  ghost predicate IsSorted(s: seq<Id>) {
    forall i, j :: 0 <= i < j < |s| ==> s[i] <= s[j]
  }

  function Insert(x: Id, s: seq<Id>): seq<Id> {
    if s == [] || x <= s[0] then [x] + s else [s[0]] + Insert(x, s[1..])
  }

  function Sort(s: seq<Id>): seq<Id> {
    if s == [] then [] else Insert(s[0], Sort(s[1..]))
  }

  lemma {:induction false} InsertMembers(x: Id, s: seq<Id>)
    ensures multiset(Insert(x, s)) == multiset(s) + multiset{x}
  {
    if s != [] && x > s[0] {
      InsertMembers(x, s[1..]);
      assert s == [s[0]] + s[1..];
    }
  }

  lemma {:induction false} InsertSorted(x: Id, s: seq<Id>)
    requires IsSorted(s)
    ensures IsSorted(Insert(x, s))
    ensures Insert(x, s)[0] == x || (s != [] && Insert(x, s)[0] == s[0])
  {
    if s != [] && x > s[0] {
      InsertSorted(x, s[1..]);
    }
  }

  lemma {:induction false} SortSpec(s: seq<Id>)
    ensures IsSorted(Sort(s))
    ensures multiset(Sort(s)) == multiset(s)
  {
    if s != [] {
      SortSpec(s[1..]);
      InsertMembers(s[0], Sort(s[1..]));
      InsertSorted(s[0], Sort(s[1..]));
      assert s == [s[0]] + s[1..];
    }
  }

  lemma SortMembers(s: seq<Id>)
    ensures forall x :: x in Sort(s) <==> x in s
  {
    SortSpec(s);
    forall x ensures x in Sort(s) <==> x in s {
      assert x in Sort(s) <==> x in multiset(Sort(s));
      assert x in s <==> x in multiset(s);
    }
  }
}
