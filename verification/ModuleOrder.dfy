/** Module order: dependencies before the modules that use them, found by an
    explicit-stack depth-first walk that tolerates cycles. */
module ModuleOrder {
  import opened ModuleGraph
  import opened Sequences

  // ---------- The recursive depth-first walk the stack stands for

  function Keep(deps: seq<Id>, present: set<Id>, visited: set<Id>): (r: seq<Id>)
    ensures forall d :: d in r <==> d in deps && d in present && d !in visited
  {
    if deps == [] then []
    else if deps[0] in present && deps[0] !in visited then [deps[0]] + Keep(deps[1..], present, visited)
    else Keep(deps[1..], present, visited)
  }

  /** Dependencies of `m` still to visit, smallest first. */
  function Children(g: Graph, present: set<Id>, visited: set<Id>, m: Id): (r: seq<Id>)
    ensures forall d :: d in r <==> d in Out(g, m) && d in present && d !in visited
  {
    SortMembers(Keep(Out(g, m), present, visited));
    Sort(Keep(Out(g, m), present, visited))
  }

  /** Visits `ids` in turn, each after its unvisited present dependencies: the ids
      visited in the end, and the ids in the order they are finished. */
  ghost function Dfs(g: Graph, present: set<Id>, ids: seq<Id>, visited: set<Id>): (r: (set<Id>, seq<Id>))
    requires forall x :: x in ids ==> x in present
    ensures visited <= r.0
    decreases present - visited, |ids|
  {
    if ids == [] then (visited, [])
    else if ids[0] in visited then Dfs(g, present, ids[1..], visited)
    else
      var m := ids[0];
      var below := Dfs(g, present, Children(g, present, visited + {m}, m), visited + {m});
      var rest := Dfs(g, present, ids[1..], below.0);
      (rest.0, below.1 + [m] + rest.1)
  }

  // ---------- What the walk guarantees

  ghost predicate Before(s: seq<Id>, a: Id, b: Id) {
    exists i, j :: 0 <= i < j < |s| && s[i] == a && s[j] == b
  }

  lemma {:induction false} DfsVisits(g: Graph, present: set<Id>, ids: seq<Id>, visited: set<Id>)
    requires forall x :: x in ids ==> x in present
    ensures var r := Dfs(g, present, ids, visited);
      && (forall x :: x in r.0 <==> x in visited || x in r.1)
      && (forall x :: x in r.1 ==> x !in visited && x in present)
      && (forall x :: x in ids ==> x in r.0)
    decreases present - visited, |ids|
  {
    if ids != [] {
      if ids[0] in visited {
        DfsVisits(g, present, ids[1..], visited);
      } else {
        var m := ids[0];
        var below := Dfs(g, present, Children(g, present, visited + {m}, m), visited + {m});
        DfsVisits(g, present, Children(g, present, visited + {m}, m), visited + {m});
        DfsVisits(g, present, ids[1..], below.0);
      }
      assert ids == [ids[0]] + ids[1..];
    }
  }

  lemma NoDupConcat(a: seq<Id>, m: Id, b: seq<Id>)
    requires NoDup(a) && NoDup(b) && m !in a && m !in b
    requires forall x :: x in a ==> x !in b
    ensures NoDup(a + [m] + b)
  {
    var s := a + [m] + b;
    forall i, j | 0 <= i < j < |s| ensures s[i] != s[j] {
      if i < |a| { assert s[i] in a; }
      if j > |a| { assert s[j] in b; }
    }
  }

  lemma {:induction false} DfsNoDup(g: Graph, present: set<Id>, ids: seq<Id>, visited: set<Id>)
    requires forall x :: x in ids ==> x in present
    ensures NoDup(Dfs(g, present, ids, visited).1)
    decreases present - visited, |ids|
  {
    if ids != [] {
      if ids[0] in visited {
        DfsNoDup(g, present, ids[1..], visited);
      } else {
        var m := ids[0];
        var children := Children(g, present, visited + {m}, m);
        var below := Dfs(g, present, children, visited + {m});
        DfsNoDup(g, present, children, visited + {m});
        DfsNoDup(g, present, ids[1..], below.0);
        DfsVisits(g, present, children, visited + {m});
        DfsVisits(g, present, ids[1..], below.0);
        NoDupConcat(below.1, m, Dfs(g, present, ids[1..], below.0).1);
      }
    }
  }

  /** A walk of one or more dependency steps through present modules. */
  ghost predicate PresentWalk(g: Graph, present: set<Id>, p: seq<Id>, a: Id, b: Id) {
    && |p| >= 2 && p[0] == a && p[|p| - 1] == b
    && (forall i :: 0 <= i < |p| - 1 ==> StepAt(g, p, i))
    && forall x :: x in p[1..] ==> x in present
  }

  /** `a` depends on `b`, directly or through present modules. */
  ghost predicate DependsOn(g: Graph, present: set<Id>, a: Id, b: Id) {
    exists p :: PresentWalk(g, present, p, a, b)
  }

  lemma DependsDirectly(g: Graph, present: set<Id>, a: Id, b: Id)
    requires b in Out(g, a) && b in present
    ensures DependsOn(g, present, a, b)
  {
    var p := [a, b];
    assert StepAt(g, p, 0);
    assert PresentWalk(g, present, p, a, b);
  }

  lemma DependsStep(g: Graph, present: set<Id>, a: Id, c: Id, b: Id)
    requires c in Out(g, a) && c in present && DependsOn(g, present, c, b)
    ensures DependsOn(g, present, a, b)
  {
    var p :| PresentWalk(g, present, p, c, b);
    var q := [a] + p;
    forall i | 0 <= i < |q| - 1 ensures StepAt(g, q, i) {
      if i > 0 { assert StepAt(g, p, i - 1); }
    }
    forall x | x in q[1..] ensures x in present {
      assert q[1..] == p && p == [c] + p[1..];
    }
    assert PresentWalk(g, present, q, a, b);
  }

  ghost predicate DependsOnSome(g: Graph, present: set<Id>, ids: seq<Id>, x: Id) {
    exists m :: m in ids && (m == x || DependsOn(g, present, m, x))
  }

  lemma {:induction false} DfsStaysBelow(g: Graph, present: set<Id>, ids: seq<Id>, visited: set<Id>, x: Id)
    requires forall x :: x in ids ==> x in present
    requires x in Dfs(g, present, ids, visited).1
    ensures DependsOnSome(g, present, ids, x)
    decreases present - visited, |ids|
  {
    assert ids == [ids[0]] + ids[1..];
    if ids[0] in visited {
      DfsStaysBelow(g, present, ids[1..], visited, x);
      var c :| c in ids[1..] && (c == x || DependsOn(g, present, c, x));
      assert c in ids;
    } else {
      var m := ids[0];
      var children := Children(g, present, visited + {m}, m);
      var below := Dfs(g, present, children, visited + {m});
      if x in below.1 {
        DfsStaysBelow(g, present, children, visited + {m}, x);
        var c :| c in children && (c == x || DependsOn(g, present, c, x));
        if c == x {
          DependsDirectly(g, present, m, x);
        } else {
          DependsStep(g, present, m, c, x);
        }
        assert m in ids;
      } else if x == m {
        assert m in ids;
      } else {
        DfsStaysBelow(g, present, ids[1..], below.0, x);
        var c :| c in ids[1..] && (c == x || DependsOn(g, present, c, x));
        assert c in ids;
      }
    }
  }

  lemma BeforeIn(a: seq<Id>, s: seq<Id>, b: seq<Id>, x: Id, y: Id)
    requires Before(s, x, y)
    ensures Before(a + s + b, x, y)
  {
    var i, j :| 0 <= i < j < |s| && s[i] == x && s[j] == y;
    var t := a + s + b;
    assert t[|a| + i] == x && t[|a| + j] == y;
  }

  lemma BeforeAcross(a: seq<Id>, b: seq<Id>, x: Id, y: Id)
    requires x in a && y in b
    ensures Before(a + b, x, y)
  {
    var i :| 0 <= i < |a| && a[i] == x;
    var j :| 0 <= j < |b| && b[j] == y;
    var t := a + b;
    assert t[i] == x && t[|a| + j] == y;
  }

  /** Each dependency of a finished module was visited beforehand, or finished
      before it, or itself depends on the module. */
  ghost predicate DependencyPlaced(g: Graph, present: set<Id>, visited: set<Id>, out: seq<Id>, m: Id, d: Id) {
    d in visited || Before(out, d, m) || DependsOn(g, present, d, m)
  }

  lemma PlacedLater(g: Graph, present: set<Id>, visited: set<Id>, m0: Id, below: seq<Id>, rest: seq<Id>, m: Id, d: Id)
    requires m in rest
    requires DependencyPlaced(g, present, visited + {m0} + (set x | x in below), rest, m, d)
    ensures DependencyPlaced(g, present, visited, below + [m0] + rest, m, d)
  {
    if d in below || d == m0 {
      assert d in below + [m0];
      BeforeAcross(below + [m0], rest, d, m);
    } else if Before(rest, d, m) {
      BeforeIn(below + [m0], rest, [], d, m);
      assert below + [m0] + rest + [] == below + [m0] + rest;
    }
  }

  lemma PlacedBelow(g: Graph, present: set<Id>, visited: set<Id>, m0: Id, below: seq<Id>, rest: seq<Id>, m: Id, d: Id)
    requires m in below && DependsOn(g, present, m0, m)
    requires DependencyPlaced(g, present, visited + {m0}, below, m, d)
    ensures DependencyPlaced(g, present, visited, below + [m0] + rest, m, d)
  {
    if Before(below, d, m) {
      BeforeIn([], below, [m0] + rest, d, m);
      assert [] + below + ([m0] + rest) == below + [m0] + rest;
    }
  }

  lemma PlacedHere(g: Graph, present: set<Id>, visited: set<Id>, m0: Id, below: seq<Id>, rest: seq<Id>, d: Id)
    requires d in visited + {m0} || d in below
    requires d != m0
    ensures DependencyPlaced(g, present, visited, below + [m0] + rest, m0, d)
  {
    if d in below {
      BeforeAcross(below, [m0] + rest, d, m0);
      assert below + ([m0] + rest) == below + [m0] + rest;
    }
  }

  lemma {:induction false} DfsPlaces(g: Graph, present: set<Id>, ids: seq<Id>, visited: set<Id>, m: Id, d: Id)
    requires forall x :: x in ids ==> x in present
    requires m in Dfs(g, present, ids, visited).1
    requires d in Out(g, m) && d in present && d != m
    ensures DependencyPlaced(g, present, visited, Dfs(g, present, ids, visited).1, m, d)
    decreases present - visited, |ids|
  {
    if ids[0] in visited {
      DfsPlaces(g, present, ids[1..], visited, m, d);
    } else {
      var m0 := ids[0];
      var children := Children(g, present, visited + {m0}, m0);
      var below := Dfs(g, present, children, visited + {m0});
      var rest := Dfs(g, present, ids[1..], below.0);
      DfsVisits(g, present, children, visited + {m0});
      if m in below.1 {
        DfsPlaces(g, present, children, visited + {m0}, m, d);
        DfsStaysBelow(g, present, children, visited + {m0}, m);
        var c :| c in children && (c == m || DependsOn(g, present, c, m));
        if c == m { DependsDirectly(g, present, m0, m); } else { DependsStep(g, present, m0, c, m); }
        PlacedBelow(g, present, visited, m0, below.1, rest.1, m, d);
      } else if m == m0 {
        PlacedHere(g, present, visited, m0, below.1, rest.1, d);
      } else {
        DfsPlaces(g, present, ids[1..], below.0, m, d);
        assert below.0 == visited + {m0} + (set x | x in below.1);
        PlacedLater(g, present, visited, m0, below.1, rest.1, m, d);
      }
    }
  }

  // ---------- The explicit stack

  datatype Frame = Frame(id: Id, emit: bool)

  /** What a stack, topmost frame last, still has to emit. */
  ghost function Pending(g: Graph, present: set<Id>, stack: seq<Frame>, visited: set<Id>): (set<Id>, seq<Id>)
    requires forall f :: f in stack ==> f.id in present
    decreases |stack|
  {
    if stack == [] then (visited, [])
    else
      var top, rest := stack[|stack| - 1], stack[..|stack| - 1];
      if top.emit then
        var later := Pending(g, present, rest, visited);
        (later.0, [top.id] + later.1)
      else
        var now := Dfs(g, present, [top.id], visited);
        var later := Pending(g, present, rest, now.0);
        (later.0, now.1 + later.1)
  }

  /** Frames for `ids`, pushed in reverse so the first id ends up on top. */
  ghost function Pushed(ids: seq<Id>): (r: seq<Frame>)
    ensures forall f :: f in r ==> f.id in ids
  {
    if ids == [] then [] else Pushed(ids[1..]) + [Frame(ids[0], false)]
  }

  lemma DfsOne(g: Graph, present: set<Id>, m: Id, visited: set<Id>)
    requires m in present
    ensures m in visited ==> Dfs(g, present, [m], visited) == (visited, [])
    ensures m !in visited ==>
              var below := Dfs(g, present, Children(g, present, visited + {m}, m), visited + {m});
              Dfs(g, present, [m], visited) == (below.0, below.1 + [m])
  {
    var one := [m];
    assert one[0] == m && one[1..] == [];
    if m in visited {
      assert Dfs(g, present, one, visited) == Dfs(g, present, one[1..], visited);
    } else {
      var below := Dfs(g, present, Children(g, present, visited + {m}, m), visited + {m});
      var rest := Dfs(g, present, one[1..], below.0);
      assert rest == (below.0, []);
      assert Dfs(g, present, one, visited) == (rest.0, below.1 + [m] + rest.1);
      assert below.1 + [m] + [] == below.1 + [m];
    }
  }

  lemma DfsFirst(g: Graph, present: set<Id>, ids: seq<Id>, visited: set<Id>)
    requires ids != [] && forall x :: x in ids ==> x in present
    ensures var first := Dfs(g, present, [ids[0]], visited);
      var rest := Dfs(g, present, ids[1..], first.0);
      Dfs(g, present, ids, visited) == (rest.0, first.1 + rest.1)
  {
    DfsOne(g, present, ids[0], visited);
    var first := Dfs(g, present, [ids[0]], visited);
    var rest := Dfs(g, present, ids[1..], first.0);
    if ids[0] in visited {
      assert [] + rest.1 == rest.1;
    }
  }

  lemma PendingTop(g: Graph, present: set<Id>, rest: seq<Frame>, m: Id, visited: set<Id>)
    requires m in present && forall f :: f in rest ==> f.id in present
    ensures var later := Pending(g, present, rest, visited);
      Pending(g, present, rest + [Frame(m, true)], visited) == (later.0, [m] + later.1)
    ensures var now := Dfs(g, present, [m], visited);
      var later := Pending(g, present, rest, now.0);
      Pending(g, present, rest + [Frame(m, false)], visited) == (later.0, now.1 + later.1)
  {
    assert (rest + [Frame(m, true)])[..|rest|] == rest;
    assert (rest + [Frame(m, false)])[..|rest|] == rest;
  }

  lemma {:induction false} PendingPushed(g: Graph, present: set<Id>, rest: seq<Frame>, ids: seq<Id>, visited: set<Id>)
    requires forall f :: f in rest ==> f.id in present
    requires forall x :: x in ids ==> x in present
    ensures var now := Dfs(g, present, ids, visited);
      var later := Pending(g, present, rest, now.0);
      Pending(g, present, rest + Pushed(ids), visited) == (later.0, now.1 + later.1)
    decreases |ids|
  {
    if ids == [] {
      assert rest + Pushed(ids) == rest;
      var later := Pending(g, present, rest, visited);
      assert [] + later.1 == later.1;
    } else {
      var stack := rest + Pushed(ids[1..]);
      var first := Dfs(g, present, [ids[0]], visited);
      var mid := Dfs(g, present, ids[1..], first.0);
      var later := Pending(g, present, rest, mid.0);
      assert rest + Pushed(ids) == stack + [Frame(ids[0], false)];
      assert Pending(g, present, stack + [Frame(ids[0], false)], visited) == (later.0, first.1 + (mid.1 + later.1)) by {
        PendingTop(g, present, stack, ids[0], visited);
        PendingPushed(g, present, rest, ids[1..], first.0);
      }
      assert Dfs(g, present, ids, visited) == (mid.0, first.1 + mid.1) by {
        DfsFirst(g, present, ids, visited);
      }
      assert first.1 + (mid.1 + later.1) == (first.1 + mid.1) + later.1;
    }
  }

  lemma ExpandKeepsPending(g: Graph, present: set<Id>, rest: seq<Frame>, m: Id, visited: set<Id>)
    requires forall f :: f in rest ==> f.id in present
    requires m in present && m !in visited
    ensures Pending(g, present, rest + [Frame(m, true)] + Pushed(Children(g, present, visited + {m}, m)), visited + {m})
         == Pending(g, present, rest + [Frame(m, false)], visited)
  {
    var children := Children(g, present, visited + {m}, m);
    var below := Dfs(g, present, children, visited + {m});
    var later := Pending(g, present, rest, below.0);
    assert Pending(g, present, rest + [Frame(m, true)] + Pushed(children), visited + {m})
        == (later.0, below.1 + ([m] + later.1)) by {
      PendingPushed(g, present, rest + [Frame(m, true)], children, visited + {m});
      PendingTop(g, present, rest, m, below.0);
    }
    assert Pending(g, present, rest + [Frame(m, false)], visited) == (later.0, below.1 + [m] + later.1) by {
      PendingTop(g, present, rest, m, visited);
      DfsOne(g, present, m, visited);
    }
    assert below.1 + ([m] + later.1) == below.1 + [m] + later.1;
  }

  lemma EmitKeepsPending(g: Graph, present: set<Id>, order: seq<Id>, stack: seq<Frame>, visited: set<Id>)
    requires stack != [] && stack[|stack| - 1].emit
    requires forall f :: f in stack ==> f.id in present
    ensures order + Pending(g, present, stack, visited).1
         == order + [stack[|stack| - 1].id] + Pending(g, present, stack[..|stack| - 1], visited).1
    ensures Pending(g, present, stack, visited).0 == Pending(g, present, stack[..|stack| - 1], visited).0
  {
  }

  lemma SkipKeepsPending(g: Graph, present: set<Id>, stack: seq<Frame>, visited: set<Id>)
    requires stack != [] && !stack[|stack| - 1].emit && stack[|stack| - 1].id in visited
    requires forall f :: f in stack ==> f.id in present
    ensures Pending(g, present, stack, visited) == Pending(g, present, stack[..|stack| - 1], visited)
  {
    DfsOne(g, present, stack[|stack| - 1].id, visited);
    var later := Pending(g, present, stack[..|stack| - 1], visited);
    assert [] + later.1 == later.1;
  }

  method PushChildren(stack: seq<Frame>, deps: seq<Id>) returns (stack': seq<Frame>)
    ensures stack' == stack + Pushed(deps)
  {
    stack' := stack;
    assert deps[|deps|..] == [];
    for i := |deps| downto 0
      invariant stack' == stack + Pushed(deps[i..])
    {
      assert deps[i..][1..] == deps[i + 1..];
      stack' := stack' + [Frame(deps[i], false)];
    }
    assert deps[0..] == deps;
  }

  /** Runs the stack for one root, producing what the recursive walk produces. */
  method WalkFrom(g: Graph, present: set<Id>, root: Id, visited: set<Id>, order: seq<Id>)
    returns (visited': set<Id>, order': seq<Id>)
    requires root in present
    ensures var r := Dfs(g, present, [root], visited);
      visited' == r.0 && order' == order + r.1
  {
    visited', order' := visited, order;
    var stack := [Frame(root, false)];
    ghost var goal := Pending(g, present, stack, visited);
    while stack != []
      invariant forall f :: f in stack ==> f.id in present
      invariant Pending(g, present, stack, visited').0 == goal.0
      invariant order' + Pending(g, present, stack, visited').1 == order + goal.1
      decreases present - visited', |stack|
    {
      var top, rest := stack[|stack| - 1], stack[..|stack| - 1];
      assert stack == rest + [top];
      if top.emit {
        EmitKeepsPending(g, present, order', stack, visited');
        order' := order' + [top.id];
        stack := rest;
      } else if top.id in visited' {
        SkipKeepsPending(g, present, stack, visited');
        stack := rest;
      } else {
        ExpandKeepsPending(g, present, rest, top.id, visited');
        assert top.id in present - visited';
        visited' := visited' + {top.id};
        var deps := Children(g, present, visited', top.id);
        stack := PushChildren(rest + [top.(emit := true)], deps);
      }
    }
    assert goal.1 == Dfs(g, present, [root], visited).1 + [];
    assert order' + [] == order';
  }

  function Requested(moduleIds: seq<Id>): set<Id> {
    set x | x in moduleIds
  }

  /** The order of the recursive walk from all requested modules, smallest first. */
  ghost function Expected(g: Graph, moduleIds: seq<Id>): seq<Id> {
    Dfs(g, Requested(moduleIds), RootsOf(moduleIds), {}).1
  }

  /** Walking the roots from `i` on completes `order` to what all roots give. */
  ghost predicate Completes(g: Graph, present: set<Id>, roots: seq<Id>, i: nat, visited: set<Id>, order: seq<Id>)
    requires i <= |roots| && forall x :: x in roots ==> x in present
  {
    var goal, rest := Dfs(g, present, roots, {}), Dfs(g, present, roots[i..], visited);
    rest.0 == goal.0 && order + rest.1 == goal.1
  }

  lemma SkipRoot(g: Graph, present: set<Id>, roots: seq<Id>, i: nat, visited: set<Id>, order: seq<Id>)
    requires i < |roots| && forall x :: x in roots ==> x in present
    requires Completes(g, present, roots, i, visited, order) && roots[i] in visited
    ensures Completes(g, present, roots, i + 1, visited, order)
  {
    assert roots[i..][0] == roots[i] && roots[i..][1..] == roots[i + 1..];
  }

  lemma WalkRoot(g: Graph, present: set<Id>, roots: seq<Id>, i: nat, visited: set<Id>, order: seq<Id>)
    requires i < |roots| && forall x :: x in roots ==> x in present
    requires Completes(g, present, roots, i, visited, order)
    ensures var now := Dfs(g, present, [roots[i]], visited);
      Completes(g, present, roots, i + 1, now.0, order + now.1)
  {
    assert roots[i..][0] == roots[i] && roots[i..][1..] == roots[i + 1..];
    DfsFirst(g, present, roots[i..], visited);
    var now := Dfs(g, present, [roots[i]], visited);
    var rest := Dfs(g, present, roots[i + 1..], now.0);
    assert order + now.1 + rest.1 == order + (now.1 + rest.1);
  }

  /** Walks from every root in turn. */
  method WalkAll(g: Graph, present: set<Id>, roots: seq<Id>) returns (visited: set<Id>, order: seq<Id>)
    requires forall x :: x in roots ==> x in present
    ensures var r := Dfs(g, present, roots, {});
      visited == r.0 && order == r.1
  {
    visited, order := {}, [];
    assert roots[0..] == roots;
    for i := 0 to |roots|
      invariant Completes(g, present, roots, i, visited, order)
    {
      assert roots[i] in roots;
      if roots[i] in visited {
        SkipRoot(g, present, roots, i, visited, order);
      } else {
        WalkRoot(g, present, roots, i, visited, order);
        visited, order := WalkFrom(g, present, roots[i], visited, order);
      }
    }
    assert roots[|roots|..] == [];
    assert order + [] == order;
  }

  /** Every requested module once; a dependency comes before its user unless the two
      depend on each other. */
  method TopologicalModuleOrder(moduleIds: seq<Id>, g: Graph) returns (order: seq<Id>)
    ensures order == Expected(g, moduleIds)
    ensures NoDup(order) && forall x :: x in order <==> x in moduleIds
    ensures forall m, d :: m in moduleIds && d in moduleIds && d in Out(g, m) && d != m ==>
              Before(order, d, m) || DependsOn(g, Requested(moduleIds), d, m)
  {
    var roots := RootsOf(moduleIds);
    var visited;
    visited, order := WalkAll(g, Requested(moduleIds), roots);
    OrderIsTopological(moduleIds, g);
    for i := 0 to |roots|
      invariant order == Expected(g, moduleIds)
    {
      var id := roots[i];
      assert id in roots;
      if id !in visited {
        order := order + [id];
      }
    }
  }

  function RootsOf(moduleIds: seq<Id>): (r: seq<Id>)
    ensures forall x :: x in r <==> x in moduleIds
  {
    SortMembers(moduleIds);
    Sort(moduleIds)
  }

  lemma OrderIsTopological(moduleIds: seq<Id>, g: Graph)
    ensures var present := Requested(moduleIds);
      var r := Dfs(g, present, RootsOf(moduleIds), {});
      && r.0 == present
      && NoDup(r.1)
      && (forall x :: x in r.1 <==> x in moduleIds)
      && forall m, d | m in moduleIds && d in moduleIds && d in Out(g, m) && d != m ::
           Before(r.1, d, m) || DependsOn(g, present, d, m)
  {
    var present := Requested(moduleIds);
    var roots := RootsOf(moduleIds);
    var r := Dfs(g, present, roots, {});
    DfsVisits(g, present, roots, {});
    DfsNoDup(g, present, roots, {});
    forall m, d | m in moduleIds && d in moduleIds && d in Out(g, m) && d != m
      ensures Before(r.1, d, m) || DependsOn(g, present, d, m)
    {
      DfsPlaces(g, present, roots, {}, m, d);
    }
  }

  /** Without cycles every dependency comes first, and never after. */
  lemma AcyclicOrder(moduleIds: seq<Id>, g: Graph, m: Id, d: Id)
    requires forall x :: !DependsOn(g, Requested(moduleIds), x, x)
    requires m in moduleIds && d in moduleIds && d in Out(g, m)
    ensures var order := Expected(g, moduleIds);
      Before(order, d, m) && !Before(order, m, d)
  {
    var present := Requested(moduleIds);
    var order := Dfs(g, present, RootsOf(moduleIds), {}).1;
    OrderIsTopological(moduleIds, g);
    DependsDirectly(g, present, m, d);
    if DependsOn(g, present, d, m) {
      DependsStep(g, present, m, d, m);
    }
    NotBothWays(order, d, m);
  }

  lemma NotBothWays(s: seq<Id>, a: Id, b: Id)
    requires NoDup(s) && Before(s, a, b)
    ensures !Before(s, b, a)
  {
    var i, j :| 0 <= i < j < |s| && s[i] == a && s[j] == b;
  }

  // ---------- Smallest first

  lemma LaterInSorted(ids: seq<Id>, a: Id)
    requires IsSorted(ids) && ids != [] && a in ids
    ensures ids[0] <= a && IsSorted(ids[1..]) && (a != ids[0] ==> a in ids[1..])
  {
    assert ids == [ids[0]] + ids[1..];
    forall i, j | 0 <= i < j < |ids[1..]|
      ensures ids[1..][i] <= ids[1..][j]
    {
      assert ids[i + 1] <= ids[j + 1];
    }
  }

  /** Of two ids walked in ascending order the smaller one is finished first, unless the larger one is
      needed by an id walked no later than the smaller one. */
  lemma {:induction false} WalkedInOrder(g: Graph, present: set<Id>, ids: seq<Id>, visited: set<Id>, a: Id, b: Id)
    requires IsSorted(ids) && (forall x :: x in ids ==> x in present)
    requires a in ids && b in ids && a < b && a !in visited && b !in visited
    ensures Before(Dfs(g, present, ids, visited).1, a, b) || exists c :: c in ids && c <= a && DependsOn(g, present, c, b)
    decreases present - visited, |ids|
  {
    LaterInSorted(ids, a);
    LaterInSorted(ids, b);
    var m := ids[0];
    assert m in ids;
    if m in visited {
      WalkedInOrder(g, present, ids[1..], visited, a, b);
    } else {
      var children := Children(g, present, visited + {m}, m);
      var below := Dfs(g, present, children, visited + {m});
      var rest := Dfs(g, present, ids[1..], below.0);
      DfsVisits(g, present, children, visited + {m});
      DfsVisits(g, present, ids[1..], below.0);
      if b in below.1 {
        DfsStaysBelow(g, present, children, visited + {m}, b);
        var c :| c in children && (c == b || DependsOn(g, present, c, b));
        if c == b { DependsDirectly(g, present, m, b); } else { DependsStep(g, present, m, c, b); }
      } else if a in below.1 + [m] {
        BeforeAcross(below.1 + [m], rest.1, a, b);
      } else {
        WalkedInOrder(g, present, ids[1..], below.0, a, b);
        if Before(rest.1, a, b) {
          BeforeIn(below.1 + [m], rest.1, [], a, b);
          assert below.1 + [m] + rest.1 + [] == below.1 + [m] + rest.1;
        }
      }
    }
  }

  /** In the order of all requested modules the smaller of two comes first, unless one no larger than it
      needs the larger one. */
  lemma SmallestFirst(moduleIds: seq<Id>, g: Graph, a: Id, b: Id)
    requires a in moduleIds && b in moduleIds && a < b
    ensures var order := Expected(g, moduleIds);
      Before(order, a, b) || exists c :: c in moduleIds && c <= a && DependsOn(g, Requested(moduleIds), c, b)
  {
    SortSpec(moduleIds);
    WalkedInOrder(g, Requested(moduleIds), RootsOf(moduleIds), {}, a, b);
  }

  /** Of two dependencies listed for a module, both still to visit, the smaller one is finished first,
      unless one listed that is no larger needs the larger one. */
  lemma SmallestDependencyFirst(g: Graph, present: set<Id>, visited: set<Id>, m: Id, a: Id, b: Id)
    requires m in present && m !in visited && m in g && a in g[m] && b in g[m] && a < b
    requires a in present && b in present && a !in visited + {m} && b !in visited + {m}
    ensures Before(Dfs(g, present, [m], visited).1, a, b) || exists c :: c in g[m] && c <= a && DependsOn(g, present, c, b)
  {
    var children := Children(g, present, visited + {m}, m);
    SortSpec(Keep(Out(g, m), present, visited + {m}));
    DfsOne(g, present, m, visited);
    WalkedInOrder(g, present, children, visited + {m}, a, b);
    var below := Dfs(g, present, children, visited + {m}).1;
    if Before(below, a, b) {
      BeforeIn([], below, [m], a, b);
      assert [] + below + [m] == below + [m];
    }
  }

  /** Said of the graph itself: what is listed for a module comes before it, unless it depends on it. */
  lemma ListedComeFirst(moduleIds: seq<Id>, g: Graph, m: Id, d: Id)
    requires m in moduleIds && d in moduleIds && m in g && d in g[m] && d != m
    ensures Before(Expected(g, moduleIds), d, m) || DependsOn(g, Requested(moduleIds), d, m)
    ensures DependsOn(g, Requested(moduleIds), m, d)
  {
    OutExactly(g, m, d);
    OrderIsTopological(moduleIds, g);
    DependsDirectly(g, Requested(moduleIds), m, d);
  }
}
