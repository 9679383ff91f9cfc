/** Two depth-bounded searches, marking when popped and when pushed, that find the same ids. */
module ModuleSubtree {
  import opened ModuleGraph

  datatype Entry = Entry(id: Id, depth: nat)

  type Depths = map<Id, nat>

  /** Depths leave the queue in non-decreasing order and never spread by more than one. */
  ghost predicate QueueOrdered(q: seq<Entry>) {
    && (forall i, j :: 0 <= i < j < |q| ==> q[i].depth <= q[j].depth)
    && (q != [] ==> q[|q| - 1].depth <= q[0].depth + 1)
  }

  lemma OrderedTail(q: seq<Entry>)
    requires QueueOrdered(q) && q != []
    ensures QueueOrdered(q[1..])
    ensures forall e :: e in q[1..] ==> q[0].depth <= e.depth <= q[0].depth + 1
  {
    forall e | e in q[1..] ensures q[0].depth <= e.depth <= q[0].depth + 1 {
      var i :| 0 <= i < |q[1..]| && q[1..][i] == e;
      assert q[i + 1] == e;
    }
  }

  lemma OrderedAppend(q: seq<Entry>, d: nat, added: seq<Entry>)
    requires QueueOrdered(q)
    requires forall e :: e in q ==> d <= e.depth <= d + 1
    requires forall e :: e in added ==> e.depth == d + 1
    ensures QueueOrdered(q + added)
    ensures forall e :: e in q + added ==> d <= e.depth <= d + 1
  {
    var r := q + added;
    forall i | 0 <= i < |r| ensures d <= r[i].depth <= d + 1 && (i >= |q| ==> r[i].depth == d + 1) {
      if i < |q| { assert r[i] in q; } else { assert r[i] in added; }
    }
  }

  // ---------- Marking when popped

  /** `y` has been taken from the queue at depth `c` or less, or waits there at such a depth. */
  ghost predicate Covered(depths: Depths, q: seq<Entry>, y: Id, c: nat) {
    (y in depths && depths[y] <= c) || exists e :: e in q && e.id == y && e.depth <= c
  }

  ghost predicate SeenAt(g: Graph, root: Id, max: nat, depths: Depths, q: seq<Entry>, x: Id)
    requires x in depths
  {
    && depths[x] <= max && Within(g, root, depths[x], x)
    && (forall e :: e in q ==> depths[x] <= e.depth)
    && (depths[x] < max ==> forall y :: y in Out(g, x) ==> Covered(depths, q, y, depths[x] + 1))
  }

  ghost predicate EntryOk(g: Graph, root: Id, max: nat, e: Entry) {
    e.depth <= max && Within(g, root, e.depth, e.id) && e.id in Nodes(g, root)
  }

  ghost predicate SearchInvariant(g: Graph, root: Id, max: nat, depths: Depths, q: seq<Entry>) {
    && QueueOrdered(q)
    && (forall e :: e in q ==> EntryOk(g, root, max, e))
    && (forall x :: x in depths ==> SeenAt(g, root, max, depths, q, x))
    && Covered(depths, q, root, 0)
  }

  lemma CoveredAfterPop(depths: Depths, q: seq<Entry>, depths': Depths, q': seq<Entry>, y: Id, c: nat)
    requires Covered(depths, q, y, c) && q != []
    requires forall x :: x in depths ==> x in depths' && depths'[x] == depths[x]
    requires q[0].id in depths' && depths'[q[0].id] <= q[0].depth
    requires forall e :: e in q[1..] ==> e in q'
    ensures Covered(depths', q', y, c)
  {
    if !(y in depths && depths[y] <= c) {
      var e :| e in q && e.id == y && e.depth <= c;
      assert e == q[0] || e in q[1..];
    }
  }

  lemma PopSeen(g: Graph, root: Id, max: nat, depths: Depths, q: seq<Entry>)
    requires SearchInvariant(g, root, max, depths, q) && q != [] && q[0].id in depths
    ensures SearchInvariant(g, root, max, depths, q[1..])
  {
    OrderedTail(q);
    assert SeenAt(g, root, max, depths, q, q[0].id);
    assert q[0] in q;
    forall x | x in depths ensures SeenAt(g, root, max, depths, q[1..], x) {
      assert SeenAt(g, root, max, depths, q, x);
      if depths[x] < max {
        forall y | y in Out(g, x) ensures Covered(depths, q[1..], y, depths[x] + 1) {
          CoveredAfterPop(depths, q, depths, q[1..], y, depths[x] + 1);
        }
      }
    }
    CoveredAfterPop(depths, q, depths, q[1..], root, 0);
  }

  /** The entries a newly popped module adds behind the queue. */
  ghost predicate Expansion(g: Graph, max: nat, e: Entry, added: seq<Entry>) {
    && (e.depth >= max ==> added == [])
    && (forall x :: x in added ==> x.depth == e.depth + 1 && x.id in Out(g, e.id))
    && (e.depth < max ==> forall y :: y in Out(g, e.id) ==> Entry(y, e.depth + 1) in added)
  }

  lemma AddedOk(g: Graph, root: Id, max: nat, e: Entry, added: seq<Entry>)
    requires EntryOk(g, root, max, e) && Expansion(g, max, e, added)
    ensures forall x :: x in added ==> EntryOk(g, root, max, x)
  {
    forall x | x in added ensures EntryOk(g, root, max, x) {
      WithinStep(g, root, e.depth, e.id, x.id);
      assert x.id in Nodes(g, root);
    }
  }

  lemma NewSeenAt(g: Graph, root: Id, max: nat, depths: Depths, q: seq<Entry>, added: seq<Entry>, x: Id)
    requires SearchInvariant(g, root, max, depths, q) && q != [] && q[0].id !in depths
    requires Expansion(g, max, q[0], added)
    requires x in depths || x == q[0].id
    ensures SeenAt(g, root, max, depths[q[0].id := q[0].depth], q[1..] + added, x)
  {
    var e := q[0];
    var depths', q' := depths[e.id := e.depth], q[1..] + added;
    OrderedTail(q);
    assert e in q && EntryOk(g, root, max, e);
    if x == e.id {
      forall f | f in q' ensures depths'[x] <= f.depth {
        assert f in q[1..] || f in added;
      }
      if e.depth < max {
        forall y | y in Out(g, x) ensures Covered(depths', q', y, e.depth + 1) {
          assert Entry(y, e.depth + 1) in q';
        }
      }
    } else {
      assert SeenAt(g, root, max, depths, q, x);
      forall f | f in q' ensures depths'[x] <= f.depth {
        assert f in q[1..] || f in added;
        assert depths[x] <= e.depth;
      }
      if depths[x] < max {
        forall y | y in Out(g, x) ensures Covered(depths', q', y, depths[x] + 1) {
          CoveredAfterPop(depths, q, depths', q', y, depths[x] + 1);
        }
      }
    }
  }

  lemma NewEntries(g: Graph, root: Id, max: nat, q: seq<Entry>, added: seq<Entry>)
    requires QueueOrdered(q) && q != [] && forall e :: e in q ==> EntryOk(g, root, max, e)
    requires Expansion(g, max, q[0], added)
    ensures QueueOrdered(q[1..] + added)
    ensures forall e :: e in q[1..] + added ==> EntryOk(g, root, max, e)
  {
    assert q[0] in q;
    OrderedTail(q);
    OrderedAppend(q[1..], q[0].depth, added);
    AddedOk(g, root, max, q[0], added);
    forall e | e in q[1..] + added ensures EntryOk(g, root, max, e) {
      assert e in q[1..] || e in added;
    }
  }

  lemma PopNew(g: Graph, root: Id, max: nat, depths: Depths, q: seq<Entry>, added: seq<Entry>)
    requires SearchInvariant(g, root, max, depths, q) && q != [] && q[0].id !in depths
    requires Expansion(g, max, q[0], added)
    ensures SearchInvariant(g, root, max, depths[q[0].id := q[0].depth], q[1..] + added)
  {
    var depths', q' := depths[q[0].id := q[0].depth], q[1..] + added;
    NewEntries(g, root, max, q, added);
    assert forall x :: x in depths' ==> SeenAt(g, root, max, depths', q', x) by {
      forall x | x in depths' ensures SeenAt(g, root, max, depths', q', x) {
        NewSeenAt(g, root, max, depths, q, added, x);
      }
    }
    CoveredAfterPop(depths, q, depths', q', root, 0);
  }

  lemma {:induction false} WalkSeen(g: Graph, root: Id, max: nat, depths: Depths, p: seq<Id>)
    requires SearchInvariant(g, root, max, depths, [])
    requires IsWalk(g, p) && p[0] == root && |p| <= max + 1
    ensures p[|p| - 1] in depths && depths[p[|p| - 1]] <= |p| - 1
    decreases |p|
  {
    if |p| > 1 {
      ShortenWalk(g, p);
      WalkSeen(g, root, max, depths, p[..|p| - 1]);
      var x := p[|p| - 2];
      assert SeenAt(g, root, max, depths, [], x);
      assert Covered(depths, [], p[|p| - 1], depths[x] + 1);
    }
  }

  lemma SearchExact(g: Graph, root: Id, max: nat, depths: Depths, x: Id)
    requires SearchInvariant(g, root, max, depths, [])
    ensures x in depths <==> Within(g, root, max, x)
  {
    if x in depths {
      assert SeenAt(g, root, max, depths, [], x);
    }
    if Within(g, root, max, x) {
      var p :| IsWalk(g, p) && p[0] == root && p[|p| - 1] == x && |p| <= max + 1;
      WalkSeen(g, root, max, depths, p);
    }
  }

  /** The entries one hop behind `e`, in the order of its dependencies. */
  function OneHop(g: Graph, max: nat, e: Entry): (added: seq<Entry>)
    ensures Expansion(g, max, e, added)
  {
    if e.depth >= max then []
    else
      var deps := Out(g, e.id);
      var added := seq(|deps|, k requires 0 <= k < |deps| => Entry(deps[k], e.depth + 1));
      assert forall k :: 0 <= k < |deps| ==> added[k] == Entry(deps[k], e.depth + 1);
      added
  }

  method Enqueue(queue: seq<Entry>, g: Graph, max: nat, e: Entry) returns (queue': seq<Entry>)
    ensures queue' == queue + OneHop(g, max, e)
  {
    queue' := queue;
    if e.depth < max {
      var deps := Out(g, e.id);
      for i := 0 to |deps|
        invariant queue' == queue + OneHop(g, max, e)[..i]
      {
        queue' := queue' + [Entry(deps[i], e.depth + 1)];
      }
    }
  }

  lemma HeadIsNode(g: Graph, root: Id, max: nat, depths: Depths, q: seq<Entry>)
    requires SearchInvariant(g, root, max, depths, q) && q != []
    ensures q[0].id in Nodes(g, root)
  {
    assert q[0] in q && EntryOk(g, root, max, q[0]);
  }

  lemma StartSearch(g: Graph, root: Id, max: nat)
    ensures SearchInvariant(g, root, max, map[], [Entry(root, 0)])
  {
    WithinRoot(g, root, 0);
    assert Entry(root, 0) in [Entry(root, 0)];
  }

  /** One pop of the queue. */
  method SearchStep(g: Graph, ghost root: Id, max: nat, seen: set<Id>, out: set<Id>, queue: seq<Entry>, ghost depths: Depths)
    returns (seen': set<Id>, out': set<Id>, queue': seq<Entry>, ghost depths': Depths)
    requires SearchInvariant(g, root, max, depths, queue) && queue != [] && seen == depths.Keys
    ensures SearchInvariant(g, root, max, depths', queue') && seen' == depths'.Keys
    ensures queue[0].id in seen ==> seen' == seen && out' == out && queue' == queue[1..]
    ensures queue[0].id !in seen ==> seen' == seen + {queue[0].id} && out' == out + {queue[0].id}
    ensures queue[0].id in Nodes(g, root)
  {
    seen', out', queue', depths' := seen, out, queue[1..], depths;
    HeadIsNode(g, root, max, depths, queue);
    var e := queue[0];
    if e.id in seen {
      PopSeen(g, root, max, depths, queue);
      return;
    }
    seen' := seen + {e.id};
    out' := out + {e.id};
    queue' := Enqueue(queue[1..], g, max, e);
    PopNew(g, root, max, depths, queue, OneHop(g, max, e));
    depths' := depths[e.id := e.depth];
  }

  /** Adds exactly the modules within `maxDepth` dependency hops of `root`. */
  method CollectDependencySubtree(g: Graph, root: Id, maxDepth: nat, out: set<Id>) returns (out': set<Id>)
    ensures forall x :: x in out' <==> x in out || Within(g, root, maxDepth, x)
  {
    out' := out;
    var queue := [Entry(root, 0)];
    var seen: set<Id> := {};
    ghost var depths: Depths := map[];
    StartSearch(g, root, maxDepth);
    while queue != []
      invariant SearchInvariant(g, root, maxDepth, depths, queue)
      invariant seen == depths.Keys && out' == out + seen
      decreases Nodes(g, root) - seen, |queue|
    {
      seen, out', queue, depths := SearchStep(g, root, maxDepth, seen, out', queue, depths);
    }
    forall x ensures x in out' <==> x in out || Within(g, root, maxDepth, x) {
      SearchExact(g, root, maxDepth, depths, x);
    }
  }

  // ---------- Marking when pushed

  ghost predicate Waiting(q: seq<Entry>, x: Id) {
    exists e :: e in q && e.id == x
  }

  /** Everything one hop from `x` is marked no more than one deeper. */
  ghost predicate Expanded(g: Graph, depths: Depths, x: Id)
    requires x in depths
  {
    forall y :: y in Out(g, x) ==> y in depths && depths[y] <= depths[x] + 1
  }

  ghost predicate MarkedAt(g: Graph, root: Id, max: nat, depths: Depths, q: seq<Entry>, busy: set<Id>, x: Id)
    requires x in depths
  {
    && depths[x] <= max && Within(g, root, depths[x], x)
    && (depths[x] < max && !Waiting(q, x) && x !in busy ==> Expanded(g, depths, x))
  }

  /** Holds with `d` the depth being expanded; `busy` holds the node being expanded, if any. */
  ghost predicate MarkInvariant(g: Graph, root: Id, max: nat, depths: Depths, q: seq<Entry>, d: nat, busy: set<Id>) {
    && QueueOrdered(q)
    && (forall e :: e in q ==> e.id in depths && depths[e.id] == e.depth && d <= e.depth <= d + 1)
    && (forall x :: x in depths ==> depths[x] <= d + 1 && MarkedAt(g, root, max, depths, q, busy, x))
    && root in depths && depths[root] == 0
  }

  lemma PopMarked(g: Graph, root: Id, max: nat, depths: Depths, q: seq<Entry>, d: nat)
    requires MarkInvariant(g, root, max, depths, q, d, {}) && q != []
    ensures MarkInvariant(g, root, max, depths, q[1..], q[0].depth, {q[0].id})
  {
    OrderedTail(q);
    assert q[0] in q;
    forall x | x in depths ensures MarkedAt(g, root, max, depths, q[1..], {q[0].id}, x) {
      assert MarkedAt(g, root, max, depths, q, {}, x);
      if Waiting(q, x) && x != q[0].id {
        var e :| e in q && e.id == x;
        assert e in q[1..];
      }
    }
  }

  lemma MarkOne(g: Graph, root: Id, max: nat, depths: Depths, q: seq<Entry>, d: nat, node: Id, c: Id)
    requires MarkInvariant(g, root, max, depths, q, d, {node})
    requires node in depths && depths[node] == d < max && c in Out(g, node) && c !in depths
    ensures MarkInvariant(g, root, max, depths[c := d + 1], q + [Entry(c, d + 1)], d, {node})
  {
    var depths', q' := depths[c := d + 1], q + [Entry(c, d + 1)];
    OrderedAppend(q, d, [Entry(c, d + 1)]);
    assert MarkedAt(g, root, max, depths, q, {node}, node);
    WithinStep(g, root, d, node, c);
    assert Entry(c, d + 1) in q';
    forall x | x in depths' ensures MarkedAt(g, root, max, depths', q', {node}, x) {
      if x != c {
        assert MarkedAt(g, root, max, depths, q, {node}, x);
        if Waiting(q, x) {
          var e :| e in q && e.id == x;
          assert e in q';
        }
      }
    }
  }

  lemma DoneExpanding(g: Graph, root: Id, max: nat, depths: Depths, q: seq<Entry>, d: nat, node: Id)
    requires MarkInvariant(g, root, max, depths, q, d, {node})
    requires node in depths && (depths[node] < max ==> Expanded(g, depths, node))
    ensures MarkInvariant(g, root, max, depths, q, d, {})
  {
    forall x | x in depths ensures MarkedAt(g, root, max, depths, q, {}, x) {
      assert MarkedAt(g, root, max, depths, q, {node}, x);
    }
  }

  lemma {:induction false} WalkMarked(g: Graph, root: Id, max: nat, depths: Depths, d: nat, p: seq<Id>)
    requires MarkInvariant(g, root, max, depths, [], d, {})
    requires IsWalk(g, p) && p[0] == root && |p| <= max + 1
    ensures p[|p| - 1] in depths && depths[p[|p| - 1]] <= |p| - 1
    decreases |p|
  {
    if |p| > 1 {
      ShortenWalk(g, p);
      WalkMarked(g, root, max, depths, d, p[..|p| - 1]);
      var x := p[|p| - 2];
      assert MarkedAt(g, root, max, depths, [], {}, x);
      assert !Waiting([], x);
    }
  }

  lemma MarkExact(g: Graph, root: Id, max: nat, depths: Depths, d: nat, x: Id)
    requires MarkInvariant(g, root, max, depths, [], d, {})
    ensures x in depths <==> Within(g, root, max, x)
  {
    if x in depths {
      assert MarkedAt(g, root, max, depths, [], {}, x);
    }
    if Within(g, root, max, x) {
      var p :| IsWalk(g, p) && p[0] == root && p[|p| - 1] == x && |p| <= max + 1;
      WalkMarked(g, root, max, depths, d, p);
    }
  }

  /** The callees up to `n` are marked and the invariant holds while `e` is expanded. */
  ghost predicate Marking(g: Graph, root: Id, max: nat, depths: Depths, q: seq<Entry>, e: Entry, n: nat)
    requires n <= |Out(g, e.id)|
  {
    && MarkInvariant(g, root, max, depths, q, e.depth, {e.id})
    && e.id in depths && depths[e.id] == e.depth < max
    && CalleesMarked(g, depths, e, n)
  }

  ghost predicate CalleesMarked(g: Graph, depths: Depths, e: Entry, n: nat)
    requires n <= |Out(g, e.id)|
  {
    forall k :: 0 <= k < n ==> Out(g, e.id)[k] in depths
  }

  lemma CalleeMarked(g: Graph, depths: Depths, e: Entry, n: nat)
    requires n < |Out(g, e.id)| && CalleesMarked(g, depths, e, n)
    ensures CalleesMarked(g, depths[Out(g, e.id)[n] := e.depth + 1], e, n + 1)
  {
  }

  lemma MarkedAlready(g: Graph, root: Id, max: nat, depths: Depths, q: seq<Entry>, e: Entry, n: nat)
    requires n < |Out(g, e.id)| && Marking(g, root, max, depths, q, e, n)
    requires Out(g, e.id)[n] in depths
    ensures Marking(g, root, max, depths, q, e, n + 1)
  {
  }

  lemma MarkNext(g: Graph, root: Id, max: nat, depths: Depths, q: seq<Entry>, e: Entry, n: nat)
    requires n < |Out(g, e.id)| && Marking(g, root, max, depths, q, e, n)
    requires Out(g, e.id)[n] !in depths
    ensures var c := Out(g, e.id)[n];
      Marking(g, root, max, depths[c := e.depth + 1], q + [Entry(c, e.depth + 1)], e, n + 1) && c in Nodes(g, root)
  {
    var c := Out(g, e.id)[n];
    assert c in Out(g, e.id);
    var depths', q' := depths[c := e.depth + 1], q + [Entry(c, e.depth + 1)];
    assert MarkInvariant(g, root, max, depths', q', e.depth, {e.id}) by {
      MarkOne(g, root, max, depths, q, e.depth, e.id, c);
    }
    assert CalleesMarked(g, depths', e, n + 1) by {
      CalleeMarked(g, depths, e, n);
    }
  }

  lemma MarkingDone(g: Graph, root: Id, max: nat, depths: Depths, q: seq<Entry>, e: Entry)
    requires Marking(g, root, max, depths, q, e, |Out(g, e.id)|)
    ensures MarkInvariant(g, root, max, depths, q, e.depth, {})
  {
    DoneExpanding(g, root, max, depths, q, e.depth, e.id);
  }

  method MarkCallees(calls: Graph, ghost root: Id, ghost max: nat, e: Entry, keep: set<Id>, queue: seq<Entry>, ghost depths: Depths)
    returns (keep': set<Id>, queue': seq<Entry>, ghost depths': Depths)
    requires keep == depths.Keys && keep <= Nodes(calls, root)
    requires Marking(calls, root, max, depths, queue, e, 0)
    ensures keep' == depths'.Keys && keep <= keep' <= Nodes(calls, root)
    ensures MarkInvariant(calls, root, max, depths', queue', e.depth, {})
    ensures keep' == keep ==> queue' == queue
  {
    keep', queue', depths' := keep, queue, depths;
    var callees := Out(calls, e.id);
    for i := 0 to |callees|
      invariant keep' == depths'.Keys && keep <= keep' <= Nodes(calls, root)
      invariant Marking(calls, root, max, depths', queue', e, i)
      invariant |queue'| >= |queue| && |keep'| >= |keep| + (|queue'| - |queue|)
      invariant |queue'| == |queue| ==> queue' == queue
    {
      var c := callees[i];
      if c in keep' {
        MarkedAlready(calls, root, max, depths', queue', e, i);
      } else {
        MarkNext(calls, root, max, depths', queue', e, i);
        keep' := keep' + {c};
        queue' := queue' + [Entry(c, e.depth + 1)];
        depths' := depths'[c := e.depth + 1];
      }
    }
    MarkingDone(calls, root, max, depths', queue', e);
  }

  /** Keeps exactly the functions within `depth` calls of `root`. */
  method ReachableWithin(calls: Graph, root: Id, depth: nat) returns (keep: set<Id>)
    ensures forall x :: x in keep <==> Within(calls, root, depth, x)
  {
    keep := {root};
    var queue := [Entry(root, 0)];
    ghost var depths: Depths := map[root := 0];
    ghost var d := 0;
    WithinRoot(calls, root, 0);
    assert Entry(root, 0) in queue;
    while queue != []
      invariant keep == depths.Keys && keep <= Nodes(calls, root)
      invariant MarkInvariant(calls, root, depth, depths, queue, d, {})
      decreases Nodes(calls, root) - keep, |queue|
    {
      var e := queue[0];
      assert e in queue;
      ghost var before := keep;
      PopMarked(calls, root, depth, depths, queue, d);
      d := e.depth;
      queue := queue[1..];
      if e.depth >= depth {
        DoneExpanding(calls, root, depth, depths, queue, d, e.id);
        continue;
      }
      keep, queue, depths := MarkCallees(calls, root, depth, e, keep, queue, depths);
      assert keep != before ==> Nodes(calls, root) - keep < Nodes(calls, root) - before;
    }
    forall x ensures x in keep <==> Within(calls, root, depth, x) {
      MarkExact(calls, root, depth, depths, d, x);
    }
  }

  /** Within no hops of the root there is the root; within one hop more there is also what is listed for
      the modules there. */
  lemma HopsExactly(g: Graph, root: Id, k: nat, x: Id)
    ensures Within(g, root, 0, x) <==> x == root
    ensures Within(g, root, k + 1, x) <==> Within(g, root, k, x) || exists m :: Within(g, root, k, m) && m in g && x in g[m]
  {
    WithinRoot(g, root, 0);
    if Within(g, root, k + 1, x) && !Within(g, root, k, x) {
      var p :| IsWalk(g, p) && p[0] == root && p[|p| - 1] == x && |p| <= k + 2;
      if |p| > 1 {
        ShortenWalk(g, p);
        var m := p[|p| - 2];
        OutExactly(g, m, x);
        assert IsWalk(g, p[..|p| - 1]) && p[..|p| - 1][|p| - 2] == m;
        assert Within(g, root, k, m);
      } else {
        WithinRoot(g, root, k);
      }
    }
    if Within(g, root, k, x) {
      var p :| IsWalk(g, p) && p[0] == root && p[|p| - 1] == x && |p| <= k + 1;
      assert |p| <= k + 2;
    }
    if m :| Within(g, root, k, m) && m in g && x in g[m] {
      OutExactly(g, m, x);
      WithinStep(g, root, k, m, x);
    }
  }
}
