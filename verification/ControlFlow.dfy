/** Control-flow graphs: blocks, normal edges, exception edges, paths, and the postorder walk that
    seeds from the entry and from every catch block. The walk is shown to list exactly the ids some
    path from a root reaches, each once, which is all the fixed points need of its order. */
module ControlFlow {
  import opened Ir
  import opened OrderedSets
  import opened Sequences

  datatype BasicBlock = BasicBlock(statements: seq<Statement>, terminator: Terminator)

  datatype Handler = Handler(tryStart: BlockId, catchBlock: BlockId, tryBlocks: seq<BlockId>)

  datatype Cfg = Cfg(entry: BlockId, blocks: map<BlockId, BasicBlock>, handlers: seq<Handler>) {
    function BlockIds(): seq<BlockId> {
      Sorted(blocks.Keys)
    }

    /** Jump targets of a block; an id that names no block has none. */
    function Succ(b: BlockId): seq<BlockId> {
      if b in blocks then blocks[b].terminator.Successors() else []
    }

    function Predecessors(target: BlockId): seq<BlockId> {
      BlocksInto(BlockIds(), target)
    }

    function BlocksInto(ids: seq<BlockId>, target: BlockId): seq<BlockId> {
      if ids == [] then []
      else if target in Succ(ids[0]) then [ids[0]] + BlocksInto(ids[1..], target)
      else BlocksInto(ids[1..], target)
    }

    /** The entry and every catch block: execution can start a path at any of them. */
    function Roots(): set<BlockId> {
      {entry} + set h | h in handlers :: h.catchBlock
    }

    /** Every id that can show up in a walk: blocks, jump targets and roots. */
    ghost function AllIds(): set<BlockId> {
      blocks.Keys + (set b, s | b in blocks && s in Succ(b) :: s) + Roots()
    }

    ghost predicate ExceptionEdge(src: BlockId, catch: BlockId) {
      exists h :: h in handlers && h.catchBlock == catch && src in h.tryBlocks
    }
  }

  lemma {:induction false} BlocksIntoSpec(g: Cfg, ids: seq<BlockId>, target: BlockId)
    ensures forall p :: p in g.BlocksInto(ids, target) <==> p in ids && target in g.Succ(p)
  {
    if ids != [] {
      BlocksIntoSpec(g, ids[1..], target);
      assert ids == [ids[0]] + ids[1..];
    }
  }

  lemma PredecessorsSpec(g: Cfg, target: BlockId)
    ensures forall p :: p in g.Predecessors(target) <==> p in g.blocks && target in g.Succ(p)
  {
    SortedElements(g.blocks.Keys);
    BlocksIntoSpec(g, g.BlockIds(), target);
  }

  // ---------- Paths

  ghost predicate IsPath(g: Cfg, p: seq<BlockId>) {
    p != [] && forall i :: 0 <= i < |p| - 1 ==> p[i + 1] in g.Succ(p[i])
  }

  ghost predicate PathBetween(g: Cfg, p: seq<BlockId>, a: BlockId, b: BlockId) {
    IsPath(g, p) && p[0] == a && p[|p| - 1] == b
  }

  ghost predicate Reaches(g: Cfg, a: BlockId, b: BlockId) {
    exists p :: PathBetween(g, p, a, b)
  }

  ghost predicate RootPath(g: Cfg, p: seq<BlockId>, b: BlockId) {
    IsPath(g, p) && p[0] in g.Roots() && p[|p| - 1] == b
  }

  /** Some path from the entry or a catch block leads to `b`. */
  ghost predicate Reachable(g: Cfg, b: BlockId) {
    exists p :: RootPath(g, p, b)
  }

  lemma ReachesSelf(g: Cfg, a: BlockId)
    ensures Reaches(g, a, a)
  {
    assert PathBetween(g, [a], a, a);
  }

  lemma ReachesStep(g: Cfg, a: BlockId, c: BlockId, b: BlockId)
    requires c in g.Succ(a) && Reaches(g, c, b)
    ensures Reaches(g, a, b)
  {
    var p :| PathBetween(g, p, c, b);
    assert PathBetween(g, [a] + p, a, b);
  }

  lemma RootReachable(g: Cfg, r: BlockId)
    requires r in g.Roots()
    ensures Reachable(g, r)
  {
    assert RootPath(g, [r], r);
  }

  lemma ExtendRootPath(g: Cfg, p: seq<BlockId>, a: BlockId, b: BlockId)
    requires RootPath(g, p, a) && b in g.Succ(a)
    ensures RootPath(g, p + [b], b)
  {
  }

  lemma ReachableStep(g: Cfg, a: BlockId, b: BlockId)
    requires Reachable(g, a) && b in g.Succ(a)
    ensures Reachable(g, b)
  {
    var p :| RootPath(g, p, a);
    ExtendRootPath(g, p, a, b);
  }

  lemma ShortenRootPath(g: Cfg, p: seq<BlockId>, b: BlockId)
    requires RootPath(g, p, b) && |p| > 1
    ensures RootPath(g, p[..|p| - 1], p[|p| - 2])
    ensures p[|p| - 2] in g.blocks && b in g.Succ(p[|p| - 2])
  {
  }

  lemma {:induction false} ReachableFrom(g: Cfg, p: seq<BlockId>, a: BlockId, b: BlockId)
    requires Reachable(g, a) && PathBetween(g, p, a, b)
    ensures Reachable(g, b)
    decreases |p|
  {
    if |p| > 1 {
      ReachableStep(g, a, p[1]);
      assert PathBetween(g, p[1..], p[1], b);
      ReachableFrom(g, p[1..], p[1], b);
    }
  }

  lemma ReachableTrans(g: Cfg, a: BlockId, b: BlockId)
    requires Reachable(g, a) && Reaches(g, a, b)
    ensures Reachable(g, b)
  {
    var p :| PathBetween(g, p, a, b);
    ReachableFrom(g, p, a, b);
  }

  ghost predicate ClosedUnderSucc(g: Cfg, s: set<BlockId>) {
    forall a, b :: a in s && b in g.Succ(a) ==> b in s
  }

  lemma {:induction false} ClosedHoldsPath(g: Cfg, s: set<BlockId>, p: seq<BlockId>, b: BlockId)
    requires ClosedUnderSucc(g, s) && g.Roots() <= s && RootPath(g, p, b)
    ensures b in s
    decreases |p|
  {
    if |p| > 1 {
      ShortenRootPath(g, p, b);
      ClosedHoldsPath(g, s, p[..|p| - 1], p[|p| - 2]);
    }
  }

  lemma ClosedHoldsReachable(g: Cfg, s: set<BlockId>, b: BlockId)
    requires ClosedUnderSucc(g, s) && g.Roots() <= s && Reachable(g, b)
    ensures b in s
  {
    var p :| RootPath(g, p, b);
    ClosedHoldsPath(g, s, p, b);
  }

  // ---------- Exception edges

  /** The blocks an exception edge into `catch` can leave, each once. */
  method ExceptionEdgeSources(g: Cfg, catch: BlockId) returns (out: seq<BlockId>)
    ensures forall b :: b in out <==> g.ExceptionEdge(b, catch)
    ensures NoDup(out)
  {
    out := [];
    for i := 0 to |g.handlers|
      invariant NoDup(out)
      invariant forall b :: b in out <==>
        exists k :: 0 <= k < i && g.handlers[k].catchBlock == catch && b in g.handlers[k].tryBlocks
    {
      var h := g.handlers[i];
      if h.catchBlock == catch {
        ghost var before := out;
        for j := 0 to |h.tryBlocks|
          invariant NoDup(out)
          invariant forall b :: b in out <==> b in before || b in h.tryBlocks[..j]
        {
          assert h.tryBlocks[..j + 1] == h.tryBlocks[..j] + [h.tryBlocks[j]];
          if h.tryBlocks[j] !in out {
            out := out + [h.tryBlocks[j]];
          }
        }
        assert h.tryBlocks[..|h.tryBlocks|] == h.tryBlocks;
      }
    }
  }

  // ---------- The postorder walk

  /** `after` is `before` followed by the members of `added`, each once. */
  ghost predicate Appends(before: seq<BlockId>, after: seq<BlockId>, added: set<BlockId>) {
    && before <= after
    && NoDup(after[|before|..])
    && forall x :: x in after[|before|..] <==> x in added
  }

  lemma AppendsCompose(a: seq<BlockId>, b: seq<BlockId>, c: seq<BlockId>, s: set<BlockId>, t: set<BlockId>)
    requires Appends(a, b, s) && Appends(b, c, t) && s !! t
    ensures Appends(a, c, s + t)
  {
    var first, second := b[|a|..], c[|b|..];
    assert c[|a|..] == first + second;
    forall i, j | 0 <= i < |first| && 0 <= j < |second| ensures first[i] != second[j] {
      assert first[i] in s && second[j] in t;
    }
  }

  /** What visiting `block` with `visited` already seen adds: a set closed under
      jumps up to what has been seen, all of it reachable from `block`. */
  ghost predicate Explores(g: Cfg, block: BlockId, visited: set<BlockId>, after: set<BlockId>) {
    && visited <= after
    && block in after
    && (forall x, s :: x in after - visited && s in g.Succ(x) ==> s in after)
    && (forall x :: x in after - visited ==> Reaches(g, block, x))
  }

  lemma ExploresLater(g: Cfg, block: BlockId, succs: seq<BlockId>, i: nat,
                      start: set<BlockId>, mid: set<BlockId>, after: set<BlockId>)
    requires i < |succs| && succs == g.Succ(block)
    requires start <= mid
    requires forall x, s :: x in mid - start && s in g.Succ(x) ==> s in mid
    requires forall x :: x in mid - start ==> Reaches(g, block, x)
    requires Explores(g, succs[i], mid, after)
    ensures start <= after
    ensures forall x, s :: x in after - start && s in g.Succ(x) ==> s in after
    ensures forall x :: x in after - start ==> Reaches(g, block, x)
  {
    forall x | x in after - start ensures Reaches(g, block, x) {
      if x !in mid {
        ReachesStep(g, block, succs[i], x);
      }
    }
    forall x, s | x in after - start && s in g.Succ(x) ensures s in after {
      if x in mid {
        assert x in mid - start;
      } else {
        assert x in after - mid;
      }
    }
  }

  lemma TargetInAllIds(g: Cfg, b: BlockId, s: BlockId)
    requires s in g.Succ(b)
    ensures s in g.AllIds()
  {
  }

  method PostorderVisit(g: Cfg, block: BlockId, visited: set<BlockId>, result: seq<BlockId>)
    returns (visited': set<BlockId>, result': seq<BlockId>)
    requires block in g.AllIds()
    ensures Explores(g, block, visited, visited')
    ensures Appends(result, result', visited' - visited)
    decreases g.AllIds() - visited
  {
    if block in visited {
      assert visited - visited == {};
      return visited, result;
    }
    ReachesSelf(g, block);
    ghost var start := visited + {block};
    visited', result' := visited + {block}, result;
    var succs := g.Succ(block);
    assert visited' - start == {};
    for i := 0 to |succs|
      invariant start <= visited'
      invariant forall x, s :: x in visited' - start && s in g.Succ(x) ==> s in visited'
      invariant forall x :: x in visited' - start ==> Reaches(g, block, x)
      invariant forall k :: 0 <= k < i ==> succs[k] in visited'
      invariant Appends(result, result', visited' - start)
    {
      TargetInAllIds(g, block, succs[i]);
      ghost var mid, midResult := visited', result';
      visited', result' := PostorderVisit(g, succs[i], visited', result');
      ExploresLater(g, block, succs, i, start, mid, visited');
      AppendsCompose(result, midResult, result', mid - start, visited' - mid);
      assert (mid - start) + (visited' - mid) == visited' - start;
    }
    ghost var midResult := result';
    result' := result' + [block];
    assert result'[|midResult|..] == [block];
    assert Appends(midResult, result', {block});
    AppendsCompose(result, midResult, result', visited' - start, {block});
    assert (visited' - start) + {block} == visited' - visited;
  }

  /** The postorder from the entry, then from each catch block in handler order.
      It lists exactly the ids reachable from a root, each once. */
  method Postorder(g: Cfg) returns (result: seq<BlockId>)
    ensures NoDup(result)
    ensures forall b :: b in result <==> Reachable(g, b)
  {
    var visited: set<BlockId> := {};
    result := [];
    visited, result := PostorderVisit(g, g.entry, visited, result);
    AllReachable(g, g.entry, {}, visited);
    assert visited - {} == visited;
    for i := 0 to |g.handlers|
      invariant Appends([], result, visited)
      invariant g.entry in visited && ClosedUnderSucc(g, visited)
      invariant forall k :: 0 <= k < i ==> g.handlers[k].catchBlock in visited
      invariant forall x :: x in visited ==> Reachable(g, x)
    {
      ghost var before, beforeResult := visited, result;
      var root := g.handlers[i].catchBlock;
      assert root in g.Roots();
      visited, result := PostorderVisit(g, root, visited, result);
      AllReachable(g, root, before, visited);
      AppendsCompose([], beforeResult, result, before, visited - before);
      assert before + (visited - before) == visited;
    }
    assert result[0..] == result;
    forall b | Reachable(g, b) ensures b in visited {
      ClosedHoldsReachable(g, visited, b);
    }
  }

  lemma AllReachable(g: Cfg, root: BlockId, before: set<BlockId>, after: set<BlockId>)
    requires root in g.Roots() && Explores(g, root, before, after)
    ensures forall x :: x in after - before ==> Reachable(g, x)
  {
    RootReachable(g, root);
    forall x | x in after - before ensures Reachable(g, x) {
      ReachableTrans(g, root, x);
    }
  }

  /** The reverse postorder the fixed points iterate over. */
  method ReversePostorder(g: Cfg) returns (order: seq<BlockId>)
    ensures NoDup(order)
    ensures forall b :: b in order <==> Reachable(g, b)
  {
    var post := Postorder(g);
    order := seq(|post|, i requires 0 <= i < |post| => post[|post| - 1 - i]);
    forall b | b in post ensures b in order {
      var i :| 0 <= i < |post| && post[i] == b;
      assert order[|post| - 1 - i] == b;
    }
  }
}
