/** Pairing the functions of two bundles: by name, then by content, then by position. */
module BundleDiff {
  import opened Options
  import opened Sequences

  type Id = int

  /** The hash of a function's code. */
  type BodyKey = int

  function Firsts(pairs: seq<(Id, Id)>): (s: seq<Id>)
    ensures |s| == |pairs|
  {
    if pairs == [] then [] else Firsts(pairs[..|pairs| - 1]) + [pairs[|pairs| - 1].0]
  }

  function Seconds(pairs: seq<(Id, Id)>): (s: seq<Id>)
    ensures |s| == |pairs|
  {
    if pairs == [] then [] else Seconds(pairs[..|pairs| - 1]) + [pairs[|pairs| - 1].1]
  }

  function Keys(ids: seq<Id>, key: Id -> BodyKey): (s: seq<BodyKey>)
    ensures |s| == |ids|
  {
    if ids == [] then [] else Keys(ids[..|ids| - 1], key) + [key(ids[|ids| - 1])]
  }

  /** The ids with one key, in order. */
  function WithKey(ids: seq<Id>, key: Id -> BodyKey, c: BodyKey): seq<Id> {
    if ids == [] then []
    else
      var n := |ids| - 1;
      var few := WithKey(ids[..n], key, c);
      if key(ids[n]) == c then few + [ids[n]] else few
  }

  // ---------- What the pairing is

  /** Whom `a` claims by content when `few` come before it: the n-th id with a key on the left
      takes the n-th on the right. */
  function Claim(few: seq<Id>, a: Id, key1: Id -> BodyKey, ids2: seq<Id>, key2: Id -> BodyKey): Option<Id> {
    var n, takers := |WithKey(few, key1, key1(a))|, WithKey(ids2, key2, key1(a));
    if n < |takers| then Some(takers[n]) else None
  }

  function Claimed(ids1: seq<Id>, key1: Id -> BodyKey, ids2: seq<Id>, key2: Id -> BodyKey): seq<(Id, Id)> {
    if ids1 == [] then []
    else
      var few, a := ids1[..|ids1| - 1], ids1[|ids1| - 1];
      var claim := Claim(few, a, key1, ids2, key2);
      var before := Claimed(few, key1, ids2, key2);
      if claim.Some? then before + [(a, claim.value)] else before
  }

  function Unclaiming(ids1: seq<Id>, key1: Id -> BodyKey, ids2: seq<Id>, key2: Id -> BodyKey): seq<Id> {
    if ids1 == [] then []
    else
      var few, a := ids1[..|ids1| - 1], ids1[|ids1| - 1];
      var before := Unclaiming(few, key1, ids2, key2);
      if Claim(few, a, key1, ids2, key2).Some? then before else before + [a]
  }

  /** The ids that are not in `taken`, in order. */
  function Without(ids: seq<Id>, taken: set<Id>): seq<Id> {
    if ids == [] then []
    else
      var n := |ids| - 1;
      var few := Without(ids[..n], taken);
      if ids[n] in taken then few else few + [ids[n]]
  }

  function Elements(s: seq<Id>): set<Id> {
    set x | x in s
  }

  function Zip(a: seq<Id>, b: seq<Id>): seq<(Id, Id)>
    requires |a| == |b|
  {
    if a == [] then [] else Zip(a[..|a| - 1], b[..|b| - 1]) + [(a[|a| - 1], b[|b| - 1])]
  }

  datatype Pairing = Pairing(pairs: seq<(Id, Id)>, only1: seq<Id>, only2: seq<Id>)

  function Min(a: nat, b: nat): nat {
    if a < b then a else b
  }

  /** Content first, position second. */
  function Paired(ids1: seq<Id>, key1: Id -> BodyKey, ids2: seq<Id>, key2: Id -> BodyKey): Pairing {
    var claimed, left1 := Claimed(ids1, key1, ids2, key2), Unclaiming(ids1, key1, ids2, key2);
    var left2 := Without(ids2, Elements(Seconds(claimed)));
    var n := Min(|left1|, |left2|);
    Pairing(claimed + Zip(left1[..n], left2[..n]), left1[n..], left2[n..])
  }

  // ---------- The pairing algorithm

  function Queue(available: map<BodyKey, seq<Id>>, c: BodyKey): seq<Id> {
    if c in available then available[c] else []
  }

  lemma WithKeySnoc(few: seq<Id>, x: Id, key: Id -> BodyKey, c: BodyKey)
    ensures WithKey(few + [x], key, c) == if key(x) == c then WithKey(few, key, c) + [x] else WithKey(few, key, c)
  {
    assert (few + [x])[..|few|] == few;
  }

  /** Each queue holds the ids with its key. */
  ghost predicate Queued(available: map<BodyKey, seq<Id>>, ids2: seq<Id>, key2: Id -> BodyKey) {
    forall c: BodyKey :: Queue(available, c) == WithKey(ids2, key2, c)
  }

  lemma PushBack(available: map<BodyKey, seq<Id>>, few: seq<Id>, x: Id, key2: Id -> BodyKey)
    requires Queued(available, few, key2)
    ensures Queued(available[key2(x) := Queue(available, key2(x)) + [x]], few + [x], key2)
  {
    var after := available[key2(x) := Queue(available, key2(x)) + [x]];
    forall c: BodyKey
      ensures Queue(after, c) == WithKey(few + [x], key2, c)
    {
      WithKeySnoc(few, x, key2, c);
      assert Queue(available, c) == WithKey(few, key2, c);
    }
  }

  lemma Snoc<T>(s: seq<T>, i: nat)
    requires i < |s|
    ensures s[..i + 1] == s[..i] + [s[i]]
  {
  }

  lemma Whole<T>(s: seq<T>)
    ensures s[..|s|] == s
  {
  }

  /** Queues the right-hand ids by key. */
  method QueueByKey(ids2: seq<Id>, key2: Id -> BodyKey) returns (available: map<BodyKey, seq<Id>>)
    ensures Queued(available, ids2, key2)
  {
    available := map[];
    for i := 0 to |ids2|
      invariant Queued(available, ids2[..i], key2)
    {
      var c := key2(ids2[i]);
      PushBack(available, ids2[..i], ids2[i], key2);
      Snoc(ids2, i);
      available := available[c := Queue(available, c) + [ids2[i]]];
    }
    Whole(ids2);
  }

  function Rest(s: seq<Id>, n: nat): seq<Id> {
    s[Min(n, |s|)..]
  }

  /** Each queue has lost one id for every left-hand id with its key. */
  ghost predicate QueuesAfter(available: map<BodyKey, seq<Id>>, ids1: seq<Id>, key1: Id -> BodyKey,
                              ids2: seq<Id>, key2: Id -> BodyKey) {
    forall c: BodyKey :: Queue(available, c) == Rest(WithKey(ids2, key2, c), |WithKey(ids1, key1, c)|)
  }

  lemma PopFront(available: map<BodyKey, seq<Id>>, few: seq<Id>, a: Id, key1: Id -> BodyKey,
                 ids2: seq<Id>, key2: Id -> BodyKey)
    requires QueuesAfter(available, few, key1, ids2, key2)
    ensures var q, claim := Queue(available, key1(a)), Claim(few, a, key1, ids2, key2);
            if q == [] then claim == None && QueuesAfter(available, few + [a], key1, ids2, key2)
            else claim == Some(q[0]) && QueuesAfter(available[key1(a) := q[1..]], few + [a], key1, ids2, key2)
  {
    var q := Queue(available, key1(a));
    var after := if q == [] then available else available[key1(a) := q[1..]];
    forall c: BodyKey
      ensures Queue(after, c) == Rest(WithKey(ids2, key2, c), |WithKey(few + [a], key1, c)|)
    {
      WithKeySnoc(few, a, key1, c);
      assert Queue(available, c) == Rest(WithKey(ids2, key2, c), |WithKey(few, key1, c)|);
    }
  }

  lemma SecondsSnoc(pairs: seq<(Id, Id)>, p: (Id, Id))
    ensures Firsts(pairs + [p]) == Firsts(pairs) + [p.0] && Seconds(pairs + [p]) == Seconds(pairs) + [p.1]
  {
    assert (pairs + [p])[..|pairs|] == pairs;
  }

  lemma ClaimedSnoc(few: seq<Id>, a: Id, key1: Id -> BodyKey, ids2: seq<Id>, key2: Id -> BodyKey)
    ensures var claim, pairs, left := Claim(few, a, key1, ids2, key2), Claimed(few, key1, ids2, key2), Unclaiming(few, key1, ids2, key2);
            && Claimed(few + [a], key1, ids2, key2) == (if claim.Some? then pairs + [(a, claim.value)] else pairs)
            && Unclaiming(few + [a], key1, ids2, key2) == (if claim.Some? then left else left + [a])
  {
    assert (few + [a])[..|few|] == few;
  }

  lemma ElementsSnoc(pairs: seq<(Id, Id)>, a: Id, b: Id)
    ensures Elements(Seconds(pairs + [(a, b)])) == Elements(Seconds(pairs)) + {b}
  {
    SecondsSnoc(pairs, (a, b));
  }

  /** Left-hand ids claim right-hand ids of the same key, in order. */
  method ClaimByKey(ids1: seq<Id>, key1: Id -> BodyKey, ids2: seq<Id>, key2: Id -> BodyKey)
    returns (pairs: seq<(Id, Id)>, left1: seq<Id>, claimed: set<Id>)
    ensures pairs == Claimed(ids1, key1, ids2, key2) && left1 == Unclaiming(ids1, key1, ids2, key2)
    ensures claimed == Elements(Seconds(pairs))
  {
    var available := QueueByKey(ids2, key2);
    pairs, left1, claimed := [], [], {};
    NothingQueuedAway(available, key1, ids2, key2);
    for i := 0 to |ids1|
      invariant QueuesAfter(available, ids1[..i], key1, ids2, key2)
      invariant pairs == Claimed(ids1[..i], key1, ids2, key2)
      invariant left1 == Unclaiming(ids1[..i], key1, ids2, key2)
      invariant claimed == Elements(Seconds(pairs))
    {
      var id1 := ids1[i];
      var q := Queue(available, key1(id1));
      PopFront(available, ids1[..i], id1, key1, ids2, key2);
      ClaimedSnoc(ids1[..i], id1, key1, ids2, key2);
      Snoc(ids1, i);
      if q != [] {
        ElementsSnoc(pairs, id1, q[0]);
        available := available[key1(id1) := q[1..]];
        claimed := claimed + {q[0]};
        pairs := pairs + [(id1, q[0])];
      } else {
        left1 := left1 + [id1];
      }
    }
    Whole(ids1);
  }

  lemma NothingQueuedAway(available: map<BodyKey, seq<Id>>, key1: Id -> BodyKey, ids2: seq<Id>, key2: Id -> BodyKey)
    requires Queued(available, ids2, key2)
    ensures QueuesAfter(available, [], key1, ids2, key2)
  {
    forall c: BodyKey
      ensures Queue(available, c) == Rest(WithKey(ids2, key2, c), 0)
    {
      assert Queue(available, c) == WithKey(ids2, key2, c);
    }
  }

  method FilterUnclaimed(ids2: seq<Id>, claimed: set<Id>) returns (left2: seq<Id>)
    ensures left2 == Without(ids2, claimed)
  {
    left2 := [];
    for i := 0 to |ids2|
      invariant left2 == Without(ids2[..i], claimed)
    {
      assert ids2[..i + 1][..i] == ids2[..i];
      if ids2[i] !in claimed {
        left2 := left2 + [ids2[i]];
      }
    }
    assert ids2[..|ids2|] == ids2;
  }

  /** Pairs what is left over by position, behind the pairs found by content. */
  method PairRest(byContent: seq<(Id, Id)>, left1: seq<Id>, left2: seq<Id>, n: nat) returns (pairs: seq<(Id, Id)>)
    requires n <= |left1| && n <= |left2|
    ensures pairs == byContent + Zip(left1[..n], left2[..n])
  {
    pairs := byContent;
    for k := 0 to n
      invariant pairs == byContent + Zip(left1[..k], left2[..k])
    {
      assert left1[..k + 1][..k] == left1[..k] && left2[..k + 1][..k] == left2[..k];
      pairs := pairs + [(left1[k], left2[k])];
    }
  }

  /** Pairs one name group; two single functions are paired without looking at them. */
  method PairGroup(ids1: seq<Id>, key1: Id -> BodyKey, ids2: seq<Id>, key2: Id -> BodyKey) returns (p: Pairing)
    ensures p == Paired(ids1, key1, ids2, key2)
  {
    if |ids1| == 1 && |ids2| == 1 {
      SinglesPair(ids1[0], key1, ids2[0], key2);
      assert ids1 == [ids1[0]] && ids2 == [ids2[0]];
      return Pairing([(ids1[0], ids2[0])], [], []);
    }
    var byContent, left1, claimed := ClaimByKey(ids1, key1, ids2, key2);
    var left2 := FilterUnclaimed(ids2, claimed);
    var n := Min(|left1|, |left2|);
    var pairs := PairRest(byContent, left1, left2, n);
    return Pairing(pairs, left1[n..], left2[n..]);
  }

  lemma SinglesPair(a: Id, key1: Id -> BodyKey, b: Id, key2: Id -> BodyKey)
    ensures Paired([a], key1, [b], key2) == Pairing([(a, b)], [], [])
  {
    var c := key1(a);
    assert Claim([], a, key1, [b], key2) == if key2(b) == c then Some(b) else None by {
      WithKeySnoc([], b, key2, c);
      assert [] + [b] == [b];
    }
    ClaimedSnoc([], a, key1, [b], key2);
    assert [] + [a] == [a] && [] + [(a, b)] == [(a, b)];
    OneLeft(a, b);
  }

  lemma OneLeft(a: Id, b: Id)
    ensures Without([b], Elements(Seconds([(a, b)]))) == [] && Without([b], Elements(Seconds([]))) == [b]
    ensures Zip([a], [b]) == [(a, b)] && Zip([], []) == []
  {
    assert [b][..0] == [] && [(a, b)][..0] == [] && [a][..0] == [];
    assert Seconds([(a, b)]) == [b];
    assert b in Elements([b]);
  }

  // ---------- Nothing is lost

  lemma {:induction false} LeftConserved(ids1: seq<Id>, key1: Id -> BodyKey, ids2: seq<Id>, key2: Id -> BodyKey)
    ensures multiset(Firsts(Claimed(ids1, key1, ids2, key2))) + multiset(Unclaiming(ids1, key1, ids2, key2)) == multiset(ids1)
  {
    if ids1 != [] {
      var few, a := ids1[..|ids1| - 1], ids1[|ids1| - 1];
      LeftConserved(few, key1, ids2, key2);
      assert ids1 == few + [a];
      var claim := Claim(few, a, key1, ids2, key2);
      if claim.Some? {
        SecondsSnoc(Claimed(few, key1, ids2, key2), (a, claim.value));
      }
    }
  }

  lemma LastDistinct(ids: seq<Id>)
    requires ids != [] && NoDup(ids)
    ensures NoDup(ids[..|ids| - 1]) && ids[|ids| - 1] !in ids[..|ids| - 1]
  {
    var n := |ids| - 1;
    forall i | 0 <= i < n
      ensures ids[..n][i] != ids[n]
    {
      assert ids[..n][i] == ids[i];
    }
  }

  lemma {:induction false} WithKeyMembers(ids: seq<Id>, key: Id -> BodyKey, c: BodyKey)
    ensures forall x :: x in WithKey(ids, key, c) <==> x in ids && key(x) == c
    ensures NoDup(ids) ==> NoDup(WithKey(ids, key, c))
  {
    if ids != [] {
      var n := |ids| - 1;
      WithKeyMembers(ids[..n], key, c);
      assert ids == ids[..n] + [ids[n]];
      if NoDup(ids) {
        LastDistinct(ids);
        var x := ids[n];
        assert x !in WithKey(ids[..n], key, c);
      }
    }
  }

  /** `b` is the n-th of its key on the right and the left has that many of the key too. */
  ghost predicate Reached(ids1: seq<Id>, key1: Id -> BodyKey, takers: seq<Id>, c: BodyKey, b: Id) {
    exists n :: 0 <= n < |takers| && n < |WithKey(ids1, key1, c)| && takers[n] == b
  }

  /** The claimed right-hand ids are the first few of each key, as many as the left has. */
  lemma {:induction false} ClaimedAre(ids1: seq<Id>, key1: Id -> BodyKey, ids2: seq<Id>, key2: Id -> BodyKey, b: Id)
    requires NoDup(ids2)
    ensures b in Seconds(Claimed(ids1, key1, ids2, key2)) <==>
            Reached(ids1, key1, WithKey(ids2, key2, key2(b)), key2(b), b)
    decreases |ids1|
  {
    if ids1 != [] {
      var few, a := ids1[..|ids1| - 1], ids1[|ids1| - 1];
      ClaimedAre(few, key1, ids2, key2, b);
      var claim := Claim(few, a, key1, ids2, key2);
      if claim.Some? {
        SecondsSnoc(Claimed(few, key1, ids2, key2), (a, claim.value));
        ClaimHasKey(few, a, key1, ids2, key2);
      }
      ReachedStep(ids1, key1, ids2, key2, b);
    }
  }

  lemma ClaimHasKey(few: seq<Id>, a: Id, key1: Id -> BodyKey, ids2: seq<Id>, key2: Id -> BodyKey)
    requires Claim(few, a, key1, ids2, key2).Some?
    ensures var b := Claim(few, a, key1, ids2, key2).value; key2(b) == key1(a) && b in ids2
  {
    WithKeyMembers(ids2, key2, key1(a));
    assert Claim(few, a, key1, ids2, key2).value in WithKey(ids2, key2, key1(a));
  }

  lemma ReachedStep(ids1: seq<Id>, key1: Id -> BodyKey, ids2: seq<Id>, key2: Id -> BodyKey, b: Id)
    requires ids1 != []
    ensures var few, a, takers := ids1[..|ids1| - 1], ids1[|ids1| - 1], WithKey(ids2, key2, key2(b));
            Reached(ids1, key1, takers, key2(b), b) <==>
              (Reached(few, key1, takers, key2(b), b) || (key1(a) == key2(b) && Claim(few, a, key1, ids2, key2) == Some(b)))
  {
    var few, takers := ids1[..|ids1| - 1], WithKey(ids2, key2, key2(b));
    var n := |WithKey(few, key1, key2(b))|;
    if n < |takers| {
      assert takers[n] == takers[n];
    }
  }

  lemma {:induction false} ClaimedDistinct(ids1: seq<Id>, key1: Id -> BodyKey, ids2: seq<Id>, key2: Id -> BodyKey)
    requires NoDup(ids2)
    ensures NoDup(Seconds(Claimed(ids1, key1, ids2, key2)))
  {
    if ids1 != [] {
      var few, a := ids1[..|ids1| - 1], ids1[|ids1| - 1];
      ClaimedDistinct(few, key1, ids2, key2);
      var claim := Claim(few, a, key1, ids2, key2);
      if claim.Some? {
        var b := claim.value;
        SecondsSnoc(Claimed(few, key1, ids2, key2), (a, b));
        ClaimHasKey(few, a, key1, ids2, key2);
        ClaimedAre(few, key1, ids2, key2, b);
        WithKeyMembers(ids2, key2, key2(b));
        assert WithKey(ids2, key2, key2(b))[|WithKey(few, key1, key2(b))|] == b;
      }
    }
  }

  lemma {:induction false} SplitByTaken(ids: seq<Id>, taken: seq<Id>)
    requires NoDup(ids) && NoDup(taken) && forall x :: x in taken ==> x in ids
    ensures multiset(taken) + multiset(Without(ids, Elements(taken))) == multiset(ids)
  {
    forall x: Id
      ensures multiset(taken)[x] == if x in taken then 1 else 0
      ensures multiset(ids)[x] == if x in ids then 1 else 0
    {
      DistinctOnce(taken, x);
      DistinctOnce(ids, x);
    }
    WithoutMembers(ids, Elements(taken));
    forall x: Id
      ensures multiset(Without(ids, Elements(taken)))[x] == if x in ids && x !in taken then 1 else 0
    {
      DistinctOnce(Without(ids, Elements(taken)), x);
    }
  }

  lemma {:induction false} DistinctOnce(s: seq<Id>, x: Id)
    requires NoDup(s)
    ensures multiset(s)[x] == if x in s then 1 else 0
  {
    if s != [] {
      var n := |s| - 1;
      DistinctOnce(s[..n], x);
      assert s == s[..n] + [s[n]];
    }
  }

  lemma {:induction false} WithoutMembers(ids: seq<Id>, taken: set<Id>)
    ensures forall x :: x in Without(ids, taken) <==> x in ids && x !in taken
    ensures NoDup(ids) ==> NoDup(Without(ids, taken))
  {
    if ids != [] {
      var n := |ids| - 1;
      WithoutMembers(ids[..n], taken);
      assert ids == ids[..n] + [ids[n]];
      if NoDup(ids) {
        LastDistinct(ids);
        var x := ids[n];
        assert x !in Without(ids[..n], taken);
      }
    }
  }

  lemma {:induction false} ZipParts(a: seq<Id>, b: seq<Id>)
    requires |a| == |b|
    ensures Firsts(Zip(a, b)) == a && Seconds(Zip(a, b)) == b && |Zip(a, b)| == |a|
  {
    if a != [] {
      var n := |a| - 1;
      ZipParts(a[..n], b[..n]);
      SecondsSnoc(Zip(a[..n], b[..n]), (a[n], b[n]));
      assert a == a[..n] + [a[n]] && b == b[..n] + [b[n]];
    }
  }

  lemma {:induction false} PartsConcat(p: seq<(Id, Id)>, q: seq<(Id, Id)>)
    ensures Firsts(p + q) == Firsts(p) + Firsts(q) && Seconds(p + q) == Seconds(p) + Seconds(q)
    decreases |q|
  {
    if q == [] {
      assert p + q == p;
    } else {
      var n := |q| - 1;
      PartsConcat(p, q[..n]);
      assert p + q == (p + q[..n]) + [q[n]];
      SecondsSnoc(p + q[..n], q[n]);
      assert Firsts(q) == Firsts(q[..n]) + [q[n].0] && Seconds(q) == Seconds(q[..n]) + [q[n].1];
    }
  }

  /** Every id of either side is in exactly one pair or leftover list. */
  ghost predicate Conserves(p: Pairing, ids1: seq<Id>, ids2: seq<Id>) {
    && multiset(Firsts(p.pairs)) + multiset(p.only1) == multiset(ids1)
    && multiset(Seconds(p.pairs)) + multiset(p.only2) == multiset(ids2)
    && |p.pairs| + |p.only1| == |ids1| && |p.pairs| + |p.only2| == |ids2|
  }

  lemma RightConserved(ids1: seq<Id>, key1: Id -> BodyKey, ids2: seq<Id>, key2: Id -> BodyKey)
    requires NoDup(ids2)
    ensures var taken := Seconds(Claimed(ids1, key1, ids2, key2));
            multiset(taken) + multiset(Without(ids2, Elements(taken))) == multiset(ids2)
  {
    var taken := Seconds(Claimed(ids1, key1, ids2, key2));
    ClaimedDistinct(ids1, key1, ids2, key2);
    forall b | b in taken
      ensures b in ids2
    {
      ClaimedAre(ids1, key1, ids2, key2, b);
      WithKeyMembers(ids2, key2, key2(b));
    }
    SplitByTaken(ids2, taken);
  }

  lemma Halves(s: seq<Id>, n: nat)
    requires n <= |s|
    ensures multiset(s[..n]) + multiset(s[n..]) == multiset(s)
  {
    assert s == s[..n] + s[n..];
  }

  lemma LeftOverConserved(claimed: seq<(Id, Id)>, left1: seq<Id>, left2: seq<Id>, ids1: seq<Id>, ids2: seq<Id>)
    requires multiset(Firsts(claimed)) + multiset(left1) == multiset(ids1)
    requires multiset(Seconds(claimed)) + multiset(left2) == multiset(ids2)
    ensures var n := Min(|left1|, |left2|);
            Conserves(Pairing(claimed + Zip(left1[..n], left2[..n]), left1[n..], left2[n..]), ids1, ids2)
  {
    var n := Min(|left1|, |left2|);
    var zip := Zip(left1[..n], left2[..n]);
    ZipParts(left1[..n], left2[..n]);
    PartsConcat(claimed, zip);
    OneSideConserved(Firsts(claimed), left1, n, Firsts(claimed + zip), ids1);
    OneSideConserved(Seconds(claimed), left2, n, Seconds(claimed + zip), ids2);
  }

  lemma OneSideConserved(claimed: seq<Id>, left: seq<Id>, n: nat, paired: seq<Id>, ids: seq<Id>)
    requires n <= |left| && paired == claimed + left[..n]
    requires multiset(claimed) + multiset(left) == multiset(ids)
    ensures multiset(paired) + multiset(left[n..]) == multiset(ids) && |paired| + |left[n..]| == |ids|
  {
    Halves(left, n);
    assert multiset(paired) == multiset(claimed) + multiset(left[..n]);
    Sizes(paired, left[n..], ids);
  }

  /** Pairing loses no function and invents none, and leaves functions over on one side at most. */
  lemma NothingLost(ids1: seq<Id>, key1: Id -> BodyKey, ids2: seq<Id>, key2: Id -> BodyKey)
    requires NoDup(ids2)
    ensures Conserves(Paired(ids1, key1, ids2, key2), ids1, ids2)
    ensures var p := Paired(ids1, key1, ids2, key2); p.only1 == [] || p.only2 == []
  {
    var claimed, left1 := Claimed(ids1, key1, ids2, key2), Unclaiming(ids1, key1, ids2, key2);
    LeftConserved(ids1, key1, ids2, key2);
    RightConserved(ids1, key1, ids2, key2);
    LeftOverConserved(claimed, left1, Without(ids2, Elements(Seconds(claimed))), ids1, ids2);
  }

  lemma Sizes(a: seq<Id>, b: seq<Id>, c: seq<Id>)
    requires multiset(a) + multiset(b) == multiset(c)
    ensures |a| + |b| == |c|
  {
    assert |multiset(a) + multiset(b)| == |multiset(c)|;
  }

  // ---------- As many equal bodies as possible

  /** The pairs whose bodies have one key. */
  function SameKey(pairs: seq<(Id, Id)>, key1: Id -> BodyKey, key2: Id -> BodyKey): seq<(Id, Id)> {
    if pairs == [] then []
    else
      var n := |pairs| - 1;
      var few := SameKey(pairs[..n], key1, key2);
      if key1(pairs[n].0) == key2(pairs[n].1) then few + [pairs[n]] else few
  }

  lemma KeysSnoc(ids: seq<Id>, x: Id, key: Id -> BodyKey)
    ensures Keys(ids + [x], key) == Keys(ids, key) + [key(x)]
  {
    assert (ids + [x])[..|ids|] == ids;
  }

  lemma {:induction false} KeysConcat(a: seq<Id>, b: seq<Id>, key: Id -> BodyKey)
    ensures Keys(a + b, key) == Keys(a, key) + Keys(b, key)
    decreases |b|
  {
    if b == [] {
      assert a + b == a;
    } else {
      var n := |b| - 1;
      KeysConcat(a, b[..n], key);
      assert a + b == (a + b[..n]) + [b[n]];
      KeysSnoc(a + b[..n], b[n], key);
    }
  }

  lemma {:induction false} KeyCount(ids: seq<Id>, key: Id -> BodyKey, c: BodyKey)
    ensures multiset(Keys(ids, key))[c] == |WithKey(ids, key, c)|
  {
    if ids != [] {
      KeyCount(ids[..|ids| - 1], key, c);
    }
  }

  /** Claiming pairs off each key as often as it occurs on both sides. */
  lemma {:induction false} ClaimedKeys(ids1: seq<Id>, key1: Id -> BodyKey, ids2: seq<Id>, key2: Id -> BodyKey)
    ensures multiset(Keys(Firsts(Claimed(ids1, key1, ids2, key2)), key1)) == multiset(Keys(ids1, key1)) * multiset(Keys(ids2, key2))
    decreases |ids1|
  {
    if ids1 != [] {
      var few, a := ids1[..|ids1| - 1], ids1[|ids1| - 1];
      var claim, c := Claim(few, a, key1, ids2, key2), key1(a);
      ClaimedKeys(few, key1, ids2, key2);
      assert Keys(ids1, key1) == Keys(few, key1) + [c];
      KeyCount(few, key1, c);
      KeyCount(ids2, key2, c);
      if claim.Some? {
        SecondsSnoc(Claimed(few, key1, ids2, key2), (a, claim.value));
        KeysSnoc(Firsts(Claimed(few, key1, ids2, key2)), a, key1);
      }
      OneMoreKey(Keys(few, key1), c, Keys(ids2, key2));
    }
  }

  lemma OneMoreKey(a: seq<BodyKey>, c: BodyKey, b: seq<BodyKey>)
    ensures multiset(a + [c]) * multiset(b)
         == if multiset(a)[c] < multiset(b)[c] then multiset(a) * multiset(b) + multiset{c} else multiset(a) * multiset(b)
  {
  }

  lemma {:induction false} ClaimedSameKey(ids1: seq<Id>, key1: Id -> BodyKey, ids2: seq<Id>, key2: Id -> BodyKey)
    ensures SameKey(Claimed(ids1, key1, ids2, key2), key1, key2) == Claimed(ids1, key1, ids2, key2)
    decreases |ids1|
  {
    if ids1 != [] {
      var few, a := ids1[..|ids1| - 1], ids1[|ids1| - 1];
      var claim, before := Claim(few, a, key1, ids2, key2), Claimed(few, key1, ids2, key2);
      ClaimedSameKey(few, key1, ids2, key2);
      if claim.Some? {
        ClaimHasKey(few, a, key1, ids2, key2);
        assert (before + [(a, claim.value)])[..|before|] == before;
      }
    }
  }

  lemma SplitAt(b: seq<Id>, j: nat, x: Id)
    requires j < |b| && b[j] == x
    ensures b == b[..j] + [x] + b[j + 1..]
  {
  }

  lemma SplitLast(a: seq<Id>, x: Id)
    requires a != [] && a[|a| - 1] == x
    ensures a == a[..|a| - 1] + [x]
  {
  }

  lemma TakeOne(few: seq<Id>, before: seq<Id>, x: Id, after: seq<Id>)
    requires multiset(few + [x]) <= multiset(before + [x] + after)
    ensures multiset(few) <= multiset(before + after)
  {
    var m, n := multiset(few), multiset(before + after);
    assert multiset(few + [x]) == m + multiset{x};
    assert multiset(before + [x] + after) == n + multiset{x};
    forall y | y in m
      ensures m[y] <= n[y]
    {
      assert (m + multiset{x})[y] <= (n + multiset{x})[y];
    }
  }

  lemma KeysAround(before: seq<Id>, x: Id, after: seq<Id>, key: Id -> BodyKey)
    ensures multiset(Keys(before + [x] + after, key)) == multiset(Keys(before + after, key)) + multiset{key(x)}
  {
    KeysConcat(before, after, key);
    KeysSnoc(before, x, key);
    KeysConcat(before + [x], after, key);
    MiddleOne(Keys(before, key), key(x), Keys(after, key));
  }

  lemma MiddleOne(a: seq<BodyKey>, x: BodyKey, b: seq<BodyKey>)
    ensures multiset(a + [x] + b) == multiset(a + b) + multiset{x}
  {
  }

  /** Fewer ids have fewer keys. */
  lemma {:induction false} KeysMonotone(a: seq<Id>, b: seq<Id>, key: Id -> BodyKey)
    requires multiset(a) <= multiset(b)
    ensures multiset(Keys(a, key)) <= multiset(Keys(b, key))
    decreases |a|
  {
    if a != [] {
      var few, x := a[..|a| - 1], a[|a| - 1];
      SplitLast(a, x);
      assert x in multiset(a) && x in multiset(b);
      var j :| 0 <= j < |b| && b[j] == x;
      SplitAt(b, j, x);
      TakeOne(few, b[..j], x, b[j + 1..]);
      KeysMonotone(few, b[..j] + b[j + 1..], key);
      KeysAround(b[..j], x, b[j + 1..], key);
      KeysSnoc(few, x, key);
    }
  }

  lemma {:induction false} SameKeyParts(pairs: seq<(Id, Id)>, key1: Id -> BodyKey, key2: Id -> BodyKey)
    ensures var same := SameKey(pairs, key1, key2);
            && multiset(Firsts(same)) <= multiset(Firsts(pairs)) && multiset(Seconds(same)) <= multiset(Seconds(pairs))
            && Keys(Firsts(same), key1) == Keys(Seconds(same), key2)
    decreases |pairs|
  {
    if pairs != [] {
      var n := |pairs| - 1;
      var few := SameKey(pairs[..n], key1, key2);
      SameKeyParts(pairs[..n], key1, key2);
      if key1(pairs[n].0) == key2(pairs[n].1) {
        SecondsSnoc(few, pairs[n]);
        KeysSnoc(Firsts(few), pairs[n].0, key1);
        KeysSnoc(Seconds(few), pairs[n].1, key2);
      } else {
        assert SameKey(pairs, key1, key2) == few;
      }
    }
  }

  lemma SmallerCount(a: multiset<BodyKey>, b: multiset<BodyKey>)
    requires a <= b
    ensures |a| <= |b|
  {
    assert b == a + (b - a);
  }

  lemma {:induction false} SameKeyConcat(p: seq<(Id, Id)>, q: seq<(Id, Id)>, key1: Id -> BodyKey, key2: Id -> BodyKey)
    ensures SameKey(p + q, key1, key2) == SameKey(p, key1, key2) + SameKey(q, key1, key2)
    decreases |q|
  {
    if q == [] {
      assert p + q == p;
    } else {
      var n := |q| - 1;
      SameKeyConcat(p, q[..n], key1, key2);
      assert (p + q)[..|p + q| - 1] == p + q[..n] && (p + q)[|p + q| - 1] == q[n];
    }
  }

  lemma FewerSameKeys(same: seq<(Id, Id)>, other: seq<(Id, Id)>, ids1: seq<Id>, key1: Id -> BodyKey, ids2: seq<Id>, key2: Id -> BodyKey)
    requires multiset(Firsts(other)) <= multiset(ids1) && multiset(Seconds(other)) <= multiset(ids2)
    requires same == SameKey(other, key1, key2)
    ensures multiset(Keys(Firsts(same), key1)) <= multiset(Keys(ids1, key1)) * multiset(Keys(ids2, key2))
  {
    SameKeyParts(other, key1, key2);
    KeysMonotone(Firsts(same), ids1, key1);
    KeysMonotone(Seconds(same), ids2, key2);
  }

  lemma MostClaimed(ids1: seq<Id>, key1: Id -> BodyKey, ids2: seq<Id>, key2: Id -> BodyKey, other: seq<(Id, Id)>)
    requires multiset(Firsts(other)) <= multiset(ids1) && multiset(Seconds(other)) <= multiset(ids2)
    ensures |SameKey(other, key1, key2)| <= |Claimed(ids1, key1, ids2, key2)|
  {
    var same, claimed := SameKey(other, key1, key2), Claimed(ids1, key1, ids2, key2);
    FewerSameKeys(same, other, ids1, key1, ids2, key2);
    ClaimedKeys(ids1, key1, ids2, key2);
    SmallerCount(multiset(Keys(Firsts(same), key1)), multiset(Keys(Firsts(claimed), key1)));
  }

  /** No one-to-one pairing of the two sides pairs more equal bodies. */
  lemma MostEqualBodies(ids1: seq<Id>, key1: Id -> BodyKey, ids2: seq<Id>, key2: Id -> BodyKey, other: seq<(Id, Id)>)
    requires multiset(Firsts(other)) <= multiset(ids1) && multiset(Seconds(other)) <= multiset(ids2)
    ensures |SameKey(other, key1, key2)| <= |SameKey(Paired(ids1, key1, ids2, key2).pairs, key1, key2)|
  {
    MostClaimed(ids1, key1, ids2, key2, other);
    ClaimedSameKey(ids1, key1, ids2, key2);
    var claimed, left1 := Claimed(ids1, key1, ids2, key2), Unclaiming(ids1, key1, ids2, key2);
    var left2 := Without(ids2, Elements(Seconds(claimed)));
    var n := Min(|left1|, |left2|);
    SameKeyConcat(claimed, Zip(left1[..n], left2[..n]), key1, key2);
  }
}
