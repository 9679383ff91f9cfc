/** Comparing two bundles name by name: every function is compared, removed or added. */
module BundleReport {
  import opened BundleDiff
  import opened Sequences

  /** The ids of the functions with one name, ascending. */
  function IdsNamed(names: seq<string>, name: string): seq<Id> {
    if names == [] then []
    else
      var last := |names| - 1;
      var before := IdsNamed(names[..last], name);
      if names[last] == name then before + [last] else before
  }

  lemma {:induction false} IdsNamedAre(names: seq<string>, name: string)
    ensures forall id :: id in IdsNamed(names, name) <==> 0 <= id < |names| && names[id] == name
    ensures NoDup(IdsNamed(names, name))
  {
    if names != [] {
      var last: Id := |names| - 1;
      var few, before := names[..last], IdsNamed(names[..last], name);
      IdsNamedAre(few, name);
      forall id: Id
        ensures id in before <==> 0 <= id < last && names[id] == name
      {
        assert 0 <= id < last ==> few[id] == names[id];
      }
      assert last !in before;
      assert IdsNamed(names, name) == if names[last] == name then before + [last] else before;
    }
  }

  lemma IdsNamedSnoc(names: seq<string>, i: nat, name: string)
    requires i < |names|
    ensures IdsNamed(names[..i + 1], name)
         == if names[i] == name then IdsNamed(names[..i], name) + [i] else IdsNamed(names[..i], name)
  {
    assert names[..i + 1][..i] == names[..i];
  }

  /** The ids filed under a name; none when there is no such name. */
  function Group(groups: map<string, seq<Id>>, name: string): seq<Id> {
    if name in groups then groups[name] else []
  }

  ghost predicate GroupsBy(groups: map<string, seq<Id>>, names: seq<string>) {
    && (forall name :: name in groups <==> name in names)
    && (forall name: string :: Group(groups, name) == IdsNamed(names, name))
  }

  lemma FileOneMore(groups: map<string, seq<Id>>, names: seq<string>, i: nat)
    requires i < |names| && GroupsBy(groups, names[..i])
    ensures GroupsBy(groups[names[i] := Group(groups, names[i]) + [i]], names[..i + 1])
  {
    var after := groups[names[i] := Group(groups, names[i]) + [i]];
    assert names[..i + 1] == names[..i] + [names[i]];
    forall name: string
      ensures Group(after, name) == IdsNamed(names[..i + 1], name)
    {
      IdsNamedSnoc(names, i, name);
      assert Group(groups, name) == IdsNamed(names[..i], name);
    }
  }

  /** Files every function id under its name, nameless ones under the empty name. */
  method BuildFunctionGroups(names: seq<string>) returns (groups: map<string, seq<Id>>)
    ensures GroupsBy(groups, names)
  {
    groups := map[];
    for i := 0 to |names|
      invariant GroupsBy(groups, names[..i])
    {
      FileOneMore(groups, names, i);
      groups := groups[names[i] := Group(groups, names[i]) + [i]];
    }
    assert names[..|names|] == names;
  }

  /** How many functions have one of the names. */
  function CountNamed(names: seq<string>, done: set<string>): nat {
    if names == [] then 0
    else CountNamed(names[..|names| - 1], done) + if names[|names| - 1] in done then 1 else 0
  }

  lemma {:induction false} CountOneMore(names: seq<string>, done: set<string>, name: string)
    requires name !in done
    ensures CountNamed(names, done + {name}) == CountNamed(names, done) + |IdsNamed(names, name)|
  {
    if names != [] {
      CountOneMore(names[..|names| - 1], done, name);
    }
  }

  lemma {:induction false} CountAll(names: seq<string>, done: set<string>)
    requires forall name :: name in names ==> name in done
    ensures CountNamed(names, done) == |names|
  {
    if names != [] {
      var few := names[..|names| - 1];
      forall name | name in few
        ensures name in done
      {
        assert name in names;
      }
      CountAll(few, done);
    }
  }

  lemma {:induction false} CountNone(names: seq<string>)
    ensures CountNamed(names, {}) == 0
  {
    if names != [] {
      CountNone(names[..|names| - 1]);
    }
  }

  // ---------- The report

  /** The two bundles: names and body keys of their functions, and which pairs compare identical. */
  datatype Bundles = Bundles(names1: seq<string>, key1: Id -> BodyKey, names2: seq<string>, key2: Id -> BodyKey,
                             identical: (Id, Id) -> bool)
  {
    function PairingOf(name: string): Pairing {
      Paired(IdsNamed(names1, name), key1, IdsNamed(names2, name), key2)
    }
  }

  datatype Report = Report(compared: nat, identical: nat, modified: seq<(string, Id, Id)>,
                           removed: seq<(string, Id)>, added: seq<(string, Id)>)

  /** The report so far is about exactly the functions named in `done`. */
  ghost predicate Covers(r: Report, b: Bundles, done: set<string>) {
    && r.identical + |r.modified| == r.compared
    && r.compared + |r.removed| == CountNamed(b.names1, done)
    && r.compared + |r.added| == CountNamed(b.names2, done)
    && (forall name, x, y :: (name, x, y) in r.modified <==>
          name in done && (x, y) in b.PairingOf(name).pairs && !b.identical(x, y))
    && (forall name, x :: (name, x) in r.removed <==> name in done && x in b.PairingOf(name).only1)
    && (forall name, y :: (name, y) in r.added <==> name in done && y in b.PairingOf(name).only2)
  }

  /** The entries that one group's pairs add. */
  function Differing(name: string, pairs: seq<(Id, Id)>, identical: (Id, Id) -> bool): seq<(string, Id, Id)> {
    if pairs == [] then []
    else
      var n := |pairs| - 1;
      var before := Differing(name, pairs[..n], identical);
      if identical(pairs[n].0, pairs[n].1) then before else before + [(name, pairs[n].0, pairs[n].1)]
  }

  lemma {:induction false} DifferingAre(name: string, pairs: seq<(Id, Id)>, identical: (Id, Id) -> bool)
    ensures forall m, x, y :: (m, x, y) in Differing(name, pairs, identical) <==>
                               m == name && (x, y) in pairs && !identical(x, y)
  {
    if pairs != [] {
      var n := |pairs| - 1;
      DifferingAre(name, pairs[..n], identical);
      assert pairs == pairs[..n] + [pairs[n]];
    }
  }

  /** Compares the pairs of one group. */
  method ComparePairs(r: Report, name: string, pairs: seq<(Id, Id)>, identical: (Id, Id) -> bool) returns (r': Report)
    ensures r'.compared == r.compared + |pairs| && r'.modified == r.modified + Differing(name, pairs, identical)
    ensures r'.identical + |r'.modified| == r.identical + |r.modified| + |pairs|
    ensures r'.removed == r.removed && r'.added == r.added
  {
    r' := r;
    for i := 0 to |pairs|
      invariant r'.compared == r.compared + i && r'.modified == r.modified + Differing(name, pairs[..i], identical)
      invariant r'.identical + |r'.modified| == r.identical + |r.modified| + i
      invariant r'.removed == r.removed && r'.added == r.added
    {
      assert pairs[..i + 1][..i] == pairs[..i];
      var (x, y) := pairs[i];
      r' := r'.(compared := r'.compared + 1);
      if identical(x, y) {
        r' := r'.(identical := r'.identical + 1);
      } else {
        r' := r'.(modified := r'.modified + [(name, x, y)]);
      }
    }
    assert pairs[..|pairs|] == pairs;
  }

  function Labelled(name: string, ids: seq<Id>): (s: seq<(string, Id)>)
    ensures |s| == |ids|
  {
    seq(|ids|, i requires 0 <= i < |ids| => (name, ids[i]))
  }

  lemma LabelledAre(name: string, ids: seq<Id>)
    ensures forall m, x :: (m, x) in Labelled(name, ids) <==> m == name && x in ids
  {
    forall x | x in ids
      ensures (name, x) in Labelled(name, ids)
    {
      var i :| 0 <= i < |ids| && ids[i] == x;
      assert Labelled(name, ids)[i] == (name, x);
    }
  }

  method Label(name: string, ids: seq<Id>) returns (s: seq<(string, Id)>)
    ensures s == Labelled(name, ids)
  {
    s := [];
    for i := 0 to |ids|
      invariant s == Labelled(name, ids)[..i]
    {
      s := s + [(name, ids[i])];
    }
  }

  /** What one group adds to the report. */
  ghost predicate Extended(r: Report, r': Report, name: string, p: Pairing, identical: (Id, Id) -> bool) {
    && r'.compared == r.compared + |p.pairs|
    && r'.identical + |r'.modified| == r.identical + |r.modified| + |p.pairs|
    && r'.modified == r.modified + Differing(name, p.pairs, identical)
    && r'.removed == r.removed + Labelled(name, p.only1)
    && r'.added == r.added + Labelled(name, p.only2)
  }

  lemma GroupSizes(b: Bundles, name: string)
    ensures var p := b.PairingOf(name);
            && |p.pairs| + |p.only1| == |IdsNamed(b.names1, name)|
            && |p.pairs| + |p.only2| == |IdsNamed(b.names2, name)|
  {
    IdsNamedAre(b.names2, name);
    NothingLost(IdsNamed(b.names1, name), b.key1, IdsNamed(b.names2, name), b.key2);
  }

  /** A group that has been worked through extends what the report covers. */
  lemma CoversMore(r: Report, r': Report, b: Bundles, done: set<string>, name: string)
    requires Covers(r, b, done) && name !in done && Extended(r, r', name, b.PairingOf(name), b.identical)
    ensures Covers(r', b, done + {name})
  {
    GroupSizes(b, name);
    CountOneMore(b.names1, done, name);
    CountOneMore(b.names2, done, name);
    DifferingAre(name, b.PairingOf(name).pairs, b.identical);
    LabelledAre(name, b.PairingOf(name).only1);
    LabelledAre(name, b.PairingOf(name).only2);
  }

  method CompareGroup(b: Bundles, r: Report, name: string, ids1: seq<Id>, ids2: seq<Id>, ghost done: set<string>)
    returns (r': Report)
    requires Covers(r, b, done) && name !in done
    requires ids1 == IdsNamed(b.names1, name) && ids2 == IdsNamed(b.names2, name)
    ensures Covers(r', b, done + {name})
  {
    var p := PairGroup(ids1, b.key1, ids2, b.key2);
    var compared := ComparePairs(r, name, p.pairs, b.identical);
    var only1 := Label(name, p.only1);
    var only2 := Label(name, p.only2);
    r' := compared.(removed := compared.removed + only1, added := compared.added + only2);
    CoversMore(r, r', b, done, name);
  }

  lemma OnlyOnTheRight(b: Bundles, name: string)
    requires IdsNamed(b.names1, name) == []
    ensures b.PairingOf(name) == Pairing([], [], IdsNamed(b.names2, name))
  {
    var ids2 := IdsNamed(b.names2, name);
    assert Claimed([], b.key1, ids2, b.key2) == [] && Unclaiming([], b.key1, ids2, b.key2) == [];
    WithoutNone(ids2);
    assert Elements(Seconds([])) == {};
  }

  lemma {:induction false} WithoutNone(ids: seq<Id>)
    ensures Without(ids, {}) == ids
  {
    if ids != [] {
      WithoutNone(ids[..|ids| - 1]);
    }
  }

  method AddGroup(b: Bundles, r: Report, name: string, ids2: seq<Id>, ghost done: set<string>) returns (r': Report)
    requires Covers(r, b, done) && name !in done
    requires IdsNamed(b.names1, name) == [] && ids2 == IdsNamed(b.names2, name)
    ensures Covers(r', b, done + {name})
  {
    var added := Label(name, ids2);
    r' := r.(added := r.added + added);
    OnlyOnTheRight(b, name);
    NothingPaired(r, r', name, ids2, b.identical);
    CoversMore(r, r', b, done, name);
  }

  lemma NothingPaired(r: Report, r': Report, name: string, ids2: seq<Id>, identical: (Id, Id) -> bool)
    requires r' == r.(added := r.added + Labelled(name, ids2))
    ensures Extended(r, r', name, Pairing([], [], ids2), identical)
  {
    assert r'.modified == r.modified + Differing(name, [], identical);
    assert r'.removed == r.removed + Labelled(name, []);
  }

  lemma NoneCovered(b: Bundles)
    ensures Covers(Report(0, 0, [], [], []), b, {})
  {
    CountNone(b.names1);
    CountNone(b.names2);
  }

  lemma GroupedName(groups: map<string, seq<Id>>, names: seq<string>, name: string)
    requires GroupsBy(groups, names)
    ensures Group(groups, name) == IdsNamed(names, name)
  {
  }

  lemma UngroupedName(groups: map<string, seq<Id>>, names: seq<string>, name: string)
    requires GroupsBy(groups, names) && name !in groups
    ensures IdsNamed(names, name) == []
  {
    assert Group(groups, name) == IdsNamed(names, name);
  }

  /** The names are taken in no particular order. */
  method CompareLeft(b: Bundles, groups1: map<string, seq<Id>>, groups2: map<string, seq<Id>>) returns (r: Report)
    requires GroupsBy(groups1, b.names1) && GroupsBy(groups2, b.names2)
    ensures Covers(r, b, groups1.Keys)
  {
    r := Report(0, 0, [], [], []);
    NoneCovered(b);
    var todo := groups1.Keys;
    ghost var done: set<string> := {};
    while todo != {}
      invariant Covers(r, b, done) && done + todo == groups1.Keys && done !! todo
      decreases todo
    {
      var name :| name in todo;
      GroupedName(groups1, b.names1, name);
      GroupedName(groups2, b.names2, name);
      r := CompareGroup(b, r, name, Group(groups1, name), Group(groups2, name), done);
      todo := todo - {name};
      done := done + {name};
    }
  }

  method AddRight(b: Bundles, left: Report, groups1: map<string, seq<Id>>, groups2: map<string, seq<Id>>) returns (r: Report)
    requires GroupsBy(groups1, b.names1) && GroupsBy(groups2, b.names2) && Covers(left, b, groups1.Keys)
    ensures Covers(r, b, groups1.Keys + groups2.Keys)
  {
    r := left;
    var todo := groups2.Keys;
    ghost var done := groups1.Keys;
    while todo != {}
      invariant Covers(r, b, done) && done + todo == groups1.Keys + groups2.Keys
      invariant groups1.Keys <= done && todo <= groups2.Keys && todo * done <= groups1.Keys
      decreases todo
    {
      var name :| name in todo;
      if name !in groups1 {
        UngroupedName(groups1, b.names1, name);
        GroupedName(groups2, b.names2, name);
        r := AddGroup(b, r, name, Group(groups2, name), done);
      }
      assert name in groups1 ==> done + {name} == done;
      todo := todo - {name};
      done := done + {name};
    }
    assert done == groups1.Keys + groups2.Keys;
  }

  /** Compares two bundles. Every function of either side is counted exactly once: as part of a
      compared pair, as removed or as added. */
  method CompareBundles(b: Bundles) returns (r: Report)
    ensures r.compared + |r.removed| == |b.names1|
    ensures r.compared + |r.added| == |b.names2|
    ensures r.identical + |r.modified| == r.compared
    ensures forall name, x, y :: (name, x, y) in r.modified <==> (x, y) in b.PairingOf(name).pairs && !b.identical(x, y)
    ensures forall name, x :: (name, x) in r.removed <==> x in b.PairingOf(name).only1
    ensures forall name, y :: (name, y) in r.added <==> y in b.PairingOf(name).only2
  {
    var groups1 := BuildFunctionGroups(b.names1);
    var groups2 := BuildFunctionGroups(b.names2);
    r := CompareLeft(b, groups1, groups2);
    r := AddRight(b, r, groups1, groups2);
    ghost var done := groups1.Keys + groups2.Keys;
    CountAll(b.names1, done);
    CountAll(b.names2, done);
    forall name | name !in done
      ensures b.PairingOf(name) == Pairing([], [], [])
    {
      UngroupedName(groups1, b.names1, name);
      UngroupedName(groups2, b.names2, name);
      OnlyOnTheRight(b, name);
    }
  }
}
