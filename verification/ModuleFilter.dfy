/** Which modules a filter selects: id ranges, name globs and a dependency subtree
    include, name globs exclude on top. */
module ModuleFilter {
  import opened Options
  import opened ModuleGraph
  import ModuleSubtree
  import Glob

  const WIDE_ID_BASE: nat := 0xF000_0000

  datatype Module = Module(name: Option<string>, dependencies: seq<Id>)

  /** `wideIds` gives the registered id of a synthetic one, `wideLookup` the reverse. */
  datatype Registry = Registry(modules: map<Id, Module>, wideIds: map<Id, nat>, wideLookup: map<nat, Id>) {
    function DisplayId(m: Id): nat {
      if m in wideIds then wideIds[m] else m
    }

    function FiledId(id: nat): Option<Id> {
      if id in wideLookup then Some(wideLookup[id])
      else if id < WIDE_ID_BASE then Some(id)
      else None
    }

    function Name(m: Id): string {
      if m in modules && modules[m].name.Some? then modules[m].name.value else ""
    }

    function Dependencies(): Graph {
      map m | m in modules :: modules[m].dependencies
    }
  }

  datatype Filter = Filter(
    idRanges: seq<(nat, nat)>,
    nameGlobs: seq<string>,
    excludeGlobs: seq<string>,
    from: Option<nat>,
    depth: nat)
  {
    predicate HasInclude() {
      idRanges != [] || nameGlobs != [] || from.Some?
    }
  }

  ghost predicate InRange(f: Filter, shown: nat) {
    exists r :: r in f.idRanges && r.0 <= shown <= r.1
  }

  ghost predicate NamedBy(globs: seq<string>, name: string) {
    exists g :: g in globs && Glob.Matches(g, name)
  }

  ghost predicate InSubtree(f: Filter, reg: Registry, m: Id) {
    f.from.Some? && reg.FiledId(f.from.value).Some? &&
    Within(reg.Dependencies(), reg.FiledId(f.from.value).value, f.depth, m)
  }

  ghost predicate Included(f: Filter, reg: Registry, m: Id) {
    if f.idRanges == [] && f.nameGlobs == [] && f.from == None then m in reg.modules
    else
      (m in reg.modules && (InRange(f, reg.DisplayId(m)) || NamedBy(f.nameGlobs, reg.Name(m)))) || InSubtree(f, reg, m)
  }

  /** The filter emits `m`. */
  ghost predicate Selected(f: Filter, reg: Registry, m: Id) {
    Included(f, reg, m) && !NamedBy(f.excludeGlobs, reg.Name(m))
  }

  method AnyGlob(globs: seq<string>, name: string) returns (any: bool)
    ensures any <==> NamedBy(globs, name)
  {
    for i := 0 to |globs|
      invariant forall k :: 0 <= k < i ==> !Glob.Matches(globs[k], name)
    {
      var hit := Glob.GlobMatch(globs[i], name);
      if hit {
        assert globs[i] in globs;
        return true;
      }
    }
    return false;
  }

  method AnyRange(f: Filter, shown: nat) returns (any: bool)
    ensures any <==> InRange(f, shown)
  {
    for i := 0 to |f.idRanges|
      invariant forall k :: 0 <= k < i ==> !(f.idRanges[k].0 <= shown <= f.idRanges[k].1)
    {
      if f.idRanges[i].0 <= shown <= f.idRanges[i].1 {
        assert f.idRanges[i] in f.idRanges;
        return true;
      }
    }
    return false;
  }

  ghost predicate Listed(f: Filter, reg: Registry, m: Id) {
    m in reg.modules && (InRange(f, reg.DisplayId(m)) || NamedBy(f.nameGlobs, reg.Name(m)))
  }

  method ListedModules(f: Filter, reg: Registry) returns (included: set<Id>)
    ensures forall m :: m in included <==> Listed(f, reg, m)
  {
    included := {};
    var todo := reg.modules.Keys;
    while todo != {}
      invariant todo <= reg.modules.Keys
      invariant forall m :: m in included <==> m !in todo && Listed(f, reg, m)
      decreases todo
    {
      var m :| m in todo;
      var inRange := AnyRange(f, reg.DisplayId(m));
      var named := AnyGlob(f.nameGlobs, reg.Name(m));
      if inRange {
        included := included + {m};
      }
      if named {
        included := included + {m};
      }
      todo := todo - {m};
    }
  }

  method Unexcluded(f: Filter, reg: Registry, candidates: set<Id>) returns (kept: set<Id>)
    ensures forall m :: m in kept <==> m in candidates && !NamedBy(f.excludeGlobs, reg.Name(m))
  {
    kept := candidates;
    var todo := candidates;
    while todo != {}
      invariant todo <= kept <= candidates
      invariant forall m :: m in candidates && m !in todo ==> (m in kept <==> !NamedBy(f.excludeGlobs, reg.Name(m)))
      decreases todo
    {
      var m :| m in todo;
      var excluded := AnyGlob(f.excludeGlobs, reg.Name(m));
      if excluded {
        kept := kept - {m};
      }
      todo := todo - {m};
    }
  }

  method Resolve(f: Filter, reg: Registry) returns (selected: set<Id>)
    ensures forall m :: m in selected <==> Selected(f, reg, m)
  {
    var included: set<Id>;
    if f.HasInclude() {
      included := ListedModules(f, reg);
      if f.from.Some? {
        match reg.FiledId(f.from.value)
        case Some(root) =>
          included := ModuleSubtree.CollectDependencySubtree(reg.Dependencies(), root, f.depth, included);
        case None =>
      }
    } else {
      included := reg.modules.Keys;
    }
    assert forall m :: m in included <==> Included(f, reg, m);
    selected := Unexcluded(f, reg, included);
  }

  // ---------- Ids

  /** The two look-ups of a registry undo each other, both sides of them are past the small ids, and a
      module without a synthetic id is filed under a small one. */
  ghost predicate Consistent(reg: Registry) {
    && (forall m :: m in reg.wideIds ==>
          m >= 0xF000_0000 && reg.wideIds[m] in reg.wideLookup && reg.wideLookup[reg.wideIds[m]] == m)
    && (forall id :: id in reg.wideLookup ==>
          id >= 0xF000_0000 && reg.wideLookup[id] in reg.wideIds && reg.wideIds[reg.wideLookup[id]] == id)
    && (forall m :: m in reg.modules && m !in reg.wideIds ==> m < 0xF000_0000)
  }

  /** An id finds a module exactly when the module is shown with it, and a large id that was never
      registered finds nothing. */
  lemma ShownIsFound(reg: Registry, m: Id, id: nat)
    requires Consistent(reg) && m in reg.modules
    ensures reg.FiledId(id) == Some(m) <==> reg.DisplayId(m) == id
    ensures id >= 0xF000_0000 && id !in reg.wideLookup ==> reg.FiledId(id) == None
  {
    if m in reg.wideIds {
      assert reg.wideIds[m] in reg.wideLookup;
    }
    if id in reg.wideLookup {
      assert reg.wideLookup[id] in reg.wideIds;
    }
  }

  /** Said of the filter's own fields and the registry's: the modules a filter without includes selects,
      and those that an id range, a name glob or the root of a subtree names. */
  lemma SelectedExactly(f: Filter, reg: Registry, m: Id)
    requires f.excludeGlobs == [] && m in reg.modules
    ensures f.idRanges == [] && f.nameGlobs == [] && f.from.None? ==> Selected(f, reg, m)
    ensures !(f.idRanges == [] && f.nameGlobs == [] && f.from.None?) && Selected(f, reg, m) ==>
              || (exists r :: r in f.idRanges && r.0 <= (if m in reg.wideIds then reg.wideIds[m] else m) <= r.1)
              || (exists glob :: glob in f.nameGlobs && Glob.Matches(glob, if reg.modules[m].name.Some? then reg.modules[m].name.value else ""))
              || InSubtree(f, reg, m)
  {
  }

  /** The edges a subtree is walked along are the dependencies the registry lists. */
  lemma DependenciesExactly(reg: Registry, m: Id, d: Id)
    ensures d in Out(reg.Dependencies(), m) <==> m in reg.modules && d in reg.modules[m].dependencies
  {
    OutExactly(reg.Dependencies(), m, d);
  }
}
