/** Filing module ids: small ids stand for themselves, larger ones are given synthetic ids in turn. */
module ModuleIds {
  import opened Options
  import opened ModuleGraph
  import opened ModuleFilter

  /** As many synthetic ids as 32 bits leave room for. */
  const ROOM: nat := 0x1000_0000

  /** Synthetic ids are given out without a gap, and the two look-ups undo each other. */
  ghost predicate Gapless(ids: Registry) {
    && (forall m :: m in ids.wideIds <==> 0xF000_0000 <= m < 0xF000_0000 + |ids.wideIds|)
    && Consistent(ids)
  }

  function Extended(ids: Registry, id: nat, filed: Id): Registry {
    ids.(wideIds := ids.wideIds[filed := id], wideLookup := ids.wideLookup[id := filed])
  }

  /** Whatever was found or shown before still is, but for the id just given out. */
  ghost predicate Undisturbed(before: Registry, after: Registry, filed: Id) {
    && (forall i: nat :: before.FiledId(i).Some? ==> after.FiledId(i) == before.FiledId(i))
    && (forall m: Id :: m != filed ==> after.DisplayId(m) == before.DisplayId(m))
  }

  ghost predicate Files(ids: Registry, id: nat, filed: Id) {
    ids.FiledId(id) == Some(filed) && ids.DisplayId(filed) == id
  }

  lemma GivingOut(ids: Registry, id: nat, filed: Id)
    requires ids.modules == map[] && Gapless(ids) && id >= 0xF000_0000 && id !in ids.wideLookup
    requires filed == 0xF000_0000 + |ids.wideIds|
    ensures Gapless(Extended(ids, id, filed))
    ensures Files(Extended(ids, id, filed), id, filed) && Undisturbed(ids, Extended(ids, id, filed), filed)
  {
    assert filed !in ids.wideIds;
  }

  lemma AlreadyFiled(ids: Registry, id: nat)
    requires Gapless(ids) && (id < 0xF000_0000 || id in ids.wideLookup)
    ensures Files(ids, id, if id in ids.wideLookup then ids.wideLookup[id] else id)
  {
  }

  class IdTable {
    var wideIds: map<Id, nat>
    var wideLookup: map<nat, Id>

    function Ids(): Registry
      reads this
    {
      Registry(map[], wideIds, wideLookup)
    }

    ghost predicate Valid()
      reads this
    {
      Gapless(Ids())
    }

    constructor ()
      ensures Valid() && Ids() == Registry(map[], map[], map[])
    {
      wideIds, wideLookup := map[], map[];
    }

    /** With room left, the id is found and shown as it was registered from now on, and nothing filed
        before moves; an id filed before keeps its place. */
    method Intern(id: nat) returns (filed: Id)
      requires Valid()
      modifies this
      ensures id < 0xF000_0000 ==> filed == id
      ensures id < 0xF000_0000 || id in old(wideLookup) ==> Ids() == old(Ids())
      ensures !(id < 0xF000_0000 || id in old(wideLookup)) ==>
                filed == (0xF000_0000 + |old(wideIds)|) % 0x1_0000_0000 && Ids() == Extended(old(Ids()), id, filed)
      ensures |old(wideIds)| < ROOM ==> Valid() && Files(Ids(), id, filed) && Undisturbed(old(Ids()), Ids(), filed)
    {
      if id < WIDE_ID_BASE {
        AlreadyFiled(Ids(), id);
        return id;
      }
      if id in wideLookup {
        AlreadyFiled(Ids(), id);
        return wideLookup[id];
      }
      filed := (WIDE_ID_BASE + |wideIds|) % 0x1_0000_0000;
      if |wideIds| < ROOM {
        GivingOut(Ids(), id, filed);
      }
      wideIds := wideIds[filed := id];
      wideLookup := wideLookup[id := filed];
    }
  }
}
