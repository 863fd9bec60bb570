// The page tables as the finite map the fork protocol works on: a change of one
// entry, as the contracts of Pmap and AddressSpaces state it, is one map update.
module MappingView {
  import opened Sv32
  import opened PhysicalMemory
  import opened CopyOnWrite

  function Mappings(s: Phys): map<Slot, Pte> {
    map q: nat, v: nat | q in s.dirs && 0 <= v < USER_VPNS && Lookup(s, q, v).Some? :: Slot(q, v) := Lookup(s, q, v).value
  }

  lemma OneEntryIsOneUpdate(s: Phys, s': Phys, q: nat, vpn: nat, r: Option<Pte>)
    requires OnlyEntry(s, s', q, vpn, r) && q in s.dirs && vpn < USER_VPNS
    ensures Mappings(s') == match r case Some(e) => Mappings(s)[Slot(q, vpn) := e] case None => Mappings(s) - {Slot(q, vpn)}
  {
    assert forall q': nat :: q' in s.dirs ==> IsHolder(s, q');
    var target := match r case Some(e) => Mappings(s)[Slot(q, vpn) := e] case None => Mappings(s) - {Slot(q, vpn)};
    forall x: Slot ensures x in Mappings(s') <==> x in target {
      assert x == Slot(x.env, x.vpn);
    }
    forall x | x in target ensures Mappings(s')[x] == target[x] {
      assert x == Slot(x.env, x.vpn);
    }
  }
}
