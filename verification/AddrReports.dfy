/** Two things the address manager gets wrong, on inputs of its own (src/addrman.cpp, src/addrman.h). */
module AddrReports {
  import opened AddrInfo
  import opened AddrMan

  /** Of two addresses for the same slot, the second is reported as new although it is not kept,
      unless the first has become terrible. */
  method AddTwice(h: Hashes, a: Address, b: Address, source: int, penalty: int, now: int)
    returns (isNew: bool, known: bool)
    requires a.service.net != b.service.net && !IsTerrible(Kept(a, source, penalty), now)
    requires NewSlot(h, GetNewBucket(h, a.service, source), a.service) ==
               NewSlot(h, GetNewBucket(h, b.service, source), b.service)
    ensures isNew && !known
  {
    var m := new AddrManager(h);
    var first := m.Add(a, source, penalty, now, true);
    var s := m.InsertSlot(b.service, source);
    assert s == m.InsertSlot(a.service, source);
    ghost var id := m.vvNew[s];
    assert Alike(m.mapInfo[id], Kept(a, source, penalty));
    assert !IsTerrible(m.mapInfo[id], now);
    assert m.mapAddr.Keys <= {a.service.net};
    isNew := m.Add(b, source, penalty, now, true);
    known := b.service.net in m.mapAddr;
  }

  /** Two recent addresses, with hashes that put everything into the same place. */
  method NewButGone() returns (isNew: bool, known: bool)
    ensures isNew && !known
  {
    var h := Hashes(_ => 0, (_, _) => 0, (_, _, _) => 0);
    var a, b := Address(Service(1, 8333), 1000, {}), Address(Service(2, 8333), 1000, {});
    isNew, known := AddTwice(h, a, b, 3, 0, 1000);
  }

  /** A manager that has taken in any address is inconsistent once it is cleared. */
  method ClearAfterUse(h: Hashes, a: Address, source: int, penalty: int, now: int) returns (m: AddrManager)
    ensures !m.Valid()
  {
    m := new AddrManager(h);
    var isNew := m.Add(a, source, penalty, now, true);
    assert a.service.net in m.mapAddr;
    m.Clear();
  }
}
