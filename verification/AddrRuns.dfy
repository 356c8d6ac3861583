/** Whole runs of the address manager. */
module AddrRuns {
  import opened AddrInfo
  import opened AddrTables
  import opened AddrMan

  datatype Op =
    | Add(a: Address, source: int, penalty: int, now: int, routable: bool)
    | Good(service: Service, time: int)
    | Attempt(service: Service, countFailure: bool, time: int)
    | Connected(service: Service, time: int)
    | GetAddr(now: int)

  /** Times are positive, as those of a clock are. */
  predicate TimesOk(op: Op) {
    (op.Good? ==> op.time > 0) && (op.Attempt? ==> op.time >= 0)
  }

  method Execute(m: AddrManager, op: Op)
    requires m.Valid() && TimesOk(op)
    modifies m
    ensures m.Valid()
  {
    match op
    case Add(a, source, penalty, now, routable) =>
      var isNew := m.Add(a, source, penalty, now, routable);
    case Good(service, time) =>
      m.Good(service, time);
    case Attempt(service, countFailure, time) =>
      m.Attempt(service, countFailure, time);
    case Connected(service, time) =>
      m.Connected(service, time);
    case GetAddr(now) =>
      var list := m.GetAddr(now);
  }

  /** After every run from a new manager all indexes and counters agree: the new table holds as many references as the
      entries count. */
  method Run(h: Hashes, ops: seq<Op>) returns (m: AddrManager)
    requires forall i :: 0 <= i < |ops| ==> TimesOk(ops[i])
    ensures fresh(m) && m.Valid()
    ensures |m.vRandom| == m.nTried + m.nNew && m.nTried == |Tried(m.mapInfo)| && m.nNew == |Untried(m.mapInfo)|
    ensures forall id :: id in m.mapInfo ==> m.mapInfo[id].refCount == |Slots(m.vvNew, id)|
  {
    m := new AddrManager(h);
    var i := 0;
    while i < |ops|
      invariant 0 <= i <= |ops| && fresh(m) && m.Valid()
    {
      Execute(m, ops[i]);
      i := i + 1;
    }
    m.CheckCounts();
    forall id | id in m.mapInfo
      ensures m.mapInfo[id].refCount == |Slots(m.vvNew, id)|
    {
      m.Check(id);
    }
  }
}
