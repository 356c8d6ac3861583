/** An entry of the address manager, and where it belongs (src/addrman.h, src/addrman.cpp). */
module AddrInfo {

  const TRIED_BUCKET_COUNT: nat := 256
  const NEW_BUCKET_COUNT: nat := 1024
  const BUCKET_SIZE: nat := 64
  const NEW_BUCKETS_PER_ADDRESS: nat := 8
  const HORIZON_DAYS: int := 30
  const RETRIES: int := 3
  const MAX_FAILURES: int := 10
  const MIN_FAIL_DAYS: int := 7
  const GETADDR_MAX_PCT: nat := 23
  const GETADDR_MAX: nat := 2500

  /** A network address and a port. */
  datatype Service = Service(net: int, port: int)

  /** What a peer tells about an address: services are the set bits of nServices. */
  datatype Address = Address(service: Service, time: int, services: set<nat>)

  datatype Info = Info(service: Service, time: int, services: set<nat>, source: int,
                       lastTry: int, lastCount: int, lastSuccess: int, attempts: int,
                       refCount: nat, inTried: bool, randomPos: nat)

  /** The keyed hashes, about which nothing is known. */
  datatype Hashes = Hashes(tried: Service -> nat, untried: (Service, int) -> nat, position: (bool, nat, Service) -> nat)

  datatype Slot = Slot(bucket: nat, pos: nat)

  function GetTriedBucket(h: Hashes, s: Service): (b: nat)
    ensures b < TRIED_BUCKET_COUNT
  {
    h.tried(s) % TRIED_BUCKET_COUNT
  }

  function GetNewBucket(h: Hashes, s: Service, source: int): (b: nat)
    ensures b < NEW_BUCKET_COUNT
  {
    h.untried(s, source) % NEW_BUCKET_COUNT
  }

  function GetBucketPosition(h: Hashes, isNew: bool, bucket: nat, s: Service): (p: nat)
    ensures p < BUCKET_SIZE
  {
    h.position(isNew, bucket, s) % BUCKET_SIZE
  }

  /** The one slot of the tried table that an address may have. */
  function TriedSlot(h: Hashes, s: Service): Slot {
    Slot(GetTriedBucket(h, s), GetBucketPosition(h, false, GetTriedBucket(h, s), s))
  }

  /** The one slot of a new bucket that an address may have. */
  function NewSlot(h: Hashes, bucket: nat, s: Service): Slot {
    Slot(bucket, GetBucketPosition(h, true, bucket, s))
  }

  predicate IsTerrible(x: Info, now: int) {
    if x.lastTry != 0 && x.lastTry >= now - 60 then false
    else if x.time > now + 10 * 60 then true
    else if x.time == 0 || now - x.time > HORIZON_DAYS * 24 * 60 * 60 then true
    else if x.lastSuccess == 0 && x.attempts >= RETRIES then true
    else now - x.lastSuccess > MIN_FAIL_DAYS * 24 * 60 * 60 && x.attempts >= MAX_FAILURES
  }

  function Max(a: int, b: int): int {
    if a < b then b else a
  }

  function WithRef(info: map<int, Info>, id: int, n: nat): map<int, Info>
    requires id in info
  {
    info[id := info[id].(refCount := n)]
  }

  function WithTried(info: map<int, Info>, id: int, b: bool): map<int, Info>
    requires id in info
  {
    info[id := info[id].(inTried := b)]
  }

  function WithPos(info: map<int, Info>, id: int, p: nat): map<int, Info>
    requires id in info
  {
    info[id := info[id].(randomPos := p)]
  }

  /** A new entry for an address, at the given place of vRandom. */
  function NewInfo(a: Address, source: int, pos: nat): Info {
    Info(a.service, a.time, a.services, source, 0, 0, 0, 0, 0, false, pos)
  }
}
