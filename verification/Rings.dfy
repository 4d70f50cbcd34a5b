/** The ring registry as an abstract interface: rings with their members, and
    blobs with the rings they are attached to. */
module Rings {
  import opened Common

  type RingName = string
  const OPEN_RING_NAME: RingName := "open"

  /** Nanoseconds since the Unix epoch. */
  type Time = int

  datatype Permission = Read | Write | Delete

  /** Each member with the time its membership expires, if any. */
  type Members = map<PeerId, Option<Time>>
  type Associations = map<RingName, set<Permission>>

  datatype Registry = Registry(rings: map<RingName, Members>, attached: map<Hash, Associations>)

  predicate IsLive(expiry: Option<Time>, now: Time) {
    expiry.Some? ==> now < expiry.value
  }

  predicate LiveMember(reg: Registry, ring: RingName, peer: PeerId, now: Time) {
    ring in reg.rings && peer in reg.rings[ring] && IsLive(reg.rings[ring][peer], now)
  }

  function ResourceRings(reg: Registry, hash: Hash): Associations {
    if hash in reg.attached then reg.attached[hash] else map[]
  }

  /** Some attached ring carries the permission and is open or has the peer. */
  ghost predicate HasPermission(reg: Registry, peer: PeerId, hash: Hash, perm: Permission, now: Time) {
    exists ring :: ring in ResourceRings(reg, hash) && perm in ResourceRings(reg, hash)[ring]
      && (ring == OPEN_RING_NAME || LiveMember(reg, ring, peer, now))
  }

  /** `names` lists the keys of `m`, each once, in some order. */
  ghost predicate IsListing<V>(names: seq<RingName>, m: map<RingName, V>) {
    && (forall r :: r in names <==> r in m)
    && (forall i, j :: 0 <= i < j < |names| ==> names[i] != names[j])
  }

  /** Registry iteration visits every key once; the order is not promised. */
  method ListKeys<V>(m: map<RingName, V>) returns (names: seq<RingName>)
    ensures IsListing(names, m)
  {
    names := [];
    var rest := m.Keys;
    while rest != {}
      invariant forall r :: r in m <==> r in rest || r in names
      invariant forall r :: r in rest ==> r !in names
      invariant forall i, j :: 0 <= i < j < |names| ==> names[i] != names[j]
      decreases rest
    {
      var ring :| ring in rest;
      rest := rest - {ring};
      names := names + [ring];
    }
  }
}
