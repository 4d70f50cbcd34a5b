/** The daemon's operations on rings, blob associations, grants and the address
    book. Each operation is a series of small durable writes over the stores. */
module Stores {
  import opened Common
  import opened Rings
  import opened Grants

  /** The address book maps a peer to its nickname; empty means none is set. Tags
      keep the blobs of the store. */
  datatype World = World(
    registry: Registry, grants: set<Pair>, peers: map<PeerId, Bytes>, tags: map<Bytes, Hash>)

  datatype OpError =
    | RingExists | UnknownRing | UnknownPeer | NotAMember | SelfInRing | PastExpiry | NothingToAttach | NotAttached | NoTag

  datatype Op =
    | RingNew(ring: RingName)
    | RingAdd(ring: RingName, peer: PeerId, expiresAt: Option<Time>)
    | RingRemove(ring: RingName, peer: PeerId)
    | PeerAdd(peer: PeerId, nickname: Option<Bytes>)
    | PeerRemove(peer: PeerId)
    | BlobAttach(hash: Hash, rings: seq<RingName>, open: bool)
    | Import(tag: Bytes, hash: Hash, rings: seq<RingName>, open: bool)
    | BlobDetach(hash: Hash, rings: seq<RingName>, open: bool, all: bool)
    | BlobRemove(hash: Hash)
    | GrantTo(pair: Pair)
    | RevokeFrom(pair: Pair)

  // Registry updates

  function WithRings(w: World, rings: map<RingName, Members>): World {
    w.(registry := w.registry.(rings := rings))
  }

  /** Without a new expiry, a live member keeps the one it has. */
  function AddMember(w: World, ring: RingName, peer: PeerId, expiry: Option<Time>, now: Time): World
    requires ring in w.registry.rings
  {
    var members := w.registry.rings[ring];
    var kept := if expiry.None? && LiveMember(w.registry, ring, peer, now) then members[peer] else expiry;
    var extended: Members := members[peer := kept];
    WithRings(w, w.registry.rings[ring := extended])
  }

  function DropMember(w: World, ring: RingName, peer: PeerId): World
    requires ring in w.registry.rings
  {
    WithRings(w, w.registry.rings[ring := w.registry.rings[ring] - {peer}])
  }

  function WithAssociations(w: World, hash: Hash, m: Associations): World {
    w.(registry := w.registry.(attached :=
      if m == map[] then w.registry.attached - {hash} else w.registry.attached[hash := m]))
  }

  function PutAssociation(w: World, hash: Hash, ring: RingName, perms: set<Permission>): World {
    WithAssociations(w, hash, ResourceRings(w.registry, hash)[ring := perms])
  }

  /** No tag names the blob any more. */
  function Untagged(tags: map<Bytes, Hash>, hash: Hash): map<Bytes, Hash> {
    map name | name in tags && tags[name] != hash :: tags[name]
  }

  function EnsurePeer(w: World, peer: PeerId): World {
    if peer in w.peers then w else w.(peers := w.peers[peer := []])
  }

  // What each operation must leave behind

  /** Attaches in order and stops at the first ring that does not exist. */
  function AttachAll(w: World, hash: Hash, rings: seq<RingName>): World
    decreases |rings|
  {
    if rings == [] || rings[0] !in w.registry.rings then w
    else AttachAll(PutAssociation(w, hash, rings[0], {Read}), hash, rings[1..])
  }

  predicate AllKnown(w: World, rings: seq<RingName>) {
    forall i :: 0 <= i < |rings| ==> rings[i] in w.registry.rings
  }

  function RemovalSet(rings: seq<RingName>, open: bool): set<RingName> {
    if open then {OPEN_RING_NAME} else set r | r in rings
  }

  /** The associations outside `removed`, permissions unchanged. */
  function Remaining(reg: Registry, hash: Hash, removed: set<RingName>): Associations {
    ResourceRings(reg, hash) - removed
  }

  /** A named ring lets a live member go. */
  ghost function LetGo(ring: RingName, members: Members, peer: PeerId, now: Time): Members {
    if ring != OPEN_RING_NAME && peer in members && IsLive(members[peer], now) then members - {peer} else members
  }

  /** The peer in no named ring (expired entries aside), nobody else touched. */
  ghost function WithoutPeer(rings: map<RingName, Members>, peer: PeerId, now: Time): map<RingName, Members> {
    map r | r in rings :: LetGo(r, rings[r], peer, now)
  }

  ghost function PeerRemoved(w: World, peer: PeerId, now: Time): World {
    World(
      w.registry.(rings := WithoutPeer(w.registry.rings, peer, now)),
      (set p | p in w.grants && p.1 != peer),
      w.peers - {peer},
      w.tags)
  }

  ghost function Final(self: PeerId, w: World, op: Op, now: Time): World {
    match op
    case RingNew(ring) =>
      if ring in w.registry.rings then w else WithRings(w, w.registry.rings[ring := map[]])
    case RingAdd(ring, peer, at) =>
      if ring == OPEN_RING_NAME || peer == self || !IsLive(at, now) || ring !in w.registry.rings then w
      else EnsurePeer(AddMember(w, ring, peer, at, now), peer)
    case RingRemove(ring, peer) =>
      if ring == OPEN_RING_NAME || !LiveMember(w.registry, ring, peer, now) then w else DropMember(w, ring, peer)
    case PeerAdd(peer, nickname) =>
      if nickname.Some? then w.(peers := w.peers[peer := nickname.value]) else EnsurePeer(w, peer)
    case PeerRemove(peer) => if peer in w.peers then PeerRemoved(w, peer, now) else w
    case BlobAttach(hash, rings, open) => AttachAll(w, hash, rings + (if open then [OPEN_RING_NAME] else []))
    case Import(tag, hash, rings, open) =>
      AttachAll(w.(tags := w.tags[tag := hash]), hash, if open then [OPEN_RING_NAME] else rings)
    case BlobDetach(hash, rings, open, all) =>
      if all then WithAssociations(w, hash, map[])
      else if RemovalSet(rings, open) !! ResourceRings(w.registry, hash).Keys then w
      else WithAssociations(w, hash, Remaining(w.registry, hash, RemovalSet(rings, open)))
    case BlobRemove(hash) => WithAssociations(w, hash, map[]).(tags := Untagged(w.tags, hash))
    case GrantTo(p) => w.(grants := w.grants + {p})
    case RevokeFrom(p) => w.(grants := w.grants - {p})
  }

  // What holds over every run

  ghost predicate LiveMembersInBook(rings: map<RingName, Members>, book: set<PeerId>, now: Time) {
    forall r, p :: r in rings && p in rings[r] && IsLive(rings[r][p], now) ==> p in book
  }

  ghost predicate InNoRing(rings: map<RingName, Members>, peer: PeerId) {
    forall r :: r in rings ==> peer !in rings[r]
  }

  ghost predicate AttachedRingsExist(attached: map<Hash, Associations>, names: set<RingName>) {
    forall h, r :: h in attached && r in attached[h] ==> r in names
  }

  /** Live members are in the address book, this node is in no ring, the open
      ring has no members, and blobs are attached to existing rings only. */
  ghost predicate Consistent(self: PeerId, w: World, now: Time) {
    && OPEN_RING_NAME in w.registry.rings && w.registry.rings[OPEN_RING_NAME] == map[]
    && LiveMembersInBook(w.registry.rings, w.peers.Keys, now)
    && InNoRing(w.registry.rings, self)
    && AttachedRingsExist(w.registry.attached, w.registry.rings.Keys)
  }

  lemma PutKeepsAttachedExisting(w: World, hash: Hash, ring: RingName, perms: set<Permission>)
    requires AttachedRingsExist(w.registry.attached, w.registry.rings.Keys) && ring in w.registry.rings
    ensures var w' := PutAssociation(w, hash, ring, perms);
      AttachedRingsExist(w'.registry.attached, w.registry.rings.Keys)
  {
  }

  lemma {:induction false} AttachAllKeepsAttachedExisting(w: World, hash: Hash, rings: seq<RingName>)
    requires AttachedRingsExist(w.registry.attached, w.registry.rings.Keys)
    ensures var w' := AttachAll(w, hash, rings);
      && w' == w.(registry := w.registry.(attached := w'.registry.attached))
      && AttachedRingsExist(w'.registry.attached, w.registry.rings.Keys)
    decreases |rings|
  {
    if rings != [] && rings[0] in w.registry.rings {
      PutKeepsAttachedExisting(w, hash, rings[0], {Read});
      AttachAllKeepsAttachedExisting(PutAssociation(w, hash, rings[0], {Read}), hash, rings[1..]);
    }
  }

  lemma RestrictKeepsAttachedExisting(w: World, hash: Hash, m: Associations)
    requires AttachedRingsExist(w.registry.attached, w.registry.rings.Keys)
    requires m.Keys <= ResourceRings(w.registry, hash).Keys
    ensures AttachedRingsExist(WithAssociations(w, hash, m).registry.attached, w.registry.rings.Keys)
  {
  }

  /** Time alone only takes members away. */
  lemma LaterFewerLive(rings: map<RingName, Members>, book: set<PeerId>, before: Time, now: Time)
    requires LiveMembersInBook(rings, book, before) && before <= now
    ensures LiveMembersInBook(rings, book, now)
  {
  }

  lemma AddKeepsConsistent(self: PeerId, w: World, ring: RingName, peer: PeerId, at: Option<Time>, now: Time)
    requires Consistent(self, w, now)
    ensures Consistent(self, Final(self, w, RingAdd(ring, peer, at), now), now)
  {
  }

  lemma PeerRemoveKeepsConsistent(self: PeerId, w: World, peer: PeerId, now: Time)
    requires Consistent(self, w, now)
    ensures Consistent(self, PeerRemoved(w, peer, now), now)
  {
    var rings := WithoutPeer(w.registry.rings, peer, now);
    assert rings.Keys == w.registry.rings.Keys;
    forall r, p | r in rings && p in rings[r] && IsLive(rings[r][p], now) ensures p in w.peers.Keys - {peer} {
      assert p in w.registry.rings[r] && rings[r][p] == w.registry.rings[r][p];
    }
  }

  lemma BlobOperationKeepsConsistent(self: PeerId, w: World, op: Op, now: Time)
    requires op.BlobAttach? || op.Import? || op.BlobDetach? || op.BlobRemove?
    requires Consistent(self, w, now)
    ensures Consistent(self, Final(self, w, op, now), now)
  {
    match op
    case BlobAttach(hash, rings, open) =>
      AttachAllKeepsAttachedExisting(w, hash, rings + (if open then [OPEN_RING_NAME] else []));
    case Import(tag, hash, rings, open) =>
      AttachAllKeepsAttachedExisting(w.(tags := w.tags[tag := hash]), hash, if open then [OPEN_RING_NAME] else rings);
    case BlobDetach(hash, rings, open, all) =>
      RestrictKeepsAttachedExisting(w, hash, map[]);
      RestrictKeepsAttachedExisting(w, hash, Remaining(w.registry, hash, RemovalSet(rings, open)));
    case BlobRemove(hash) => RestrictKeepsAttachedExisting(w, hash, map[]);
  }

  /** One completed operation, at a time no earlier than the last one. */
  lemma OperationKeepsConsistent(self: PeerId, w: World, op: Op, before: Time, now: Time)
    requires Consistent(self, w, before) && before <= now
    ensures Consistent(self, Final(self, w, op, now), now)
  {
    LaterFewerLive(w.registry.rings, w.peers.Keys, before, now);
    hide AttachAll, PeerRemoved, AddMember, EnsurePeer, WithAssociations, Untagged, Remaining;
    match op
    case RingNew(_) =>
    case RingAdd(ring, peer, at) => AddKeepsConsistent(self, w, ring, peer, at, now);
    case RingRemove(_, _) =>
    case PeerAdd(_, _) =>
    case PeerRemove(peer) => PeerRemoveKeepsConsistent(self, w, peer, now);
    case GrantTo(_) =>
    case RevokeFrom(_) =>
    case _ => BlobOperationKeepsConsistent(self, w, op, now);
  }

  ghost function Run(self: PeerId, w: World, ops: seq<(Op, Time)>): World {
    if ops == [] then w
    else Final(self, Run(self, w, ops[..|ops| - 1]), ops[|ops| - 1].0, ops[|ops| - 1].1)
  }

  function LastTime(start: Time, ops: seq<(Op, Time)>): Time {
    if ops == [] then start else ops[|ops| - 1].1
  }

  ghost predicate TimeNeverGoesBack(start: Time, ops: seq<(Op, Time)>) {
    ops == [] ||
      var n := |ops| - 1;
      TimeNeverGoesBack(start, ops[..n]) && LastTime(start, ops[..n]) <= ops[n].1
  }

  /** Over every run of completed operations, one at a time. */
  lemma {:induction false} RunKeepsConsistent(self: PeerId, w: World, start: Time, ops: seq<(Op, Time)>)
    requires Consistent(self, w, start) && TimeNeverGoesBack(start, ops)
    ensures Consistent(self, Run(self, w, ops), LastTime(start, ops))
  {
    if ops != [] {
      var n := |ops| - 1;
      RunKeepsConsistent(self, w, start, ops[..n]);
      OperationKeepsConsistent(self, Run(self, w, ops[..n]), ops[n].0, LastTime(start, ops[..n]), ops[n].1);
    }
  }
}
