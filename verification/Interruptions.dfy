/** What interrupted, retried or overlapping operations do to the stores. */
module Interruptions {
  import opened Common
  import opened Rings
  import opened Stores
  import opened StoreHandlers

  // Removing a peer

  ghost function StillLive(members: Members, t: Time): Members {
    map p | p in members && IsLive(members[p], t) :: members[p]
  }

  /** Memberships that are still live at `t`, with their expiry. */
  ghost function LiveView(rings: map<RingName, Members>, t: Time): map<RingName, Members> {
    map r | r in rings :: StillLive(rings[r], t)
  }

  /** Two worlds that no reader can tell apart from time `t` on. */
  ghost predicate SameFrom(a: World, b: World, t: Time) {
    && a.grants == b.grants && a.peers == b.peers && a.tags == b.tags && a.registry.attached == b.registry.attached
    && LiveView(a.registry.rings, t) == LiveView(b.registry.rings, t)
  }

  /** A removal interrupted before the address-book write and run again, now or
      later, ends like the uninterrupted one. */
  lemma RetriedRemovalCompletes(self: PeerId, w: World, interrupted: World, peer: PeerId, now: Time, later: Time)
    requires peer in w.peers && now <= later
    requires RemovalInProgress(w, interrupted, peer, now)
    ensures SameFrom(
      Final(self, interrupted, PeerRemove(peer), later), Final(self, w, PeerRemove(peer), now), later)
    ensures now == later ==>
      Final(self, interrupted, PeerRemove(peer), later) == Final(self, w, PeerRemove(peer), now)
  {
    RetriedGrants(w, interrupted, peer, now);
    var a := WithoutPeer(interrupted.registry.rings, peer, later);
    var b := WithoutPeer(w.registry.rings, peer, now);
    forall r | r in w.registry.rings
      ensures LiveView(a, later)[r] == LiveView(b, later)[r]
      ensures now == later ==> a[r] == b[r]
    {
      RetriedRing(r, w.registry.rings[r], interrupted.registry.rings[r], peer, now, later);
    }
    assert LiveView(a, later) == LiveView(b, later);
    assert now == later ==> a == b;
  }

  lemma RetriedGrants(w: World, interrupted: World, peer: PeerId, now: Time)
    requires RemovalInProgress(w, interrupted, peer, now)
    ensures (set p | p in interrupted.grants && p.1 != peer) == (set p | p in w.grants && p.1 != peer)
  {
  }

  lemma RetriedRing(ring: RingName, before: Members, interrupted: Members, peer: PeerId, now: Time, later: Time)
    requires now <= later
    requires interrupted == before || interrupted == LetGo(ring, before, peer, now)
    ensures var a, b := LetGo(ring, interrupted, peer, later), LetGo(ring, before, peer, now);
      && StillLive(a, later) == StillLive(b, later)
      && (now == later ==> a == b)
  {
  }

  // Adding a peer to a ring

  /** Between its two writes a ring addition breaks the rule that live members
      are in the address book, exactly for peers that are new to it; running it
      again repairs that. */
  lemma InterruptedAddition(
    self: PeerId, w: World, ring: RingName, peer: PeerId, at: Option<Time>, now: Time)
    requires Consistent(self, w, now)
    requires ring != OPEN_RING_NAME && ring in w.registry.rings && peer != self && IsLive(at, now)
    ensures var between := AddMember(w, ring, peer, at, now);
      && (Consistent(self, between, now) <==> peer in w.peers)
      && Final(self, between, RingAdd(ring, peer, at), now) == Final(self, w, RingAdd(ring, peer, at), now)
      && (peer !in w.peers ==> Final(self, between, PeerRemove(peer), now) == between)
  {
    var between := AddMember(w, ring, peer, at, now);
    assert LiveMember(between.registry, ring, peer, now);
    var again := AddMember(between, ring, peer, at, now);
    assert again.registry.rings[ring][peer] == between.registry.rings[ring][peer];
    assert again.registry.rings[ring] == between.registry.rings[ring];
    assert again.registry.rings == between.registry.rings;
    AddKeepsConsistent(self, w, ring, peer, at, now);
    assert peer in w.peers ==> Final(self, w, RingAdd(ring, peer, at), now) == between;
    assert peer !in w.peers ==> !LiveMembersInBook(between.registry.rings, between.peers.Keys, now);
  }

  // Nicknames

  // Detaching a blob

  /** Whatever write a detach stopped at, nobody holds a permission that it did
      not hold before. */
  lemma NarrowedNeverAddsAccess(from: World, w: World, hash: Hash, peer: PeerId, blob: Hash, perm: Permission, now: Time)
    requires Narrowed(from, w, hash)
    requires HasPermission(w.registry, peer, blob, perm, now)
    ensures HasPermission(from.registry, peer, blob, perm, now)
  {
    var ring :| ring in ResourceRings(w.registry, blob) && perm in ResourceRings(w.registry, blob)[ring]
      && (ring == OPEN_RING_NAME || LiveMember(w.registry, ring, peer, now));
    if blob != hash {
      assert ResourceRings(w.registry, blob) == ResourceRings(from.registry, blob);
    }
    assert ring in ResourceRings(from.registry, blob);
  }

  // Removing a blob

  /** A blob removal interrupted at any write and run again ends like the
      uninterrupted one; nobody gains a permission in between. */
  lemma RetriedBlobRemoval(self: PeerId, w: World, interrupted: World, hash: Hash, now: Time)
    requires BlobRemovalInProgress(w, interrupted, hash)
    ensures Final(self, interrupted, BlobRemove(hash), now) == Final(self, w, BlobRemove(hash), now)
    ensures forall peer, blob, perm :: HasPermission(interrupted.registry, peer, blob, perm, now) ==>
      HasPermission(w.registry, peer, blob, perm, now)
  {
    assert Untagged(interrupted.tags, hash) == Untagged(w.tags, hash);
    assert interrupted.registry.attached - {hash} == w.registry.attached - {hash};
    forall peer, blob, perm | HasPermission(interrupted.registry, peer, blob, perm, now)
      ensures HasPermission(w.registry, peer, blob, perm, now)
    {
      assert Narrowed(w, interrupted.(tags := w.tags), hash);
      NarrowedNeverAddsAccess(w, interrupted.(tags := w.tags), hash, peer, blob, perm, now);
    }
  }

  // Two detaches of one blob at the same time

  /** The writes of a detach once it has read the associations. */
  datatype AssociationWrite = Clear | Add(ring: RingName, perms: set<Permission>)

  function Replay(m: Associations, writes: seq<AssociationWrite>): Associations {
    if writes == [] then m
    else
      var before := Replay(m, writes[..|writes| - 1]);
      match writes[|writes| - 1]
      case Clear => map[]
      case Add(ring, perms) => before[ring := perms]
  }

  /** The write at `i` attaches `ring` and no later write clears. */
  predicate AddedAfterLastClear(writes: seq<AssociationWrite>, i: nat, ring: RingName) {
    && i < |writes| && writes[i].Add? && writes[i].ring == ring
    && forall j :: i < j < |writes| ==> writes[j].Add?
  }

  /** What is attached after writes that include a clear: the rings some task
      adds after the last clear, whichever task that is. */
  lemma {:induction false} AttachedIffAddedAfterLastClear(m: Associations, writes: seq<AssociationWrite>, ring: RingName)
    requires Clear in writes
    ensures ring in Replay(m, writes) <==> exists i: nat :: AddedAfterLastClear(writes, i, ring)
  {
    var n := |writes| - 1;
    if writes[n].Add? {
      assert writes == writes[..n] + [writes[n]];
      AttachedIffAddedAfterLastClear(m, writes[..n], ring);
      if ring in Replay(m, writes[..n]) {
        var i: nat :| AddedAfterLastClear(writes[..n], i, ring);
        assert AddedAfterLastClear(writes, i, ring);
      }
      if writes[n].ring == ring {
        assert AddedAfterLastClear(writes, n, ring);
      }
      if i: nat :| AddedAfterLastClear(writes, i, ring) && i < n {
        assert AddedAfterLastClear(writes[..n], i, ring);
      }
    }
  }

  /** One task's writes after reading `m` and dropping `removed`. */
  predicate WritesOfDetach(writes: seq<AssociationWrite>, m: Associations, removed: set<RingName>) {
    && |writes| > 0 && writes[0].Clear?
    && forall i :: 0 < i < |writes| ==>
      writes[i].Add? && writes[i].ring in m && writes[i].ring !in removed && writes[i].perms == m[writes[i].ring]
  }

  /** `writes` merges the writes of two tasks; `mine` marks the first one's. */
  function Picked(writes: seq<AssociationWrite>, mine: seq<bool>, which: bool): seq<AssociationWrite>
    requires |writes| == |mine|
  {
    if writes == [] then []
    else
      var n := |writes| - 1;
      Picked(writes[..n], mine[..n], which) + (if mine[n] == which then [writes[n]] else [])
  }

  lemma {:induction false} PickedHasIt(writes: seq<AssociationWrite>, mine: seq<bool>, i: nat)
    requires |writes| == |mine| && i < |writes|
    ensures writes[i] in Picked(writes, mine, mine[i])
  {
    var n := |writes| - 1;
    if i < n {
      PickedHasIt(writes[..n], mine[..n], i);
    }
  }

  lemma {:induction false} PickedIsFromThere(writes: seq<AssociationWrite>, mine: seq<bool>, which: bool)
    requires |writes| == |mine|
    ensures forall x :: x in Picked(writes, mine, which) ==> x in writes
  {
    if writes != [] {
      PickedIsFromThere(writes[..|writes| - 1], mine[..|writes| - 1], which);
    }
  }

  /** Two detaches, whenever each of them read the associations (`readA`, `readB`;
      `m` are those before the first write): a ring that one of them removed is
      attached in the end exactly when the other one, having read it, writes it
      back after the last clear. */
  lemma OverlappingDetaches(
    m: Associations, readA: Associations, readB: Associations, removedA: set<RingName>, removedB: set<RingName>,
    writes: seq<AssociationWrite>, mine: seq<bool>, ring: RingName)
    requires |writes| == |mine|
    requires WritesOfDetach(Picked(writes, mine, true), readA, removedA)
    requires WritesOfDetach(Picked(writes, mine, false), readB, removedB)
    requires ring in removedA
    ensures ring in Replay(m, writes) <==> exists i: nat :: AddedAfterLastClear(writes, i, ring) && !mine[i]
    ensures ring in Replay(m, writes) ==> ring in readB && ring !in removedB
  {
    PickedIsFromThere(writes, mine, true);
    assert Picked(writes, mine, true)[0] == Clear;
    AttachedIffAddedAfterLastClear(m, writes, ring);
    forall i: nat | AddedAfterLastClear(writes, i, ring) ensures !mine[i] && ring in readB && ring !in removedB {
      PickedHasIt(writes, mine, i);
    }
  }

  lemma PickedMore(writes: seq<AssociationWrite>, mine: seq<bool>, x: AssociationWrite, isMine: bool)
    requires |writes| == |mine|
    ensures Picked(writes + [x], mine + [isMine], isMine) == Picked(writes, mine, isMine) + [x]
    ensures Picked(writes + [x], mine + [isMine], !isMine) == Picked(writes, mine, !isMine)
  {
    assert (writes + [x])[..|writes|] == writes && (mine + [isMine])[..|mine|] == mine;
  }

  /** So the comment that detach needs no atomicity rests on requests being
      served one at a time: while one task detaches "a" and "b" and another one
      detaches "b", "a" can come back. */
  lemma DetachedRingCanComeBack() returns (writes: seq<AssociationWrite>, mine: seq<bool>)
    ensures |writes| == |mine|
    ensures var m: Associations := map["a" := {Read}, "b" := {Read}];
      && WritesOfDetach(Picked(writes, mine, true), m, {"a", "b"})
      && WritesOfDetach(Picked(writes, mine, false), m, {"b"})
      && "a" in Replay(m, writes)
  {
    var back := Add("a", {Read});
    PickedMore([], [], Clear, true);
    PickedMore([] + [Clear], [] + [true], Clear, false);
    PickedMore([] + [Clear] + [Clear], [] + [true] + [false], back, false);
    writes := [] + [Clear] + [Clear] + [back];
    mine := [] + [true] + [false] + [false];
  }
}
