/** What each completed operation changes in the stores, and that nothing else
    changes. The handlers are proved to leave exactly these worlds. */
module Effects {
  import opened Common
  import opened Rings
  import opened Grants
  import opened Peers
  import opened Stores

  /** Everything but the rings and their members. */
  predicate OnlyRingsDiffer(w: World, w': World) {
    && w'.registry.attached == w.registry.attached
    && w'.grants == w.grants && w'.peers == w.peers && w'.tags == w.tags
  }

  /** Everything but the associations of one blob. */
  ghost predicate OnlyAssociationsDiffer(w: World, w': World, hash: Hash) {
    && w'.registry.rings == w.registry.rings
    && (forall h :: h != hash ==> ResourceRings(w'.registry, h) == ResourceRings(w.registry, h))
    && w'.grants == w.grants && w'.peers == w.peers && w'.tags == w.tags
  }

  // Rings

  lemma RingCreated(self: PeerId, w: World, ring: RingName, now: Time)
    ensures var w' := Final(self, w, RingNew(ring), now);
      if ring in w.registry.rings then w' == w
      else
        && OnlyRingsDiffer(w, w')
        && (forall r :: r in w'.registry.rings <==> r in w.registry.rings || r == ring)
        && w'.registry.rings[ring] == map[]
        && (forall r :: r in w.registry.rings ==> w'.registry.rings[r] == w.registry.rings[r])
  {
  }

  /** All members of all rings but `peer` in `ring` keep their membership. */
  ghost predicate OtherMembersSame(w: World, w': World, ring: RingName, peer: PeerId) {
    && w'.registry.rings.Keys == w.registry.rings.Keys
    && forall r, p :: r in w.registry.rings && (r != ring || p != peer) ==>
      && (p in w'.registry.rings[r] <==> p in w.registry.rings[r])
      && (p in w.registry.rings[r] ==> w'.registry.rings[r][p] == w.registry.rings[r][p])
  }

  /** An accepted addition: the member has exactly the expiry that was given, or
      without one the expiry it still has, or none; a new peer enters the address
      book without a nickname. A refused one changes nothing. */
  lemma MemberAdded(self: PeerId, w: World, ring: RingName, peer: PeerId, at: Option<Time>, now: Time)
    ensures var w' := Final(self, w, RingAdd(ring, peer, at), now);
      if ring == OPEN_RING_NAME || peer == self || ring !in w.registry.rings || (at.Some? && at.value <= now) then w' == w
      else
        && OtherMembersSame(w, w', ring, peer)
        && peer in w'.registry.rings[ring]
        && (at.Some? ==> w'.registry.rings[ring][peer] == at)
        && (at.None? && LiveMember(w.registry, ring, peer, now) ==>
          w'.registry.rings[ring][peer] == w.registry.rings[ring][peer])
        && (at.None? && !LiveMember(w.registry, ring, peer, now) ==> w'.registry.rings[ring][peer] == None)
        && (forall p :: p in w'.peers <==> p in w.peers || p == peer)
        && (forall p :: p in w.peers ==> w'.peers[p] == w.peers[p])
        && (peer !in w.peers ==> w'.peers[peer] == [])
        && w'.registry.attached == w.registry.attached && w'.grants == w.grants && w'.tags == w.tags
  {
  }

  /** An accepted removal: the peer is no live member of the ring any more, at
      any time, and that is all. A refused one changes nothing. */
  lemma MemberRemoved(self: PeerId, w: World, ring: RingName, peer: PeerId, now: Time, t: Time)
    ensures var w' := Final(self, w, RingRemove(ring, peer), now);
      if ring == OPEN_RING_NAME || !LiveMember(w.registry, ring, peer, now) then w' == w
      else
        && !LiveMember(w'.registry, ring, peer, t)
        && OtherMembersSame(w, w', ring, peer)
        && OnlyRingsDiffer(w, w')
  {
  }

  /** A removed member loses exactly the permissions that it had through this
      ring alone. */
  lemma RemovedMemberLosesRing(
    self: PeerId, w: World, ring: RingName, peer: PeerId, now: Time, blob: Hash, perm: Permission)
    requires ring != OPEN_RING_NAME && LiveMember(w.registry, ring, peer, now)
    ensures var w' := Final(self, w, RingRemove(ring, peer), now);
      HasPermission(w'.registry, peer, blob, perm, now) <==>
        exists r :: r != ring && r in ResourceRings(w.registry, blob) && perm in ResourceRings(w.registry, blob)[r]
          && (r == OPEN_RING_NAME || LiveMember(w.registry, r, peer, now))
  {
    var w' := Final(self, w, RingRemove(ring, peer), now);
    assert ResourceRings(w'.registry, blob) == ResourceRings(w.registry, blob);
    assert forall r :: r != ring ==> (LiveMember(w'.registry, r, peer, now) <==> LiveMember(w.registry, r, peer, now));
    assert !LiveMember(w'.registry, ring, peer, now);
  }

  // The address book

  lemma PeerAdded(self: PeerId, w: World, peer: PeerId, nickname: Option<Bytes>, now: Time)
    ensures var w' := Final(self, w, PeerAdd(peer, nickname), now);
      && w'.registry == w.registry && w'.grants == w.grants && w'.tags == w.tags
      && (forall p :: p in w'.peers <==> p in w.peers || p == peer)
      && (forall p :: p in w.peers && p != peer ==> w'.peers[p] == w.peers[p])
      && LookUp(w'.peers, peer) == (
        if nickname.Some? then Some(if nickname.value == [] then None else nickname)
        else if peer in w.peers then LookUp(w.peers, peer)
        else Some(None))
  {
  }

  /** A known peer is gone from every named ring, from the grants and from the
      address book, now and later; an unknown one changes nothing. */
  lemma PeerRemovedEverywhere(self: PeerId, w: World, peer: PeerId, now: Time, t: Time)
    requires now <= t
    ensures var w' := Final(self, w, PeerRemove(peer), now);
      if peer !in w.peers then w' == w
      else
        && peer !in w'.peers
        && (forall r :: r != OPEN_RING_NAME ==> !LiveMember(w'.registry, r, peer, t))
        && (forall pair :: pair in w'.grants <==> pair in w.grants && pair.1 != peer)
        && w'.registry.attached == w.registry.attached && w'.tags == w.tags
        && w'.registry.rings.Keys == w.registry.rings.Keys
        && (forall r, p :: r in w.registry.rings && p != peer ==>
          && (p in w'.registry.rings[r] <==> p in w.registry.rings[r])
          && (p in w.registry.rings[r] ==> w'.registry.rings[r][p] == w.registry.rings[r][p]))
        && (forall p :: p != peer ==>
          && (p in w'.peers <==> p in w.peers) && (p in w.peers ==> w'.peers[p] == w.peers[p]))
  {
  }

  // Blobs

  /** `k` rings are known, up to the first unknown one or to the end. */
  predicate KnownUpTo(w: World, rings: seq<RingName>, k: nat) {
    && k <= |rings|
    && (forall i :: 0 <= i < k ==> rings[i] in w.registry.rings)
    && (k < |rings| ==> rings[k] !in w.registry.rings)
  }

  /** The blob is attached to each of the first `k` rings with exactly Read; its
      other associations are as before. */
  ghost predicate AttachedUpTo(w: World, w': World, hash: Hash, rings: seq<RingName>, k: nat)
    requires k <= |rings|
  {
    var before, after := ResourceRings(w.registry, hash), ResourceRings(w'.registry, hash);
    && (forall r :: r in after <==> r in before || r in rings[..k])
    && (forall r :: r in rings[..k] ==> after[r] == {Read})
    && (forall r :: r in before && r !in rings[..k] ==> after[r] == before[r])
  }

  lemma {:induction false} AttachAllExactly(w: World, hash: Hash, rings: seq<RingName>, k: nat)
    requires KnownUpTo(w, rings, k)
    ensures var w' := AttachAll(w, hash, rings);
      AttachedUpTo(w, w', hash, rings, k) && OnlyAssociationsDiffer(w, w', hash)
    decreases |rings|
  {
    if k > 0 {
      var once := PutAssociation(w, hash, rings[0], {Read});
      assert rings[..k] == [rings[0]] + rings[1..][..k - 1];
      FirstAttached(w, hash, rings[0]);
      AttachAllExactly(once, hash, rings[1..], k - 1);
    }
  }

  lemma FirstAttached(w: World, hash: Hash, ring: RingName)
    ensures var w' := PutAssociation(w, hash, ring, {Read});
      && ResourceRings(w'.registry, hash) == ResourceRings(w.registry, hash)[ring := {Read}]
      && OnlyAssociationsDiffer(w, w', hash)
  {
  }

  /** The rings an attach works through: those named, then the open one. */
  lemma BlobAttached(
    self: PeerId, w: World, hash: Hash, rings: seq<RingName>, open: bool, k: nat, now: Time)
    requires KnownUpTo(w, rings + (if open then ["open"] else []), k)
    ensures var w' := Final(self, w, BlobAttach(hash, rings, open), now);
      && AttachedUpTo(w, w', hash, rings + (if open then ["open"] else []), k)
      && OnlyAssociationsDiffer(w, w', hash)
  {
    AttachAllExactly(w, hash, rings + (if open then ["open"] else []), k);
  }

  /** An import names the blob; `--open` attaches the open ring only. */
  lemma BlobImported(
    self: PeerId, w: World, tag: Bytes, hash: Hash, rings: seq<RingName>, open: bool, k: nat, now: Time)
    requires KnownUpTo(w, if open then ["open"] else rings, k)
    ensures var w' := Final(self, w, Import(tag, hash, rings, open), now);
      && AttachedUpTo(w, w', hash, if open then ["open"] else rings, k)
      && w'.registry.rings == w.registry.rings && w'.grants == w.grants && w'.peers == w.peers
      && (forall h :: h != hash ==> ResourceRings(w'.registry, h) == ResourceRings(w.registry, h))
      && tag in w'.tags && w'.tags[tag] == hash
      && (forall name :: name != tag ==> (name in w'.tags <==> name in w.tags))
      && (forall name :: name in w.tags && name != tag ==> w'.tags[name] == w.tags[name])
  {
    hide AttachAll, ResourceRings;
    AttachAllExactly(w.(tags := w.tags[tag := hash]), hash, if open then ["open"] else rings, k);
  }

  /** Detaching from all rings leaves no association of the blob; detaching from
      some leaves the others, with their permissions. Nothing else changes. */
  lemma BlobDetached(
    self: PeerId, w: World, hash: Hash, rings: seq<RingName>, open: bool, all: bool, now: Time)
    ensures var w' := Final(self, w, BlobDetach(hash, rings, open, all), now);
      var before, after := ResourceRings(w.registry, hash), ResourceRings(w'.registry, hash);
      && OnlyAssociationsDiffer(w, w', hash)
      && (all ==> after == map[])
      && (!all ==> forall r :: r in after <==> r in before && (if open then r != "open" else r !in rings))
      && (!all ==> forall r :: r in after ==> after[r] == before[r])
  {
    hide LiveMember, IsLive, AttachAll, PeerRemoved, AddMember, EnsurePeer, Untagged;
  }

  /** A removed blob is attached nowhere and no tag names it; other blobs keep
      associations and tags. */
  lemma BlobRemovedExactly(self: PeerId, w: World, hash: Hash, now: Time)
    ensures var w' := Final(self, w, BlobRemove(hash), now);
      && ResourceRings(w'.registry, hash) == map[]
      && (forall h :: h != hash ==> ResourceRings(w'.registry, h) == ResourceRings(w.registry, h))
      && (forall name :: name in w'.tags <==> name in w.tags && w.tags[name] != hash)
      && (forall name :: name in w'.tags ==> w'.tags[name] == w.tags[name])
      && w'.registry.rings == w.registry.rings && w'.grants == w.grants && w'.peers == w.peers
  {
  }

  // Grants

  lemma GrantedExactly(self: PeerId, w: World, pair: Pair, now: Time)
    ensures var granted, revoked := Final(self, w, GrantTo(pair), now), Final(self, w, RevokeFrom(pair), now);
      && (forall p :: p in granted.grants <==> p in w.grants || p == pair)
      && (forall p :: p in revoked.grants <==> p in w.grants && p != pair)
      && granted.registry == revoked.registry == w.registry
      && granted.peers == revoked.peers == w.peers && granted.tags == revoked.tags == w.tags
  {
  }
}
