/** The handlers behind the operations, write by write: what they leave when
    they complete, and what a reader or a restart can see in between. */
module StoreHandlers {
  import opened Common
  import opened Rings
  import opened Grants
  import opened Stores

  /** `w` differs from `from` in the associations of `hash` only, and has no
      association and no permission there that `from` did not have. */
  ghost predicate Narrowed(from: World, w: World, hash: Hash) {
    var m := ResourceRings(w.registry, hash);
    && w == WithAssociations(from, hash, m)
    && m.Keys <= ResourceRings(from.registry, hash).Keys
    && forall r :: r in m ==> m[r] == ResourceRings(from.registry, hash)[r]
  }

  /** A peer removal that has not reached the address book yet. */
  ghost predicate RemovalInProgress(from: World, w: World, peer: PeerId, now: Time) {
    && w.peers == from.peers && w.tags == from.tags && w.registry.attached == from.registry.attached
    && w.registry.rings.Keys == from.registry.rings.Keys
    && (forall r :: r in from.registry.rings ==>
      || w.registry.rings[r] == from.registry.rings[r]
      || w.registry.rings[r] == WithoutPeer(from.registry.rings, peer, now)[r])
    && (w.grants == from.grants || w.grants == from.grants - {(BlobList, peer)})
  }

  /** The associations of the blob are gone, and some of its tags. */
  ghost predicate BlobRemovalInProgress(from: World, w: World, hash: Hash) {
    w == WithAssociations(from, hash, map[]).(tags := w.tags) && SomeTagsDeleted(from.tags, w.tags, hash)
  }

  class Node {
    const self: PeerId
    var world: World
    /** Every state the stores have been in. */
    ghost var log: seq<World>

    constructor (self: PeerId, world: World)
      ensures this.self == self && this.world == world && log == []
    {
      this.self, this.world, this.log := self, world, [];
    }

    /** One durable write. */
    method Commit(next: World)
      modifies this
      ensures world == next && log == old(log) + [next]
    {
      world, log := next, log + [next];
    }

    method AddRingToResource(hash: Hash, ring: RingName, perms: set<Permission>) returns (r: Result<(), OpError>)
      modifies this
      ensures ring in old(world).registry.rings ==>
        r.Ok? && world == PutAssociation(old(world), hash, ring, perms) && log == old(log) + [world]
        && world.registry.rings == old(world).registry.rings
      ensures ring !in old(world).registry.rings ==>
        r == Err(UnknownRing) && world == old(world) && log == old(log)
    {
      if ring !in world.registry.rings {
        return Err(UnknownRing);
      }
      Commit(PutAssociation(world, hash, ring, perms));
      return Ok(());
    }

    method EnsureInBook(peer: PeerId)
      modifies this
      ensures world == EnsurePeer(old(world), peer)
      ensures log == old(log) + (if peer in old(world).peers then [] else [world])
    {
      if peer !in world.peers {
        Commit(world.(peers := world.peers[peer := []]));
      }
    }

    /** Registry first, address book second. */
    method HandleRingAdd(ring: RingName, peer: PeerId, expiresAt: Option<Time>, now: Time) returns (r: Result<(), OpError>)
      modifies this
      ensures world == Final(self, old(world), RingAdd(ring, peer, expiresAt), now)
      ensures r.Ok? <==>
        (ring == OPEN_RING_NAME || (peer != self && IsLive(expiresAt, now) && ring in old(world).registry.rings))
      ensures r.Err? || ring == OPEN_RING_NAME ==> log == old(log)
      ensures r.Ok? && ring != OPEN_RING_NAME ==>
        log == old(log) + [AddMember(old(world), ring, peer, expiresAt, now)]
          + (if peer in old(world).peers then [] else [world])
    {
      if ring == OPEN_RING_NAME {
        return Ok(());
      }
      if peer == self {
        return Err(SelfInRing);
      }
      if expiresAt.Some? && expiresAt.value <= now {
        return Err(PastExpiry);
      }
      if ring !in world.registry.rings {
        return Err(UnknownRing);
      }
      Commit(AddMember(world, ring, peer, expiresAt, now));
      EnsureInBook(peer);
      return Ok(());
    }

    method HandlePeerRemove(peer: PeerId, now: Time) returns (r: Result<(), OpError>)
      modifies this
      ensures world == Final(self, old(world), PeerRemove(peer), now)
      ensures r.Ok? <==> peer in old(world).peers
      ensures r.Err? ==> log == old(log)
      ensures r.Ok? ==> |log| > |old(log)| && log[|log| - 1] == world
      ensures forall i :: |old(log)| <= i < |log| - 1 ==> RemovalInProgress(old(world), log[i], peer, now)
    {
      if peer !in world.peers {
        return Err(UnknownPeer);
      }
      DropFromRings(peer, now);
      label revoking:
      var privileges := [BlobList];
      for k := 0 to |privileges|
        invariant k == 0 ==> world == old@revoking(world) && log == old@revoking(log)
        invariant k > 0 ==> world == old@revoking(world).(grants := old@revoking(world).grants - {(BlobList, peer)})
        invariant |log| >= |old@revoking(log)| && log[..|old@revoking(log)|] == old@revoking(log)
        invariant forall i :: |old@revoking(log)| <= i < |log| ==> log[i] == world
      {
        if (privileges[k], peer) in world.grants {
          Commit(world.(grants := world.grants - {(privileges[k], peer)}));
        }
      }
      RevokingAllIsRevokingBlobList(world, old(world), peer);
      Commit(world.(peers := world.peers - {peer}));
      return Ok(());
    }

    /** Takes a live peer out of every named ring, in listing order. */
    method DropFromRings(peer: PeerId, now: Time)
      modifies this
      ensures world == WithRings(old(world), WithoutPeer(old(world).registry.rings, peer, now))
      ensures |log| >= |old(log)| && log[..|old(log)|] == old(log)
      ensures forall i :: |old(log)| <= i < |log| ==> RemovalInProgress(old(world), log[i], peer, now)
    {
      hide PartlyRemoved, RemovalInProgress, WithoutPeer, WithRings;
      ghost var w := world;
      NoneOrAllRemoved(w, peer, now);
      var names := ListKeys(world.registry.rings);
      ghost var done: set<RingName> := {};
      for i := 0 to |names|
        invariant done <= w.registry.rings.Keys && forall k :: 0 <= k < |names| ==> (names[k] in done <==> k < i)
        invariant world == PartlyRemoved(w, peer, now, done)
        invariant |log| >= |old(log)| && log[..|old(log)|] == old(log)
        invariant forall k :: |old(log)| <= k < |log| ==> RemovalInProgress(w, log[k], peer, now)
      {
        DropFromOne(names[i], peer, now, w, done);
        done := done + {names[i]};
      }
      assert done == w.registry.rings.Keys;
    }

    method DropFromOne(ring: RingName, peer: PeerId, now: Time, ghost w: World, ghost done: set<RingName>)
      requires ring in w.registry.rings && ring !in done
      requires world == PartlyRemoved(w, peer, now, done)
      modifies this
      ensures world == PartlyRemoved(w, peer, now, done + {ring})
      ensures RemovalInProgress(w, world, peer, now)
      ensures log == old(log) || log == old(log) + [world]
    {
      OneMoreRing(w, peer, now, done, ring);
      if ring != OPEN_RING_NAME && LiveMember(world.registry, ring, peer, now) {
        Commit(DropMember(world, ring, peer));
      }
    }

    /** Read, clear, write back. */
    method HandleDetach(hash: Hash, rings: seq<RingName>, open: bool, all: bool) returns (r: Result<(), OpError>)
      modifies this
      ensures forall i :: |old(log)| <= i < |log| ==> Narrowed(old(world), log[i], hash)
      ensures r.Ok? ==> world == Final(self, old(world), BlobDetach(hash, rings, open, all), 0)
      ensures ResourceRings(old(world).registry, hash).Keys <= old(world).registry.rings.Keys ==>
        && world == Final(self, old(world), BlobDetach(hash, rings, open, all), 0)
        && (r.Ok? <==> all || !(RemovalSet(rings, open) !! ResourceRings(old(world).registry, hash).Keys))
    {
      if all {
        Commit(WithAssociations(world, hash, map[]));
        return Ok(());
      }
      var removed := RemovalSet(rings, open);
      var current := ResourceRings(world.registry, hash);
      if removed !! current.Keys {
        return Err(NotAttached);
      }
      var remaining := current - removed;
      r := Rewrite(hash, remaining);
    }

    /** Replaces the associations of a blob by some of its present ones. */
    method Rewrite(hash: Hash, remaining: Associations) returns (r: Result<(), OpError>)
      requires remaining.Keys <= ResourceRings(world.registry, hash).Keys
      requires forall k :: k in remaining ==> remaining[k] == ResourceRings(world.registry, hash)[k]
      modifies this
      ensures forall i :: |old(log)| <= i < |log| ==> Narrowed(old(world), log[i], hash)
      ensures r.Ok? ==> world == WithAssociations(old(world), hash, remaining)
      ensures remaining.Keys <= old(world).registry.rings.Keys ==> r.Ok?
    {
      ghost var w := world;
      var names := ListKeys(remaining);
      ghost var done: Associations := map[];
      KeepingSomeNarrows(w, hash, remaining, done);
      Commit(WithAssociations(world, hash, map[]));
      for i := 0 to |names|
        invariant done.Keys <= remaining.Keys && forall k :: 0 <= k < |names| ==> (names[k] in done <==> k < i)
        invariant forall k :: k in done ==> done[k] == remaining[k]
        invariant world == WithAssociations(w, hash, done)
        invariant forall k :: |old(log)| <= k < |log| ==> Narrowed(w, log[k], hash)
      {
        hide WithAssociations, PutAssociation, Narrowed;
        PutOnto(w, hash, done, names[i], remaining[names[i]]);
        r := AddRingToResource(hash, names[i], remaining[names[i]]);
        if r.Err? {
          return;
        }
        done := done[names[i] := remaining[names[i]]];
        KeepingSomeNarrows(w, hash, remaining, done);
      }
      assert done == remaining;
      return Ok(());
    }

    method HandleRingNew(ring: RingName) returns (r: Result<(), OpError>)
      modifies this
      ensures world == Final(self, old(world), RingNew(ring), 0)
      ensures r.Ok? <==> ring !in old(world).registry.rings
      ensures log == old(log) + (if r.Ok? then [world] else [])
    {
      if ring in world.registry.rings {
        return Err(RingExists);
      }
      var rings := world.registry.rings;
      Commit(WithRings(world, rings[ring := map[]]));
      return Ok(());
    }

    method HandleRingRemove(ring: RingName, peer: PeerId, now: Time) returns (r: Result<(), OpError>)
      modifies this
      ensures world == Final(self, old(world), RingRemove(ring, peer), now)
      ensures r.Ok? <==> ring == OPEN_RING_NAME || LiveMember(old(world).registry, ring, peer, now)
    {
      if ring == OPEN_RING_NAME {
        return Ok(());
      }
      if ring !in world.registry.rings {
        return Err(UnknownRing);
      }
      if !LiveMember(world.registry, ring, peer, now) {
        return Err(NotAMember);
      }
      Commit(DropMember(world, ring, peer));
      return Ok(());
    }

    method HandlePeerAdd(peer: PeerId, nickname: Option<Bytes>)
      modifies this
      ensures world == Final(self, old(world), PeerAdd(peer, nickname), 0)
    {
      if nickname.Some? {
        Commit(world.(peers := world.peers[peer := nickname.value]));
      } else {
        EnsureInBook(peer);
      }
    }

    /** The tag first, then the rings; here `--open` replaces the named rings. */
    method HandleImport(tag: Bytes, hash: Hash, rings: seq<RingName>, open: bool) returns (r: Result<(), OpError>)
      modifies this
      ensures world == Final(self, old(world), Import(tag, hash, rings, open), 0)
      ensures r.Ok? <==> AllKnown(old(world), if open then [OPEN_RING_NAME] else rings)
    {
      Commit(world.(tags := world.tags[tag := hash]));
      r := AttachInOrder(hash, if open then [OPEN_RING_NAME] else rings);
    }

    /** `blob remove`: the associations first, then every tag of the blob; an
        error if there is no tag. */
    method HandleBlobRemove(hash: Hash) returns (r: Result<(), OpError>)
      modifies this
      ensures world == Final(self, old(world), BlobRemove(hash), 0)
      ensures r.Ok? <==> hash in old(world).tags.Values
      ensures forall i :: |old(log)| <= i < |log| ==> BlobRemovalInProgress(old(world), log[i], hash)
    {
      Commit(WithAssociations(world, hash, map[]));
      r := DeleteBlob(hash);
    }

    /** Collects the tags of the blob, then deletes them one by one. */
    method DeleteBlob(hash: Hash) returns (r: Result<(), OpError>)
      modifies this
      ensures world == old(world).(tags := Untagged(old(world).tags, hash))
      ensures r.Ok? <==> hash in old(world).tags.Values
      ensures |log| >= |old(log)| && log[..|old(log)|] == old(log)
      ensures forall i :: |old(log)| <= i < |log| ==>
        SomeTagsDeleted(old(world).tags, log[i].tags, hash) && log[i] == old(world).(tags := log[i].tags)
    {
      ghost var tags := world.tags;
      var doomed := set name | name in world.tags && world.tags[name] == hash;
      if doomed == {} {
        assert forall name :: name in tags && tags[name] == hash ==> name in doomed;
        assert Untagged(tags, hash) == tags;
        return Err(NoTag);
      }
      while doomed != {}
        invariant doomed <= world.tags.Keys && world == old(world).(tags := world.tags)
        invariant world.tags - doomed == Untagged(tags, hash) && world.tags.Keys <= tags.Keys
        invariant forall name :: name in world.tags ==> world.tags[name] == tags[name]
        invariant |log| >= |old(log)| && log[..|old(log)|] == old(log)
        invariant forall i :: |old(log)| <= i < |log| ==>
          SomeTagsDeleted(tags, log[i].tags, hash) && log[i] == old(world).(tags := log[i].tags)
        decreases doomed
      {
        var name :| name in doomed;
        FewerTags(tags, world.tags, doomed, name, hash);
        Commit(world.(tags := world.tags - {name}));
        doomed := doomed - {name};
      }
      assert world.tags - {} == world.tags;
      return Ok(());
    }

    /** `blob attach`: here `--open` adds to the named rings. */
    method HandleAttach(hash: Hash, rings: seq<RingName>, open: bool) returns (r: Result<(), OpError>)
      modifies this
      ensures world == Final(self, old(world), BlobAttach(hash, rings, open), 0)
      ensures r.Ok? <==> (rings != [] || open) && AllKnown(old(world), rings + (if open then [OPEN_RING_NAME] else []))
    {
      if rings == [] && !open {
        return Err(NothingToAttach);
      }
      var wanted := rings + (if open then [OPEN_RING_NAME] else []);
      r := AttachInOrder(hash, wanted);
    }

    method AttachInOrder(hash: Hash, rings: seq<RingName>) returns (r: Result<(), OpError>)
      modifies this
      ensures world == AttachAll(old(world), hash, rings)
      ensures r.Ok? <==> AllKnown(old(world), rings)
    {
      hide PutAssociation;
      for i := 0 to |rings|
        invariant world.registry.rings == old(world).registry.rings && AllKnown(old(world), rings[..i])
        invariant AttachAll(old(world), hash, rings) == AttachAll(world, hash, rings[i..])
      {
        assert rings[i..][0] == rings[i] && rings[i..][1..] == rings[i + 1..];
        assert rings[..i + 1] == rings[..i] + [rings[i]];
        r := AddRingToResource(hash, rings[i], {Read});
        if r.Err? {
          return;
        }
      }
      assert rings[..|rings|] == rings;
      return Ok(());
    }
  }

  ghost predicate SomeTagsDeleted(from: map<Bytes, Hash>, tags: map<Bytes, Hash>, hash: Hash) {
    && (forall name :: name in tags ==> name in from && tags[name] == from[name])
    && (forall name :: name in from && from[name] != hash ==> name in tags)
  }

  lemma FewerTags(from: map<Bytes, Hash>, tags: map<Bytes, Hash>, doomed: set<Bytes>, name: Bytes, hash: Hash)
    requires name in doomed && doomed <= tags.Keys && tags - doomed == Untagged(from, hash)
    requires forall t :: t in tags ==> t in from && tags[t] == from[t]
    ensures (tags - {name}) - (doomed - {name}) == Untagged(from, hash)
    ensures SomeTagsDeleted(from, tags - {name}, hash)
  {
    assert (tags - {name}) - (doomed - {name}) == tags - doomed;
    forall t | t in from && from[t] != hash ensures t in tags - {name} {
      assert t in Untagged(from, hash);
      assert t in tags - doomed;
    }
  }

  /** The rings in `done` have let the peer go, the others not yet. */
  ghost function PartlyRemoved(w: World, peer: PeerId, now: Time, done: set<RingName>): World {
    var rings := w.registry.rings;
    WithRings(w, map r | r in rings :: if r in done then WithoutPeer(rings, peer, now)[r] else rings[r])
  }

  lemma NoneOrAllRemoved(w: World, peer: PeerId, now: Time)
    ensures PartlyRemoved(w, peer, now, {}) == w
    ensures PartlyRemoved(w, peer, now, w.registry.rings.Keys)
      == WithRings(w, WithoutPeer(w.registry.rings, peer, now))
  {
    assert PartlyRemoved(w, peer, now, {}).registry.rings == w.registry.rings;
    assert PartlyRemoved(w, peer, now, w.registry.rings.Keys).registry.rings == WithoutPeer(w.registry.rings, peer, now);
  }

  lemma OneMoreRing(w: World, peer: PeerId, now: Time, done: set<RingName>, ring: RingName)
    requires ring in w.registry.rings && ring !in done
    ensures var before := PartlyRemoved(w, peer, now, done);
      var after := PartlyRemoved(w, peer, now, done + {ring});
      && before.registry.rings.Keys == w.registry.rings.Keys
      && RemovalInProgress(w, after, peer, now)
      && after == if ring != OPEN_RING_NAME && LiveMember(before.registry, ring, peer, now)
        then DropMember(before, ring, peer) else before
  {
    var before, after := PartlyRemoved(w, peer, now, done), PartlyRemoved(w, peer, now, done + {ring});
    assert after.registry.rings == before.registry.rings[ring := WithoutPeer(w.registry.rings, peer, now)[ring]];
  }

  lemma KeepingSomeNarrows(w: World, hash: Hash, remaining: Associations, kept: Associations)
    requires remaining.Keys <= ResourceRings(w.registry, hash).Keys && kept.Keys <= remaining.Keys
    requires forall k :: k in remaining ==> remaining[k] == ResourceRings(w.registry, hash)[k]
    requires forall k :: k in kept ==> kept[k] == remaining[k]
    ensures Narrowed(w, WithAssociations(w, hash, kept), hash)
    ensures WithAssociations(w, hash, kept).registry.rings == w.registry.rings
  {
    assert ResourceRings(WithAssociations(w, hash, kept).registry, hash) == kept;
  }

  lemma PutOnto(w: World, hash: Hash, m: Associations, ring: RingName, perms: set<Permission>)
    ensures PutAssociation(WithAssociations(w, hash, m), hash, ring, perms)
      == WithAssociations(w, hash, m[ring := perms])
    ensures WithAssociations(w, hash, m).registry.rings == w.registry.rings
  {
    var once := WithAssociations(w, hash, m);
    assert ResourceRings(once.registry, hash) == m;
    assert once.registry.attached[hash := m[ring := perms]] == w.registry.attached[hash := m[ring := perms]];
  }

  lemma RevokingAllIsRevokingBlobList(w: World, from: World, peer: PeerId)
    requires w.grants == from.grants - {(BlobList, peer)}
    ensures w.grants == set p | p in from.grants && p.1 != peer
  {
    forall p | p in from.grants && p.1 == peer ensures p == (BlobList, peer) {
      assert p.0 == BlobList;
    }
  }
}
