/** The two listings of a node's blobs: the local one, filtered after the fact
    through a set of rings, and the remote catalog, filtered blob by blob. */
module Listing {
  import opened Common
  import opened Rings
  import opened Tickets
  import opened CatalogCodec

  /** A named tag of the blob store; `name` is its text, decoded lossily. */
  datatype Tag = Tag(hash: Hash, format: BlobFormat, name: Bytes)

  /** Sizes of the complete blobs, and the collections that can be loaded. */
  datatype BlobStore = BlobStore(sizes: map<Hash, U64>, collections: map<Hash, seq<(Bytes, Hash)>>)

  datatype BlobListEntry = BlobListEntry(
    hash: Hash, format: BlobFormat, name: Bytes, fileCount: Option<nat>, totalSize: Option<U64>)

  /** A node at one instant. */
  datatype NodeView = NodeView(tags: seq<Tag>, store: BlobStore, registry: Registry, now: Time, addr: Bytes)

  // Sizes

  predicate AllComplete(store: BlobStore, files: seq<(Bytes, Hash)>) {
    forall i :: 0 <= i < |files| ==> files[i].1 in store.sizes
  }

  function SumOfSizes(store: BlobStore, files: seq<(Bytes, Hash)>): nat
    requires AllComplete(store, files)
  {
    if files == [] then 0
    else SumOfSizes(store, files[..|files| - 1]) + store.sizes[files[|files| - 1].1]
  }

  /** The size is known exactly when every file is complete, and then it is
      their sum as a wrapping 64-bit integer. */
  ghost predicate IsTotal(store: BlobStore, files: seq<(Bytes, Hash)>, size: Option<U64>) {
    match size
    case Some(v) => AllComplete(store, files) && v == SumOfSizes(store, files) % (U64_MAX + 1)
    case None => !AllComplete(store, files)
  }

  lemma OneMoreSize(store: BlobStore, files: seq<(Bytes, Hash)>, i: nat)
    requires i < |files| && AllComplete(store, files[..i]) && files[i].1 in store.sizes
    ensures AllComplete(store, files[..i + 1])
    ensures SumOfSizes(store, files[..i + 1]) == SumOfSizes(store, files[..i]) + store.sizes[files[i].1]
  {
    assert files[..i + 1][..i] == files[..i];
  }

  lemma WrapsTheSame(a: nat, b: nat)
    ensures (a % (U64_MAX + 1) + b) % (U64_MAX + 1) == (a + b) % (U64_MAX + 1)
  {
  }

  method MeasureCollection(store: BlobStore, files: seq<(Bytes, Hash)>) returns (size: Option<U64>)
    ensures IsTotal(store, files, size)
  {
    var sum: U64, complete := 0, true;
    var i := 0;
    while i < |files|
      invariant 0 <= i <= |files|
      invariant AllComplete(store, files[..i])
      invariant sum == SumOfSizes(store, files[..i]) % (U64_MAX + 1)
    {
      if files[i].1 !in store.sizes {
        complete := false;
        break;
      }
      OneMoreSize(store, files, i);
      WrapsTheSame(SumOfSizes(store, files[..i]), store.sizes[files[i].1]);
      sum := (sum + store.sizes[files[i].1]) % (U64_MAX + 1);
      i := i + 1;
    }
    if complete {
      assert files[..i] == files;
      size := Some(sum);
    } else {
      size := None;
    }
  }

  /** File count and size as every listing reports them. */
  ghost predicate IsMeasured(store: BlobStore, e: BlobListEntry) {
    match e.format
    case Raw => e.fileCount == None && e.totalSize == (if e.hash in store.sizes then Some(store.sizes[e.hash]) else None)
    case HashSeq =>
      if e.hash in store.collections then
        e.fileCount == Some(|store.collections[e.hash]|) && IsTotal(store, store.collections[e.hash], e.totalSize)
      else e.fileCount == None && e.totalSize == None
  }

  lemma MeasuredIsUnique(store: BlobStore, a: BlobListEntry, b: BlobListEntry)
    requires IsMeasured(store, a) && IsMeasured(store, b)
    requires a.hash == b.hash && a.format == b.format && a.name == b.name
    ensures a == b
  {
  }

  method Measure(store: BlobStore, tag: Tag) returns (e: BlobListEntry)
    ensures IsMeasured(store, e) && e.hash == tag.hash && e.format == tag.format && e.name == tag.name
  {
    match tag.format {
      case Raw =>
        var size := if tag.hash in store.sizes then Some(store.sizes[tag.hash]) else None;
        e := BlobListEntry(tag.hash, tag.format, tag.name, None, size);
      case HashSeq =>
        if tag.hash in store.collections {
          var files := store.collections[tag.hash];
          var size := MeasureCollection(store, files);
          e := BlobListEntry(tag.hash, tag.format, tag.name, Some(|files|), size);
        } else {
          e := BlobListEntry(tag.hash, tag.format, tag.name, None, None);
        }
    }
  }

  // What a listing must be

  /** Some attached ring is named in `rings`. */
  ghost predicate InSomeRing(reg: Registry, hash: Hash, rings: set<RingName>) {
    exists ring :: ring in ResourceRings(reg, hash) && ring in rings
  }

  ghost predicate Shown(v: NodeView, tag: Tag, peer: Option<PeerId>, rings: Option<set<RingName>>) {
    && (rings.Some? ==> InSomeRing(v.registry, tag.hash, rings.value))
    && (peer.Some? ==> HasPermission(v.registry, peer.value, tag.hash, Read, v.now))
  }

  ghost function ShownTags(v: NodeView, tags: seq<Tag>, peer: Option<PeerId>, rings: Option<set<RingName>>): seq<Tag> {
    if tags == [] then []
    else
      var last := tags[|tags| - 1];
      ShownTags(v, tags[..|tags| - 1], peer, rings) + (if Shown(v, last, peer, rings) then [last] else [])
  }

  /** `tags[k]` is to be shown: a ring it is attached to is asked for, if rings
      were given, and the peer may read it, if a peer was. */
  ghost predicate IsWanted(v: NodeView, tags: seq<Tag>, k: nat, peer: Option<PeerId>, rings: Option<set<RingName>>) {
    && k < |tags|
    && (rings.Some? ==> exists r :: r in ResourceRings(v.registry, tags[k].hash) && r in rings.value)
    && (peer.Some? ==> HasPermission(v.registry, peer.value, tags[k].hash, Read, v.now))
  }

  /** The shown tags are those at `at`, in the order of the tags, and `at` are
      exactly the positions of wanted tags. */
  lemma {:induction false} ShownTagsAreTheWanted(
    v: NodeView, tags: seq<Tag>, peer: Option<PeerId>, rings: Option<set<RingName>>) returns (at: seq<nat>)
    ensures |at| == |ShownTags(v, tags, peer, rings)|
    ensures forall j :: 0 <= j < |at| ==> at[j] < |tags| && ShownTags(v, tags, peer, rings)[j] == tags[at[j]]
    ensures forall i, j :: 0 <= i < j < |at| ==> at[i] < at[j]
    ensures forall k: nat :: k in at <==> IsWanted(v, tags, k, peer, rings)
  {
    hide HasPermission;
    at := [];
    if tags != [] {
      var n := |tags| - 1;
      at := ShownTagsAreTheWanted(v, tags[..n], peer, rings);
      assert forall k: nat :: k < n ==> (IsWanted(v, tags, k, peer, rings) <==> IsWanted(v, tags[..n], k, peer, rings));
      assert IsWanted(v, tags, n, peer, rings) <==> Shown(v, tags[n], peer, rings);
      if Shown(v, tags[n], peer, rings) {
        at := at + [n];
      }
    }
  }

  /** `blobs` reports exactly `tags`, in order, with the right measures. */
  ghost predicate Reports(v: NodeView, tags: seq<Tag>, blobs: seq<BlobListEntry>) {
    && |blobs| == |tags|
    && forall i :: 0 <= i < |tags| ==>
      && IsMeasured(v.store, blobs[i])
      && blobs[i].hash == tags[i].hash && blobs[i].format == tags[i].format && blobs[i].name == tags[i].name
  }

  // The local listing

  /** Rings whose blobs the peer may use: its own and the open one. */
  method PeerRingSet(reg: Registry, peer: PeerId, now: Time) returns (names: set<RingName>)
    ensures forall r :: r in names <==> r == OPEN_RING_NAME || LiveMember(reg, r, peer, now)
  {
    var all := ListKeys(reg.rings);
    names := {};
    for i := 0 to |all|
      invariant forall r :: r in names <==> r in all[..i] && r != OPEN_RING_NAME && LiveMember(reg, r, peer, now)
    {
      if all[i] != OPEN_RING_NAME && LiveMember(reg, all[i], peer, now) {
        names := names + {all[i]};
      }
    }
    assert all[..|all|] == all;
    names := names + {OPEN_RING_NAME};
  }

  predicate RetainedByRings(reg: Registry, hash: Hash, rings: set<RingName>) {
    exists ring <- ResourceRings(reg, hash) :: ring in rings
  }

  predicate RetainedByPeer(reg: Registry, hash: Hash, peerRings: set<RingName>) {
    exists ring <- ResourceRings(reg, hash) :: ring in peerRings && Read in ResourceRings(reg, hash)[ring]
  }

  /** Filtering by the peer's ring set is the registry's own permission check. */
  lemma RingSetAgreesWithPermission(reg: Registry, peer: PeerId, hash: Hash, now: Time, names: set<RingName>)
    requires forall r :: r in names <==> r == OPEN_RING_NAME || LiveMember(reg, r, peer, now)
    ensures RetainedByPeer(reg, hash, names) <==> HasPermission(reg, peer, hash, Read, now)
  {
    if HasPermission(reg, peer, hash, Read, now) {
      var ring :| ring in ResourceRings(reg, hash) && Read in ResourceRings(reg, hash)[ring]
        && (ring == OPEN_RING_NAME || LiveMember(reg, ring, peer, now));
      assert ring in names;
    }
  }

  /** The two filters of the listing keep a tag exactly when it is to be shown. */
  lemma FiltersShow(
    v: NodeView, tag: Tag, peer: Option<PeerId>, rings: Option<set<RingName>>, peerRings: Option<set<RingName>>)
    requires peerRings.Some? <==> peer.Some?
    requires peer.Some? ==>
      (RetainedByPeer(v.registry, tag.hash, peerRings.value) <==> HasPermission(v.registry, peer.value, tag.hash, Read, v.now))
    ensures Shown(v, tag, peer, rings) <==>
      && (rings.Some? ==> RetainedByRings(v.registry, tag.hash, rings.value))
      && (peerRings.Some? ==> RetainedByPeer(v.registry, tag.hash, peerRings.value))
  {
  }

  method ListBlobs(v: NodeView, peer: Option<PeerId>, rings: Option<set<RingName>>) returns (blobs: seq<BlobListEntry>)
    ensures Reports(v, ShownTags(v, v.tags, peer, rings), blobs)
  {
    hide Shown, IsMeasured, HasPermission, LiveMember;
    var peerRings: Option<set<RingName>> := None;
    if peer.Some? {
      var names := PeerRingSet(v.registry, peer.value, v.now);
      peerRings := Some(names);
    }
    var raw: seq<Tag> := [];
    for i := 0 to |v.tags|
      invariant raw == ShownTags(v, v.tags[..i], peer, rings)
    {
      var tag := v.tags[i];
      assert v.tags[..i + 1][..i] == v.tags[..i];
      if peer.Some? {
        RingSetAgreesWithPermission(v.registry, peer.value, tag.hash, v.now, peerRings.value);
      }
      FiltersShow(v, tag, peer, rings, peerRings);
      if (rings.Some? ==> RetainedByRings(v.registry, tag.hash, rings.value))
        && (peerRings.Some? ==> RetainedByPeer(v.registry, tag.hash, peerRings.value)) {
        raw := raw + [tag];
      }
    }
    assert v.tags[..|v.tags|] == v.tags;
    blobs := [];
    for i := 0 to |raw|
      invariant Reports(v, raw[..i], blobs)
    {
      var e := Measure(v.store, raw[i]);
      blobs := blobs + [e];
    }
    assert raw[..|raw|] == raw;
  }

  // The remote catalog

  function MakeTicket(v: NodeView, e: BlobListEntry): Ticket {
    Ticket(v.addr, e.hash, e.format, Some(e.name))
  }

  function ToWire(lib: TextLib, v: NodeView, e: BlobListEntry): WireEntry {
    WireEntry(e.hash, e.format, e.name, ToUri(lib, MakeTicket(v, e)), e.fileCount, e.totalSize)
  }

  function AllToWire(lib: TextLib, v: NodeView, blobs: seq<BlobListEntry>): (es: seq<WireEntry>)
    ensures |es| == |blobs|
  {
    seq(|blobs|, i requires 0 <= i < |blobs| => ToWire(lib, v, blobs[i]))
  }

  /** The check the remote side makes for each blob. */
  predicate MayRead(reg: Registry, peer: PeerId, hash: Hash, now: Time) {
    exists ring <- ResourceRings(reg, hash) ::
      Read in ResourceRings(reg, hash)[ring] && (ring == OPEN_RING_NAME || LiveMember(reg, ring, peer, now))
  }

  const DENIED: Byte := 0
  const ALLOWED: Byte := 1

  ghost predicate AllWritable(lib: TextLib, v: NodeView, blobs: seq<BlobListEntry>) {
    forall i :: 0 <= i < |blobs| ==> Writable(ToWire(lib, v, blobs[i]))
  }

  /** The serving loop measures for itself, file by file. */
  method MeasureForPeer(store: BlobStore, tag: Tag) returns (fileCount: Option<nat>, totalSize: Option<U64>)
    ensures IsMeasured(store, BlobListEntry(tag.hash, tag.format, tag.name, fileCount, totalSize))
  {
    fileCount, totalSize := None, None;
    if tag.format == Raw {
      if tag.hash in store.sizes {
        totalSize := Some(store.sizes[tag.hash]);
      }
      return;
    }
    if tag.hash !in store.collections {
      return;
    }
    var files := store.collections[tag.hash];
    var sum: U64, complete := 0, true;
    for i := 0 to |files|
      invariant AllComplete(store, files[..i]) && complete
      invariant sum == SumOfSizes(store, files[..i]) % (U64_MAX + 1)
    {
      hide SumOfSizes, AllComplete;
      if files[i].1 !in store.sizes {
        complete := false;
        break;
      }
      OneMoreSize(store, files, i);
      WrapsTheSame(SumOfSizes(store, files[..i]), store.sizes[files[i].1]);
      sum := (sum + store.sizes[files[i].1]) % (U64_MAX + 1);
    }
    assert files[..|files|] == files;
    fileCount, totalSize := Some(|files|), if complete then Some(sum) else None;
  }

  /** One pass of the serving loop: measures and prints the blob if the peer
      may read it. */
  method ServeTag(lib: TextLib, v: NodeView, tag: Tag, peer: PeerId, send: SendStream)
    returns (ok: bool, ghost shown: seq<BlobListEntry>)
    modifies send`sent
    ensures Reports(v, if Shown(v, tag, Some(peer), None) then [tag] else [], shown)
    ensures ok <==> AllWritable(lib, v, shown)
    ensures ok ==> send.sent == old(send.sent) + EncodeAll(AllToWire(lib, v, shown))
    ensures !ok ==> |shown| == 1 && send.sent == old(send.sent) + Printed(ToWire(lib, v, shown[0]))
  {
    if !MayRead(v.registry, peer, tag.hash, v.now) {
      assert !Shown(v, tag, Some(peer), None);
      return true, [];
    }
    assert HasPermission(v.registry, peer, tag.hash, Read, v.now);
    var fileCount, totalSize := MeasureForPeer(v.store, tag);
    var e := BlobListEntry(tag.hash, tag.format, tag.name, fileCount, totalSize);
    ok := WriteEntry(send, ToWire(lib, v, e));
    shown := [e];
    assert AllWritable(lib, v, shown) <==> Writable(ToWire(lib, v, shown[0]));
    assert AllToWire(lib, v, [e]) == [ToWire(lib, v, e)];
    assert AllToWire(lib, v, [e])[1..] == [];
  }

  lemma {:induction false} EncodeAllConcat(es: seq<WireEntry>, fs: seq<WireEntry>)
    ensures EncodeAll(es + fs) == EncodeAll(es) + EncodeAll(fs)
  {
    hide EncodeEntry;
    if es == [] {
      assert es + fs == fs;
    } else {
      EncodeAllConcat(es[1..], fs);
      assert (es + fs)[1..] == es[1..] + fs;
      assert (es + fs)[0] == es[0];
      ConcatIsAssociative(EncodeEntry(es[0]), EncodeAll(es[1..]), EncodeAll(fs));
    }
  }

  /** A stream is its entries, one after the other. */
  lemma StreamLayout(es: seq<WireEntry>, e: WireEntry)
    ensures EncodeAll([]) == [] && EncodeAll(es + [e]) == EncodeAll(es) + EncodeEntry(e)
  {
    hide EncodeEntry;
    EncodeAllConcat(es, [e]);
    assert [e][1..] == [];
  }

  lemma ConcatIsAssociative(a: Bytes, b: Bytes, c: Bytes)
    ensures a + b + c == a + (b + c)
  {
  }

  /** What the stream holds after the blobs `listed` were printed. */
  ghost function Served(lib: TextLib, v: NodeView, listed: seq<BlobListEntry>): Bytes {
    [ALLOWED] + EncodeAll(AllToWire(lib, v, listed))
  }

  lemma ServedMore(lib: TextLib, v: NodeView, listed: seq<BlobListEntry>, more: seq<BlobListEntry>)
    ensures Served(lib, v, listed) + EncodeAll(AllToWire(lib, v, more)) == Served(lib, v, listed + more)
  {
    hide ToWire, EncodeAll;
    assert AllToWire(lib, v, listed + more) == AllToWire(lib, v, listed) + AllToWire(lib, v, more);
    EncodeAllConcat(AllToWire(lib, v, listed), AllToWire(lib, v, more));
  }

  /** What a stream holds that broke off: the entries before the first one that
      cannot be printed, and the fields of that one before the long text. */
  ghost predicate BrokenOff(lib: TextLib, v: NodeView, sent: Bytes, listed: seq<BlobListEntry>) {
    && listed != []
    && var n := |listed| - 1;
      && AllWritable(lib, v, listed[..n]) && !Writable(ToWire(lib, v, listed[n]))
      && sent == Served(lib, v, listed[..n]) + Printed(ToWire(lib, v, listed[n]))
  }

  lemma BreaksOff(lib: TextLib, v: NodeView, listed: seq<BlobListEntry>, more: seq<BlobListEntry>)
    requires AllWritable(lib, v, listed) && |more| == 1 && !AllWritable(lib, v, more)
    ensures BrokenOff(lib, v, Served(lib, v, listed) + Printed(ToWire(lib, v, more[0])), listed + more)
  {
    hide Served, Printed, ToWire, Writable;
    assert (listed + more)[..|listed|] == listed && (listed + more)[|listed|] == more[0];
  }

  /** Serves one catalog request. `listed` are the blobs the peer may read, up
      to the first one that could not be printed; only without such a one does
      the stream finish. */
  method HandleBlobList(lib: TextLib, v: NodeView, granted: bool, peer: PeerId, send: SendStream)
    returns (ok: bool, ghost listed: seq<BlobListEntry>)
    requires send.sent == [] && !send.finished
    modifies send
    ensures !granted ==> ok && send.sent == [0] && send.finished
    ensures granted ==> send.sent != [] && send.sent[0] == 1
    ensures granted ==> send.finished == ok && (ok <==> AllWritable(lib, v, listed))
    ensures granted && ok ==> Reports(v, ShownTags(v, v.tags, Some(peer), None), listed)
    ensures granted && ok ==> send.sent == Served(lib, v, listed)
    ensures granted && !ok ==> BrokenOff(lib, v, send.sent, listed)
    ensures granted && !ok ==> exists i | 0 <= i <= |v.tags| :: Reports(v, ShownTags(v, v.tags[..i], Some(peer), None), listed)
  {
    listed := [];
    if !granted {
      send.WriteAll([DENIED]);
      send.Finish();
      return true, listed;
    }
    send.WriteAll([ALLOWED]);
    for i := 0 to |v.tags|
      invariant !send.finished
      invariant Reports(v, ShownTags(v, v.tags[..i], Some(peer), None), listed)
      invariant AllWritable(lib, v, listed)
      invariant send.sent == Served(lib, v, listed)
    {
      hide Reports, Served, Printed, ToWire, Writable, BrokenOff, AllWritable, EncodeAll, ShownTags;
      ghost var shown;
      ok, shown := ServeTag(lib, v, v.tags[i], peer, send);
      ServedMore(lib, v, listed, shown);
      WritableConcat(lib, v, listed, shown);
      ReportsMore(v, i, peer, listed, shown);
      if !ok {
        BreaksOff(lib, v, listed, shown);
        return false, listed + shown;
      }
      listed := listed + shown;
    }
    assert v.tags[..|v.tags|] == v.tags;
    send.Finish();
    return true, listed;
  }

  lemma ReportsMore(v: NodeView, i: nat, peer: PeerId, listed: seq<BlobListEntry>, shown: seq<BlobListEntry>)
    requires i < |v.tags|
    requires Reports(v, ShownTags(v, v.tags[..i], Some(peer), None), listed)
    requires Reports(v, if Shown(v, v.tags[i], Some(peer), None) then [v.tags[i]] else [], shown)
    ensures Reports(v, ShownTags(v, v.tags[..i + 1], Some(peer), None), listed + shown)
  {
    assert v.tags[..i + 1][..i] == v.tags[..i];
  }

  lemma WritableConcat(lib: TextLib, v: NodeView, a: seq<BlobListEntry>, b: seq<BlobListEntry>)
    ensures AllWritable(lib, v, a + b) <==> AllWritable(lib, v, a) && AllWritable(lib, v, b)
  {
    if AllWritable(lib, v, a + b) {
      forall i | 0 <= i < |a| ensures Writable(ToWire(lib, v, a[i])) {
        assert (a + b)[i] == a[i];
      }
      forall i | 0 <= i < |b| ensures Writable(ToWire(lib, v, b[i])) {
        assert (a + b)[|a| + i] == b[i];
      }
    }
  }

  // The two listings agree

  /** How the peer's side reads texts. */
  function PeerTexts(lib: TextLib): Texts {
    Texts(lib.utf8, uri => FromUri(lib, uri))
  }

  function ToRemoteEntry(v: NodeView, e: BlobListEntry): CatalogEntry {
    CatalogEntry(e.hash, e.format, e.name, MakeTicket(v, e), e.fileCount, e.totalSize)
  }

  function ToRemote(v: NodeView, blobs: seq<BlobListEntry>): seq<CatalogEntry> {
    seq(|blobs|, i requires 0 <= i < |blobs| => ToRemoteEntry(v, blobs[i]))
  }

  /** An entry as it arrives: the largest size and a count that is the largest
      32-bit number modulo 2^32 read as unknown, other counts modulo 2^32. */
  function AsReceived(e: BlobListEntry): BlobListEntry {
    e.(
      totalSize := if e.totalSize == Some(U64_MAX) then None else e.totalSize,
      fileCount := if e.fileCount.None? || e.fileCount.value % (U32_MAX + 1) == U32_MAX then None
        else Some(e.fileCount.value % (U32_MAX + 1)))
  }

  function AllAsReceived(blobs: seq<BlobListEntry>): (r: seq<BlobListEntry>)
    ensures |r| == |blobs|
  {
    seq(|blobs|, i requires 0 <= i < |blobs| => AsReceived(blobs[i]))
  }

  /** Sizes and counts below the sentinels. */
  predicate WithinBounds(e: BlobListEntry) {
    && (e.totalSize.Some? ==> e.totalSize.value < U64_MAX)
    && (e.fileCount.Some? ==> e.fileCount.value < U32_MAX)
  }

  predicate AllWithinBounds(blobs: seq<BlobListEntry>) {
    forall i :: 0 <= i < |blobs| ==> WithinBounds(blobs[i])
  }

  lemma EntrySameIffWithinBounds(v: NodeView, e: BlobListEntry)
    ensures ToRemoteEntry(v, AsReceived(e)) == ToRemoteEntry(v, e) <==> WithinBounds(e)
  {
    assert e.fileCount.Some? && e.fileCount.value < U32_MAX ==> e.fileCount.value % (U32_MAX + 1) == e.fileCount.value;
  }

  lemma ReceivedSameIffWithinBounds(v: NodeView, blobs: seq<BlobListEntry>)
    ensures ToRemote(v, AllAsReceived(blobs)) == ToRemote(v, blobs) <==> AllWithinBounds(blobs)
  {
    hide AsReceived, ToRemoteEntry, WithinBounds;
    forall i | 0 <= i < |blobs|
      ensures ToRemote(v, AllAsReceived(blobs))[i] == ToRemote(v, blobs)[i] <==> WithinBounds(blobs[i])
    {
      EntrySameIffWithinBounds(v, blobs[i]);
      assert ToRemote(v, AllAsReceived(blobs))[i] == ToRemoteEntry(v, AsReceived(blobs[i]));
    }
  }

  predicate NamesAreText(lib: TextLib, blobs: seq<BlobListEntry>) {
    forall i :: 0 <= i < |blobs| ==> lib.utf8(blobs[i].name)
  }

  /** The ticket printed for an entry reads back, and sizes and counts arrive as
      they do. */
  lemma EntryReadsBack(lib: TextLib, v: NodeView, e: BlobListEntry)
    requires Sound(lib) && lib.utf8(e.name)
    ensures Readable(PeerTexts(lib), ToWire(lib, v, e))
    ensures Received(ToWire(lib, v, e)) == ToWire(lib, v, AsReceived(e))
    ensures PeerTexts(lib).ticket(ToWire(lib, v, AsReceived(e)).uri) == Ok(MakeTicket(v, AsReceived(e)))
  {
    hide ToUri, FromUri;
    UriRoundTrips(lib, MakeTicket(v, e));
    assert MakeTicket(v, AsReceived(e)) == MakeTicket(v, e);
  }

  lemma PrintedListReadsBack(lib: TextLib, v: NodeView, blobs: seq<BlobListEntry>)
    requires Sound(lib) && AllWritable(lib, v, blobs) && NamesAreText(lib, blobs)
    ensures ParseStream(PeerTexts(lib), EncodeAll(AllToWire(lib, v, blobs))) == Ok(AllToWire(lib, v, AllAsReceived(blobs)))
    ensures AllTickets(PeerTexts(lib), AllToWire(lib, v, AllAsReceived(blobs)))
    ensures ToCatalog(PeerTexts(lib), AllToWire(lib, v, AllAsReceived(blobs))) == ToRemote(v, AllAsReceived(blobs))
  {
    hide Sound, Readable, Writable, Received, ToWire, PeerTexts, AsReceived, MakeTicket;
    var es, arrived := AllToWire(lib, v, blobs), AllToWire(lib, v, AllAsReceived(blobs));
    forall i | 0 <= i < |blobs|
      ensures Writable(es[i]) && Readable(PeerTexts(lib), es[i]) && ReceivedAll(es)[i] == arrived[i]
      ensures PeerTexts(lib).ticket(arrived[i].uri) == Ok(MakeTicket(v, AsReceived(blobs[i])))
    {
      EntryReadsBack(lib, v, blobs[i]);
    }
    ParseEncodedStream(PeerTexts(lib), es);
    assert ReceivedAll(es) == arrived;
    ArrivedIsRemote(lib, v, AllAsReceived(blobs));
  }

  lemma ArrivedIsRemote(lib: TextLib, v: NodeView, blobs: seq<BlobListEntry>)
    requires forall i :: 0 <= i < |blobs| ==>
      PeerTexts(lib).ticket(AllToWire(lib, v, blobs)[i].uri) == Ok(MakeTicket(v, blobs[i]))
    ensures AllTickets(PeerTexts(lib), AllToWire(lib, v, blobs))
    ensures ToCatalog(PeerTexts(lib), AllToWire(lib, v, blobs)) == ToRemote(v, blobs)
  {
    hide ToUri, FromUri, PeerTexts;
  }

  datatype ConnectError = AccessDenied | Reset | Malformed(e: DecodeError)

  /** Tag names are shown as text; what is not text was replaced before. */
  predicate TagsAreText(lib: TextLib, v: NodeView) {
    forall i :: 0 <= i < |v.tags| ==> lib.utf8(v.tags[i].name)
  }

  lemma {:induction false} ShownTagsAreText(
    lib: TextLib, v: NodeView, i: nat, peer: Option<PeerId>, rings: Option<set<RingName>>)
    requires TagsAreText(lib, v) && i <= |v.tags|
    ensures forall tag :: tag in ShownTags(v, v.tags[..i], peer, rings) ==> lib.utf8(tag.name)
  {
    if i > 0 {
      assert v.tags[..i][..i - 1] == v.tags[..i - 1];
      ShownTagsAreText(lib, v, i - 1, peer, rings);
    }
  }

  lemma ListedNamesAreText(lib: TextLib, v: NodeView, peer: PeerId, listed: seq<BlobListEntry>)
    requires TagsAreText(lib, v) && Reports(v, ShownTags(v, v.tags, Some(peer), None), listed)
    ensures NamesAreText(lib, listed)
  {
    assert v.tags[..|v.tags|] == v.tags;
    ShownTagsAreText(lib, v, |v.tags|, Some(peer), None);
  }

  /** Name and ticket fit their 16-bit length prefixes. */
  predicate Printable(lib: TextLib, v: NodeView, e: BlobListEntry) {
    |e.name| <= 0xFFFF && |ToUri(lib, Ticket(v.addr, e.hash, e.format, Some(e.name)))| <= 0xFFFF
  }

  /** What arrives for an entry of the node's own list: the same hash, format and
      name, a ticket of this node for exactly that blob, and its numbers, except
      that the largest size and count read as unknown and counts have 32 bits. */
  predicate Arrives(v: NodeView, e: BlobListEntry, c: CatalogEntry) {
    && c.hash == e.hash && c.format == e.format && c.name == e.name
    && c.ticket.addr == v.addr && c.ticket.hash == e.hash && c.ticket.format == e.format
    && c.ticket.name == Some(e.name)
    && c.totalSize == (if e.totalSize == Some(0xFFFF_FFFF_FFFF_FFFF) then None else e.totalSize)
    && match e.fileCount
      case None => c.fileCount == None
      case Some(n) =>
        c.fileCount == if n % 0x1_0000_0000 == 0xFFFF_FFFF then None else Some(n % 0x1_0000_0000)
  }

  ghost predicate AllArrive(v: NodeView, local: seq<BlobListEntry>, entries: seq<CatalogEntry>) {
    |entries| == |local| && forall i :: 0 <= i < |local| ==> Arrives(v, local[i], entries[i])
  }

  lemma RemoteArrives(v: NodeView, local: seq<BlobListEntry>)
    ensures AllArrive(v, local, ToRemote(v, AllAsReceived(local)))
  {
  }

  lemma WritableIsPrintable(lib: TextLib, v: NodeView, local: seq<BlobListEntry>)
    ensures AllWritable(lib, v, local) <==> forall i :: 0 <= i < |local| ==> Printable(lib, v, local[i])
  {
    hide ToUri;
    assert forall i :: 0 <= i < |local| ==> (Printable(lib, v, local[i]) <==> Writable(ToWire(lib, v, local[i])));
  }

  /** A peer fetches the node's catalog over one stream. Whatever list `local`
      the node itself shows for that peer, the peer decodes that list: entry for
      entry, in order, with the node's own tickets. Nothing differs exactly when
      sizes and counts are below the sentinels. The stream breaks off exactly
      when some name or ticket is too long to print. */
  method CatalogConnect(lib: TextLib, v: NodeView, granted: bool, peer: PeerId)
    returns (r: Result<seq<CatalogEntry>, ConnectError>)
    requires Sound(lib) && TagsAreText(lib, v)
    ensures !granted <==> r == Err(AccessDenied)
    ensures granted ==> r.Ok? || r == Err(Reset)
    ensures granted ==> forall local :: Reports(v, ShownTags(v, v.tags, Some(peer), None), local) ==>
      && (r.Ok? <==> forall i :: 0 <= i < |local| ==> Printable(lib, v, local[i]))
      && (r.Ok? ==> AllArrive(v, local, r.value))
      && (r.Ok? ==> (r.value == ToRemote(v, local) <==> AllWithinBounds(local)))
  {
    var send := new SendStream();
    var ok;
    ghost var listed;
    ok, listed := HandleBlobList(lib, v, granted, peer, send);
    if !ok {
      forall local | Reports(v, ShownTags(v, v.tags, Some(peer), None), local) ensures exists i :: 0 <= i < |local| && !Printable(lib, v, local[i])
      {
        UnwritablePrefix(lib, v, peer, listed, local);
        WritableIsPrintable(lib, v, local);
      }
      return Err(Reset);
    }
    var recv := new RecvStream(send.sent);
    var status := recv.ReadProbe();
    if status != Some(ALLOWED) {
      return Err(AccessDenied);
    }
    assert recv.data == EncodeAll(AllToWire(lib, v, listed));
    hide Shown, Reports, AllWritable, EncodeAll, AllWithinBounds, ToRemote, AllAsReceived, ParseStream, Printable;
    WritableIsPrintable(lib, v, listed);
    RemoteArrives(v, listed);
    ListedNamesAreText(lib, v, peer, listed);
    PrintedListReadsBack(lib, v, listed);
    ReceivedSameIffWithinBounds(v, listed);
    forall local | Reports(v, ShownTags(v, v.tags, Some(peer), None), local) ensures local == listed {
      ReportsIsUnique(v, ShownTags(v, v.tags, Some(peer), None), local, listed);
    }
    var decoded := DecodeEntries(PeerTexts(lib), recv);
    match decoded
    case Ok(entries) => r := Ok(entries);
    case Err(e) => r := Err(Malformed(e));
  }

  lemma UnwritablePrefix(lib: TextLib, v: NodeView, peer: PeerId, listed: seq<BlobListEntry>, local: seq<BlobListEntry>)
    requires exists i | 0 <= i <= |v.tags| :: Reports(v, ShownTags(v, v.tags[..i], Some(peer), None), listed)
    requires Reports(v, ShownTags(v, v.tags, Some(peer), None), local)
    requires !AllWritable(lib, v, listed)
    ensures !AllWritable(lib, v, local)
  {
    var i :| 0 <= i <= |v.tags| && Reports(v, ShownTags(v, v.tags[..i], Some(peer), None), listed);
    ShownTagsPrefix(v, i, Some(peer), None);
    var k :| 0 <= k < |listed| && !Writable(ToWire(lib, v, listed[k]));
    MeasuredIsUnique(v.store, listed[k], local[k]);
  }

  lemma {:induction false} ShownTagsPrefix(v: NodeView, i: nat, peer: Option<PeerId>, rings: Option<set<RingName>>)
    requires i <= |v.tags|
    ensures ShownTags(v, v.tags[..i], peer, rings) <= ShownTags(v, v.tags, peer, rings)
    decreases |v.tags| - i
  {
    if i == |v.tags| {
      assert v.tags[..i] == v.tags;
    } else {
      assert v.tags[..i + 1][..i] == v.tags[..i];
      ShownTagsPrefix(v, i + 1, peer, rings);
    }
  }

  /** A listing is determined by the tags it reports. */
  lemma ReportsIsUnique(v: NodeView, tags: seq<Tag>, a: seq<BlobListEntry>, b: seq<BlobListEntry>)
    requires Reports(v, tags, a) && Reports(v, tags, b)
    ensures a == b
  {
    forall i | 0 <= i < |a| ensures a[i] == b[i] {
      MeasuredIsUnique(v.store, a[i], b[i]);
    }
  }
}
