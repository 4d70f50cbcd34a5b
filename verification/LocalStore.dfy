/** One-time migration of the old grant and peer files into `local.redb`, with
    a crash or a failing write allowed between any two durable steps. */
module LocalStore {
  import opened Common

  type GrantRows = set<Bytes>
  type PeerRows = map<Bytes, Bytes>
  type RingRows = map<string, Bytes>

  datatype Tables = Tables(grants: GrantRows, peers: PeerRows)

  /** A half-created file is junk until its first commit. */
  datatype TmpFile = Junk | Db(tables: Tables)

  /** The files of the data directory, as a restart finds them. An old file
      that exists may still lack its table. */
  datatype DataDir = DataDir(
    local: Option<Tables>,
    tmp: Option<TmpFile>,
    oldGrants: Option<Option<GrantRows>>,
    oldPeers: Option<Option<PeerRows>>,
    registry: Option<Option<RingRows>>)

  // The merge, as one expression

  function Chunk(members: Bytes, i: nat): Bytes
    requires i < |members| / 32
  {
    members[32 * i..32 * i + 32]
  }

  /** Every whole 32-byte chunk of the named rings among `names`. */
  ghost function MembersIn(rings: RingRows, names: set<string>): set<Bytes>
    requires names <= rings.Keys
  {
    set name, i | name in names && name != "open" && 0 <= i < |rings[name]| / 32 :: Chunk(rings[name], i)
  }

  ghost function RingMembers(rings: RingRows): set<Bytes> {
    MembersIn(rings, rings.Keys)
  }

  /** Members missing from the address book join it without a nickname. */
  ghost function Backfilled(peers: PeerRows, members: set<Bytes>): PeerRows {
    map k | k in peers.Keys + members :: if k in peers then peers[k] else []
  }

  function GrantsOf(d: DataDir): GrantRows {
    if d.oldGrants.Some? && d.oldGrants.value.Some? then d.oldGrants.value.value else {}
  }

  function PeersOf(d: DataDir): PeerRows {
    if d.oldPeers.Some? && d.oldPeers.value.Some? then d.oldPeers.value.value else map[]
  }

  function RingsOf(d: DataDir): RingRows {
    if d.registry.Some? && d.registry.value.Some? then d.registry.value.value else map[]
  }

  ghost function Merged(d: DataDir): Tables {
    Tables(GrantsOf(d), Backfilled(PeersOf(d), RingMembers(RingsOf(d))))
  }

  predicate NeedsMigration(d: DataDir) {
    d.local.None? && (d.oldGrants.Some? || d.oldPeers.Some?)
  }

  // The durable states of an uninterrupted run, in order

  const EMPTY := Tables({}, map[])

  function WithTmp(d: DataDir, t: Tables): DataDir {
    d.(tmp := Some(Db(t)))
  }

  /** Phase 1: the tmp file, commit by commit. */
  ghost function FillTrace(d: DataDir): seq<DataDir> {
    [d.(tmp := Some(Junk)), WithTmp(d, EMPTY)]
    + (if d.oldGrants.Some? && d.oldGrants.value.Some? then [WithTmp(d, Tables(GrantsOf(d), map[]))] else [])
    + (if d.oldPeers.Some? && d.oldPeers.value.Some? then [WithTmp(d, Tables(GrantsOf(d), PeersOf(d)))] else [])
    + (if d.registry.Some? && d.registry.value.Some? then [WithTmp(d, Merged(d))] else [])
  }

  /** Phases 2 and 3: the rename, then the deletions. */
  ghost function PurgeTrace(d: DataDir): seq<DataDir> {
    var renamed := d.(tmp := None, local := Some(Merged(d)));
    var purged := renamed.(oldGrants := None);
    [renamed]
    + (if d.oldGrants.Some? then [purged] else [])
    + (if d.oldPeers.Some? then [purged.(oldPeers := None)] else [])
  }

  ghost function Trace(d: DataDir): seq<DataDir> {
    if !NeedsMigration(d) then []
    else (if d.tmp.Some? then [d.(tmp := None)] else []) + FillTrace(d) + PurgeTrace(d)
  }

  /** The directory after the first `k` durable steps of a startup: what a
      crash, or a step that fails, leaves behind. */
  ghost function AfterSteps(d: DataDir, k: nat): DataDir
    requires k <= |Trace(d)|
  {
    if k == 0 then d else Trace(d)[k - 1]
  }

  ghost function Completed(d: DataDir): DataDir {
    AfterSteps(d, |Trace(d)|)
  }

  // The procedure

  /** The directory on disk, with every state it has been in. */
  class Disk {
    var files: DataDir
    ghost var history: seq<DataDir>

    constructor (files: DataDir)
      ensures this.files == files && history == []
    {
      this.files, history := files, [];
    }

    /** One durable step: a commit, a rename or a deletion. */
    method Write(next: DataDir)
      modifies this
      ensures files == next && history == old(history) + [next]
    {
      files, history := next, history + [next];
    }
  }

  method CopyGrants(dst: GrantRows, src: GrantRows) returns (out: GrantRows)
    ensures out == dst + src
  {
    out := dst;
    var rest := src;
    while rest != {}
      invariant rest <= src && out == dst + (src - rest)
      decreases rest
    {
      var key :| key in rest;
      out, rest := out + {key}, rest - {key};
    }
  }

  method CopyPeers(dst: PeerRows, src: PeerRows) returns (out: PeerRows)
    ensures out == dst + src
  {
    out := dst;
    var rest := src.Keys;
    while rest != {}
      invariant rest <= src.Keys && out == dst + (src - rest)
      decreases rest
    {
      var key :| key in rest;
      out, rest := out[key := src[key]], rest - {key};
    }
  }

  /** Chunks 0 to n of one ring. */
  ghost function FirstChunks(members: Bytes, n: nat): set<Bytes>
    requires n <= |members| / 32
  {
    set i | 0 <= i < n :: Chunk(members, i)
  }

  lemma BackfilledMore(peers: PeerRows, members: set<Bytes>, more: set<Bytes>)
    ensures Backfilled(Backfilled(peers, members), more) == Backfilled(peers, members + more)
  {
  }

  method CopyRing(peers: PeerRows, members: Bytes) returns (out: PeerRows)
    ensures out == Backfilled(peers, FirstChunks(members, |members| / 32))
  {
    out := peers;
    assert out == Backfilled(peers, FirstChunks(members, 0));
    for i := 0 to |members| / 32
      invariant out == Backfilled(peers, FirstChunks(members, i))
    {
      var chunk := Chunk(members, i);
      FirstChunksMore(members, i);
      BackfilledMore(peers, FirstChunks(members, i), {chunk});
      out := InsertIfAbsent(out, chunk);
    }
  }

  function InsertIfAbsent(peers: PeerRows, peer: Bytes): (out: PeerRows)
    ensures out == Backfilled(peers, {peer})
  {
    if peer !in peers then peers[peer := []] else peers
  }

  lemma FirstChunksMore(members: Bytes, i: nat)
    requires i < |members| / 32
    ensures FirstChunks(members, i + 1) == FirstChunks(members, i) + {Chunk(members, i)}
  {
  }

  lemma MembersOfOneMore(rings: RingRows, names: set<string>, name: string)
    requires names <= rings.Keys && name in rings
    ensures MembersIn(rings, names + {name}) == MembersIn(rings, names)
      + (if name == "open" then {} else FirstChunks(rings[name], |rings[name]| / 32))
  {
  }

  /** Reads and extends the same table, ring by ring in any order. */
  method CopyRingPeers(peers: PeerRows, rings: RingRows) returns (out: PeerRows)
    ensures out == Backfilled(peers, RingMembers(rings))
  {
    out := peers;
    var rest := rings.Keys;
    ghost var done: set<string> := {};
    assert Backfilled(peers, MembersIn(rings, {})) == peers;
    while rest != {}
      invariant done + rest == rings.Keys
      invariant out == Backfilled(peers, MembersIn(rings, done))
      decreases rest
    {
      var name :| name in rest;
      MembersOfOneMore(rings, done, name);
      rest := rest - {name};
      if name != "open" {
        BackfilledMore(peers, MembersIn(rings, done), FirstChunks(rings[name], |rings[name]| / 32));
        out := CopyRing(out, rings[name]);
      }
      done := done + {name};
    }
    assert done == rings.Keys;
  }

  method FillTmp(disk: Disk)
    modifies disk
    ensures disk.files == WithTmp(old(disk.files), Merged(old(disk.files)))
    ensures disk.files.tmp.Some? && disk.files.tmp.value.Db?
      && HoldsMerge(old(disk.files), Some(disk.files.tmp.value.tables))
    ensures disk.history == old(disk.history) + FillTrace(old(disk.files))
  {
    hide Backfilled, RingMembers, Merged, HoldsMerge;
    MergedHoldsMerge(disk.files);
    ghost var d := disk.files;
    disk.Write(disk.files.(tmp := Some(Junk)));
    disk.Write(WithTmp(disk.files, EMPTY));
    var tables := EMPTY;
    if disk.files.oldGrants.Some? && disk.files.oldGrants.value.Some? {
      var grants := CopyGrants(tables.grants, disk.files.oldGrants.value.value);
      tables := tables.(grants := grants);
      disk.Write(WithTmp(disk.files, tables));
    }
    assert tables == Tables(GrantsOf(d), map[]);
    if disk.files.oldPeers.Some? && disk.files.oldPeers.value.Some? {
      var peers := CopyPeers(tables.peers, disk.files.oldPeers.value.value);
      tables := tables.(peers := peers);
      disk.Write(WithTmp(disk.files, tables));
    }
    assert tables == Tables(GrantsOf(d), PeersOf(d));
    MergedTables(d);
    if disk.files.registry.Some? && disk.files.registry.value.Some? {
      var peers := CopyRingPeers(tables.peers, disk.files.registry.value.value);
      tables := tables.(peers := peers);
      disk.Write(WithTmp(disk.files, tables));
    }
    assert tables == Merged(d);
  }

  lemma MergedTables(d: DataDir)
    ensures Merged(d) == if d.registry.Some? && d.registry.value.Some?
      then Tables(GrantsOf(d), Backfilled(PeersOf(d), RingMembers(d.registry.value.value)))
      else Tables(GrantsOf(d), PeersOf(d))
  {
    if d.registry.None? || d.registry.value.None? {
      assert Backfilled(PeersOf(d), RingMembers(map[])) == PeersOf(d);
    }
  }

  lemma CompletedIsPurged(d: DataDir)
    requires NeedsMigration(d)
    ensures |PurgeTrace(d)| > 0 && Completed(d) == PurgeTrace(d)[|PurgeTrace(d)| - 1]
  {
    hide FillTrace, Merged;
    var n := |PurgeTrace(d)|;
    assert Trace(d)[|Trace(d)| - 1] == PurgeTrace(d)[n - 1];
  }

  lemma StaleTmpIsIrrelevant(d: DataDir)
    ensures var clean := d.(tmp := None);
      && FillTrace(clean) == FillTrace(d) && PurgeTrace(clean) == PurgeTrace(d)
      && WithTmp(clean, Merged(clean)) == WithTmp(d, Merged(d))
  {
    hide Backfilled, RingMembers;
  }

  lemma NoMigrationNoSteps(d: DataDir)
    requires !NeedsMigration(d)
    ensures Trace(d) == [] && Completed(d) == d
  {
  }

  method MigrateIfNeeded(disk: Disk)
    modifies disk
    ensures disk.history == old(disk.history) + Trace(old(disk.files))
    ensures disk.files == Completed(old(disk.files))
    ensures old(disk.files).local.None? && (old(disk.files).oldGrants.Some? || old(disk.files).oldPeers.Some?) ==>
      HoldsMerge(old(disk.files), disk.files.local) && disk.files.oldGrants.None? && disk.files.oldPeers.None?
  {
    hide FillTrace, PurgeTrace, Merged, Completed, HoldsMerge, AtMerge;
    CompletedHoldsMerge(disk.files);
    ghost var d := disk.files;
    if !NeedsMigration(d) {
      NoMigrationNoSteps(d);
    }
    if disk.files.local.Some? {
      return;
    }
    var hasGrants, hasPeers := disk.files.oldGrants.Some?, disk.files.oldPeers.Some?;
    if !hasGrants && !hasPeers {
      return;
    }
    if disk.files.tmp.Some? {
      disk.Write(disk.files.(tmp := None));
    }
    StaleTmpIsIrrelevant(d);
    CompletedIsPurged(d);
    FillTmp(disk);
    Purge(disk, d, hasGrants, hasPeers);
  }

  /** Phases 2 and 3. */
  method Purge(disk: Disk, ghost d: DataDir, hasGrants: bool, hasPeers: bool)
    requires disk.files == WithTmp(d, Merged(d)) && d.local.None?
    requires hasGrants == d.oldGrants.Some? && hasPeers == d.oldPeers.Some?
    modifies disk
    ensures disk.history == old(disk.history) + PurgeTrace(d)
    ensures disk.files == PurgeTrace(d)[|PurgeTrace(d)| - 1]
  {
    hide Merged;
    disk.Write(disk.files.(tmp := None, local := Some(disk.files.tmp.value.tables)));
    if hasGrants {
      disk.Write(disk.files.(oldGrants := None));
    }
    if hasPeers {
      disk.Write(disk.files.(oldPeers := None));
    }
  }

  // Any number of interrupted startups

  /** Startups one after the other, each stopped after so many steps at most. */
  ghost function Startups(d: DataDir, stops: seq<nat>): DataDir {
    if stops == [] then d
    else
      var e := Startups(d, stops[..|stops| - 1]);
      var k := stops[|stops| - 1];
      AfterSteps(e, if k < |Trace(e)| then k else |Trace(e)|)
  }

  predicate IsChunkAt(members: Bytes, i: nat, peer: Bytes) {
    32 * i + 32 <= |members| && peer == members[32 * i..32 * i + 32]
  }

  /** `peer` is a whole 32-byte chunk of a named ring of the registry file. */
  ghost predicate InNamedRing(registry: Option<Option<RingRows>>, peer: Bytes) {
    registry.Some? && registry.value.Some? && exists name, i: nat ::
      name in registry.value.value && name != "open" && IsChunkAt(registry.value.value[name], i, peer)
  }

  /** What `local.redb` must hold, said of the files alone: exactly the old
      grants, the old peers with their nicknames, and the members of named rings
      that were missing, without one. */
  ghost predicate HoldsMerge(d: DataDir, local: Option<Tables>) {
    && local.Some?
    && (match d.oldGrants
      case Some(Some(rows)) => local.value.grants == rows
      case _ => local.value.grants == {})
    && (match d.oldPeers
      case Some(Some(rows)) =>
        && (forall p :: p in rows ==> p in local.value.peers && local.value.peers[p] == rows[p])
        && (forall p :: p !in rows ==> (p in local.value.peers <==> InNamedRing(d.registry, p)))
        && (forall p :: p !in rows && p in local.value.peers ==> local.value.peers[p] == [])
      case _ =>
        && (forall p :: p in local.value.peers <==> InNamedRing(d.registry, p))
        && (forall p :: p in local.value.peers ==> local.value.peers[p] == []))
  }

  lemma ChunksAreMembers(registry: Option<Option<RingRows>>, peer: Bytes)
    ensures var rings: RingRows := if registry.Some? && registry.value.Some? then registry.value.value else map[];
      peer in RingMembers(rings) <==> InNamedRing(registry, peer)
  {
    var rings: RingRows := if registry.Some? && registry.value.Some? then registry.value.value else map[];
    if peer in RingMembers(rings) {
      var name, i: nat :| name in rings && name != "open" && 0 <= i < |rings[name]| / 32 && peer == Chunk(rings[name], i);
      assert IsChunkAt(rings[name], i, peer);
    }
    if InNamedRing(registry, peer) {
      var name, i: nat :| name in rings && name != "open" && IsChunkAt(rings[name], i, peer);
      assert i < |rings[name]| / 32 && peer == Chunk(rings[name], i);
    }
  }

  lemma MergedHoldsMerge(d: DataDir)
    ensures HoldsMerge(d, Some(Merged(d)))
  {
    forall p: Bytes ensures p in RingMembers(RingsOf(d)) <==> InNamedRing(d.registry, p) {
      ChunksAreMembers(d.registry, p);
    }
    hide RingMembers, InNamedRing;
  }

  /** Either nothing but the tmp file differs, so every old file is intact, or
      `local.redb` holds the whole merge of what `d` had. */
  ghost predicate NothingLost(d: DataDir, e: DataDir) {
    || e == d.(tmp := e.tmp)
    || (d.local.None? && (d.oldGrants.Some? || d.oldPeers.Some?) && HoldsMerge(d, e.local) && e.registry == d.registry)
  }

  /** The same, of the merge as the procedure computes it. */
  ghost predicate AtMerge(d: DataDir, e: DataDir) {
    || e == d.(tmp := e.tmp)
    || (NeedsMigration(d) && e.local == Some(Merged(d)) && e.registry == d.registry)
  }

  lemma FillTraceKeepsOldFiles(d: DataDir)
    ensures forall i :: 0 <= i < |FillTrace(d)| ==> FillTrace(d)[i] == d.(tmp := FillTrace(d)[i].tmp)
  {
    hide Merged;
  }

  lemma PurgeTraceHoldsMerge(d: DataDir)
    ensures forall i :: 0 <= i < |PurgeTrace(d)| ==>
      PurgeTrace(d)[i].local == Some(Merged(d)) && PurgeTrace(d)[i].registry == d.registry
    ensures d.oldGrants.Some? || d.oldPeers.Some? ==>
      var last := PurgeTrace(d)[|PurgeTrace(d)| - 1];
      last.oldGrants.None? && last.oldPeers.None? && last.tmp.None?
  {
    hide Merged;
  }

  lemma AtMergeLosesNothing(d: DataDir, e: DataDir)
    requires AtMerge(d, e)
    ensures NothingLost(d, e)
  {
    MergedHoldsMerge(d);
    hide HoldsMerge, Merged;
  }

  lemma TraceStaysAtMerge(d: DataDir)
    ensures forall i :: 0 <= i < |Trace(d)| ==> AtMerge(d, Trace(d)[i])
    ensures NeedsMigration(d) ==> Completed(d).local == Some(Merged(d))
    ensures NeedsMigration(d) ==> Completed(d).oldGrants.None? && Completed(d).oldPeers.None? && Completed(d).tmp.None?
  {
    if NeedsMigration(d) {
      FillTraceKeepsOldFiles(d);
      PurgeTraceHoldsMerge(d);
      CompletedIsPurged(d);
      hide FillTrace, PurgeTrace, Merged;
    }
  }

  lemma CompletedHoldsMerge(d: DataDir)
    ensures d.local.None? && (d.oldGrants.Some? || d.oldPeers.Some?) ==>
      HoldsMerge(d, Completed(d).local) && Completed(d).oldGrants.None? && Completed(d).oldPeers.None?
  {
    hide Trace, Completed, AtMerge, HoldsMerge;
    TraceStaysAtMerge(d);
    MergedHoldsMerge(d);
  }

  lemma TraceLosesNothing(d: DataDir)
    ensures forall i :: 0 <= i < |Trace(d)| ==> NothingLost(d, Trace(d)[i])
  {
    hide Trace, AtMerge, NothingLost;
    TraceStaysAtMerge(d);
    forall i | 0 <= i < |Trace(d)| ensures NothingLost(d, Trace(d)[i]) {
      AtMergeLosesNothing(d, Trace(d)[i]);
    }
  }

  lemma {:induction false} StartupsStayAtMerge(d: DataDir, stops: seq<nat>)
    ensures AtMerge(d, Startups(d, stops))
  {
    if stops != [] {
      var e := Startups(d, stops[..|stops| - 1]);
      StartupsStayAtMerge(d, stops[..|stops| - 1]);
      TraceStaysAtMerge(e);
    }
  }

  lemma StartupsLoseNothing(d: DataDir, stops: seq<nat>)
    ensures NothingLost(d, Startups(d, stops))
  {
    StartupsStayAtMerge(d, stops);
    AtMergeLosesNothing(d, Startups(d, stops));
  }

  /** The first startup that finishes: with `local.redb` present, or without an
      old file, nothing has changed. Otherwise `local.redb` is exactly the merge
      of the original files, whatever the interrupted startups and a stale tmp
      file left. The old files are gone unless an interrupted startup had already
      renamed the tmp file. */
  lemma FirstFinishedStartup(d: DataDir, stops: seq<nat>)
    ensures var e := Startups(d, stops);
      var done := Completed(e);
      if d.local.Some? || (d.oldGrants.None? && d.oldPeers.None?) then done == d
      else
        && HoldsMerge(d, done.local)
        && done.registry == d.registry
        && (done.oldGrants.None? && done.oldPeers.None? <==>
          e.local.None? || (e.oldGrants.None? && e.oldPeers.None?))
  {
    var e := Startups(d, stops);
    StartupsStayAtMerge(d, stops);
    TraceStaysAtMerge(e);
    MergedHoldsMerge(d);
    hide HoldsMerge;
    if !NeedsMigration(d) {
      NoMigrationNoChange(d, stops);
    }
  }

  lemma {:induction false} NoMigrationNoChange(d: DataDir, stops: seq<nat>)
    requires d.local.Some? || (d.oldGrants.None? && d.oldPeers.None?)
    ensures Startups(d, stops) == d
  {
    if stops != [] {
      NoMigrationNoChange(d, stops[..|stops| - 1]);
    }
  }

  /** A crash between the rename and the deletions leaves old files that no
      later startup deletes, although the migration itself is complete. */
  lemma CrashAfterRenameLeavesOldFiles(d: DataDir, stops: seq<nat>) returns (k: nat)
    requires d.local.None? && (d.oldGrants.Some? || d.oldPeers.Some?)
    ensures k < |Trace(d)|
    ensures var e := AfterSteps(d, k);
      && HoldsMerge(d, e.local) && e.oldGrants == d.oldGrants && e.oldPeers == d.oldPeers
      && Startups(e, stops) == e && Completed(e) == e
  {
    k := |Trace(d)| - |PurgeTrace(d)| + 1;
    assert Trace(d)[k - 1] == PurgeTrace(d)[0];
    MergedHoldsMerge(d);
    hide HoldsMerge, Merged;
    NoMigrationNoChange(AfterSteps(d, k), stops);
  }
}
