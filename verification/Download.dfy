/** Downloading a blob or a collection: which blobs are requested, what becomes
    complete, and what is reported, over any behaviour of the network. */
module Download {
  import opened Common
  import opened Protocol

  /** What the bytes of a collection's root mean. The first link is the metadata
      blob with the file names; even a complete one may not be such a blob. */
  datatype Root =
    | NotAHashSeq
    | NoLinks
    | Unloadable(meta: Hash)
    | Collection(meta: Hash, files: seq<(string, Hash)>)

  /** The sender's side of one request. `Lost` covers every failure before the
      size header, `leaves` are the end offsets of the verified chunks, and
      `whole` says that the transfer did not break off. */
  datatype Reply = Lost | Denied | Sized(size: nat, leaves: seq<nat>, whole: bool)

  /** Whom received bytes are reported for. */
  datatype Tag = Silent | Plain | OfFile(file: FileRef)

  /** A report, with the file it is about as the receiver knows it. */
  datatype Report = Started(file: FileRef) | Received(about: Option<FileRef>, done: nat, total: nat)

  datatype NetStep = Requested(hash: Hash) | Stored(hash: Hash)

  /** Complete blobs of the store, whether the sender can be reached, its replies
      still to come, and what has been reported, requested and stored. */
  datatype Io = Io(complete: set<Hash>, connects: bool, net: seq<Reply>, reports: seq<Report>, steps: seq<NetStep>)

  function LeafReports(file: Option<FileRef>, size: nat, leaves: seq<nat>): (rs: seq<Report>)
    ensures |rs| == |leaves|
  {
    seq(|leaves|, i requires 0 <= i < |leaves| => Received(file, leaves[i], size))
  }

  function ReportsOfReply(tag: Tag, size: nat, leaves: seq<nat>): seq<Report> {
    if tag.Silent? then []
    else
      var file := if tag.OfFile? then Some(tag.file) else None;
      [Received(file, 0, size)]
      + (if size == 0 then [] else LeafReports(file, size, leaves))
  }

  /** One blob. An announced size of zero ends the fetch without importing
      anything. */
  function Fetched(io: Io, hash: Hash, tag: Tag): (Io, bool) {
    if hash in io.complete then (io, true)
    else
      var asked := io.(steps := io.steps + [Requested(hash)], net := if io.net == [] then [] else io.net[1..]);
      match if io.net == [] then Lost else io.net[0]
      case Lost => (asked, false)
      case Denied => (asked, false)
      case Sized(size, leaves, whole) =>
        var heard := asked.(reports := io.reports + ReportsOfReply(tag, size, leaves));
        if size == 0 then (heard, true)
        else if whole then (heard.(complete := io.complete + {hash}, steps := asked.steps + [Stored(hash)]), true)
        else (heard, false)
  }

  function FileOf(files: seq<(string, Hash)>, k: nat): FileRef
    requires k < |files|
  {
    FileRef(k + 1, |files|, files[k].0)
  }

  /** Files `k` and up, one by one; also how many files were fetched in all. */
  function FetchedFiles(io: Io, files: seq<(string, Hash)>, k: nat): (Io, bool, nat)
    requires k <= |files|
    decreases |files| - k
  {
    if k == |files| then (io, true, k)
    else
      var started := io.(reports := io.reports + [Started(FileOf(files, k))]);
      var (next, ok) := Fetched(started, files[k].1, OfFile(FileOf(files, k)));
      if ok then FetchedFiles(next, files, k + 1) else (next, false, k)
  }

  predicate AllFilesComplete(complete: set<Hash>, files: seq<(string, Hash)>) {
    forall i :: 0 <= i < |files| ==> files[i].1 in complete
  }

  /** A whole download, up to the export; `exported` is the export's own luck. */
  function Downloaded(io: Io, roots: Hash -> Root, hash: Hash, format: BlobFormat, exported: bool): (Io, bool, nat) {
    if format == Raw && hash in io.complete then (io, exported, 0)
    else if !io.connects then (io, false, 0)
    else
      var (a, rootOk) := Fetched(io, hash, if format == Raw then Plain else Silent);
      if !rootOk then (a, false, 0)
      else if format == Raw then (a, hash in a.complete && exported, 0)
      else if hash !in a.complete then (a, false, 0)
      else
        match roots(hash)
        case NotAHashSeq => (a, false, 0)
        case NoLinks => (a, false, 0)
        case Unloadable(meta) => (Fetched(a, meta, Silent).0, false, 0)
        case Collection(meta, files) =>
          var (b, metaOk) := Fetched(a, meta, Silent);
          if !metaOk || meta !in b.complete then (b, false, 0)
          else
            var (c, ok, n) := FetchedFiles(b, files, 0);
            (c, ok && AllFilesComplete(c.complete, files) && exported, n)
  }

  // The receiver

  class RingReceiver {
    var io: Io

    constructor (io: Io)
      ensures this.io == io
    {
      this.io := io;
    }

    method Push(r: Report)
      modifies this
      ensures io == old(io).(reports := old(io).reports + [r])
    {
      io := io.(reports := io.reports + [r]);
    }

    method FetchBlob(hash: Hash, tag: Tag) returns (ok: bool)
      modifies this
      ensures (io, ok) == Fetched(old(io), hash, tag)
    {
      if hash in io.complete {
        return true;
      }
      var reply := if io.net == [] then Lost else io.net[0];
      io := io.(steps := io.steps + [Requested(hash)], net := if io.net == [] then [] else io.net[1..]);
      if !reply.Sized? {
        return false;
      }
      hide ReportsOfReply;
      ReportReply(tag, reply.size, reply.leaves);
      if reply.size > 0 {
        if !reply.whole {
          return false;
        }
        io := io.(complete := io.complete + {hash}, steps := io.steps + [Stored(hash)]);
      }
      return true;
    }

    /** The size first, then the leaves. */
    method ReportReply(tag: Tag, size: nat, leaves: seq<nat>)
      modifies this
      ensures io == old(io).(reports := old(io).reports + ReportsOfReply(tag, size, leaves))
    {
      hide LeafReports;
      if tag.Silent? {
        assert old(io).reports + [] == old(io).reports;
        return;
      }
      var file := if tag.OfFile? then Some(tag.file) else None;
      Push(Received(file, 0, size));
      if size > 0 {
        ReportLeaves(file, size, leaves);
      }
      assert old(io).reports + [Received(file, 0, size)] + LeafReports(file, size, leaves)
        == old(io).reports + ([Received(file, 0, size)] + LeafReports(file, size, leaves));
    }

    /** The decoder loop, one leaf at a time. */
    method ReportLeaves(file: Option<FileRef>, size: nat, leaves: seq<nat>)
      modifies this
      ensures io == old(io).(reports := old(io).reports + LeafReports(file, size, leaves))
    {
      for i := 0 to |leaves|
        invariant io == old(io).(reports := old(io).reports + LeafReports(file, size, leaves)[..i])
      {
        Push(Received(file, leaves[i], size));
      }
    }

    method FetchFiles(files: seq<(string, Hash)>) returns (ok: bool, ghost fetched: nat)
      modifies this
      ensures (io, ok, fetched) == FetchedFiles(old(io), files, 0)
    {
      for k := 0 to |files|
        invariant FetchedFiles(old(io), files, 0) == FetchedFiles(io, files, k)
      {
        Push(Started(FileOf(files, k)));
        ok := FetchBlob(files[k].1, OfFile(FileOf(files, k)));
        if !ok {
          return false, k;
        }
      }
      return true, |files|;
    }

    method Export(format: BlobFormat, hash: Hash, files: seq<(string, Hash)>, exported: bool) returns (ok: bool)
      ensures ok <==> exported && (if format == Raw then hash in io.complete else AllFilesComplete(io.complete, files))
    {
      if format == Raw {
        return exported && hash in io.complete;
      }
      for i := 0 to |files|
        invariant forall k :: 0 <= k < i ==> files[k].1 in io.complete
      {
        if files[i].1 !in io.complete {
          return false;
        }
      }
      return exported;
    }

    method Run(roots: Hash -> Root, hash: Hash, format: BlobFormat, exported: bool) returns (ok: bool, ghost fetched: nat)
      modifies this
      ensures (io, ok, fetched) == Downloaded(old(io), roots, hash, format, exported)
    {
      fetched := 0;
      if format == Raw && hash in io.complete {
        ok := Export(format, hash, [], exported);
        return;
      }
      if !io.connects {
        return false, 0;
      }
      ok := FetchBlob(hash, if format == Raw then Plain else Silent);
      if !ok {
        return;
      }
      if format == Raw {
        ok := Export(format, hash, [], exported);
        return;
      }
      var root := roots(hash);
      if hash !in io.complete || root.NotAHashSeq? || root.NoLinks? {
        return false, 0;
      }
      ok := FetchBlob(root.meta, Silent);
      if !ok || root.meta !in io.complete || root.Unloadable? {
        return false, 0;
      }
      ok, fetched := FetchFiles(root.files);
      if ok {
        ok := Export(format, hash, root.files, exported);
      }
    }
  }

  // Resuming

  /** Nothing is requested that was complete by then, and the complete blobs are
      those of the beginning and those stored since. */
  ghost predicate Resumable(from: set<Hash>, io: Io) {
    && (forall h :: h in io.complete <==> h in from || Stored(h) in io.steps)
    && (forall j :: 0 <= j < |io.steps| && io.steps[j].Requested? ==>
      io.steps[j].hash !in from && Stored(io.steps[j].hash) !in io.steps[..j])
  }

  lemma FetchKeepsResumable(from: set<Hash>, io: Io, hash: Hash, tag: Tag)
    requires Resumable(from, io)
    ensures var io' := Fetched(io, hash, tag).0;
      Resumable(from, io') && io.complete <= io'.complete <= io.complete + {hash} && io.steps <= io'.steps
  {
    var io' := Fetched(io, hash, tag).0;
    forall j | 0 <= j < |io'.steps| && io'.steps[j].Requested?
      ensures io'.steps[j].hash !in from && Stored(io'.steps[j].hash) !in io'.steps[..j]
    {
      if j < |io.steps| {
        assert io'.steps[..j] == io.steps[..j];
      } else {
        assert io'.steps[..j] == io.steps;
      }
    }
  }

  /** Hashes a ticket stands for: the root, the metadata and the members. */
  ghost function Needed(roots: Hash -> Root, hash: Hash, format: BlobFormat): set<Hash> {
    {hash} + (if format == Raw then {}
      else
        match roots(hash)
        case Collection(meta, files) => {meta} + HashesOf(files)
        case Unloadable(meta) => {meta}
        case _ => {})
  }

  function HashesOf(files: seq<(string, Hash)>): set<Hash> {
    set i | 0 <= i < |files| :: files[i].1
  }

  lemma {:induction false} FilesKeepResumable(from: set<Hash>, io: Io, files: seq<(string, Hash)>, k: nat)
    requires k <= |files| && Resumable(from, io)
    ensures var (io', ok, n) := FetchedFiles(io, files, k);
      && Resumable(from, io') && io.complete <= io'.complete <= io.complete + HashesOf(files) && io.steps <= io'.steps
      && k <= n <= |files| && (ok <==> n == |files|)
    decreases |files| - k
  {
    if k < |files| {
      var started := io.(reports := io.reports + [Started(FileOf(files, k))]);
      FetchKeepsResumable(from, started, files[k].1, OfFile(FileOf(files, k)));
      var (next, ok) := Fetched(started, files[k].1, OfFile(FileOf(files, k)));
      if ok {
        FilesKeepResumable(from, next, files, k + 1);
      }
    }
  }

  /** One attempt: it never asks for a complete blob, stores needed blobs only,
      and if it succeeds everything the ticket needs is complete. */
  lemma AttemptResumes(from: set<Hash>, io: Io, roots: Hash -> Root, hash: Hash, format: BlobFormat, exported: bool)
    requires Resumable(from, io)
    ensures var (io', ok, _) := Downloaded(io, roots, hash, format, exported);
      && Resumable(from, io') && io.steps <= io'.steps
      && io.complete <= io'.complete <= io.complete + Needed(roots, hash, format)
      && (ok ==> Needed(roots, hash, format) <= io'.complete)
      && (ok && format == HashSeq ==> roots(hash).Collection?)
  {
    FetchKeepsResumable(from, io, hash, if format == Raw then Plain else Silent);
    var a := Fetched(io, hash, if format == Raw then Plain else Silent).0;
    if format == HashSeq && (roots(hash).Collection? || roots(hash).Unloadable?) {
      var meta := roots(hash).meta;
      FetchKeepsResumable(from, a, meta, Silent);
      if roots(hash).Collection? {
        FilesKeepResumable(from, Fetched(a, meta, Silent).0, roots(hash).files, 0);
      }
    }
  }

  /** The luck of one attempt. */
  datatype Attempt = Attempt(connects: bool, net: seq<Reply>, exported: bool)

  /** Attempts one after the other, each with its own network. */
  function Attempts(io: Io, roots: Hash -> Root, hash: Hash, format: BlobFormat, tries: seq<Attempt>): Io {
    if tries == [] then io
    else
      var before := Attempts(io, roots, hash, format, tries[..|tries| - 1]);
      var last := tries[|tries| - 1];
      Downloaded(before.(connects := last.connects, net := last.net), roots, hash, format, last.exported).0
  }

  function Missing(needed: set<Hash>, io: Io): set<Hash> {
    needed - io.complete
  }

  /** Over any number of interrupted and retried attempts no blob is requested
      once it is complete, and what is missing only shrinks. */
  lemma {:induction false} RetriesNeverRefetch(
    io: Io, roots: Hash -> Root, hash: Hash, format: BlobFormat, tries: seq<Attempt>)
    requires io.steps == []
    ensures var io' := Attempts(io, roots, hash, format, tries);
      && Resumable(io.complete, io')
      && Missing(Needed(roots, hash, format), io') <= Missing(Needed(roots, hash, format), io)
  {
    if tries != [] {
      var n := |tries| - 1;
      RetriesNeverRefetch(io, roots, hash, format, tries[..n]);
      var before := Attempts(io, roots, hash, format, tries[..n]).(connects := tries[n].connects, net := tries[n].net);
      AttemptResumes(io.complete, before, roots, hash, format, tries[n].exported);
    }
  }

  // An honest sender

  predicate Honest(net: seq<Reply>) {
    forall i :: 0 <= i < |net| ==> net[i].Sized? && net[i].size > 0 && net[i].whole
  }

  lemma HonestFetchSucceeds(needed: set<Hash>, io: Io, hash: Hash, tag: Tag)
    requires Honest(io.net) && |Missing(needed, io)| <= |io.net| && hash in needed
    ensures var (io', ok) := Fetched(io, hash, tag);
      ok && hash in io'.complete && Honest(io'.net) && |Missing(needed, io')| <= |io'.net|
  {
    var io' := Fetched(io, hash, tag).0;
    if hash !in io.complete {
      assert hash in Missing(needed, io);
      assert io'.complete == io.complete + {hash};
      assert Missing(needed, io') == Missing(needed, io) - {hash};
    }
  }

  lemma {:induction false} HonestFilesSucceed(needed: set<Hash>, io: Io, files: seq<(string, Hash)>, k: nat)
    requires Honest(io.net) && |Missing(needed, io)| <= |io.net|
    requires k <= |files| && HashesOf(files) <= needed
    requires forall i :: 0 <= i < k ==> files[i].1 in io.complete
    ensures var (io', ok, n) := FetchedFiles(io, files, k);
      ok && AllFilesComplete(io'.complete, files)
    decreases |files| - k
  {
    if k < |files| {
      var started := io.(reports := io.reports + [Started(FileOf(files, k))]);
      assert files[k].1 in HashesOf(files);
      HonestFetchSucceeds(needed, started, files[k].1, OfFile(FileOf(files, k)));
      var next := Fetched(started, files[k].1, OfFile(FileOf(files, k))).0;
      assert started.complete <= next.complete;
      HonestFilesSucceed(needed, next, files, k + 1);
    }
  }

  /** An attempt against an honest sender succeeds as soon as it brings one
      reply for each blob still missing, however many earlier ones failed. */
  lemma HonestAttemptSucceeds(io: Io, roots: Hash -> Root, hash: Hash, format: BlobFormat)
    requires io.connects && Honest(io.net) && |Missing(Needed(roots, hash, format), io)| <= |io.net|
    requires format == HashSeq ==> roots(hash).Collection?
    ensures Downloaded(io, roots, hash, format, true).1
  {
    var needed := Needed(roots, hash, format);
    var tag := if format == Raw then Plain else Silent;
    HonestFetchSucceeds(needed, io, hash, tag);
    if format == HashSeq {
      var a := Fetched(io, hash, tag).0;
      var Collection(meta, files) := roots(hash);
      HonestFetchSucceeds(needed, a, meta, Silent);
      HonestFilesSucceed(needed, Fetched(a, meta, Silent).0, files, 0);
    }
  }

  /** A fetch can return without an error and without the blob: exactly when the
      sender announces a size of zero. */
  lemma FetchWithoutBlob(io: Io, hash: Hash, tag: Tag)
    ensures var (io', ok) := Fetched(io, hash, tag);
      ok && hash !in io'.complete <==>
        hash !in io.complete && io.net != [] && io.net[0].Sized? && io.net[0].size == 0
  {
  }

  // What is reported, and what comes out

  /** A fetch that is answered reports zero bytes of the size first and then the
      end of every verified chunk, in order, of the file it is for; any other
      fetch, and a silent one, reports nothing. */
  lemma FetchReports(io: Io, hash: Hash, tag: Tag)
    ensures var after, n := Fetched(io, hash, tag).0.reports, |io.reports|;
      if hash in io.complete || tag.Silent? || io.net == [] || !io.net[0].Sized? then after == io.reports
      else
        var size, leaves := io.net[0].size, if io.net[0].size == 0 then [] else io.net[0].leaves;
        var file := if tag.OfFile? then Some(tag.file) else None;
        && |after| == n + 1 + |leaves| && after[..n] == io.reports
        && after[n] == Received(file, 0, size)
        && forall i :: 0 <= i < |leaves| ==> after[n + 1 + i] == Received(file, leaves[i], size)
  {
  }

  lemma {:induction false} FailedFileIsMissing(io: Io, files: seq<(string, Hash)>, k: nat)
    requires k <= |files|
    ensures var (io', ok, n) := FetchedFiles(io, files, k);
      if ok then n == |files| else n < |files| && files[n].1 !in io'.complete
    decreases |files| - k
  {
    if k < |files| {
      var started := io.(reports := io.reports + [Started(FileOf(files, k))]);
      var (next, ok) := Fetched(started, files[k].1, OfFile(FileOf(files, k)));
      if ok {
        FailedFileIsMissing(next, files, k + 1);
      }
    }
  }

  /** When a download succeeds: exactly if the export went through and everything
      it stands for is complete by then; for a directory the sender must also
      have been reached, even if nothing was missing. A complete single file
      needs no sender. */
  lemma SucceedsIffCompleteAndExported(io: Io, roots: Hash -> Root, hash: Hash, format: BlobFormat, exported: bool)
    ensures var (io', ok, _) := Downloaded(io, roots, hash, format, exported);
      match format
      case Raw =>
        && (ok <==> exported && hash in io'.complete)
        && (hash in io.complete ==> io' == io)
      case HashSeq =>
        ok <==> (
          && exported && io.connects
          && hash in io'.complete && roots(hash).Collection? && roots(hash).meta in io'.complete
          && forall i :: 0 <= i < |roots(hash).files| ==> roots(hash).files[i].1 in io'.complete)
    ensures !io.connects ==> Downloaded(io, roots, hash, format, exported).0 == io
  {
    if io.connects && format == HashSeq && roots(hash).Collection? {
      var Collection(meta, files) := roots(hash);
      var a := Fetched(io, hash, Silent).0;
      var b := Fetched(a, meta, Silent).0;
      FilesKeepComplete(b, files, 0);
      FailedFileIsMissing(b, files, 0);
    }
  }

  lemma {:induction false} FilesKeepComplete(io: Io, files: seq<(string, Hash)>, k: nat)
    requires k <= |files|
    ensures io.complete <= FetchedFiles(io, files, k).0.complete
    decreases |files| - k
  {
    if k < |files| {
      var started := io.(reports := io.reports + [Started(FileOf(files, k))]);
      var (next, ok) := Fetched(started, files[k].1, OfFile(FileOf(files, k)));
      if ok {
        FilesKeepComplete(next, files, k + 1);
      }
    }
  }

  // Which files an attempt completes

  /** The hashes asked for, in order. */
  function Requests(steps: seq<NetStep>): seq<Hash> {
    if steps == [] then []
    else
      var last := steps[|steps| - 1];
      Requests(steps[..|steps| - 1]) + (if last.Requested? then [last.hash] else [])
  }

  /** Requests are answered in order. */
  function ReplyTo(net: seq<Reply>, j: nat): Reply {
    if j < |net| then net[j] else Lost
  }

  function Unread(net: seq<Reply>, n: nat): seq<Reply> {
    if n <= |net| then net[n..] else []
  }

  predicate Delivers(r: Reply) {
    r.Sized? && r.size > 0 && r.whole
  }

  predicate AnnouncesNothing(r: Reply) {
    r.Sized? && r.size == 0
  }

  /** Some request for the blob was answered with the whole of it. */
  ghost predicate WasDelivered(net: seq<Reply>, asked: seq<Hash>, hash: Hash) {
    exists j :: 0 <= j < |asked| && asked[j] == hash && Delivers(ReplyTo(net, j))
  }

  /** Some request for the blob was answered with a size of zero. */
  ghost predicate WasEmpty(net: seq<Reply>, asked: seq<Hash>, hash: Hash) {
    exists j :: 0 <= j < |asked| && asked[j] == hash && AnnouncesNothing(ReplyTo(net, j))
  }

  /** Where an attempt stands that started from `complete` with the replies `net`:
      each request has used up one reply, and the blobs complete by now are the
      ones of the beginning and the ones delivered. */
  ghost predicate Accounted(complete: set<Hash>, net: seq<Reply>, io: Io) {
    var asked := Requests(io.steps);
    && io.net == Unread(net, |asked|)
    && forall h :: h in io.complete <==> h in complete || WasDelivered(net, asked, h)
  }

  lemma OneMoreRequest(net: seq<Reply>, asked: seq<Hash>, hash: Hash, h: Hash)
    ensures var reply := ReplyTo(net, |asked|);
      && (WasDelivered(net, asked + [hash], h) <==> WasDelivered(net, asked, h) || (h == hash && Delivers(reply)))
      && (WasEmpty(net, asked + [hash], h) <==> WasEmpty(net, asked, h) || (h == hash && AnnouncesNothing(reply)))
  {
    var more := asked + [hash];
    assert forall j :: 0 <= j < |asked| ==> more[j] == asked[j];
    assert more[|asked|] == hash;
  }

  /** One request: what it uses up, adds and returns. */
  lemma OneFetch(io: Io, hash: Hash, tag: Tag)
    requires hash !in io.complete
    ensures var (io', ok) := Fetched(io, hash, tag);
      var reply := if io.net == [] then Lost else io.net[0];
      && io'.net == (if io.net == [] then [] else io.net[1..])
      && Requests(io'.steps) == Requests(io.steps) + [hash]
      && (forall h :: h in io'.complete <==> h in io.complete || (h == hash && Delivers(reply)))
      && (ok <==> Delivers(reply) || AnnouncesNothing(reply))
  {
    hide ReportsOfReply, Requests;
    RequestsAfter(io.steps, hash);
  }

  lemma FetchKeepsAccounted(complete: set<Hash>, net: seq<Reply>, io: Io, hash: Hash, tag: Tag)
    requires Accounted(complete, net, io)
    ensures var (io', ok) := Fetched(io, hash, tag);
      && Accounted(complete, net, io')
      && io.complete <= io'.complete
      && (forall h :: WasEmpty(net, Requests(io.steps), h) ==> WasEmpty(net, Requests(io'.steps), h))
      && (ok ==> hash in io'.complete || WasEmpty(net, Requests(io'.steps), hash))
  {
    if hash !in io.complete {
      hide WasDelivered, WasEmpty, Fetched, Delivers, AnnouncesNothing, Unread, Requests;
      var asked := Requests(io.steps);
      OneFetch(io, hash, tag);
      UnreadFirst(net, |asked|);
      forall h: Hash
        ensures WasDelivered(net, asked + [hash], h) <==>
          WasDelivered(net, asked, h) || (h == hash && Delivers(ReplyTo(net, |asked|)))
        ensures WasEmpty(net, asked + [hash], h) <==>
          WasEmpty(net, asked, h) || (h == hash && AnnouncesNothing(ReplyTo(net, |asked|)))
      {
        OneMoreRequest(net, asked, hash, h);
      }
    }
  }

  lemma UnreadFirst(net: seq<Reply>, n: nat)
    ensures var left := Unread(net, n);
      && ReplyTo(net, n) == (if left == [] then Lost else left[0])
      && Unread(net, n + 1) == (if left == [] then [] else left[1..])
  {
  }

  lemma RequestsAfter(steps: seq<NetStep>, hash: Hash)
    ensures Requests(steps + [Requested(hash)]) == Requests(steps) + [hash]
    ensures Requests(steps + [Requested(hash)] + [Stored(hash)]) == Requests(steps) + [hash]
  {
    var once := steps + [Requested(hash)];
    assert once[..|steps|] == steps;
    assert (once + [Stored(hash)])[..|once|] == once;
  }

  /** Each of the first `n` files is complete or was announced with no size. */
  ghost predicate FetchedOrEmpty(net: seq<Reply>, io: Io, files: seq<(string, Hash)>, n: nat)
    requires n <= |files|
  {
    forall k :: 0 <= k < n ==> files[k].1 in io.complete || WasEmpty(net, Requests(io.steps), files[k].1)
  }

  lemma {:induction false} FilesKeepAccounted(
    complete: set<Hash>, net: seq<Reply>, io: Io, files: seq<(string, Hash)>, k: nat)
    requires k <= |files| && Accounted(complete, net, io) && FetchedOrEmpty(net, io, files, k)
    ensures var (io', _, n) := FetchedFiles(io, files, k);
      n <= |files| && Accounted(complete, net, io') && FetchedOrEmpty(net, io', files, n)
    decreases |files| - k
  {
    hide WasEmpty, Fetched;
    if k < |files| {
      var started := io.(reports := io.reports + [Started(FileOf(files, k))]);
      StartKeepsAccounted(complete, net, io, started.reports);
      FetchKeepsAccounted(complete, net, started, files[k].1, OfFile(FileOf(files, k)));
      var (next, ok) := Fetched(started, files[k].1, OfFile(FileOf(files, k)));
      if ok {
        FilesKeepAccounted(complete, net, next, files, k + 1);
      }
    }
  }

  lemma StartKeepsAccounted(complete: set<Hash>, net: seq<Reply>, io: Io, reports: seq<Report>)
    requires Accounted(complete, net, io)
    ensures Accounted(complete, net, io.(reports := reports))
  {
  }

  /** The files counted as fetched, also when a later one fails: such a file is
      missing in the end if and only if it was missing at the start, some request
      for it was answered with a size of zero, and none with the whole blob. So
      all of them are complete if no request was answered with a size of zero. */
  lemma FetchedFileMissingIff(io: Io, roots: Hash -> Root, hash: Hash, exported: bool, k: nat)
    requires io.steps == [] && roots(hash).Collection?
    requires k < Downloaded(io, roots, hash, HashSeq, exported).2 && k < |roots(hash).files|
    ensures var (io', _, _) := Downloaded(io, roots, hash, HashSeq, exported);
      var h, asked := roots(hash).files[k].1, Requests(io'.steps);
      h !in io'.complete <==> h !in io.complete && WasEmpty(io.net, asked, h) && !WasDelivered(io.net, asked, h)
  {
    hide WasDelivered, WasEmpty, Fetched, FetchedFiles;
    var Collection(meta, files) := roots(hash);
    StartIsAccounted(io);
    FetchKeepsAccounted(io.complete, io.net, io, hash, Silent);
    var a := Fetched(io, hash, Silent).0;
    FetchKeepsAccounted(io.complete, io.net, a, meta, Silent);
    FilesKeepAccounted(io.complete, io.net, Fetched(a, meta, Silent).0, files, 0);
  }

  lemma StartIsAccounted(io: Io)
    requires io.steps == []
    ensures Accounted(io.complete, io.net, io)
  {
    assert io.net[0..] == io.net;
  }
}
