/** A whole receive: the destination, the download, the export and what the
    client is told. */
module Transfers {
  import opened Common
  import opened Protocol
  import opened Connection
  import opened Answers
  import opened Server
  import opened Download
  import Dest = Destination

  /** Everything a receive depends on besides the network: the file system before
      it, how the destination was given, and what the store hands out. */
  datatype Target = Target(
    tree: Dest.Tree, cwd: Dest.Place, dest: Option<Dest.PathText>, defaultDir: Option<Dest.PathText>,
    home: Option<Dest.PathText>, name: string, force: bool, payload: Dest.Payload)

  function Announcement(g: Target): (Dest.Tree, Result<Dest.PathText, Dest.DestError>) {
    Dest.Announced(g.tree, g.cwd, g.dest, g.defaultDir, g.home, g.name, g.force)
  }

  /** Where the export writes. */
  function WrittenPlace(g: Target): Dest.Place
    requires Announcement(g).1.Ok?
  {
    Dest.At(g.cwd, Dest.ExportPath(Announcement(g).0, g.cwd, Announcement(g).1.value, g.name))
  }

  function ExportOf(g: Target): (Dest.Tree, bool)
    requires Announcement(g).1.Ok?
  {
    Dest.Exported(Announcement(g).0, WrittenPlace(g), g.payload)
  }

  /** The payload of the hash: its bytes, or the files of its collection. */
  predicate IsPayloadOf(payload: Dest.Payload, roots: Hash -> Root, hash: Hash, format: BlobFormat) {
    match format
    case Raw => payload.RawFile? && payload.content == hash
    case HashSeq =>
      payload.Files? && (roots(hash).Collection? ==>
        && |payload.items| == |roots(hash).files|
        && forall k :: 0 <= k < |payload.items| ==> payload.items[k].content == roots(hash).files[k].1)
  }

  /** The connection answers this receive: the destination was announced or
      refused, and the transfer went as the download from `io` and the export. */
  ghost predicate Serves(c: Conn, io: Io, roots: Hash -> Root, hash: Hash, format: BlobFormat, g: Target) {
    && c.request.Some? && c.request.value.op.Receive?
    && var o := c.request.value.outcomes;
      && (o.destination.Ok? <==> Announcement(g).1.Ok?)
      && (Announcement(g).1.Ok? ==> (o.transferError.None? <==> Downloaded(io, roots, hash, format, ExportOf(g).1).1))
  }

  /** The blobs a hash stands for are all there. */
  predicate AllThere(complete: set<Hash>, roots: Hash -> Root, hash: Hash, format: BlobFormat) {
    && hash in complete
    && (format == HashSeq ==>
      && roots(hash).Collection? && roots(hash).meta in complete
      && forall k :: 0 <= k < |roots(hash).files| ==> roots(hash).files[k].1 in complete)
  }

  /** What was received lies where it was written. */
  ghost predicate LiesThere(tree: Dest.Tree, place: Dest.Place, payload: Dest.Payload) {
    match payload
    case RawFile(content, _) => place in tree && tree[place] == Dest.File(content)
    case Files(items) => place in tree && Dest.HasItems(tree, place, items)
  }

  /** A client that has read the whole answer was told Done exactly if the
      destination was accepted, every blob is complete, the sender was reached
      unless a complete single file made that needless, and the export went
      through; then the files lie at the announced path, unless that was replaced
      by force and a directory. In every other case it was told an error. */
  lemma ToldDoneIffReceived(
    s: State, i: nat, io: Io, roots: Hash -> Root, hash: Hash, format: BlobFormat, g: Target)
    requires Reachable(s) && i < |s.conns| && Serves(s.conns[i], io, roots, hash, format, g)
    requires s.conns[i].client.Finished?
    requires Dest.IsTree(g.tree) && g.name != "." && IsPayloadOf(g.payload, roots, hash, format)
    ensures s.conns[i].read <= |s.conns[i].wire| && ReadSoFar(s.conns[i]) != []
    ensures var read := ReadSoFar(s.conns[i]);
      var last := read[|read| - 1];
      && (last.kind.Done? <==>
        && Announcement(g).1.Ok? && ExportOf(g).1
        && AllThere(Downloaded(io, roots, hash, format, ExportOf(g).1).0.complete, roots, hash, format)
        && (format == HashSeq ==> io.connects))
      && (last.kind.Error? <==> !last.kind.Done?)
      && (last.kind.Done? ==> LiesThere(ExportOf(g).0, WrittenPlace(g), g.payload))
      && (last.kind.Done? ==>
        (WrittenPlace(g) == Dest.At(g.cwd, Announcement(g).1.value) <==>
          !(g.force && Dest.IsDir(g.tree, g.cwd, Announcement(g).1.value))))
  {
    hide Reachable, Answer, Downloaded, Dest.Exported, Dest.Announced, Dest.IsTree, Dest.IsDir, Dest.HasItems,
      Dest.ExportPath, Dest.At;
    ClientsReadTheirAnswer(s, i);
    DoneIffNothingFailed(s.conns[i].request.value);
    if Announcement(g).1.Ok? {
      SucceedsIffCompleteAndExported(io, roots, hash, format, ExportOf(g).1);
      ExportedLiesThere(g);
    }
  }

  lemma ExportedLiesThere(g: Target)
    requires Dest.IsTree(g.tree) && g.name != "." && Announcement(g).1.Ok?
    ensures ExportOf(g).1 ==> LiesThere(ExportOf(g).0, WrittenPlace(g), g.payload)
    ensures WrittenPlace(g) == Dest.At(g.cwd, Announcement(g).1.value) <==>
      !(g.force && Dest.IsDir(g.tree, g.cwd, Announcement(g).1.value))
  {
    hide Dest.Exported, Dest.IsTree, Dest.IsDir, Dest.HasItems, Dest.ExportPath, Dest.At, Dest.Announced;
    Dest.AnnouncingCreatesAncestorsOnly(g.tree, g.cwd, g.dest, g.defaultDir, g.home, g.name, g.force);
    Dest.AnnouncedIsWritten(g.tree, g.cwd, g.dest, g.defaultDir, g.home, g.name, g.force);
    Dest.ExportOnlyUnder(Announcement(g).0, WrittenPlace(g), g.payload);
  }
}
