/** From the reports of a download, through the progress task and the event
    stream, to the completion lines the command line prints. */
module ProgressLines {
  import opened Common
  import opened Protocol
  import opened Connection
  import opened Answers
  import opened Server
  import opened Download

  // Reports and their tags

  /** What the receiver hands to the progress task: no tags on bytes. */
  function Strip(r: Report): ProgressEvent {
    match r
    case Started(f) => FileStart(f.index, f.count, f.name)
    case Received(_, done, total) => BytesReceived(done, total)
  }

  function StripAll(rs: seq<Report>): (ps: seq<ProgressEvent>)
    ensures |ps| == |rs|
  {
    seq(|rs|, i requires 0 <= i < |rs| => Strip(rs[i]))
  }

  /** Every byte report as an event about the file it really was for. */
  function TrueEvents(id: Uuid, rs: seq<Report>): seq<Event> {
    if rs == [] then []
    else
      (match rs[0]
      case Started(_) => []
      case Received(Some(f), done, total) => [Event(id, FileProgress(f.index, f.count, f.name, done, total))]
      case Received(None, done, total) => [Event(id, Progress(done, total))])
      + TrueEvents(id, rs[1..])
  }

  function LastStarted(cur: Option<FileRef>, rs: seq<Report>): Option<FileRef>
    decreases |rs|
  {
    if rs == [] then cur else LastStarted(if rs[0].Started? then Some(rs[0].file) else cur, rs[1..])
  }

  /** Bytes are received for the file started last. */
  predicate Coherent(cur: Option<FileRef>, rs: seq<Report>)
    decreases |rs|
  {
    rs == [] || (match rs[0]
      case Started(f) => Coherent(Some(f), rs[1..])
      case Received(about, _, _) => about == cur && Coherent(cur, rs[1..]))
  }

  lemma {:induction false} CoherentReportsAreTaggedRight(id: Uuid, cur: Option<FileRef>, rs: seq<Report>)
    requires Coherent(cur, rs)
    ensures Forward(id, cur, StripAll(rs)) == TrueEvents(id, rs)
    decreases |rs|
  {
    if rs != [] {
      assert StripAll(rs)[1..] == StripAll(rs[1..]);
      match rs[0]
      case Started(f) => CoherentReportsAreTaggedRight(id, Some(f), rs[1..]);
      case Received(_, _, _) => CoherentReportsAreTaggedRight(id, cur, rs[1..]);
    }
  }

  lemma {:induction false} CoherentConcat(cur: Option<FileRef>, a: seq<Report>, b: seq<Report>)
    ensures Coherent(cur, a + b) <==> Coherent(cur, a) && Coherent(LastStarted(cur, a), b)
    ensures LastStarted(cur, a + b) == LastStarted(LastStarted(cur, a), b)
    decreases |a|
  {
    if a == [] {
      assert a + b == b;
    } else {
      assert (a + b)[0] == a[0] && (a + b)[1..] == a[1..] + b;
      CoherentConcat(if a[0].Started? then Some(a[0].file) else cur, a[1..], b);
    }
  }

  lemma {:induction false} AllAboutOne(cur: Option<FileRef>, rs: seq<Report>)
    requires forall i :: 0 <= i < |rs| ==> rs[i].Received? && rs[i].about == cur
    ensures Coherent(cur, rs) && LastStarted(cur, rs) == cur
  {
    if rs != [] {
      AllAboutOne(cur, rs[1..]);
    }
  }

  function AboutOf(tag: Tag): Option<FileRef> {
    if tag.OfFile? then Some(tag.file) else None
  }

  lemma FetchReportsCoherently(io: Io, hash: Hash, tag: Tag)
    ensures var io' := Fetched(io, hash, tag).0;
      && io.reports <= io'.reports
      && (tag.Silent? ==> io'.reports == io.reports)
      && (forall i :: |io.reports| <= i < |io'.reports| ==> io'.reports[i].Received? && io'.reports[i].about == AboutOf(tag))
  {
  }

  // Starts and files of a download

  /** The first `m` files were started, in order, each once. */
  function StartsOf(rs: seq<Report>): seq<FileRef> {
    if rs == [] then []
    else StartsOf(rs[..|rs| - 1]) + (if rs[|rs| - 1].Started? then [rs[|rs| - 1].file] else [])
  }

  function FirstFiles(files: seq<(string, Hash)>, m: nat): (fs: seq<FileRef>)
    requires m <= |files|
    ensures |fs| == m
  {
    seq(m, i requires 0 <= i < m => FileRef(i + 1, |files|, files[i].0))
  }

  lemma {:induction false} StartsConcat(a: seq<Report>, b: seq<Report>)
    requires forall i :: 0 <= i < |b| ==> b[i].Received?
    ensures StartsOf(a + b) == StartsOf(a)
    decreases |b|
  {
    if b == [] {
      assert a + b == a;
    } else {
      var n := |b| - 1;
      assert (a + b)[..|a + b| - 1] == a + b[..n];
      StartsConcat(a, b[..n]);
    }
  }

  /** Reports while files are fetched: coherent, the started files are the first
      ones in order, and bytes are only received for started files. */
  ghost predicate FileReports(files: seq<(string, Hash)>, rs: seq<Report>, m: nat) {
    && m <= |files|
    && Coherent(None, rs)
    && LastStarted(None, rs) == (if m == 0 then None else Some(FileOf(files, m - 1)))
    && StartsOf(rs) == FirstFiles(files, m)
    && (forall i :: 0 <= i < |rs| && rs[i].Received? ==>
      exists k :: 0 <= k < m && rs[i].about == Some(FileOf(files, k)))
    && (forall i, j :: 0 <= i <= j < |rs| && rs[i].Received? && rs[j].Received? && rs[i].about.Some? && rs[j].about.Some? ==>
      rs[i].about.value.index <= rs[j].about.value.index)
  }

  lemma StartKeepsFileReports(files: seq<(string, Hash)>, rs: seq<Report>, m: nat)
    requires FileReports(files, rs, m) && m < |files|
    ensures FileReports(files, rs + [Started(FileOf(files, m))], m + 1)
  {
    var s := [Started(FileOf(files, m))];
    CoherentConcat(None, rs, s);
    assert s[1..] == [];
    assert (rs + s)[..|rs|] == rs;
    assert FirstFiles(files, m + 1) == FirstFiles(files, m) + [FileOf(files, m)];
    forall i | 0 <= i < |rs + s| && (rs + s)[i].Received?
      ensures exists k :: 0 <= k < m + 1 && (rs + s)[i].about == Some(FileOf(files, k))
    {
      var k :| 0 <= k < m && rs[i].about == Some(FileOf(files, k));
    }
  }

  lemma BytesKeepFileReports(files: seq<(string, Hash)>, rs: seq<Report>, m: nat, more: seq<Report>)
    requires FileReports(files, rs, m) && m > 0
    requires forall i :: 0 <= i < |more| ==> more[i].Received? && more[i].about == Some(FileOf(files, m - 1))
    ensures FileReports(files, rs + more, m)
  {
    CoherentConcat(None, rs, more);
    AllAboutOne(Some(FileOf(files, m - 1)), more);
    StartsConcat(rs, more);
    forall i | 0 <= i < |rs + more| && (rs + more)[i].Received?
      ensures exists k :: 0 <= k < m && (rs + more)[i].about == Some(FileOf(files, k))
    {
      if i < |rs| {
        var k :| 0 <= k < m && rs[i].about == Some(FileOf(files, k));
      } else {
        assert (rs + more)[i] == more[i - |rs|];
      }
    }
  }

  /** How many files have been started when `n` of them were fetched. */
  function StartedCount(files: seq<(string, Hash)>, ok: bool, n: nat): nat {
    if ok then n else n + 1
  }

  lemma {:induction false} FetchFilesReports(io: Io, files: seq<(string, Hash)>, k: nat)
    requires k <= |files| && FileReports(files, io.reports, k)
    ensures var (io', ok, n) := FetchedFiles(io, files, k);
      && n <= |files| && (ok <==> n == |files|)
      && FileReports(files, io'.reports, StartedCount(files, ok, n))
    decreases |files| - k
  {
    hide FileReports, Fetched;
    if k < |files| {
      var started := io.(reports := io.reports + [Started(FileOf(files, k))]);
      StartKeepsFileReports(files, io.reports, k);
      var tag := OfFile(FileOf(files, k));
      FetchReportsCoherently(started, files[k].1, tag);
      var (next, ok) := Fetched(started, files[k].1, tag);
      var more := next.reports[|started.reports|..];
      assert next.reports == started.reports + more;
      BytesKeepFileReports(files, started.reports, k + 1, more);
      if ok {
        FetchFilesReports(next, files, k + 1);
      }
    }
  }

  /** A collection download reports the start of files 1, 2, 3... once each and
      in order, all of them if it succeeds; root and metadata stay silent. */
  lemma CollectionReports(io: Io, roots: Hash -> Root, hash: Hash, exported: bool)
    requires io.reports == []
    ensures var (io', ok, n) := Downloaded(io, roots, hash, HashSeq, exported);
      match roots(hash)
      case Collection(_, files) =>
        && n <= |files| && (ok ==> n == |files|)
        && exists m: nat :: FileReports(files, io'.reports, m) && m <= n + 1 && (n == |files| ==> m == n)
      case _ => io'.reports == []
  {
    FetchReportsCoherently(io, hash, Silent);
    var a := Fetched(io, hash, Silent).0;
    if roots(hash).Unloadable? {
      FetchReportsCoherently(a, roots(hash).meta, Silent);
    }
    if roots(hash).Collection? {
      var Collection(meta, files) := roots(hash);
      assert FileReports(files, [], 0);
      FetchReportsCoherently(a, meta, Silent);
      var b := Fetched(a, meta, Silent).0;
      FetchFilesReports(b, files, 0);
      var (c, ok, n) := FetchedFiles(b, files, 0);
      assert FileReports(files, c.reports, StartedCount(files, ok, n));
    }
  }

  // The command line

  /** The file whose bytes arrive, and the completion lines printed so far. */
  datatype Cli = Cli(current: Option<FileRef>, printed: seq<FileRef>)

  const CLI_START := Cli(None, [])

  function Completed(c: Cli): seq<FileRef> {
    c.printed + (if c.current.Some? then [c.current.value] else [])
  }

  function FileOfEvent(e: Event): Option<FileRef> {
    if e.kind.FileProgress? then Some(FileRef(e.kind.fileIndex, e.kind.fileTotal, e.kind.fileName)) else None
  }

  function CliStep(c: Cli, e: Event): Cli {
    match e.kind
    case FileProgress(i, _, _, _, _) =>
      if c.current.Some? && c.current.value.index == i then c else Cli(FileOfEvent(e), Completed(c))
    case Done => Cli(None, Completed(c))
    case Error(_) => Cli(None, c.printed)
    case _ => c
  }

  function CliRun(events: seq<Event>): Cli {
    if events == [] then CLI_START else CliStep(CliRun(events[..|events| - 1]), events[|events| - 1])
  }

  lemma CliRunMore(events: seq<Event>, e: Event)
    ensures CliRun(events + [e]) == CliStep(CliRun(events), e)
  {
    assert (events + [e])[..|events|] == events;
  }

  /** The event closure of `rdrop receive`. */
  class ReceiveCli {
    var current: Option<FileRef>
    var printed: seq<FileRef>
    ghost var seen: seq<Event>

    ghost predicate Valid()
      reads this
    {
      Cli(current, printed) == CliRun(seen)
    }

    constructor ()
      ensures Valid() && seen == []
    {
      current, printed, seen := None, [], [];
    }

    method OnEvent(e: Event)
      requires Valid()
      modifies this
      ensures Valid() && seen == old(seen) + [e]
    {
      hide CliRun;
      match e.kind {
        case FileProgress(index, count, name, _, _) =>
          if current.None? || current.value.index != index {
            if current.Some? {
              printed := printed + [current.value];
            }
            current := Some(FileRef(index, count, name));
          }
        case Done =>
          if current.Some? {
            printed, current := printed + [current.value], None;
          }
        case Error(_) => current := None;
        case _ =>
      }
      CliRunMore(seen, e);
      seen := seen + [e];
    }
  }

  /** Terminal events come last, file events in ascending file order. */
  ghost predicate Orderly(events: seq<Event>) {
    && (forall i :: 0 <= i < |events| - 1 ==> !IsTerminal(events[i]))
    && (forall i, j :: 0 <= i <= j < |events| && FileOfEvent(events[i]).Some? && FileOfEvent(events[j]).Some? ==>
      && FileOfEvent(events[i]).value.index <= FileOfEvent(events[j]).value.index
      && (FileOfEvent(events[i]).value.index == FileOfEvent(events[j]).value.index ==>
        FileOfEvent(events[i]) == FileOfEvent(events[j])))
  }

  ghost predicate Mentions(events: seq<Event>, f: FileRef) {
    exists i :: 0 <= i < |events| && FileOfEvent(events[i]) == Some(f)
  }

  /** A later file has begun, or the transfer is done. */
  ghost predicate Overtaken(events: seq<Event>, f: FileRef) {
    || (events != [] && events[|events| - 1].kind.Done?)
    || exists i :: 0 <= i < |events| && FileOfEvent(events[i]).Some? && FileOfEvent(events[i]).value.index > f.index
  }

  predicate StrictlyAscending(fs: seq<FileRef>) {
    forall i, j :: 0 <= i < j < |fs| ==> fs[i].index < fs[j].index
  }

  ghost predicate CliInv(events: seq<Event>, c: Cli) {
    && StrictlyAscending(Completed(c))
    && (forall f :: f in Completed(c) ==> Mentions(events, f))
    && (forall f :: f in c.printed ==> Overtaken(events, f))
    && (c.current.Some? ==> forall i :: 0 <= i < |events| && FileOfEvent(events[i]).Some? ==>
      FileOfEvent(events[i]).value.index <= c.current.value.index)
    && (events != [] && IsTerminal(events[|events| - 1]) ==> c.current.None?)
    && (events == [] || !IsTerminal(events[|events| - 1]) ==> c.current.Some? || c.printed == [])
    && (events == [] || !events[|events| - 1].kind.Error? ==>
      forall f :: Mentions(events, f) ==> f in Completed(c))
  }

  /** Over every orderly stream: each file gets one line at most, in ascending
      order, only after a later file has begun or the transfer is done, and
      after Done every file that was mentioned has its line. */
  lemma {:induction false} CliPrintsOrderly(events: seq<Event>)
    requires Orderly(events)
    ensures CliInv(events, CliRun(events))
  {
    if events != [] {
      var n := |events| - 1;
      CliPrintsOrderly(events[..n]);
      CliStepKeepsInv(events[..n], events[n], CliRun(events[..n]));
      assert events == events[..n] + [events[n]];
    }
  }

  lemma MentionsMore(events: seq<Event>, e: Event, f: FileRef)
    ensures Mentions(events + [e], f) <==> Mentions(events, f) || FileOfEvent(e) == Some(f)
  {
    if Mentions(events, f) {
      var i :| 0 <= i < |events| && FileOfEvent(events[i]) == Some(f);
      assert (events + [e])[i] == events[i];
    }
    if FileOfEvent(e) == Some(f) {
      assert (events + [e])[|events|] == e;
    }
  }

  lemma OvertakenMore(events: seq<Event>, e: Event, f: FileRef)
    requires Overtaken(events, f) && Orderly(events + [e])
    ensures Overtaken(events + [e], f)
  {
    assert forall i :: 0 <= i < |events| ==> (events + [e])[i] == events[i];
    assert events != [] ==> !IsTerminal(events[|events| - 1]);
  }

  lemma CliStepKeepsInv(events: seq<Event>, e: Event, c: Cli)
    requires Orderly(events + [e]) && CliInv(events, c)
    ensures CliInv(events + [e], CliStep(c, e))
  {
    if e.kind.FileProgress? {
      FileStepKeepsInv(events, e, c);
    } else {
      OtherStepKeepsInv(events, e, c);
    }
  }

  lemma FileStepKeepsInv(events: seq<Event>, e: Event, c: Cli)
    requires Orderly(events + [e]) && CliInv(events, c) && e.kind.FileProgress?
    ensures CliInv(events + [e], CliStep(c, e))
  {
    hide Orderly, StrictlyAscending, Mentions, Overtaken;
    StepIsHeard(events, e, c);
    EarlierFilesAreNotAbove(events, e);
    if c.current.Some? && c.current.value.index == e.kind.fileIndex {
      SameFileAgain(events, e, c.current.value);
    } else {
      NextFileBegins(events, e, c);
    }
  }

  lemma OtherStepKeepsInv(events: seq<Event>, e: Event, c: Cli)
    requires Orderly(events + [e]) && CliInv(events, c) && !e.kind.FileProgress?
    ensures CliInv(events + [e], CliStep(c, e))
  {
    hide Orderly, StrictlyAscending, Mentions, Overtaken;
    StepIsHeard(events, e, c);
    CompletedAscending(c);
    if e.kind.Done? {
      forall f | f in Completed(c) ensures Overtaken(events + [e], f) {
        DoneOvertakes(events, e, f);
      }
    }
  }

  /** What one more event does to the files mentioned and overtaken. */
  lemma StepIsHeard(events: seq<Event>, e: Event, c: Cli)
    requires Orderly(events + [e]) && CliInv(events, c)
    ensures forall f :: Mentions(events + [e], f) <==> Mentions(events, f) || FileOfEvent(e) == Some(f)
    ensures forall f :: f in c.printed ==> Overtaken(events + [e], f)
    ensures events != [] ==> !IsTerminal(events[|events| - 1])
    ensures forall i :: 0 <= i < |events| ==> (events + [e])[i] == events[i]
  {
    assert events != [] ==> (events + [e])[|events| - 1] == events[|events| - 1];
    forall f: FileRef
      ensures Mentions(events + [e], f) <==> Mentions(events, f) || FileOfEvent(e) == Some(f)
    {
      MentionsMore(events, e, f);
    }
    forall f | f in c.printed ensures Overtaken(events + [e], f) {
      OvertakenMore(events, e, f);
    }
  }

  lemma DoneOvertakes(events: seq<Event>, e: Event, f: FileRef)
    requires e.kind.Done?
    ensures Overtaken(events + [e], f)
  {
    assert (events + [e])[|events|] == e;
  }

  lemma EarlierFilesAreNotAbove(events: seq<Event>, e: Event)
    requires Orderly(events + [e]) && e.kind.FileProgress?
    ensures forall i :: 0 <= i < |events| && FileOfEvent(events[i]).Some? ==>
      FileOfEvent(events[i]).value.index <= e.kind.fileIndex
    ensures forall f :: Mentions(events, f) ==> f.index <= e.kind.fileIndex
  {
    var events' := events + [e];
    assert events'[|events|] == e;
    forall i | 0 <= i < |events| && FileOfEvent(events[i]).Some?
      ensures FileOfEvent(events[i]).value.index <= e.kind.fileIndex
    {
      assert events'[i] == events[i];
    }
  }

  /** Ending a transfer with or without the line of the current file. */
  lemma CompletedAscending(c: Cli)
    requires StrictlyAscending(Completed(c))
    ensures StrictlyAscending(Completed(Cli(None, Completed(c)))) && StrictlyAscending(Completed(Cli(None, c.printed)))
    ensures Completed(Cli(None, Completed(c))) == Completed(c)
  {
    assert Completed(c) + [] == Completed(c) && c.printed + [] == c.printed;
    assert forall i :: 0 <= i < |c.printed| ==> Completed(c)[i] == c.printed[i];
  }

  lemma SameFileAgain(events: seq<Event>, e: Event, f: FileRef)
    requires Orderly(events + [e]) && Mentions(events, f)
    requires e.kind.FileProgress? && e.kind.fileIndex == f.index
    ensures FileOfEvent(e) == Some(f)
  {
    var i :| 0 <= i < |events| && FileOfEvent(events[i]) == Some(f);
    assert (events + [e])[i] == events[i] && (events + [e])[|events|] == e;
  }

  /** Every file seen so far is below that of an event which is about another
      file than the current one. */
  lemma NextFileBegins(events: seq<Event>, e: Event, c: Cli)
    requires Orderly(events + [e]) && CliInv(events, c)
    requires e.kind.FileProgress? && (c.current.Some? ==> c.current.value.index != e.kind.fileIndex)
    requires events != [] ==> !IsTerminal(events[|events| - 1])
    ensures StrictlyAscending(Completed(CliStep(c, e)))
    ensures forall g :: g in Completed(c) ==> Overtaken(events + [e], g)
  {
    hide Orderly, Overtaken;
    EarlierFilesAreNotAbove(events, e);
    var done, n := Completed(c), |Completed(c)| - 1;
    assert c.current.Some? ==> done[n] == c.current.value && Mentions(events, done[n]);
    forall g | g in done ensures g.index < e.kind.fileIndex && Overtaken(events + [e], g) {
      var k :| 0 <= k < |done| && done[k] == g;
      assert k <= n;
      OvertakenBy(events, e, g);
    }
  }

  lemma OvertakenBy(events: seq<Event>, e: Event, g: FileRef)
    requires e.kind.FileProgress? && g.index < e.kind.fileIndex
    ensures Overtaken(events + [e], g)
  {
    assert (events + [e])[|events|] == e;
  }

  // The whole pipeline

  ghost predicate HeardOf(rs: seq<Report>, f: FileRef) {
    exists i :: 0 <= i < |rs| && rs[i].Received? && rs[i].about == Some(f)
  }

  predicate AllTagged(rs: seq<Report>) {
    forall i :: 0 <= i < |rs| && rs[i].Received? ==> rs[i].about.Some?
  }

  /** The file of an event is that of some report, and conversely. */
  lemma {:induction false} TrueEventsMentionHeard(id: Uuid, rs: seq<Report>)
    requires AllTagged(rs)
    ensures forall f :: HeardOf(rs, f) <==> Mentions(TrueEvents(id, rs), f)
    ensures forall i :: 0 <= i < |TrueEvents(id, rs)| ==> FileOfEvent(TrueEvents(id, rs)[i]).Some?
    decreases |rs|
  {
    if rs != [] {
      TrueEventsMentionHeard(id, rs[1..]);
      HeardOfTail(rs);
      var es, later := TrueEvents(id, rs), TrueEvents(id, rs[1..]);
      if rs[0].Received? {
        var f := rs[0].about.value;
        assert es == [Event(id, ProgressKind(Some(f), rs[0].done, rs[0].total))] + later;
        assert FileOfEvent(es[0]) == Some(f) && es[1..] == later;
        MentionsFirst(es);
      } else {
        assert es == later;
      }
    }
  }

  predicate AscendingFiles(es: seq<Event>) {
    && (forall i :: 0 <= i < |es| ==> FileOfEvent(es[i]).Some?)
    && forall i, j :: 0 <= i <= j < |es| ==> FileOfEvent(es[i]).value.index <= FileOfEvent(es[j]).value.index
  }

  predicate AscendingReports(rs: seq<Report>) {
    && AllTagged(rs)
    && forall i, j :: 0 <= i <= j < |rs| && rs[i].Received? && rs[j].Received? ==>
      rs[i].about.value.index <= rs[j].about.value.index
  }

  lemma TailAscends(rs: seq<Report>)
    requires rs != [] && AscendingReports(rs)
    ensures AscendingReports(rs[1..])
  {
    assert forall i :: 0 <= i < |rs[1..]| ==> rs[1..][i] == rs[i + 1];
  }

  predicate NoneBelow(n: nat, es: seq<Event>) {
    forall j :: 0 <= j < |es| ==> FileOfEvent(es[j]).Some? && n <= FileOfEvent(es[j]).value.index
  }

  lemma ConsAscends(e: Event, later: seq<Event>)
    requires AscendingFiles(later) && FileOfEvent(e).Some? && NoneBelow(FileOfEvent(e).value.index, later)
    ensures AscendingFiles([e] + later)
  {
  }

  lemma {:induction false} TrueEventsAscend(id: Uuid, rs: seq<Report>)
    requires AscendingReports(rs)
    ensures AscendingFiles(TrueEvents(id, rs))
    decreases |rs|
  {
    if rs != [] {
      TailAscends(rs);
      TrueEventsAscend(id, rs[1..]);
      var later := TrueEvents(id, rs[1..]);
      if rs[0].Received? {
        FirstIsLeast(id, rs);
        var e := Event(id, ProgressKind(rs[0].about, rs[0].done, rs[0].total));
        assert FileOfEvent(e) == rs[0].about;
        ConsAscends(e, later);
      } else {
        assert TrueEvents(id, rs) == later;
      }
    }
  }

  lemma FirstIsLeast(id: Uuid, rs: seq<Report>)
    requires rs != [] && rs[0].Received? && AscendingReports(rs)
    ensures NoneBelow(rs[0].about.value.index, TrueEvents(id, rs[1..]))
  {
    var later, tail := TrueEvents(id, rs[1..]), rs[1..];
    assert forall i :: 0 <= i < |tail| ==> tail[i] == rs[i + 1];
    TrueEventsMentionHeard(id, tail);
    forall j | 0 <= j < |later|
      ensures FileOfEvent(later[j]).Some? && rs[0].about.value.index <= FileOfEvent(later[j]).value.index
    {
      var f := FileOfEvent(later[j]).value;
      assert Mentions(later, f);
      var i :| 0 <= i < |tail| && tail[i].Received? && tail[i].about == Some(f);
      assert rs[i + 1] == tail[i];
    }
  }

  lemma HeardOfTail(rs: seq<Report>)
    requires rs != []
    ensures forall f :: HeardOf(rs, f) <==> (rs[0].Received? && rs[0].about == Some(f)) || HeardOf(rs[1..], f)
  {
    forall f ensures HeardOf(rs, f) <==> (rs[0].Received? && rs[0].about == Some(f)) || HeardOf(rs[1..], f) {
      if HeardOf(rs[1..], f) {
        var i :| 0 <= i < |rs[1..]| && rs[1..][i].Received? && rs[1..][i].about == Some(f);
        assert rs[i + 1] == rs[1..][i];
      }
      if HeardOf(rs, f) {
        var i :| 0 <= i < |rs| && rs[i].Received? && rs[i].about == Some(f);
        assert i > 0 ==> rs[1..][i - 1] == rs[i];
      }
    }
  }

  lemma MentionsFirst(es: seq<Event>)
    requires es != []
    ensures forall f :: Mentions(es, f) <==> FileOfEvent(es[0]) == Some(f) || Mentions(es[1..], f)
  {
    forall f ensures Mentions(es, f) <==> FileOfEvent(es[0]) == Some(f) || Mentions(es[1..], f) {
      if Mentions(es[1..], f) {
        var i :| 0 <= i < |es[1..]| && FileOfEvent(es[1..][i]) == Some(f);
        assert es[i + 1] == es[1..][i];
      }
      if Mentions(es, f) {
        var i :| 0 <= i < |es| && FileOfEvent(es[i]) == Some(f);
        assert i > 0 ==> es[1..][i - 1] == es[i];
      }
    }
  }

  /** `f` is one of the first `m` files. */
  ghost predicate Among(files: seq<(string, Hash)>, m: nat, f: FileRef) {
    exists k :: 0 <= k < m <= |files| && f == FileRef(k + 1, |files|, files[k].0)
  }

  /** The answer to a receive of a collection, of which `m` files were started. */
  ghost predicate AnswerShape(
    answer: seq<Event>, id: Uuid, lines: seq<string>, middle: seq<Event>, error: Option<string>,
    files: seq<(string, Hash)>, m: nat)
  {
    && answer == LineEvents(id, lines) + middle + Ending(id, error)
    && AscendingFiles(middle)
    && forall f :: Mentions(middle, f) ==> Among(files, m, f)
  }

  lemma AnswerHasShape(
    answer: seq<Event>, id: Uuid, lines: seq<string>, rs: seq<Report>, error: Option<string>,
    files: seq<(string, Hash)>, m: nat)
    requires FileReports(files, rs, m)
    requires answer == LineEvents(id, lines) + Forward(id, None, StripAll(rs)) + Ending(id, error)
    ensures AnswerShape(answer, id, lines, TrueEvents(id, rs), error, files, m)
    ensures forall f :: HeardOf(rs, f) <==> Mentions(TrueEvents(id, rs), f)
  {
    CoherentReportsAreTaggedRight(id, None, rs);
    TrueEventsAscend(id, rs);
    TrueEventsMentionHeard(id, rs);
    forall f | HeardOf(rs, f) ensures Among(files, m, f) {
      var i :| 0 <= i < |rs| && rs[i].Received? && rs[i].about == Some(f);
      var k :| 0 <= k < m && rs[i].about == Some(FileOf(files, k));
    }
  }

  /** Where the file events of an answer are. */
  lemma FileEventsOfAnswer(
    answer: seq<Event>, id: Uuid, lines: seq<string>, middle: seq<Event>, error: Option<string>,
    files: seq<(string, Hash)>, m: nat, i: nat)
    requires AnswerShape(answer, id, lines, middle, error, files, m) && i < |answer|
    ensures FileOfEvent(answer[i]).Some? ==>
      |lines| <= i < |lines| + |middle| && answer[i] == middle[i - |lines|] && Among(files, m, FileOfEvent(answer[i]).value)
    ensures IsTerminal(answer[i]) ==> i == |answer| - 1 && (answer[i].kind.Done? <==> error.None?)
  {
    hide Among;
    if |lines| <= i < |lines| + |middle| {
      assert answer[i] == middle[i - |lines|];
      assert Mentions(middle, FileOfEvent(answer[i]).value);
    } else if i < |lines| {
      assert answer[i] == Event(id, Line(lines[i]));
    } else {
      assert answer[i] == Ending(id, error)[i - |lines| - |middle|];
    }
  }

  lemma AnswerIsOrderly(
    answer: seq<Event>, id: Uuid, lines: seq<string>, middle: seq<Event>, error: Option<string>,
    files: seq<(string, Hash)>, m: nat, events: seq<Event>)
    requires AnswerShape(answer, id, lines, middle, error, files, m) && events <= answer
    ensures Orderly(events)
  {
    forall i | 0 <= i < |events| - 1 ensures !IsTerminal(events[i]) {
      FileEventsOfAnswer(answer, id, lines, middle, error, files, m, i);
    }
    forall i, j | 0 <= i <= j < |events| && FileOfEvent(events[i]).Some? && FileOfEvent(events[j]).Some?
      ensures FileOfEvent(events[i]).value.index <= FileOfEvent(events[j]).value.index
      ensures FileOfEvent(events[i]).value.index == FileOfEvent(events[j]).value.index ==>
          FileOfEvent(events[i]) == FileOfEvent(events[j])
    {
      FileEventsOfAnswer(answer, id, lines, middle, error, files, m, i);
      FileEventsOfAnswer(answer, id, lines, middle, error, files, m, j);
    }
  }

  /** A line is printed only for a file before the last one started, or for any
      started file once the transfer has succeeded. */
  lemma PrintedFilesWereFetched(
    answer: seq<Event>, id: Uuid, lines: seq<string>, middle: seq<Event>, error: Option<string>,
    files: seq<(string, Hash)>, m: nat, events: seq<Event>, f: FileRef)
    requires AnswerShape(answer, id, lines, middle, error, files, m) && events <= answer
    requires f in CliRun(events).printed
    ensures Among(files, m, f) && (error.Some? ==> f.index < m)
  {
    hide AnswerShape, CliRun;
    AnswerIsOrderly(answer, id, lines, middle, error, files, m, events);
    CliPrintsOrderly(events);
    assert f in Completed(CliRun(events));
    var i :| 0 <= i < |events| && FileOfEvent(events[i]) == Some(f);
    FileEventsOfAnswer(answer, id, lines, middle, error, files, m, i);
    if events[|events| - 1].kind.Done? {
      FileEventsOfAnswer(answer, id, lines, middle, error, files, m, |events| - 1);
    } else {
      var j :| 0 <= j < |events| && FileOfEvent(events[j]).Some? && FileOfEvent(events[j]).value.index > f.index;
      FileEventsOfAnswer(answer, id, lines, middle, error, files, m, j);
    }
  }

  lemma AllPrintedAfterDone(
    answer: seq<Event>, id: Uuid, lines: seq<string>, middle: seq<Event>,
    files: seq<(string, Hash)>, m: nat, f: FileRef)
    requires AnswerShape(answer, id, lines, middle, None, files, m)
    ensures f in CliRun(answer).printed <==> Mentions(middle, f)
  {
    AnswerIsOrderly(answer, id, lines, middle, None, files, m, answer);
    CliPrintsOrderly(answer);
    var n := |answer| - 1;
    assert answer[n] == Event(id, Done);
    assert Completed(CliRun(answer)) == CliRun(answer).printed;
    if Mentions(middle, f) {
      var i :| 0 <= i < |middle| && FileOfEvent(middle[i]) == Some(f);
      assert answer[|lines| + i] == middle[i];
    }
    if Mentions(answer, f) {
      var i :| 0 <= i < |answer| && FileOfEvent(answer[i]) == Some(f);
      FileEventsOfAnswer(answer, id, lines, middle, None, files, m, i);
    }
  }

  /** The connection answers a receive of a collection, and what its transfer
      reported and how it ended is what this download did. */
  ghost predicate Receives(c: Conn, io: Io, roots: Hash -> Root, hash: Hash, exported: bool) {
    && c.request.Some? && c.request.value.op.Receive? && c.request.value.outcomes.destination.Ok?
    && roots(hash).Collection? && io.reports == [] && io.steps == []
    && var (io', ok, _) := Downloaded(io, roots, hash, HashSeq, exported);
      && c.request.value.outcomes.transfer == StripAll(io'.reports)
      && (c.request.value.outcomes.transferError.None? <==> ok)
  }

  /** From the network to the terminal, at every moment of every run of the
      server: completion lines come in ascending file order, each file has at
      most one, and only a file whose fetch succeeded has one, also when a later
      file fails. Such a file is complete in the store, except exactly if it was
      missing before, a sender announced it with a size of zero and none sent it
      whole. After a successful transfer exactly the files of which bytes
      were reported have theirs. */
  lemma CompletionLines(s: State, i: nat, io: Io, roots: Hash -> Root, hash: Hash, exported: bool)
    requires Reachable(s) && i < |s.conns| && Receives(s.conns[i], io, roots, hash, exported)
    ensures s.conns[i].read <= |s.conns[i].wire|
    ensures var c := s.conns[i];
      var printed := CliRun(ReadSoFar(c)).printed;
      var (io', ok, n) := Downloaded(io, roots, hash, HashSeq, exported);
      var files := roots(hash).files;
      && StrictlyAscending(printed)
      && (forall f :: f in printed ==> Among(files, n, f))
      && (forall k :: 0 <= k < |files| && FileRef(k + 1, |files|, files[k].0) in printed ==>
        var h, asked := files[k].1, Requests(io'.steps);
        h !in io'.complete <==> h !in io.complete && WasEmpty(io.net, asked, h) && !WasDelivered(io.net, asked, h))
      && (c.client.Finished? && ok ==> forall f :: f in printed <==> HeardOf(io'.reports, f))
  {
    hide Reachable, Downloaded, Answer, CliRun, AnswerShape, FileReports, HeardOf, TrueEvents, WasEmpty, WasDelivered, Requests;
    var c := s.conns[i];
    var r, files := c.request.value, roots(hash).files;
    var (io', ok, n) := Downloaded(io, roots, hash, HashSeq, exported);
    ClientsReadTheirAnswer(s, i);
    CollectionReports(io, roots, hash, exported);
    var m: nat :| FileReports(files, io'.reports, m) && m <= n + 1 && (n == |files| ==> m == n);
    var lines, error := r.outcomes.destination.value, r.outcomes.transferError;
    ReceiveAnswer(r);
    AnswerHasShape(Answer(r), r.id, lines, io'.reports, error, files, m);
    var middle, events := TrueEvents(r.id, io'.reports), ReadSoFar(c);
    AnswerIsOrderly(Answer(r), r.id, lines, middle, error, files, m, events);
    PrintedAscending(events);
    forall f | f in CliRun(events).printed ensures Among(files, n, f) {
      PrintedFilesWereFetched(Answer(r), r.id, lines, middle, error, files, m, events, f);
    }
    forall k | 0 <= k < |files| && FileRef(k + 1, |files|, files[k].0) in CliRun(events).printed
      ensures files[k].1 !in io'.complete <==>
        && files[k].1 !in io.complete
        && WasEmpty(io.net, Requests(io'.steps), files[k].1) && !WasDelivered(io.net, Requests(io'.steps), files[k].1)
    {
      assert Among(files, n, FileRef(k + 1, |files|, files[k].0));
      FetchedFileMissingIff(io, roots, hash, exported, k);
    }
    if c.client.Finished? && ok {
      forall f ensures f in CliRun(events).printed <==> HeardOf(io'.reports, f) {
        AllPrintedAfterDone(Answer(r), r.id, lines, middle, files, m, f);
      }
    }
  }

  lemma PrintedAscending(events: seq<Event>)
    requires Orderly(events)
    ensures StrictlyAscending(CliRun(events).printed)
  {
    CliPrintsOrderly(events);
    CompletedAscending(CliRun(events));
    assert CliRun(events).printed + [] == CliRun(events).printed;
  }
}
