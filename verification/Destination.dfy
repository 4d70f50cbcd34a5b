/** Where a received file or directory goes: what `rdrop receive` announces,
    which directories it creates, and what the export then writes. */
module Destination {
  import opened Common

  /** The components from the root of the file system down. */
  type Place = seq<string>

  datatype Entry = Folder | File(content: Hash)

  type Tree = map<Place, Entry>

  function Parent(p: Place): Place
    requires p != []
  {
    p[..|p| - 1]
  }

  /** Everything lies in a folder. */
  ghost predicate IsTree(t: Tree) {
    && [] in t && t[[]].Folder?
    && forall p :: p in t && p != [] ==> Parent(p) in t && t[Parent(p)].Folder?
  }

  // Paths as they are written

  datatype PathText = PathText(rooted: bool, parts: seq<string>)

  const EMPTY := PathText(false, [])
  const CURRENT := PathText(false, ["."])

  function Join(p: PathText, name: string): PathText {
    p.(parts := p.parts + [name])
  }

  function WithoutDots(parts: seq<string>): Place {
    if parts == [] then []
    else if parts[0] == "." then WithoutDots(parts[1..])
    else [parts[0]] + WithoutDots(parts[1..])
  }

  function At(cwd: Place, p: PathText): Place {
    (if p.rooted then [] else cwd) + WithoutDots(p.parts)
  }

  function ExpandTilde(p: PathText, home: Option<PathText>): PathText {
    if home.Some? && !p.rooted && p.parts != [] && p.parts[0] == "~"
    then home.value.(parts := home.value.parts + p.parts[1..])
    else p
  }

  predicate Exists(t: Tree, cwd: Place, p: PathText) {
    p != EMPTY && At(cwd, p) in t
  }

  predicate IsDir(t: Tree, cwd: Place, p: PathText) {
    Exists(t, cwd, p) && t[At(cwd, p)].Folder?
  }

  // Resolving and checking the destination

  datatype Resolved = Explicit(path: PathText) | Directory(dir: PathText)

  datatype DestError = EmptyDest | NotADirectory | AlreadyExists | CannotCreate

  /** The configured directory, `~` expanded, or the current one. */
  function ReceiveDir(defaultDir: Option<PathText>, home: Option<PathText>): PathText {
    if defaultDir.Some? && defaultDir.value != EMPTY then ExpandTilde(defaultDir.value, home) else CURRENT
  }

  function ResolveDest(
    dest: Option<PathText>, defaultDir: Option<PathText>, home: Option<PathText>): Result<Resolved, DestError> {
    match dest
    case Some(d) => if d == EMPTY then Err(EmptyDest) else Ok(Explicit(d))
    case None => Ok(Directory(ReceiveDir(defaultDir, home)))
  }

  function RejectExisting(t: Tree, cwd: Place, expected: PathText, force: bool): Result<PathText, DestError> {
    if Exists(t, cwd, expected) && !force then Err(AlreadyExists) else Ok(expected)
  }

  /** The path that is announced; `name` is the ticket's name or the hash. */
  function Check(t: Tree, cwd: Place, resolved: Resolved, name: string, force: bool): Result<PathText, DestError> {
    match resolved
    case Explicit(d) => RejectExisting(t, cwd, if IsDir(t, cwd, d) then Join(d, name) else d, force)
    case Directory(d) =>
      if Exists(t, cwd, d) && !IsDir(t, cwd, d) then Err(NotADirectory)
      else RejectExisting(t, cwd, Join(d, name), force)
  }

  /** A directory with all its missing ancestors. */
  function MadeDirs(t: Tree, p: Place): (Tree, bool) {
    if p in t then (t, t[p].Folder?)
    else if p == [] then (t, false)
    else
      var (up, ok) := MadeDirs(t, Parent(p));
      if ok then (up[p := Folder], true) else (up, false)
  }

  function Announced(
    t: Tree, cwd: Place, dest: Option<PathText>, defaultDir: Option<PathText>, home: Option<PathText>,
    name: string, force: bool): (Tree, Result<PathText, DestError>)
  {
    match ResolveDest(dest, defaultDir, home)
    case Err(e) => (t, Err(e))
    case Ok(resolved) =>
      match Check(t, cwd, resolved, name, force)
      case Err(e) => (t, Err(e))
      case Ok(path) =>
        if resolved.Explicit? || resolved.dir == EMPTY then (t, Ok(path))
        else
          var (made, ok) := MadeDirs(t, At(cwd, resolved.dir));
          (made, if ok then Ok(path) else Err(CannotCreate))
  }

  // Export

  function ExportPath(t: Tree, cwd: Place, dest: PathText, name: string): PathText {
    if IsDir(t, cwd, dest) then Join(dest, name) else dest
  }

  /** One file, written or not (`luck`); it replaces a file, never a folder. */
  function Written(t: Tree, p: Place, content: Hash, luck: bool): (Tree, bool) {
    if !luck || p == [] then (t, false)
    else
      var (made, ok) := MadeDirs(t, Parent(p));
      if !ok || (p in made && made[p].Folder?) then (made, false)
      else (made[p := File(content)], true)
  }

  datatype Item = Item(name: Place, content: Hash, luck: bool)

  function WrittenItems(t: Tree, root: Place, items: seq<Item>): (Tree, bool) {
    if items == [] then (t, true)
    else
      var (before, ok) := WrittenItems(t, root, items[..|items| - 1]);
      var last := items[|items| - 1];
      if ok then Written(before, root + last.name, last.content, last.luck) else (before, false)
  }

  /** What is exported: one file, or the files of a collection. */
  datatype Payload = RawFile(content: Hash, luck: bool) | Files(items: seq<Item>)

  function Exported(t: Tree, target: Place, payload: Payload): (Tree, bool) {
    match payload
    case RawFile(content, luck) => Written(t, target, content, luck)
    case Files(items) =>
      var (made, ok) := MadeDirs(t, target);
      if ok then WrittenItems(made, target, items) else (made, false)
  }

  // The file system

  class FileSystem {
    var tree: Tree
    const cwd: Place

    constructor (tree: Tree, cwd: Place)
      ensures this.tree == tree && this.cwd == cwd
    {
      this.tree, this.cwd := tree, cwd;
    }

    method CreateDirAll(p: Place) returns (ok: bool)
      modifies this
      ensures (tree, ok) == MadeDirs(old(tree), p)
      decreases |p|
    {
      if p in tree {
        return tree[p].Folder?;
      }
      if p == [] {
        return false;
      }
      ok := CreateDirAll(Parent(p));
      if ok {
        tree := tree[p := Folder];
      }
    }

    /** Resolve, check, create the receive directory, announce. */
    method Announce(dest: Option<PathText>, defaultDir: Option<PathText>, home: Option<PathText>, name: string, force: bool)
      returns (announced: Result<PathText, DestError>)
      modifies this
      ensures (tree, announced) == Announced(old(tree), cwd, dest, defaultDir, home, name, force)
    {
      var resolved :- ResolveDest(dest, defaultDir, home);
      var path :- Check(tree, cwd, resolved, name, force);
      if resolved.Directory? && resolved.dir != EMPTY {
        var ok := CreateDirAll(At(cwd, resolved.dir));
        if !ok {
          return Err(CannotCreate);
        }
      }
      return Ok(path);
    }

    method Write(p: Place, content: Hash, luck: bool) returns (ok: bool)
      modifies this
      ensures (tree, ok) == Written(old(tree), p, content, luck)
    {
      if !luck || p == [] {
        return false;
      }
      ok := CreateDirAll(Parent(p));
      if !ok || (p in tree && tree[p].Folder?) {
        return false;
      }
      tree := tree[p := File(content)];
      return true;
    }

    method Export(dest: PathText, name: string, payload: Payload) returns (ok: bool)
      modifies this
      ensures (tree, ok) == Exported(old(tree), At(cwd, ExportPath(old(tree), cwd, dest, name)), payload)
    {
      var target := At(cwd, ExportPath(tree, cwd, dest, name));
      if payload.RawFile? {
        ok := Write(target, payload.content, payload.luck);
        return;
      }
      ok := CreateDirAll(target);
      if !ok {
        return;
      }
      ghost var made := tree;
      var items := payload.items;
      for i := 0 to |items|
        invariant (tree, true) == WrittenItems(made, target, items[..i])
      {
        assert items[..i + 1][..i] == items[..i];
        ok := Write(target + items[i].name, items[i].content, items[i].luck);
        if !ok {
          StopsAt(made, target, items, i + 1);
          return;
        }
      }
      assert items[..|items|] == items;
      return true;
    }
  }

  /** Nothing is written after the first failure. */
  lemma {:induction false} StopsAt(t: Tree, root: Place, items: seq<Item>, n: nat)
    requires n <= |items| && !WrittenItems(t, root, items[..n]).1
    ensures WrittenItems(t, root, items) == WrittenItems(t, root, items[..n])
  {
    if n == |items| {
      assert items[..n] == items;
    } else {
      var m := |items| - 1;
      assert items[..m][..n] == items[..n];
      StopsAt(t, root, items[..m], n);
    }
  }

  // Creating directories

  /** The place is a file, or is to lie below one. */
  ghost predicate UnderAFile(t: Tree, p: Place) {
    exists q :: q in t && q <= p && t[q].File?
  }

  lemma UnderAFileOrParent(t: Tree, p: Place)
    requires p !in t && p != []
    ensures UnderAFile(t, p) <==> UnderAFile(t, Parent(p))
  {
    if UnderAFile(t, p) {
      var q :| q in t && q <= p && t[q].File?;
      assert q != p && q <= Parent(p);
    }
    if UnderAFile(t, Parent(p)) {
      var q :| q in t && q <= Parent(p) && t[q].File?;
      assert q <= p;
    }
  }

  lemma {:induction false} NoFileBelowFolder(t: Tree, p: Place)
    requires IsTree(t) && p in t
    ensures UnderAFile(t, p) <==> t[p].File?
    decreases |p|
  {
    if UnderAFile(t, p) && !t[p].File? {
      var q :| q in t && q <= p && t[q].File?;
      assert q != p && q <= Parent(p);
      NoFileBelowFolder(t, Parent(p));
    }
  }

  lemma {:induction false} MadeDirsAddsFolders(t: Tree, p: Place)
    requires IsTree(t)
    ensures var (made, ok) := MadeDirs(t, p);
      && IsTree(made)
      && (forall q :: q in t ==> q in made && made[q] == t[q])
      && (forall q :: q in made && q !in t ==> q <= p && made[q].Folder?)
      && (ok ==> p in made && made[p].Folder?)
      && (ok <==> !UnderAFile(t, p))
    decreases |p|
  {
    if p in t {
      NoFileBelowFolder(t, p);
    } else {
      UnderAFileOrParent(t, p);
      MadeDirsAddsFolders(t, Parent(p));
    }
  }

  lemma {:induction false} DotsConcat(a: seq<string>, b: seq<string>)
    ensures WithoutDots(a + b) == WithoutDots(a) + WithoutDots(b)
  {
    if a == [] {
      assert a + b == b;
    } else {
      assert (a + b)[0] == a[0] && (a + b)[1..] == a[1..] + b;
      DotsConcat(a[1..], b);
    }
  }

  lemma JoinedPlace(cwd: Place, p: PathText, name: string)
    requires name != "."
    ensures At(cwd, Join(p, name)) == At(cwd, p) + [name]
  {
    DotsConcat(p.parts, [name]);
    assert [name][1..] == [];
  }

  /** A leading `~` stands for the home directory, and only a leading one. */
  lemma TildeIsHome(cwd: Place, p: PathText, home: Option<PathText>)
    ensures At(cwd, ExpandTilde(p, home)) ==
      if home.Some? && !p.rooted && p.parts != [] && p.parts[0] == "~"
      then At(cwd, home.value) + WithoutDots(p.parts[1..])
      else At(cwd, p)
  {
    if home.Some? && p.parts != [] {
      DotsConcat(home.value.parts, p.parts[1..]);
    }
  }

  // What is announced is what is written

  /** What creating the receive directory leaves alone: all that existed, and
      the announced path itself. */
  lemma AnnouncingCreatesAncestorsOnly(
    t: Tree, cwd: Place, dest: Option<PathText>, defaultDir: Option<PathText>, home: Option<PathText>,
    name: string, force: bool)
    requires IsTree(t) && name != "."
    ensures var (t', r) := Announced(t, cwd, dest, defaultDir, home, name, force);
      && IsTree(t')
      && (forall q :: q in t ==> q in t' && t'[q] == t[q])
      && (forall q :: q in t' && q !in t ==> t'[q].Folder?)
      && (r.Ok? ==> (
        && r.value != EMPTY
        && Exists(t', cwd, r.value) == Exists(t, cwd, r.value)
        && IsDir(t', cwd, r.value) == IsDir(t, cwd, r.value)
        && (Exists(t, cwd, r.value) ==> force)))
  {
    var resolved := ResolveDest(dest, defaultDir, home);
    if resolved.Ok? {
      var d := if resolved.value.Explicit? then resolved.value.path else resolved.value.dir;
      JoinedPlace(cwd, d, name);
      MadeDirsAddsFolders(t, At(cwd, d));
    }
  }

  /** Paths are taken from the root or from the working directory, and `.` stays
      where it is. */
  lemma PlacesOfPaths(cwd: Place, parts: seq<string>)
    requires forall i :: 0 <= i < |parts| ==> parts[i] != "."
    ensures At(cwd, PathText(true, parts)) == parts && At(cwd, PathText(false, parts)) == cwd + parts
    ensures At(cwd, PathText(false, ["."])) == cwd
  {
    assert ["."][1..] == [];
    NoDots(parts);
  }

  lemma {:induction false} NoDots(parts: seq<string>)
    requires forall i :: 0 <= i < |parts| ==> parts[i] != "."
    ensures WithoutDots(parts) == parts
  {
    if parts != [] {
      NoDots(parts[1..]);
    }
  }

  /** The place of the default directory: the configured one, with a leading tilde
      for the home directory, or the working directory. */
  function DefaultPlace(cwd: Place, defaultDir: Option<PathText>, home: Option<PathText>): Place {
    match defaultDir
    case None => cwd
    case Some(p) =>
      if p == PathText(false, []) then cwd
      else if home.Some? && !p.rooted && p.parts[0] == "~" then At(cwd, home.value) + WithoutDots(p.parts[1..])
      else At(cwd, p)
  }

  lemma ReceiveDirPlace(cwd: Place, defaultDir: Option<PathText>, home: Option<PathText>)
    ensures At(cwd, ReceiveDir(defaultDir, home)) == DefaultPlace(cwd, defaultDir, home)
  {
    PlacesOfPaths(cwd, []);
    if defaultDir.Some? {
      TildeIsHome(cwd, defaultDir.value, home);
    }
  }

  /** Where `--dest` goes, and when it is refused: an existing directory takes the
      blob inside, any other path is the path itself. */
  lemma ExplicitDestination(
    t: Tree, cwd: Place, d: PathText, defaultDir: Option<PathText>, home: Option<PathText>, name: string, force: bool)
    requires IsTree(t) && name != "."
    ensures var (t', r) := Announced(t, cwd, Some(d), defaultDir, home, name, force);
      var place := At(cwd, d);
      var target := if place in t && t[place].Folder? then place + [name] else place;
      && t' == t
      && (r == Err(EmptyDest) <==> d == PathText(false, []))
      && (r == Err(AlreadyExists) <==> d != PathText(false, []) && target in t && !force)
      && (r.Ok? <==> d != PathText(false, []) && (target !in t || force))
      && (r.Ok? ==> At(cwd, r.value) == target)
  {
    hide IsTree, WithoutDots;
    JoinedPlace(cwd, d, name);
  }

  /** Without `--dest` the blob goes into the default directory, never in its
      place; it is refused if that is a file or below one, or if the name is
      taken there and must not be replaced. An empty home directory for `~` is
      nowhere and is not checked. */
  lemma DefaultDestination(
    t: Tree, cwd: Place, defaultDir: Option<PathText>, home: Option<PathText>, name: string, force: bool)
    requires IsTree(t) && name != "."
    ensures var r := Announced(t, cwd, None, defaultDir, home, name, force).1;
      var place := DefaultPlace(cwd, defaultDir, home);
      var nowhere := home == Some(PathText(false, [])) && defaultDir == Some(PathText(false, ["~"]));
      && (r == Err(NotADirectory) <==> !nowhere && place in t && t[place].File?)
      && (r.Ok? <==> (nowhere || !UnderAFile(t, place)) && (place + [name] !in t || force))
      && (r.Ok? ==> At(cwd, r.value) == place + [name])
  {
    hide UnderAFile, IsTree, WithoutDots, ExpandTilde, DefaultPlace;
    var d := ReceiveDir(defaultDir, home);
    ReceiveDirPlace(cwd, defaultDir, home);
    ReceiveDirIsEmptyIff(defaultDir, home);
    JoinedPlace(cwd, d, name);
    MadeDirsAddsFolders(t, At(cwd, d));
    if At(cwd, d) in t {
      NoFileBelowFolder(t, At(cwd, d));
    }
  }

  lemma ReceiveDirIsEmptyIff(defaultDir: Option<PathText>, home: Option<PathText>)
    ensures ReceiveDir(defaultDir, home) == EMPTY <==>
      home == Some(PathText(false, [])) && defaultDir == Some(PathText(false, ["~"]))
  {
    assert ["~"][1..] == [];
    if defaultDir.Some? && |defaultDir.value.parts| == 1 {
      assert defaultDir.value.parts == [defaultDir.value.parts[0]];
    }
  }

  /** The announced destination is where the export writes, if and only if it was
      not, with force-overwrite, a directory already. */
  lemma AnnouncedIsWritten(
    t: Tree, cwd: Place, dest: Option<PathText>, defaultDir: Option<PathText>, home: Option<PathText>,
    name: string, force: bool)
    requires IsTree(t) && name != "."
    ensures var (t', r) := Announced(t, cwd, dest, defaultDir, home, name, force);
      r.Ok? ==>
        var written := At(cwd, ExportPath(t', cwd, r.value, name));
        && (written == At(cwd, r.value) <==> !(force && IsDir(t, cwd, r.value)))
        && (force && IsDir(t, cwd, r.value) ==> written == At(cwd, r.value) + [name])
        && (!force ==> At(cwd, r.value) !in t && At(cwd, r.value) !in t')
  {
    AnnouncingCreatesAncestorsOnly(t, cwd, dest, defaultDir, home, name, force);
    var (t', r) := Announced(t, cwd, dest, defaultDir, home, name, force);
    if r.Ok? {
      JoinedPlace(cwd, r.value, name);
    }
  }

  /** Receiving a directory `fox` twice with force-overwrite: the second copy is
      announced at `/home/fox` and goes to `/home/fox/fox`. */
  lemma ForcedDirectoryNests()
    ensures var t: Tree := map[[] := Folder, ["home"] := Folder, ["home", "fox"] := Folder];
      var home := PathText(true, ["home"]);
      var (t', r) := Announced(t, [], None, Some(home), None, "fox", true);
      && IsTree(t) && r == Ok(Join(home, "fox"))
      && At([], ExportPath(t', [], r.value, "fox")) == ["home", "fox", "fox"]
  {
    var t: Tree := map[[] := Folder, ["home"] := Folder, ["home", "fox"] := Folder];
    var home := PathText(true, ["home"]);
    JoinedPlace([], PathText(true, []), "home");
    assert Join(PathText(true, []), "home") == home;
    JoinedPlace([], home, "fox");
    JoinedPlace([], Join(home, "fox"), "fox");
    assert Parent(["home"]) == [] && Parent(["home", "fox"]) == ["home"];
    assert At([], home) == ["home"];
    assert At([], Join(home, "fox")) == ["home", "fox"];
  }

  // What a receive leaves alone

  /** Only files at `under` or below were written, only folders created. */
  ghost predicate OnlyUnder(t: Tree, t': Tree, under: Place) {
    && (forall p :: p in t ==> p in t' && (t'[p] == t[p] || (under <= p && t[p].File? && t'[p].File?)))
    && (forall p :: p in t' && t'[p].File? ==> (p in t && t[p] == t'[p]) || under <= p)
  }

  lemma OnlyUnderTwice(a: Tree, b: Tree, c: Tree, under: Place)
    requires OnlyUnder(a, b, under) && OnlyUnder(b, c, under)
    ensures OnlyUnder(a, c, under)
  {
  }

  lemma WrittenOnlyUnder(t: Tree, under: Place, p: Place, content: Hash, luck: bool)
    requires IsTree(t) && under <= p
    ensures var (t', ok) := Written(t, p, content, luck);
      && IsTree(t') && OnlyUnder(t, t', under)
      && (forall q :: q in t ==> q in t' && (q != p ==> t'[q] == t[q]))
      && (ok ==> p in t' && t'[p] == File(content))
  {
    if p != [] {
      MadeDirsAddsFolders(t, Parent(p));
      var (made, ok) := MadeDirs(t, Parent(p));
      if p in made && made[p].File? {
        assert forall q :: q in made && q != [] && Parent(q) == p ==> false;
      }
    }
  }

  predicate LastOfItsName(items: seq<Item>, i: nat)
    requires i < |items|
  {
    forall j :: i < j < |items| ==> items[j].name != items[i].name
  }

  /** Each item of a successful export has its content, unless a later one with
      the same name replaced it. */
  ghost predicate HasItems(t: Tree, root: Place, items: seq<Item>) {
    forall i :: 0 <= i < |items| && LastOfItsName(items, i) ==>
      root + items[i].name in t && t[root + items[i].name] == File(items[i].content)
  }

  lemma {:induction false} ItemsOnlyUnder(t: Tree, root: Place, items: seq<Item>)
    requires IsTree(t)
    ensures var (t', ok) := WrittenItems(t, root, items);
      IsTree(t') && OnlyUnder(t, t', root) && (ok ==> HasItems(t', root, items))
  {
    if items != [] {
      var n := |items| - 1;
      ItemsOnlyUnder(t, root, items[..n]);
      var (before, ok) := WrittenItems(t, root, items[..n]);
      var last := items[n];
      if ok {
        WrittenOnlyUnder(before, root, root + last.name, last.content, last.luck);
        var (t', done) := Written(before, root + last.name, last.content, last.luck);
        OnlyUnderTwice(t, before, t', root);
        if done {
          OneMoreItem(before, t', root, items);
        }
      }
    }
  }

  lemma OneMoreItem(t: Tree, t': Tree, root: Place, items: seq<Item>)
    requires items != [] && HasItems(t, root, items[..|items| - 1])
    requires var last := items[|items| - 1];
      && (forall q :: q in t ==> q in t' && (q != root + last.name ==> t'[q] == t[q]))
      && root + last.name in t' && t'[root + last.name] == File(last.content)
    ensures HasItems(t', root, items)
  {
    var n := |items| - 1;
    forall i | 0 <= i < |items| && LastOfItsName(items, i)
      ensures root + items[i].name in t' && t'[root + items[i].name] == File(items[i].content)
    {
      if i < n {
        assert items[..n][i] == items[i] && LastOfItsName(items[..n], i);
        OtherPlace(root, items[i].name, items[n].name);
      }
    }
  }

  lemma OtherPlace(root: Place, a: Place, b: Place)
    requires a != b
    ensures root + a != root + b
  {
    assert (root + a)[|root|..] == a && (root + b)[|root|..] == b;
  }

  lemma ExportOnlyUnder(t: Tree, target: Place, payload: Payload)
    requires IsTree(t)
    ensures var (t', ok) := Exported(t, target, payload);
      && IsTree(t') && OnlyUnder(t, t', target)
      && (ok ==> match payload
        case RawFile(content, _) => target in t' && t'[target] == File(content)
        case Files(items) => target in t' && HasItems(t', target, items))
  {
    match payload
    case RawFile(content, luck) => WrittenOnlyUnder(t, target, target, content, luck);
    case Files(items) =>
      MadeDirsAddsFolders(t, target);
      var (made, ok) := MadeDirs(t, target);
      if ok {
        ItemsOnlyUnder(made, target, items);
        OnlyUnderTwice(t, made, WrittenItems(made, target, items).0, target);
      }
  }

  // When an export goes through

  /** A single file is written exactly if its place is not the root, not below a
      file and not a folder, and the store hands it out. */
  lemma RawExportIff(t: Tree, target: Place, content: Hash, luck: bool)
    requires IsTree(t)
    ensures Exported(t, target, RawFile(content, luck)).1 <==> (
      && luck && target != []
      && !UnderAFile(t, Parent(target)) && !(target in t && t[target].Folder?))
  {
    hide UnderAFile;
    if target != [] {
      MadeDirsAddsFolders(t, Parent(target));
    }
  }

  /** No name is empty, and none lies below another one. */
  predicate NamesFit(items: seq<Item>) {
    && (forall i :: 0 <= i < |items| ==> items[i].name != [])
    && (forall i, j :: 0 <= i < |items| && 0 <= j < |items| ==> !(items[i].name < items[j].name))
  }

  predicate AllHandedOut(items: seq<Item>) {
    forall i :: 0 <= i < |items| ==> items[i].luck
  }

  /** Of what is new below `root`, files are items and folders are above items. */
  ghost predicate OnlyItems(t: Tree, t': Tree, root: Place, items: seq<Item>) {
    && (forall p :: p in t ==> p in t' && t'[p] == t[p])
    && (forall p :: p in t' && p !in t && t'[p].File? ==> exists j :: 0 <= j < |items| && p == root + items[j].name)
    && (forall p :: p in t' && p !in t && t'[p].Folder? ==> exists j :: 0 <= j < |items| && p < root + items[j].name)
  }

  lemma FewerItems(items: seq<Item>)
    requires items != []
    ensures var n := |items| - 1;
      && (AllHandedOut(items) <==> AllHandedOut(items[..n]) && items[n].luck)
      && (NamesFit(items) ==> NamesFit(items[..n]) && items[n].name != [])
  {
    var n := |items| - 1;
    assert forall i :: 0 <= i < n ==> items[..n][i] == items[i];
  }

  /** Nothing is in the folder yet. */
  ghost predicate EmptyFolder(t: Tree, root: Place) {
    root in t && t[root].Folder? && forall p :: p in t && root <= p ==> p == root
  }

  /** Into an empty folder, a collection is written exactly if the store hands out
      every file. */
  lemma {:induction false} ItemsWrittenIff(t: Tree, root: Place, items: seq<Item>)
    requires IsTree(t) && EmptyFolder(t, root) && NamesFit(items)
    ensures var (t', ok) := WrittenItems(t, root, items);
      (ok <==> AllHandedOut(items)) && (ok ==> IsTree(t') && OnlyItems(t, t', root, items))
  {
    if items != [] {
      hide IsTree, EmptyFolder, NamesFit, AllHandedOut, OnlyItems, Written;
      var n := |items| - 1;
      FewerItems(items);
      ItemsWrittenIff(t, root, items[..n]);
      var (before, ok) := WrittenItems(t, root, items[..n]);
      if ok {
        NextItemWritten(t, before, root, items);
      }
    } else {
      hide IsTree, EmptyFolder, NamesFit;
    }
  }

  lemma NextItemWritten(t: Tree, before: Tree, root: Place, items: seq<Item>)
    requires IsTree(t) && EmptyFolder(t, root) && items != [] && NamesFit(items)
    requires IsTree(before) && OnlyItems(t, before, root, items[..|items| - 1])
    ensures var last := items[|items| - 1];
      var (t', ok) := Written(before, root + last.name, last.content, last.luck);
      (ok <==> last.luck) && (ok ==> IsTree(t') && OnlyItems(t, t', root, items))
  {
    var last := items[|items| - 1];
    NextItemFits(t, before, root, items);
    WrittenIff(before, root + last.name, last.content, last.luck);
    assert last.name != [] && root <= root + last.name && root != root + last.name;
    if last.luck {
      NextItemIsItem(t, before, root, items);
    }
  }

  lemma WrittenIff(t: Tree, p: Place, content: Hash, luck: bool)
    requires IsTree(t) && p != []
    requires !UnderAFile(t, Parent(p)) && !(p in t && t[p].Folder?)
    ensures Written(t, p, content, luck).1 <==> luck
  {
    RawExportIff(t, p, content, luck);
  }

  /** The next item's place is free: no earlier file is above it, and no folder
      was made there. */
  lemma NextItemFits(t: Tree, before: Tree, root: Place, items: seq<Item>)
    requires IsTree(t) && EmptyFolder(t, root) && items != [] && NamesFit(items)
    requires OnlyItems(t, before, root, items[..|items| - 1])
    ensures var p := root + items[|items| - 1].name;
      p != [] && !UnderAFile(before, Parent(p)) && !(p in before && before[p].Folder?)
  {
    var n := |items| - 1;
    var p := root + items[n].name;
    NoFileBelowFolder(t, root);
    forall j | 0 <= j < n
      ensures items[..n][j] == items[j] && !(root + items[j].name < p) && !(p < root + items[j].name)
    {
      ProperlyBelow(root, items[j].name, items[n].name);
      ProperlyBelow(root, items[n].name, items[j].name);
    }
    forall q | q in before && q <= Parent(p) ensures before[q].Folder? {
      assert q < p;
      if q in t {
        PrefixOfAppended(q, root, items[n].name);
      }
    }
    assert root <= p && root != p;
  }

  lemma PrefixOfAppended(q: Place, root: Place, name: Place)
    requires q <= root + name
    ensures q <= root || root <= q
  {
  }

  lemma ProperlyBelow(root: Place, a: Place, b: Place)
    ensures root + a < root + b <==> a < b
  {
    assert (root + a)[|root|..] == a && (root + b)[|root|..] == b;
    if a < b {
      assert root + a == (root + b)[..|root + a|];
    }
    if root + a < root + b {
      assert b[..|a|] == (root + b)[|root|..|root| + |a|] == (root + a)[|root|..];
    }
  }

  lemma NextItemIsItem(t: Tree, before: Tree, root: Place, items: seq<Item>)
    requires IsTree(before) && items != [] && OnlyItems(t, before, root, items[..|items| - 1])
    requires var last := items[|items| - 1];
      Written(before, root + last.name, last.content, last.luck).1 && root + last.name !in t
    ensures var last := items[|items| - 1];
      var t' := Written(before, root + last.name, last.content, last.luck).0;
      IsTree(t') && OnlyItems(t, t', root, items)
  {
    var n := |items| - 1;
    var p := root + items[n].name;
    MadeDirsAddsFolders(before, Parent(p));
    WrittenOnlyUnder(before, p, p, items[n].content, items[n].luck);
    var t' := Written(before, p, items[n].content, items[n].luck).0;
    assert forall i :: 0 <= i < n ==> items[..n][i] == items[i];
    forall q | q in t' && q !in t && t'[q].File? ensures exists j :: 0 <= j < |items| && q == root + items[j].name {
      if q != p {
        var j :| 0 <= j < n && q == root + items[..n][j].name;
      }
    }
    forall q | q in t' && q !in t && t'[q].Folder? ensures exists j :: 0 <= j < |items| && q < root + items[j].name {
      if q in before {
        var j :| 0 <= j < n && q < root + items[..n][j].name;
      } else {
        assert q <= Parent(p) && q < p;
      }
    }
  }

  /** A collection goes through into a place where nothing is, exactly if the
      place is not below a file and the store hands out every file. */
  lemma CollectionExportIff(t: Tree, target: Place, items: seq<Item>)
    requires IsTree(t) && target !in t && NamesFit(items)
    ensures Exported(t, target, Files(items)).1 <==> !UnderAFile(t, target) && AllHandedOut(items)
  {
    hide UnderAFile, NamesFit, AllHandedOut, OnlyItems, WrittenItems;
    MadeDirsAddsFolders(t, target);
    var (made, ok) := MadeDirs(t, target);
    if ok {
      forall p | p in made && target <= p ensures p == target {
        if p in t {
          NothingBelowTheMissing(t, target, p);
        }
      }
      ItemsWrittenIff(made, target, items);
    }
  }

  lemma {:induction false} NothingBelowTheMissing(t: Tree, p: Place, q: Place)
    requires IsTree(t) && p !in t && p <= q
    ensures q !in t
    decreases |q|
  {
    if p != q && q in t {
      assert p <= Parent(q);
      NothingBelowTheMissing(t, p, Parent(q));
    }
  }

  /** A whole receive without force-overwrite, whether or not the export goes
      through: everything that existed is still there with its content, every
      new file is at the announced path or below it, and after a success it
      holds what was received. */
  lemma ReceiveReplacesNothing(
    t: Tree, cwd: Place, dest: Option<PathText>, defaultDir: Option<PathText>, home: Option<PathText>,
    name: string, payload: Payload)
    requires IsTree(t) && name != "."
    requires Announced(t, cwd, dest, defaultDir, home, name, false).1.Ok?
    ensures var (t1, r) := Announced(t, cwd, dest, defaultDir, home, name, false);
      var root := At(cwd, r.value);
      var (t2, ok) := Exported(t1, At(cwd, ExportPath(t1, cwd, r.value, name)), payload);
      && (forall p :: p in t ==> p in t2 && t2[p] == t[p])
      && (forall p :: p in t2 && p !in t && t2[p].File? ==> root <= p)
      && (ok ==> match payload
        case RawFile(content, _) => root in t2 && t2[root] == File(content)
        case Files(items) => HasItems(t2, root, items))
  {
    hide Exported, HasItems;
    AnnouncingCreatesAncestorsOnly(t, cwd, dest, defaultDir, home, name, false);
    AnnouncedIsWritten(t, cwd, dest, defaultDir, home, name, false);
    var (t1, r) := Announced(t, cwd, dest, defaultDir, home, name, false);
    var root := At(cwd, r.value);
    ExportOnlyUnder(t1, root, payload);
    forall p | p in t ensures !(root <= p) {
      if root <= p {
        NothingBelowTheMissing(t, root, p);
      }
    }
  }
}
