/**
 * File backups: walking declared directories into archive entries, and extracting entries below a
 * destination without leaving it.
 */
module Files {
  import opened Basics

  type Name = string

  /** A path as its components, from the root down. */
  type Path = seq<Name>

  type Content = seq<int>

  /** A directory tree as it is on disk. A link knows the content of the regular file it leads to, if it does. */
  datatype Tree = Dir(children: Forest) | File(content: Content) | Link(target: Option<Content>) | Special

  datatype Forest = Nil | More(name: Name, tree: Tree, rest: Forest)

  datatype Symlinks = SkipLinks | RefuseLinks | FollowLinks

  /** matches is the pattern language; patterns apply to the path below the declared root and to its last element. */
  datatype Policy = Policy(paths: seq<Path>, patterns: seq<string>, matches: (string, string) -> bool, symlinks: Symlinks)

  datatype Kind = DirEntry | FileEntry(content: Content) | OtherEntry

  /** One archive entry; the name is split at the slashes and nothing else is known of it. */
  datatype Entry = Entry(name: Path, kind: Kind)

  /** What is at a place of the destination. A symbolic link says the path it stands for, from the root down. */
  datatype Node = Folder | Plain(content: Content) | Symlink(to: Path)

  /** The destination, by the places things really are at. */
  type Fs = map<Path, Node>

  // ---- Trees ----

  function Find(forest: Forest, name: Name): Option<Tree> {
    match forest
    case Nil => None
    case More(n, tree, rest) => if n == name then Some(tree) else Find(rest, name)
  }

  function At(tree: Tree, path: Path): Option<Tree>
    decreases |path|
  {
    if path == [] then Some(tree)
    else if !tree.Dir? then None
    else
      match Find(tree.children, path[0])
      case None => None
      case Some(child) => At(child, path[1..])
  }

  predicate PlainName(n: Name) {
    n != "" && n != "." && n != ".."
  }

  /** A directory lists each name once, and lists proper names only. */
  predicate WellFormed(tree: Tree) {
    tree.Dir? ==> ForestOk(tree.children)
  }

  predicate ForestOk(forest: Forest) {
    match forest
    case Nil => true
    case More(n, tree, rest) => PlainName(n) && Find(rest, n).None? && WellFormed(tree) && ForestOk(rest)
  }

  /** What is archived for this very node; None for a link that is skipped. */
  function NodeOf(tree: Tree, symlinks: Symlinks): Option<Node> {
    match tree
    case Dir(_) => Some(Folder)
    case File(content) => Some(Plain(content))
    case Link(target) => if symlinks.FollowLinks? && target.Some? then Some(Plain(target.value)) else None
    case Special => None
  }

  // ---- Exclusion ----

  function Joined(path: Path): string {
    if path == [] then "" else if |path| == 1 then path[0] else path[0] + "/" + Joined(path[1..])
  }

  /** rel is the path below the declared root; the root itself is never excluded. */
  predicate Excluded(policy: Policy, rel: Path) {
    rel != []
    && exists pattern | pattern in policy.patterns ::
         policy.matches(pattern, Joined(rel)) || policy.matches(pattern, rel[|rel| - 1])
  }

  // ---- Writing the archive ----

  /** The entries of one tree, at its place on disk and rel below the declared root, in walking order. */
  function Entries(policy: Policy, tree: Tree, at: Path, rel: Path): Result<seq<Entry>>
    decreases tree
  {
    match tree
    case Dir(children) =>
      (match ForestEntries(policy, children, at, rel)
       case Ok(below) => Ok([Entry(at, DirEntry)] + below)
       case Err(code) => Err(code))
    case File(content) => Ok([Entry(at, FileEntry(content))])
    case Link(target) =>
      (match policy.symlinks
       case SkipLinks => Ok([])
       case RefuseLinks => Err(BackupPreflightFailed)
       case FollowLinks => if target.Some? then Ok([Entry(at, FileEntry(target.value))]) else Err(BackupPreflightFailed))
    case Special => Err(BackupPreflightFailed)
  }

  /** An excluded child is passed over with everything below it, whatever it is. */
  function ForestEntries(policy: Policy, forest: Forest, at: Path, rel: Path): Result<seq<Entry>>
    decreases forest
  {
    match forest
    case Nil => Ok([])
    case More(name, tree, rest) =>
      var first := if Excluded(policy, rel + [name]) then Ok([]) else Entries(policy, tree, at + [name], rel + [name]);
      if first.Err? then first
      else
        match ForestEntries(policy, rest, at, rel)
        case Ok(others) => Ok(first.value + others)
        case Err(code) => Err(code)
  }

  /** Archives every declared path in turn. A declared path that is not there is an error. */
  method Backup(policy: Policy, root: Tree) returns (r: Result<seq<Entry>>)
    ensures r == Archive(policy, root, policy.paths)
  {
    var entries: seq<Entry> := [];
    var k := 0;
    ghost var all := Archive(policy, root, policy.paths);
    assert policy.paths[0..] == policy.paths && (all.Ok? ==> [] + all.value == all.value);
    while k < |policy.paths|
      invariant 0 <= k <= |policy.paths|
      invariant Archive(policy, root, policy.paths) ==
                match Archive(policy, root, policy.paths[k..])
                case Ok(more) => Ok(entries + more)
                case Err(code) => Err(code)
    {
      assert policy.paths[k..][1..] == policy.paths[k + 1..];
      var tree := At(root, policy.paths[k]);
      if tree.None? {
        return Err(Internal);
      }
      var written := Entries(policy, tree.value, policy.paths[k], []);
      if written.Err? {
        return written;
      }
      AppendAssociates(entries, written.value, Archive(policy, root, policy.paths[k + 1..]));
      entries := entries + written.value;
      k := k + 1;
    }
    assert policy.paths[k..] == [];
    assert entries + [] == entries;
    return Ok(entries);
  }

  lemma AppendAssociates(a: seq<Entry>, b: seq<Entry>, more: Result<seq<Entry>>)
    ensures more.Ok? ==> a + (b + more.value) == (a + b) + more.value
  {
  }

  function Archive(policy: Policy, root: Tree, paths: seq<Path>): Result<seq<Entry>>
    decreases |paths|
  {
    if paths == [] then Ok([])
    else if At(root, paths[0]).None? then Err(Internal)
    else
      match Entries(policy, At(root, paths[0]).value, paths[0], [])
      case Err(code) => Err(code)
      case Ok(first) =>
        match Archive(policy, root, paths[1..])
        case Ok(others) => Ok(first + others)
        case Err(code) => Err(code)
  }

  // ---- Which nodes are archived, node by node ----

  /** The node archived for the path q below tree, if no step of the way is excluded. */
  function Kept(policy: Policy, tree: Tree, rel: Path, q: Path): Option<Node>
    decreases |q|
  {
    if q == [] then NodeOf(tree, policy.symlinks)
    else if !tree.Dir? || Find(tree.children, q[0]).None? || Excluded(policy, rel + [q[0]]) then None
    else Kept(policy, Find(tree.children, q[0]).value, rel + [q[0]], q[1..])
  }

  function KindOf(n: Node): Kind {
    match n
    case Folder => DirEntry
    case Plain(content) => FileEntry(content)
    case Symlink(_) => OtherEntry
  }

  ghost predicate IsEntry(entries: seq<Entry>, p: Path, n: Node) {
    Entry(p, KindOf(n)) in entries
  }

  /** Every entry names a file or a directory. */
  ghost predicate OnlyNodes(entries: seq<Entry>) {
    forall e | e in entries :: !e.kind.OtherEntry?
  }

  lemma {:induction false} EntriesAreKept(policy: Policy, tree: Tree, at: Path, rel: Path)
    requires WellFormed(tree) && Entries(policy, tree, at, rel).Ok?
    ensures OnlyNodes(Entries(policy, tree, at, rel).value)
    ensures forall p, n :: IsEntry(Entries(policy, tree, at, rel).value, p, n) <==>
                           at <= p && Kept(policy, tree, rel, p[|at|..]) == Some(n)
    decreases tree
  {
    var entries := Entries(policy, tree, at, rel).value;
    if tree.Dir? {
      ForestEntriesAreKept(policy, tree.children, at, rel);
      var below := ForestEntries(policy, tree.children, at, rel).value;
      forall p, n
        ensures IsEntry(entries, p, n) <==> at <= p && Kept(policy, tree, rel, p[|at|..]) == Some(n)
      {
        var e := Entry(p, KindOf(n));
        assert e in entries <==> e == Entry(at, DirEntry) || e in below;
        assert e in below <==> IsEntry(below, p, n);
        if p == at {
          assert p[|at|..] == [];
        }
        if at <= p && p != at {
          assert p[|at|..] != [] && p[|at|..][0] == p[|at|];
          assert p[|at|..][1..] == p[|at| + 1..];
        }
      }
    } else {
      forall p | at <= p && p != at
        ensures p[|at|..] != []
      {
      }
      assert at[|at|..] == [];
    }
  }

  /** p is archived below at, as the node n, by way of a child listed in forest. */
  ghost predicate KeptBelow(policy: Policy, forest: Forest, at: Path, rel: Path, p: Path, n: Node) {
    && at <= p && p != at
    && Find(forest, p[|at|]).Some? && !Excluded(policy, rel + [p[|at|]])
    && Kept(policy, Find(forest, p[|at|]).value, rel + [p[|at|]], p[|at| + 1..]) == Some(n)
  }

  lemma {:induction false} ForestEntriesAreKept(policy: Policy, forest: Forest, at: Path, rel: Path)
    requires ForestOk(forest) && ForestEntries(policy, forest, at, rel).Ok?
    ensures OnlyNodes(ForestEntries(policy, forest, at, rel).value)
    ensures forall p, n :: IsEntry(ForestEntries(policy, forest, at, rel).value, p, n) <==>
                           KeptBelow(policy, forest, at, rel, p, n)
    decreases forest
  {
    if forest.More? {
      var name, tree, rest := forest.name, forest.tree, forest.rest;
      var entries := ForestEntries(policy, forest, at, rel).value;
      ForestEntriesAreKept(policy, rest, at, rel);
      var others := ForestEntries(policy, rest, at, rel).value;
      var first := if Excluded(policy, rel + [name]) then [] else Entries(policy, tree, at + [name], rel + [name]).value;
      assert entries == first + others;
      if !Excluded(policy, rel + [name]) {
        EntriesAreKept(policy, tree, at + [name], rel + [name]);
      }
      forall p, n
        ensures IsEntry(entries, p, n) <==> KeptBelow(policy, forest, at, rel, p, n)
      {
        var e := Entry(p, KindOf(n));
        assert e in others <==> IsEntry(others, p, n);
        assert e in first <==> IsEntry(first, p, n);
        assert e in entries <==> e in first || e in others;
        if at <= p && p != at && p[|at|] == name {
          assert at + [name] <= p && p[|at + [name]|..] == p[|at| + 1..];
        } else if at + [name] <= p {
          assert p[|at|] == name;
        }
      }
    }
  }

  // ---- Entry names ----

  /** Cleaning a relative name: how many steps it climbs above its start, and where it goes from there. */
  function Clean(name: Path): (nat, Path) {
    if name == [] then (0, [])
    else
      var (ups, down) := Clean(name[..|name| - 1]);
      var last := name[|name| - 1];
      if last == "" || last == "." then (ups, down)
      else if last == ".." then (if down == [] then (ups + 1, []) else (ups, down[..|down| - 1]))
      else (ups, down + [last])
  }

  /** Neither empty nor absolute, and it does not climb out. */
  predicate ValidName(name: Path) {
    name != [] && name[0] != "" && Clean(name).0 == 0
  }

  /** Joining a name to a directory and cleaning the result; above the root there is only the root. */
  function Target(dest: Path, name: Path): Path {
    if name == [] then dest
    else
      var before := Target(dest, name[..|name| - 1]);
      var last := name[|name| - 1];
      if last == "" || last == "." then before
      else if last == ".." then (if before == [] then [] else before[..|before| - 1])
      else before + [last]
  }

  /** Every entry that is accepted lands under the destination. */
  lemma {:induction false} TargetIsBelow(dest: Path, name: Path)
    requires Clean(name).0 == 0
    ensures Target(dest, name) == dest + Clean(name).1
  {
    if name == [] {
      assert dest + [] == dest;
    } else {
      var init := name[..|name| - 1];
      TargetIsBelow(dest, init);
      var down := Clean(init).1;
      if name[|name| - 1] == ".." && down != [] {
        assert (dest + down)[..|dest + down| - 1] == dest + down[..|down| - 1];
      }
    }
  }

  predicate PlainPath(path: Path) {
    forall k | 0 <= k < |path| :: PlainName(path[k])
  }

  lemma {:induction false} PlainIsClean(path: Path)
    requires PlainPath(path)
    ensures Clean(path) == (0, path)
  {
    if path != [] {
      PlainIsClean(path[..|path| - 1]);
      assert path == path[..|path| - 1] + [path[|path| - 1]];
    }
  }

  // ---- Finding a place on disk ----

  /** How many links the system follows on the way to one path. */
  const MAX_LINKS := 40

  predicate LinkAt(fs: Fs, p: Path) {
    p in fs && fs[p].Symlink?
  }

  predicate FolderAt(fs: Fs, p: Path) {
    p in fs && fs[p].Folder?
  }

  /** Where the rest of a path leads from at, every link on the way followed; there need not be anything there yet. */
  function Walk(fs: Fs, at: Path, rest: Path, links: nat): Option<Path>
    decreases links, |rest|
  {
    if rest == [] then Some(at)
    else if !FolderAt(fs, at) then None
    else
      var next := at + [rest[0]];
      if !LinkAt(fs, next) then Walk(fs, next, rest[1..], links)
      else if links == 0 then None
      else Walk(fs, [], fs[next].to + rest[1..], links - 1)
  }

  function Place(fs: Fs, p: Path): Option<Path> {
    Walk(fs, [], p, MAX_LINKS)
  }

  function Stat(fs: Fs, p: Path): Option<Node> {
    var place := Place(fs, p);
    if place.Some? && place.value in fs then Some(fs[place.value]) else None
  }

  // ---- Extracting ----

  function Parent(p: Path): Path
    requires p != []
  {
    p[..|p| - 1]
  }

  /** Creating a single folder follows links to its parent, but not one in its own place. */
  function Mkdir(fs: Fs, p: Path): Result<Fs>
    requires p != []
  {
    var parent := Place(fs, Parent(p));
    if parent.None? || !FolderAt(fs, parent.value) || parent.value + [p[|p| - 1]] in fs then Err(Internal)
    else Ok(fs[parent.value + [p[|p| - 1]] := Folder])
  }

  function MkdirAll(fs: Fs, p: Path): Result<Fs>
    decreases |p|
  {
    var there := Stat(fs, p);
    if there.Some? then (if there.value.Folder? then Ok(fs) else Err(Internal))
    else if p == [] then Ok(fs[p := Folder])
    else
      match MkdirAll(fs, Parent(p))
      case Ok(made) => Mkdir(made, p)
      case Err(code) => Err(code)
  }

  /** Opening for writing creates or truncates, and follows every link. */
  function OpenAndWrite(fs: Fs, p: Path, content: Content): Result<Fs> {
    var place := Place(fs, p);
    if place.None? || place.value == [] || FolderAt(fs, place.value) then Err(Internal)
    else Ok(fs[place.value := Plain(content)])
  }

  /**
   * What can go wrong with an entry although its name and the tree are in order: it cannot be read, the system refuses a
   * folder when the path has been made to some depth, it refuses to open the file, or writing stops after some bytes.
   */
  datatype Trouble = NoTrouble | Unreadable | FolderRefused(depth: nat) | FileRefused | WriteStops(bytes: nat)

  /** Folders are made from the top down. */
  function MakeFolder(fs: Fs, p: Path, t: Trouble): (Fs, Result<()>) {
    if t.FolderRefused? then
      match MkdirAll(fs, p[..Min(t.depth, |p|)])
      case Ok(made) => (made, Err(Internal))
      case Err(code) => (fs, Err(code))
    else
      match MkdirAll(fs, p)
      case Ok(made) => (made, Ok(()))
      case Err(code) => (fs, Err(code))
  }

  function WriteFile(fs: Fs, p: Path, content: Content, t: Trouble): (Fs, Result<()>) {
    if p == [] then (fs, Err(Internal))
    else
      var (made, r) := MakeFolder(fs, Parent(p), t);
      if r.Err? then (made, r)
      else if t.FileRefused? then (made, Err(Internal))
      else
        match OpenAndWrite(made, p, if t.WriteStops? then content[..Min(t.bytes, |content|)] else content)
        case Ok(after) => (after, if t.WriteStops? then Err(Internal) else Ok(()))
        case Err(code) => (made, Err(code))
  }

  /** What the disk holds after an entry, whether it succeeds or fails. */
  function ExtractOne(fs: Fs, dest: Path, e: Entry, t: Trouble): (Fs, Result<()>) {
    if t.Unreadable? || !ValidName(e.name) then (fs, Err(BackupVerifyFailed))
    else
      match e.kind
      case DirEntry => MakeFolder(fs, Target(dest, e.name), t)
      case FileEntry(content) => WriteFile(fs, Target(dest, e.name), content, t)
      case OtherEntry => (fs, Err(BackupVerifyFailed))
  }

  /** What the disk holds after the entries, or where an error stopped it; k is the number of the first one. */
  function Extracted(fs: Fs, dest: Path, entries: seq<Entry>, troubles: nat -> Trouble, k: nat): (Fs, Result<()>)
    decreases |entries|
  {
    if entries == [] then (fs, Ok(()))
    else
      var (after, r) := ExtractOne(fs, dest, entries[0], troubles(k));
      if r.Err? then (after, r) else Extracted(after, dest, entries[1..], troubles, k + 1)
  }

  // ---- What extraction changes ----

  /** Everything is in a folder. */
  ghost predicate TreeShaped(fs: Fs) {
    forall p, k | p in fs && 0 <= k < |p| :: FolderAt(fs, p[..k])
  }

  /** Neither the path nor one above it is a link. */
  ghost predicate LinkFree(fs: Fs, p: Path) {
    forall k | 0 <= k <= |p| :: !LinkAt(fs, p[..k])
  }

  /** Nothing goes away, files stay files, everything else stays as it is, and no link is added. */
  ghost predicate Grows(before: Fs, after: Fs) {
    && (forall p | p in before :: p in after && (after[p] == before[p] || (before[p].Plain? && after[p].Plain?)))
    && (forall p | p in after && p !in before :: !after[p].Symlink?)
  }

  /** A place that is found is in a folder, and it is not a link. */
  lemma {:induction false} WalkEnds(fs: Fs, at: Path, rest: Path, links: nat)
    requires FolderAt(fs, []) && Walk(fs, at, rest, links).Some? && IsEnd(fs, at)
    ensures IsEnd(fs, Walk(fs, at, rest, links).value)
    decreases links, |rest|
  {
    if rest != [] {
      var next := at + [rest[0]];
      assert Parent(next) == at;
      if LinkAt(fs, next) {
        WalkEnds(fs, [], fs[next].to + rest[1..], links - 1);
      } else {
        WalkEnds(fs, next, rest[1..], links);
      }
    }
  }

  ghost predicate IsEnd(fs: Fs, p: Path) {
    p == [] || (FolderAt(fs, Parent(p)) && !LinkAt(fs, p))
  }

  /** What is found once is found again, however much has been extracted since. */
  lemma {:induction false} WalkIsStable(before: Fs, after: Fs, at: Path, rest: Path, links: nat)
    requires Grows(before, after) && Walk(before, at, rest, links).Some?
    ensures Walk(after, at, rest, links) == Walk(before, at, rest, links)
    decreases links, |rest|
  {
    if rest != [] {
      var next := at + [rest[0]];
      if LinkAt(before, next) {
        WalkIsStable(before, after, [], before[next].to + rest[1..], links - 1);
      } else {
        WalkIsStable(before, after, next, rest[1..], links);
      }
    }
  }

  /** Without links a path that leads anywhere leads to itself, and it does if everything above it is a folder. */
  lemma {:induction false} WalkWithoutLinks(fs: Fs, at: Path, rest: Path, links: nat)
    requires LinkFree(fs, at + rest)
    ensures Walk(fs, at, rest, links) in {None, Some(at + rest)}
    ensures (forall k | |at| <= k < |at + rest| :: FolderAt(fs, (at + rest)[..k])) ==> Walk(fs, at, rest, links) == Some(at + rest)
    decreases |rest|
  {
    if rest == [] {
      assert at + rest == at;
    } else {
      var next := at + [rest[0]];
      assert next + rest[1..] == at + rest;
      assert (at + rest)[..|at|] == at && (at + rest)[..|at| + 1] == next;
      WalkWithoutLinks(fs, next, rest[1..], links);
    }
  }

  /** Exactly a path without a link on it that leads anywhere leads to itself. */
  lemma PlaceIsItself(fs: Fs, p: Path)
    requires TreeShaped(fs) && FolderAt(fs, []) && Place(fs, p).Some?
    ensures Place(fs, p) == Some(p) <==> LinkFree(fs, p)
  {
    assert [] + p == p;
    if LinkFree(fs, p) {
      WalkWithoutLinks(fs, [], p, MAX_LINKS);
    }
    if Place(fs, p) == Some(p) {
      WalkEnds(fs, [], p, MAX_LINKS);
      forall k | 0 <= k <= |p|
        ensures !LinkAt(fs, p[..k])
      {
        if k == |p| {
          assert p[..k] == p;
        } else if k == |p| - 1 {
          assert p[..k] == Parent(p);
        } else {
          assert p[..k] == Parent(p)[..k];
        }
      }
    }
  }

  // How one entry changes the disk.

  lemma FolderAdded(fs: Fs, p: Path)
    requires TreeShaped(fs) && p !in fs && (p == [] || FolderAt(fs, Parent(p)))
    ensures TreeShaped(fs[p := Folder]) && Grows(fs, fs[p := Folder])
  {
    AddedKeepsShape(fs, p, Folder);
  }

  lemma AddedKeepsShape(fs: Fs, p: Path, n: Node)
    requires TreeShaped(fs) && (p == [] || FolderAt(fs, Parent(p))) && (n.Folder? || !FolderAt(fs, p))
    ensures TreeShaped(fs[p := n])
  {
    var after := fs[p := n];
    forall q, k | q in after && 0 <= k < |q|
      ensures FolderAt(after, q[..k])
    {
      if q == p {
        if k < |p| - 1 {
          assert q[..k] == Parent(p)[..k];
        } else {
          assert q[..k] == Parent(p);
        }
        assert FolderAt(fs, q[..k]);
      } else {
        assert FolderAt(fs, q[..k]);
      }
    }
  }

  lemma GrowsOn(a: Fs, b: Fs, c: Fs)
    requires Grows(a, b) && Grows(b, c)
    ensures Grows(a, c)
  {
  }

  /** Every folder that is made is where some path above the wanted one leads, and the wanted one leads to a folder. */
  lemma {:induction false} MkdirAllMakes(fs: Fs, p: Path)
    requires TreeShaped(fs) && FolderAt(fs, []) && MkdirAll(fs, p).Ok?
    ensures var after := MkdirAll(fs, p).value;
            && TreeShaped(after) && Grows(fs, after)
            && Place(after, p).Some? && FolderAt(after, Place(after, p).value)
            && (forall q | q in fs :: after[q] == fs[q])
            && (forall q | q in after && q !in fs ::
                  after[q].Folder? && exists k :: 0 <= k <= |p| && Place(after, p[..k]) == Some(q))
    decreases |p|
  {
    if Stat(fs, p).None? && p != [] {
      var parent := Parent(p);
      MkdirAllMakes(fs, parent);
      var made := MkdirAll(fs, parent).value;
      var after := MkdirAll(fs, p).value;
      var q := Place(made, parent).value + [p[|p| - 1]];
      assert Parent(q) == Place(made, parent).value;
      FolderAdded(made, q);
      GrowsOn(fs, made, after);
      MadeIsFound(made, p);
      forall r | r in after && r !in fs
        ensures after[r].Folder? && exists k :: 0 <= k <= |p| && Place(after, p[..k]) == Some(r)
      {
        if r == q {
          assert p[..|p|] == p;
        } else {
          var k :| 0 <= k <= |parent| && Place(made, parent[..k]) == Some(r);
          assert parent[..k] == p[..k];
          WalkIsStable(made, after, [], p[..k], MAX_LINKS);
        }
      }
    } else {
      assert p[..|p|] == p;
    }
  }

  /** The folder just made is where its path leads. */
  lemma MadeIsFound(fs: Fs, p: Path)
    requires p != [] && Mkdir(fs, p).Ok?
    ensures Place(Mkdir(fs, p).value, p) == Some(Place(fs, Parent(p)).value + [p[|p| - 1]])
  {
    var after := Mkdir(fs, p).value;
    assert Grows(fs, after);
    WalkIsStable(fs, after, [], Parent(p), MAX_LINKS);
    WalkOneMore(after, [], Parent(p), p[|p| - 1], MAX_LINKS);
    assert p == Parent(p) + [p[|p| - 1]];
  }

  /** One more step from a place that is a folder, onto something that is not a link. */
  lemma {:induction false} WalkOneMore(fs: Fs, at: Path, rest: Path, last: Name, links: nat)
    requires Walk(fs, at, rest, links).Some? && FolderAt(fs, Walk(fs, at, rest, links).value)
    requires !LinkAt(fs, Walk(fs, at, rest, links).value + [last])
    ensures Walk(fs, at, rest + [last], links) == Some(Walk(fs, at, rest, links).value + [last])
    decreases links, |rest|
  {
    if rest == [] {
      assert [last][1..] == [];
    } else {
      var next := at + [rest[0]];
      assert (rest + [last])[0] == rest[0] && (rest + [last])[1..] == rest[1..] + [last];
      if LinkAt(fs, next) {
        assert fs[next].to + (rest[1..] + [last]) == fs[next].to + rest[1..] + [last];
        WalkOneMore(fs, [], fs[next].to + rest[1..], last, links - 1);
      } else {
        WalkOneMore(fs, next, rest[1..], last, links);
      }
    }
  }

  /** Nothing but folders on the way to the path is added, also when the system refuses one. */
  lemma FolderLands(fs: Fs, p: Path, t: Trouble)
    requires TreeShaped(fs) && FolderAt(fs, [])
    ensures var (after, r) := MakeFolder(fs, p, t);
            && TreeShaped(after) && Grows(fs, after) && FolderAt(after, [])
            && (r.Ok? ==> Place(after, p).Some? && FolderAt(after, Place(after, p).value))
            && (forall q | q in fs :: after[q] == fs[q])
            && (forall q | q in after && q !in fs ::
                  after[q].Folder? && exists k :: 0 <= k <= |p| && Place(after, p[..k]) == Some(q))
  {
    var way := if t.FolderRefused? then p[..Min(t.depth, |p|)] else p;
    var after := MakeFolder(fs, p, t).0;
    if MkdirAll(fs, way).Ok? {
      MkdirAllMakes(fs, way);
      forall q | q in after && q !in fs
        ensures exists k :: 0 <= k <= |p| && Place(after, p[..k]) == Some(q)
      {
        var k :| 0 <= k <= |way| && Place(after, way[..k]) == Some(q);
        assert way[..k] == p[..k];
      }
    }
  }

  /** A file is written where its path leads, and nothing else but folders is added, also when that fails. */
  lemma FileLands(fs: Fs, p: Path, content: Content, t: Trouble)
    requires TreeShaped(fs) && FolderAt(fs, [])
    ensures var (after, r) := WriteFile(fs, p, content, t);
            && TreeShaped(after) && Grows(fs, after) && FolderAt(after, [])
            && (r.Ok? ==> Place(after, p).Some? && Place(after, p).value in after && after[Place(after, p).value] == Plain(content))
            && (forall q | q in fs :: after[q] == fs[q] || Place(after, p) == Some(q))
            && (forall q | q in after && q !in fs && Place(after, p) != Some(q) ::
                  after[q].Folder? && exists k :: 0 <= k <= |p| && Place(after, p[..k]) == Some(q))
  {
    if p != [] {
      var parent := Parent(p);
      FolderLands(fs, parent, t);
      var made := MakeFolder(fs, parent, t).0;
      var after := WriteFile(fs, p, content, t).0;
      if after != made {
        OpenedLands(made, p, after[Place(made, p).value].content);
        GrowsOn(fs, made, after);
      } else {
        assert Grows(made, after);
      }
      forall r | r in after && r !in fs && Place(after, p) != Some(r)
        ensures after[r].Folder? && exists k :: 0 <= k <= |p| && Place(after, p[..k]) == Some(r)
      {
        var k :| 0 <= k <= |parent| && Place(made, parent[..k]) == Some(r);
        assert parent[..k] == p[..k];
        WalkIsStable(made, after, [], p[..k], MAX_LINKS);
      }
    }
  }

  lemma OpenedLands(fs: Fs, p: Path, content: Content)
    requires TreeShaped(fs) && FolderAt(fs, []) && p != [] && OpenAndWrite(fs, p, content).Ok?
    ensures var after := OpenAndWrite(fs, p, content).value;
            && TreeShaped(after) && Grows(fs, after) && FolderAt(after, []) && Place(after, p) == Place(fs, p)
  {
    var q := Place(fs, p).value;
    WalkEnds(fs, [], p, MAX_LINKS);
    AddedKeepsShape(fs, q, Plain(content));
    WalkIsStable(fs, OpenAndWrite(fs, p, content).value, [], p, MAX_LINKS);
  }

  /** Where the entry lands, and that it did. */
  ghost predicate Landed(after: Fs, dest: Path, e: Entry) {
    var place := Place(after, Target(dest, e.name));
    && place.Some? && place.value in after
    && (e.kind.DirEntry? ==> after[place.value].Folder?)
    && (e.kind.FileEntry? ==> after[place.value].Plain?)
  }

  /** p is where a target leads, or where a path above a target does. */
  ghost predicate OnTheWay(after: Fs, dest: Path, entries: seq<Entry>, p: Path) {
    exists e, k ::
      && e in entries && ValidName(e.name) && 0 <= k <= |Target(dest, e.name)|
      && Place(after, Target(dest, e.name)[..k]) == Some(p)
  }

  ghost predicate IsPlace(after: Fs, dest: Path, entries: seq<Entry>, p: Path) {
    exists e :: e in entries && ValidName(e.name) && Place(after, Target(dest, e.name)) == Some(p)
  }

  /** What changes are the places targets lead to, and what is added beside them are folders on the way there. */
  ghost predicate ChangesOnlyPlaces(before: Fs, after: Fs, dest: Path, entries: seq<Entry>) {
    && (forall p | p in before :: p in after && (after[p] == before[p] || IsPlace(after, dest, entries, p)))
    && (forall p | p in after && p !in before ::
          IsPlace(after, dest, entries, p) || (after[p].Folder? && OnTheWay(after, dest, entries, p)))
  }

  lemma OneLands(fs: Fs, dest: Path, e: Entry, t: Trouble)
    requires TreeShaped(fs) && FolderAt(fs, [])
    ensures var (after, r) := ExtractOne(fs, dest, e, t);
            && TreeShaped(after) && Grows(fs, after) && FolderAt(after, [])
            && ChangesOnlyPlaces(fs, after, dest, [e]) && (r.Ok? ==> ValidName(e.name) && Landed(after, dest, e))
  {
    var target := Target(dest, e.name);
    var after := ExtractOne(fs, dest, e, t).0;
    assert e in [e] && Grows(fs, fs);
    if !t.Unreadable? && ValidName(e.name) && !e.kind.OtherEntry? {
      if e.kind.DirEntry? {
        FolderLands(fs, target, t);
      } else {
        FileLands(fs, target, e.kind.content, t);
      }
      forall p | p in after && p !in fs && Place(after, target) != Some(p)
        ensures OnTheWay(after, dest, [e], p)
      {
        var k :| 0 <= k <= |target| && Place(after, target[..k]) == Some(p);
        assert Place(after, Target(dest, e.name)[..k]) == Some(p);
      }
    }
  }

  lemma PlacesStay(middle: Fs, after: Fs, dest: Path, some: seq<Entry>, all: seq<Entry>, p: Path)
    requires Grows(middle, after) && forall e | e in some :: e in all
    ensures IsPlace(middle, dest, some, p) ==> IsPlace(after, dest, all, p)
    ensures OnTheWay(middle, dest, some, p) ==> OnTheWay(after, dest, all, p)
  {
    if IsPlace(middle, dest, some, p) {
      var e :| e in some && ValidName(e.name) && Place(middle, Target(dest, e.name)) == Some(p);
      WalkIsStable(middle, after, [], Target(dest, e.name), MAX_LINKS);
      assert e in all;
    }
    if OnTheWay(middle, dest, some, p) {
      var e, k :| e in some && ValidName(e.name) && 0 <= k <= |Target(dest, e.name)|
                  && Place(middle, Target(dest, e.name)[..k]) == Some(p);
      WalkIsStable(middle, after, [], Target(dest, e.name)[..k], MAX_LINKS);
      assert e in all;
    }
  }

  lemma PlacesCompose(a: Fs, b: Fs, c: Fs, dest: Path, entries: seq<Entry>)
    requires entries != [] && Grows(a, b) && Grows(b, c)
    requires ChangesOnlyPlaces(a, b, dest, [entries[0]]) && ChangesOnlyPlaces(b, c, dest, entries[1..])
    ensures ChangesOnlyPlaces(a, c, dest, entries)
  {
    forall p
      ensures IsPlace(b, dest, [entries[0]], p) ==> IsPlace(c, dest, entries, p)
      ensures OnTheWay(b, dest, [entries[0]], p) ==> OnTheWay(c, dest, entries, p)
      ensures IsPlace(c, dest, entries[1..], p) ==> IsPlace(c, dest, entries, p)
      ensures OnTheWay(c, dest, entries[1..], p) ==> OnTheWay(c, dest, entries, p)
    {
      PlacesStay(b, c, dest, [entries[0]], entries, p);
      assert Grows(c, c);
      PlacesStay(c, c, dest, entries[1..], entries, p);
    }
    forall p | p in a
      ensures p in c && (c[p] == a[p] || IsPlace(c, dest, entries, p))
    {
      assert p in b && p in c;
    }
  }

  /**
   * In every run, whatever goes wrong with an entry and wherever that leaves it, what changes is where targets lead; after
   * a success every entry is there.
   */
  lemma {:induction false} RunLands(fs: Fs, dest: Path, entries: seq<Entry>, troubles: nat -> Trouble, k: nat)
    requires TreeShaped(fs) && FolderAt(fs, [])
    ensures var (after, r) := Extracted(fs, dest, entries, troubles, k);
            && TreeShaped(after) && Grows(fs, after) && FolderAt(after, [])
            && ChangesOnlyPlaces(fs, after, dest, entries)
            && (r.Ok? ==> forall e | e in entries :: ValidName(e.name) && Landed(after, dest, e))
    decreases |entries|
  {
    if entries != [] {
      OneLands(fs, dest, entries[0], troubles(k));
      var (one, r) := ExtractOne(fs, dest, entries[0], troubles(k));
      if r.Ok? {
        RunLands(one, dest, entries[1..], troubles, k + 1);
        var after := Extracted(fs, dest, entries, troubles, k).0;
        GrowsOn(fs, one, after);
        PlacesCompose(fs, one, after, dest, entries);
        WalkIsStable(one, after, [], Target(dest, entries[0].name), MAX_LINKS);
      } else {
        assert Grows(one, one) && ChangesOnlyPlaces(one, one, dest, entries[1..]);
        PlacesCompose(fs, one, one, dest, entries);
      }
    }
  }

  lemma LinksStay(before: Fs, after: Fs, p: Path)
    requires Grows(before, after)
    ensures LinkFree(after, p) <==> LinkFree(before, p)
  {
    forall k | 0 <= k <= |p|
      ensures LinkAt(after, p[..k]) <==> LinkAt(before, p[..k])
    {
    }
  }

  /**
   * Main theorem on where a restore writes: after a successful one, every entry is at its own target if and only if,
   * in the tree it started from, neither a target nor a path above one is a link.
   */
  lemma EntriesLandAtTheirTargets(fs: Fs, dest: Path, entries: seq<Entry>, troubles: nat -> Trouble)
    requires TreeShaped(fs) && FolderAt(fs, []) && Extracted(fs, dest, entries, troubles, 0).1.Ok?
    ensures var after := Extracted(fs, dest, entries, troubles, 0).0;
            (forall e | e in entries :: Place(after, Target(dest, e.name)) == Some(Target(dest, e.name))) <==>
            (forall e | e in entries :: LinkFree(fs, Target(dest, e.name)))
  {
    var after := Extracted(fs, dest, entries, troubles, 0).0;
    RunLands(fs, dest, entries, troubles, 0);
    forall e | e in entries
      ensures Place(after, Target(dest, e.name)) == Some(Target(dest, e.name)) <==> LinkFree(fs, Target(dest, e.name))
    {
      assert Landed(after, dest, e);
      PlaceIsItself(after, Target(dest, e.name));
      LinksStay(fs, after, Target(dest, e.name));
    }
  }

  /** The places the accepted entries go to, as their names say. */
  ghost function Targets(dest: Path, entries: seq<Entry>): set<Path> {
    set e | e in entries && ValidName(e.name) :: Target(dest, e.name)
  }

  /** Nothing disappears, only targets change, and what is new beside them are folders on the way to them. */
  ghost predicate ChangesOnly(before: Fs, after: Fs, targets: set<Path>) {
    && (forall p | p in before :: p in after && (after[p] == before[p] || p in targets))
    && (forall p | p in after && p !in before && p !in targets :: after[p].Folder? && exists t :: t in targets && p <= t)
  }

  lemma TargetsAreBelow(dest: Path, entries: seq<Entry>)
    ensures forall t | t in Targets(dest, entries) :: dest <= t
  {
    forall e | e in entries && ValidName(e.name)
      ensures dest <= Target(dest, e.name)
    {
      TargetIsBelow(dest, e.name);
    }
  }

  /**
   * Confinement: without a link at or above a target, extraction over an existing tree changes only archived paths
   * and adds only their missing parents, whatever an error leaves behind.
   */
  lemma ChangesSettle(fs: Fs, dest: Path, entries: seq<Entry>, troubles: nat -> Trouble)
    requires TreeShaped(fs) && FolderAt(fs, [])
    requires forall t | t in Targets(dest, entries) :: LinkFree(fs, t)
    ensures ChangesOnly(fs, Extracted(fs, dest, entries, troubles, 0).0, Targets(dest, entries))
  {
    var after, targets := Extracted(fs, dest, entries, troubles, 0).0, Targets(dest, entries);
    RunLands(fs, dest, entries, troubles, 0);
    forall p
      ensures IsPlace(after, dest, entries, p) ==> p in targets
      ensures OnTheWay(after, dest, entries, p) ==> exists t :: t in targets && p <= t
    {
      if IsPlace(after, dest, entries, p) {
        var e :| e in entries && ValidName(e.name) && Place(after, Target(dest, e.name)) == Some(p);
        LeadsToItself(fs, after, Target(dest, e.name), |Target(dest, e.name)|);
      }
      if OnTheWay(after, dest, entries, p) {
        var e, k :| e in entries && ValidName(e.name) && 0 <= k <= |Target(dest, e.name)|
                    && Place(after, Target(dest, e.name)[..k]) == Some(p);
        LeadsToItself(fs, after, Target(dest, e.name), k);
        assert Target(dest, e.name) in targets && p <= Target(dest, e.name);
      }
    }
  }

  lemma LeadsToItself(fs: Fs, after: Fs, t: Path, k: nat)
    requires Grows(fs, after) && LinkFree(fs, t) && k <= |t|
    ensures Place(after, t[..k]) in {None, Some(t[..k])} && t[..|t|] == t
  {
    LinksStay(fs, after, t);
    forall l | 0 <= l <= k
      ensures !LinkAt(after, t[..k][..l])
    {
      assert t[..k][..l] == t[..l];
    }
    assert [] + t[..k] == t[..k];
    WalkWithoutLinks(after, [], t[..k], MAX_LINKS);
  }

  /**
   * Not so with a link. Where a target has become a link to some file, restoring it overwrites that file, although
   * it is neither archived nor on the way to anything that is, and the link stays.
   */
  lemma LinkIsFollowed(fs: Fs, dest: Path, e: Entry, file: Path)
    requires TreeShaped(fs) && FolderAt(fs, []) && ValidName(e.name) && e.kind.FileEntry?
    requires Target(dest, e.name) in fs && fs[Target(dest, e.name)] == Symlink(file)
    requires file in fs && fs[file].Plain? && fs[file] != Plain(e.kind.content)
    ensures forall troubles: nat -> Trouble | troubles(0).NoTrouble? ::
              && Extracted(fs, dest, [e], troubles, 0) == (fs[file := Plain(e.kind.content)], Ok(()))
              && !ChangesOnly(fs, Extracted(fs, dest, [e], troubles, 0).0, Targets(dest, [e]))
  {
    var t := Target(dest, e.name);
    var parent := Parent(t);
    FolderLeadsToItself(fs, t, |t| - 1);
    FolderLeadsToItself(fs, file, |file|);
    assert t == parent + [t[|t| - 1]] && [] + parent == parent && t[..|t| - 1] == parent;
    WalkOntoLink(fs, [], parent, t[|t| - 1], MAX_LINKS);
    assert file[..|file|] == file && file + [] == file;
    WalkFewerLinks(fs, file);
    var after := fs[file := Plain(e.kind.content)];
    assert WriteFile(fs, t, e.kind.content, NoTrouble) == (after, Ok(()));
    assert Targets(dest, [e]) == {t};
    forall troubles: nat -> Trouble | troubles(0).NoTrouble?
      ensures Extracted(fs, dest, [e], troubles, 0) == (after, Ok(()))
    {
      assert [e][1..] == [] && Extracted(after, dest, [], troubles, 1) == (after, Ok(()));
    }
  }

  /** What is above something on disk leads to itself, as does a thing that is no link. */
  lemma FolderLeadsToItself(fs: Fs, p: Path, k: nat)
    requires TreeShaped(fs) && p in fs && k <= |p| && (k == |p| ==> !LinkAt(fs, p))
    ensures Place(fs, p[..k]) == Some(p[..k])
    ensures LinkFree(fs, p[..k])
  {
    forall l | 0 <= l <= k
      ensures !LinkAt(fs, p[..k][..l])
    {
      assert p[..k][..l] == p[..l];
      if l == |p| {
        assert p[..l] == p;
      }
    }
    assert [] + p[..k] == p[..k];
    forall l | 0 <= l < k
      ensures FolderAt(fs, p[..k][..l])
    {
      assert p[..k][..l] == p[..l];
    }
    WalkWithoutLinks(fs, [], p[..k], MAX_LINKS);
  }

  lemma WalkFewerLinks(fs: Fs, p: Path)
    requires TreeShaped(fs) && p in fs && !LinkAt(fs, p)
    ensures Walk(fs, [], p, MAX_LINKS - 1) == Some(p)
  {
    FolderLeadsToItself(fs, p, |p|);
    assert p[..|p|] == p && [] + p == p;
    WalkWithoutLinks(fs, [], p, MAX_LINKS - 1);
  }

  /** One more step from a folder reached without a link, onto a link. */
  lemma {:induction false} WalkOntoLink(fs: Fs, at: Path, rest: Path, last: Name, links: nat)
    requires links > 0 && LinkFree(fs, at + rest) && Walk(fs, at, rest, links).Some?
    requires FolderAt(fs, at + rest) && LinkAt(fs, at + rest + [last])
    ensures Walk(fs, at, rest + [last], links) == Walk(fs, [], fs[at + rest + [last]].to + [], links - 1)
    decreases |rest|
  {
    if rest == [] {
      assert at + rest == at && [last][1..] == [] && rest + [last] == [last];
    } else {
      var next := at + [rest[0]];
      assert next + rest[1..] == at + rest && (at + rest)[..|at| + 1] == next;
      assert (rest + [last])[0] == rest[0] && (rest + [last])[1..] == rest[1..] + [last];
      WalkOntoLink(fs, next, rest[1..], last, links);
    }
  }

  class Disk {
    var fs: Fs

    ghost predicate Valid()
      reads this
    {
      TreeShaped(fs) && FolderAt(fs, [])
    }

    constructor (fs: Fs)
      requires TreeShaped(fs) && FolderAt(fs, [])
      ensures Valid() && this.fs == fs
    {
      this.fs := fs;
    }

    /** Entry by entry; an error leaves what has been extracted so far, the failing entry included. */
    method Extract(dest: Path, entries: seq<Entry>, troubles: nat -> Trouble) returns (r: Result<()>)
      requires Valid()
      modifies this
      ensures (fs, r) == Extracted(old(fs), dest, entries, troubles, 0)
      ensures Valid() && Grows(old(fs), fs)
      ensures forall t | t in Targets(dest, entries) :: dest <= t
      // without a link at or above a target, only archived paths and their missing parents
      ensures (forall t | t in Targets(dest, entries) :: LinkFree(old(fs), t)) ==> ChangesOnly(old(fs), fs, Targets(dest, entries))
      // in any case, only where the archived paths lead
      ensures ChangesOnlyPlaces(old(fs), fs, dest, entries)
      ensures r.Ok? ==>
                ((forall e | e in entries :: Place(fs, Target(dest, e.name)) == Some(Target(dest, e.name))) <==>
                 (forall e | e in entries :: LinkFree(old(fs), Target(dest, e.name))))
    {
      ghost var start := fs;
      var k := 0;
      TargetsAreBelow(dest, entries);
      RunLands(start, dest, entries, troubles, 0);
      if forall t | t in Targets(dest, entries) :: LinkFree(start, t) {
        ChangesSettle(start, dest, entries, troubles);
      }
      if Extracted(start, dest, entries, troubles, 0).1.Ok? {
        EntriesLandAtTheirTargets(start, dest, entries, troubles);
      }
      assert entries[0..] == entries;
      while k < |entries|
        invariant 0 <= k <= |entries|
        invariant Extracted(start, dest, entries, troubles, 0) == Extracted(fs, dest, entries[k..], troubles, k)
      {
        assert entries[k..][0] == entries[k] && entries[k..][1..] == entries[k + 1..];
        r := One(dest, entries[k], troubles(k));
        if r.Err? {
          return;
        }
        k := k + 1;
      }
      return Ok(());
    }

    /** One turn of the loop: read the header, check the name, make the folder or the parents, open, copy. */
    method One(dest: Path, e: Entry, t: Trouble) returns (r: Result<()>)
      modifies this
      ensures (fs, r) == ExtractOne(old(fs), dest, e, t)
    {
      if t.Unreadable? || !ValidName(e.name) {
        return Err(BackupVerifyFailed);
      }
      var target := Target(dest, e.name);
      match e.kind {
        case DirEntry =>
          r := Make(target, t);
        case FileEntry(content) =>
          if target == [] {
            return Err(Internal);
          }
          r := Make(Parent(target), t);
          if r.Err? {
            return;
          }
          if t.FileRefused? {
            return Err(Internal);
          }
          var written := OpenAndWrite(fs, target, if t.WriteStops? then content[..Min(t.bytes, |content|)] else content);
          if written.Err? {
            return Err(written.code);
          }
          fs := written.value;
          if t.WriteStops? {
            r := Err(Internal);
          }
        case OtherEntry =>
          r := Err(BackupVerifyFailed);
      }
    }

    method Make(p: Path, t: Trouble) returns (r: Result<()>)
      modifies this
      ensures (fs, r) == MakeFolder(old(fs), p, t)
    {
      var made := MkdirAll(fs, if t.FolderRefused? then p[..Min(t.depth, |p|)] else p);
      if made.Err? {
        return Err(made.code);
      }
      fs := made.value;
      r := if t.FolderRefused? then Err(Internal) else Ok(());
    }
  }

  // ---- The round trip ----

  /** What a file system is to become: the node wanted at each path, if any. */
  type Wanted = Path -> Option<Node>

  /** The way to a wanted node consists of wanted folders. */
  ghost predicate Closed(wanted: Wanted) {
    && (forall p, k | wanted(p).Some? && 0 <= k < |p| :: wanted(p[..k]) == Some(Folder))
    && (forall p | wanted(p).Some? :: !wanted(p).value.Symlink?)
  }

  ghost predicate Fits(fs: Fs, wanted: Wanted) {
    forall p | p in fs :: wanted(p) == Some(fs[p])
  }

  ghost predicate ParentsPresent(fs: Fs) {
    FolderAt(fs, []) && forall p, k | p in fs && 0 <= k < |p| :: p[..k] in fs
  }

  /** On the way to what is wanted there is no link, so a path leads to itself where its parent is there. */
  lemma WantedPlace(fs: Fs, wanted: Wanted, p: Path)
    requires Closed(wanted) && Fits(fs, wanted) && ParentsPresent(fs) && wanted(p).Some?
    ensures p in fs ==> Place(fs, p) == Some(p)
    ensures p !in fs ==> Stat(fs, p).None?
    ensures p != [] && Parent(p) in fs ==> Place(fs, p) == Some(p)
  {
    forall k | 0 <= k <= |p|
      ensures !LinkAt(fs, p[..k])
    {
      assert k == |p| ==> p[..k] == p;
    }
    assert [] + p == p;
    WalkWithoutLinks(fs, [], p, MAX_LINKS);
    if p in fs || (p != [] && Parent(p) in fs) {
      forall k | 0 <= k < |p|
        ensures FolderAt(fs, p[..k])
      {
        if k < |p| - 1 {
          assert p[..k] == Parent(p)[..k];
        } else {
          assert p[..k] == Parent(p);
        }
        assert p[..k] in fs && wanted(p[..k]) == Some(Folder);
      }
    }
  }

  lemma {:induction false} MkdirFits(fs: Fs, p: Path, wanted: Wanted)
    requires Closed(wanted) && Fits(fs, wanted) && ParentsPresent(fs) && wanted(p) == Some(Folder)
    ensures MkdirAll(fs, p).Ok?
    ensures var after := MkdirAll(fs, p).value;
            && Fits(after, wanted) && ParentsPresent(after) && p in after
            && (forall q | q in fs :: q in after) && (forall q | q in after && q !in fs :: |q| <= |p|)
    decreases |p|
  {
    WantedPlace(fs, wanted, p);
    if p !in fs {
      var parent := Parent(p);
      assert wanted(p[..|p| - 1]) == Some(Folder);
      MkdirFits(fs, parent, wanted);
      var made := MkdirAll(fs, parent).value;
      WantedPlace(made, wanted, parent);
      assert parent + [p[|p| - 1]] == p;
      AddedFits(made, p, Folder, wanted);
    }
  }

  lemma AddedFits(fs: Fs, p: Path, n: Node, wanted: Wanted)
    requires Fits(fs, wanted) && ParentsPresent(fs) && p != [] && Parent(p) in fs && wanted(p) == Some(n)
    ensures Fits(fs[p := n], wanted) && ParentsPresent(fs[p := n])
  {
    forall k | 0 <= k < |p|
      ensures p[..k] in fs
    {
      if k < |p| - 1 {
        assert p[..k] == Parent(p)[..k];
      } else {
        assert p[..k] == Parent(p);
      }
    }
  }

  lemma WriteFits(fs: Fs, p: Path, content: Content, wanted: Wanted)
    requires Closed(wanted) && Fits(fs, wanted) && ParentsPresent(fs) && p != [] && wanted(p) == Some(Plain(content))
    ensures WriteFile(fs, p, content, NoTrouble).1.Ok?
    ensures var after := WriteFile(fs, p, content, NoTrouble).0;
            Fits(after, wanted) && ParentsPresent(after) && p in after && forall q | q in fs :: q in after
  {
    assert wanted(p[..|p| - 1]) == Some(Folder);
    MkdirFits(fs, Parent(p), wanted);
    var made := MkdirAll(fs, Parent(p)).value;
    WantedPlace(made, wanted, p);
    assert !FolderAt(made, p);
    AddedFits(made, p, Plain(content), wanted);
  }

  ghost predicate EntryWanted(e: Entry, dest: Path, wanted: Wanted) {
    && e.name != [] && PlainPath(e.name) && !e.kind.OtherEntry?
    && wanted(dest + e.name).Some? && KindOf(wanted(dest + e.name).value) == e.kind
  }

  /** A wanted entry is extracted as it is wanted, or the system gets in the way. */
  lemma OneFits(fs: Fs, dest: Path, e: Entry, t: Trouble, wanted: Wanted)
    requires Closed(wanted) && Fits(fs, wanted) && ParentsPresent(fs) && EntryWanted(e, dest, wanted)
    ensures t.NoTrouble? ==> ExtractOne(fs, dest, e, t).1.Ok?
    ensures var (after, r) := ExtractOne(fs, dest, e, t);
            r.Ok? ==>
              && Fits(after, wanted) && ParentsPresent(after)
              && (forall q | q in fs :: q in after) && dest + e.name in after
  {
    PlainIsClean(e.name);
    TargetIsBelow(dest, e.name);
    assert PlainName(e.name[0]);
    if e.kind.DirEntry? {
      MkdirFits(fs, dest + e.name, wanted);
    } else {
      WriteFits(fs, dest + e.name, e.kind.content, wanted);
    }
    assert ExtractOne(fs, dest, e, NoTrouble).1.Ok?;
    assert ExtractOne(fs, dest, e, t).1.Ok? ==> ExtractOne(fs, dest, e, t) == ExtractOne(fs, dest, e, NoTrouble);
  }

  lemma {:induction false} ExtractFits(fs: Fs, dest: Path, entries: seq<Entry>, troubles: nat -> Trouble, k: nat, wanted: Wanted)
    requires Closed(wanted) && Fits(fs, wanted) && ParentsPresent(fs)
    requires forall e | e in entries :: EntryWanted(e, dest, wanted)
    ensures (forall i | k <= i < k + |entries| :: troubles(i).NoTrouble?) ==> Extracted(fs, dest, entries, troubles, k).1.Ok?
    ensures var (after, r) := Extracted(fs, dest, entries, troubles, k);
            r.Ok? ==>
              && Fits(after, wanted) && ParentsPresent(after)
              && (forall q | q in fs :: q in after)
              && (forall e | e in entries :: dest + e.name in after)
    decreases |entries|
  {
    if entries != [] {
      var e := entries[0];
      assert e in entries;
      OneFits(fs, dest, e, troubles(k), wanted);
      var (one, r) := ExtractOne(fs, dest, e, troubles(k));
      if r.Ok? {
        assert forall x | x in entries[1..] :: x in entries;
        ExtractFits(one, dest, entries[1..], troubles, k + 1, wanted);
      }
    }
  }

  // What the archive of declared paths asks for.

  /** q is archived by way of the declared path d. */
  ghost predicate ByWayOf(policy: Policy, root: Tree, d: Path, q: Path) {
    && At(root, d).Some? && NodeOf(At(root, d).value, policy.symlinks).Some?
    && ((d <= q && Kept(policy, At(root, d).value, [], q[|d|..]).Some?) || (q < d))
  }

  ghost predicate Archived(policy: Policy, root: Tree, paths: seq<Path>, q: Path) {
    exists d :: d in paths && ByWayOf(policy, root, d, q)
  }

  lemma {:induction false} AtIsPlain(tree: Tree, path: Path)
    requires WellFormed(tree) && At(tree, path).Some?
    ensures PlainPath(path) && WellFormed(At(tree, path).value)
    decreases |path|
  {
    if path != [] {
      FoundIsOk(tree.children, path[0]);
      AtIsPlain(Find(tree.children, path[0]).value, path[1..]);
      forall k | 0 <= k < |path|
        ensures PlainName(path[k])
      {
        assert k > 0 ==> path[k] == path[1..][k - 1];
      }
    }
  }

  lemma {:induction false} FoundIsOk(forest: Forest, name: Name)
    requires ForestOk(forest) && Find(forest, name).Some?
    ensures PlainName(name) && WellFormed(Find(forest, name).value)
  {
    if forest.name != name {
      FoundIsOk(forest.rest, name);
    }
  }

  lemma {:induction false} AtOfConcat(tree: Tree, a: Path, b: Path)
    requires At(tree, a).Some?
    ensures At(tree, a + b) == At(At(tree, a).value, b)
    decreases |a|
  {
    if a == [] {
      assert a + b == b;
    } else {
      assert (a + b)[1..] == a[1..] + b;
      AtOfConcat(Find(tree.children, a[0]).value, a[1..], b);
    }
  }

  /** What is kept is what is on disk, and everything on the way to it is a kept directory. */
  lemma {:induction false} KeptIsOnDisk(policy: Policy, tree: Tree, rel: Path, q: Path)
    requires Kept(policy, tree, rel, q).Some?
    ensures At(tree, q).Some? && NodeOf(At(tree, q).value, policy.symlinks) == Kept(policy, tree, rel, q)
    ensures forall k | 0 <= k < |q| :: Kept(policy, tree, rel, q[..k]) == Some(Folder)
    decreases |q|
  {
    if q != [] {
      var child := Find(tree.children, q[0]).value;
      KeptIsOnDisk(policy, child, rel + [q[0]], q[1..]);
      forall k | 0 <= k < |q|
        ensures Kept(policy, tree, rel, q[..k]) == Some(Folder)
      {
        if k > 0 {
          assert q[..k][1..] == q[1..][..k - 1];
        }
      }
    }
  }

  /** A step above something on disk is a directory. */
  lemma {:induction false} AboveIsDir(tree: Tree, path: Path, k: nat)
    requires At(tree, path).Some? && k < |path|
    ensures At(tree, path[..k]).Some? && At(tree, path[..k]).value.Dir?
    decreases |path|
  {
    if k > 0 {
      assert path[..k][1..] == path[1..][..k - 1];
      AboveIsDir(Find(tree.children, path[0]).value, path[1..], k - 1);
    }
  }

  lemma ByWayOfIsOnDisk(policy: Policy, root: Tree, d: Path, q: Path)
    requires ByWayOf(policy, root, d, q)
    ensures At(root, q).Some? && NodeOf(At(root, q).value, policy.symlinks).Some?
    ensures d <= q ==> NodeOf(At(root, q).value, policy.symlinks) == Kept(policy, At(root, d).value, [], q[|d|..])
  {
    if d <= q {
      KeptIsOnDisk(policy, At(root, d).value, [], q[|d|..]);
      AtOfConcat(root, d, q[|d|..]);
      assert d + q[|d|..] == q;
    } else {
      AboveIsDir(root, d, |q|);
    }
  }

  lemma ByWayOfIsClosed(policy: Policy, root: Tree, d: Path, q: Path, k: nat)
    requires ByWayOf(policy, root, d, q) && k < |q|
    ensures ByWayOf(policy, root, d, q[..k])
    ensures At(root, q[..k]).Some? && At(root, q[..k]).value.Dir?
  {
    ByWayOfIsOnDisk(policy, root, d, q);
    AboveIsDir(root, q, k);
    if d <= q && |d| <= k {
      KeptIsOnDisk(policy, At(root, d).value, [], q[|d|..]);
      assert q[..k][|d|..] == q[|d|..][..k - |d|];
      assert d <= q[..k];
    }
  }

  /** The node wanted at p when the declared paths are restored below dest. */
  ghost function Restored(policy: Policy, root: Tree, dest: Path, p: Path): Option<Node> {
    if p <= dest then Some(Folder)
    else if dest <= p && Archived(policy, root, policy.paths, p[|dest|..]) && At(root, p[|dest|..]).Some? then
      NodeOf(At(root, p[|dest|..]).value, policy.symlinks)
    else None
  }

  lemma RestoredIsClosed(policy: Policy, root: Tree, dest: Path)
    ensures Closed(p => Restored(policy, root, dest, p))
  {
    forall p: Path, k | Restored(policy, root, dest, p).Some? && 0 <= k < |p|
      ensures Restored(policy, root, dest, p[..k]) == Some(Folder)
    {
      if !(p <= dest) && k > |dest| {
        var q := p[|dest|..];
        var d :| d in policy.paths && ByWayOf(policy, root, d, q);
        ByWayOfIsClosed(policy, root, d, q, k - |dest|);
        assert p[..k][|dest|..] == q[..k - |dest|];
        assert dest <= p[..k];
      }
    }
  }

  lemma {:induction false} ArchiveEntries(policy: Policy, root: Tree, paths: seq<Path>)
    requires WellFormed(root) && Archive(policy, root, paths).Ok?
    ensures OnlyNodes(Archive(policy, root, paths).value)
    ensures forall d | d in paths :: At(root, d).Some?
    ensures forall q, n :: IsEntry(Archive(policy, root, paths).value, q, n) <==>
              exists d :: d in paths && d <= q && At(root, d).Some? && Kept(policy, At(root, d).value, [], q[|d|..]) == Some(n)
    decreases |paths|
  {
    if paths != [] {
      var d0 := paths[0];
      var first := Entries(policy, At(root, d0).value, d0, []).value;
      var others := Archive(policy, root, paths[1..]).value;
      AtIsPlain(root, d0);
      EntriesAreKept(policy, At(root, d0).value, d0, []);
      ArchiveEntries(policy, root, paths[1..]);
      forall q, n
        ensures IsEntry(first + others, q, n) <==>
                exists d :: d in paths && d <= q && At(root, d).Some? && Kept(policy, At(root, d).value, [], q[|d|..]) == Some(n)
      {
        var e := Entry(q, KindOf(n));
        assert e in first + others <==> IsEntry(first, q, n) || IsEntry(others, q, n);
        if IsEntry(first, q, n) {
          assert d0 in paths;
        }
        if IsEntry(others, q, n) {
          var d :| d in paths[1..] && d <= q && At(root, d).Some? && Kept(policy, At(root, d).value, [], q[|d|..]) == Some(n);
          assert d in paths;
        }
        if d :| d in paths && d <= q && At(root, d).Some? && Kept(policy, At(root, d).value, [], q[|d|..]) == Some(n) {
          assert d == d0 || d in paths[1..];
        }
      }
    }
  }

  lemma KeptIsByWayOf(policy: Policy, root: Tree, d: Path, q: Path)
    requires d <= q && At(root, d).Some? && Kept(policy, At(root, d).value, [], q[|d|..]).Some?
    ensures ByWayOf(policy, root, d, q)
  {
    var below := q[|d|..];
    KeptIsOnDisk(policy, At(root, d).value, [], below);
    if below != [] {
      assert below[..0] == [];
      assert Kept(policy, At(root, d).value, [], below[..0]) == Some(Folder);
    }
  }

  lemma EntryIsWanted(policy: Policy, root: Tree, dest: Path, d: Path, q: Path, n: Node)
    requires WellFormed(root) && d in policy.paths && d != [] && d <= q
    requires At(root, d).Some? && Kept(policy, At(root, d).value, [], q[|d|..]) == Some(n)
    ensures Restored(policy, root, dest, dest + q) == Some(n) && PlainPath(q) && q != []
  {
    KeptIsByWayOf(policy, root, d, q);
    ByWayOfIsOnDisk(policy, root, d, q);
    AtIsPlain(root, q);
    assert (dest + q)[|dest|..] == q;
  }

  lemma WantedIsExtracted(policy: Policy, root: Tree, dest: Path, entries: seq<Entry>, after: Fs, p: Path)
    requires WellFormed(root) && Archive(policy, root, policy.paths) == Ok(entries)
    requires ParentsPresent(after) && (forall q | q <= dest :: q in after)
    requires forall e | e in entries :: dest + e.name in after
    requires Restored(policy, root, dest, p).Some?
    ensures p in after
  {
    if !(p <= dest) {
      ArchiveEntries(policy, root, policy.paths);
      var q := p[|dest|..];
      assert p == dest + q;
      var d :| d in policy.paths && ByWayOf(policy, root, d, q);
      var tree := At(root, d).value;
      if d <= q {
        var n := Kept(policy, tree, [], q[|d|..]).value;
        assert IsEntry(entries, q, n);
        assert dest + Entry(q, KindOf(n)).name in after;
      } else {
        var n := NodeOf(tree, policy.symlinks).value;
        assert d[|d|..] == [] && Kept(policy, tree, [], d[|d|..]) == Some(n);
        assert IsEntry(entries, d, n);
        assert dest + Entry(d, KindOf(n)).name in after;
        assert (dest + d)[..|dest| + |q|] == dest + q;
      }
    }
  }

  /**
   * Main theorem: extracting what was archived into an empty destination fails only if the system gets in the way; a
   * success rebuilds, below it, exactly the archived nodes with their content, and nothing else.
   */
  lemma RoundTrip(policy: Policy, root: Tree, dest: Path, entries: seq<Entry>, troubles: nat -> Trouble, fs: Fs)
    requires WellFormed(root) && Archive(policy, root, policy.paths) == Ok(entries)
    requires forall d | d in policy.paths :: d != []
    requires (forall p :: p in fs <==> p <= dest) && forall p | p in fs :: fs[p] == Folder
    ensures (forall i | 0 <= i < |entries| :: troubles(i).NoTrouble?) ==> Extracted(fs, dest, entries, troubles, 0).1.Ok?
    ensures var (after, r) := Extracted(fs, dest, entries, troubles, 0);
            r.Ok? ==> forall p :: (if p in after then Some(after[p]) else None) == Restored(policy, root, dest, p)
  {
    var wanted := p => Restored(policy, root, dest, p);
    RestoredIsClosed(policy, root, dest);
    ArchiveEntries(policy, root, policy.paths);
    forall e | e in entries
      ensures EntryWanted(e, dest, wanted)
    {
      var n := if e.kind.DirEntry? then Folder else Plain(e.kind.content);
      assert IsEntry(entries, e.name, n);
      var d :| d in policy.paths && d <= e.name && At(root, d).Some?
               && Kept(policy, At(root, d).value, [], e.name[|d|..]) == Some(n);
      EntryIsWanted(policy, root, dest, d, e.name, n);
    }
    ExtractFits(fs, dest, entries, troubles, 0, wanted);
    var after := Extracted(fs, dest, entries, troubles, 0).0;
    forall p | Extracted(fs, dest, entries, troubles, 0).1.Ok?
      ensures (if p in after then Some(after[p]) else None) == Restored(policy, root, dest, p)
    {
      if p in after {
        assert wanted(p) == Some(after[p]);
      } else if Restored(policy, root, dest, p).Some? {
        WantedIsExtracted(policy, root, dest, entries, after, p);
        assert false;
      }
    }
  }

  /** An excluded directory is dropped with its whole subtree. */
  lemma {:induction false} ExclusionDropsSubtree(policy: Policy, tree: Tree, rel: Path, q: Path, k: nat)
    requires 0 < k <= |q| && Excluded(policy, rel + q[..k])
    ensures Kept(policy, tree, rel, q).None?
    decreases |q|
  {
    if k == 1 {
      assert q[..1] == [q[0]];
    } else if Kept(policy, tree, rel, q).Some? {
      assert rel + q[..k] == (rel + [q[0]]) + q[1..][..k - 1];
      ExclusionDropsSubtree(policy, Find(tree.children, q[0]).value, rel + [q[0]], q[1..], k - 1);
    }
  }
}
