/**
 The OPFS file operations.  A handle is the path it was obtained for; the handle primitives
 follow the sections on FileSystemDirectoryHandle, FileSystemFileHandle and
 FileSystemWritableFileStream of the WHATWG File System Standard, without quota or I/O faults.
 Each operation walks and changes the tree step by step and is proved to do exactly its flat
 counterpart.
 */
module Opfs {
  import opened Wrappers
  import opened Strings
  import opened FileTree

  const USIZE := 0x1_0000_0000  // `usize` on wasm32
  const ISIZE_MAX := 0x7fff_ffff  // no allocation is larger

  type Usize = n: int | 0 <= n < USIZE
  type U64 = n: int | 0 <= n < 0x1_0000_0000_0000_0000

  /** Trap stands for a panic; the other constructors are the reachable `FsError`s. */
  datatype FsError = NotFound | NotFile | InvalidPath | Trap

  // ─── Paths ────────────────────────────────────────────────────

  datatype Component = RootDir | ParentDir | Normal(name: string)

  function PieceComponent(piece: string): seq<Component> {
    if piece == "" || piece == "." then [] else if piece == ".." then [ParentDir] else [Normal(piece)]
  }

  function PieceComponents(pieces: seq<string>): seq<Component>
    decreases |pieces|
  {
    if pieces == [] then [] else PieceComponent(pieces[0]) + PieceComponents(pieces[1..])
  }

  /** `Path::components` of a path with a root: empty and `.` pieces are skipped. */
  function Components(path: string): seq<Component> {
    [RootDir] + PieceComponents(Split(path, '/'))
  }

  /** The pieces that name something. */
  function Named(pieces: seq<string>): seq<string>
    decreases |pieces|
  {
    if pieces == [] then []
    else (if pieces[0] == "" || pieces[0] == "." then [] else [pieces[0]]) + Named(pieces[1..])
  }

  /** What `path_parts` accepts: a non-empty path without `..`, read from the root. */
  function Parts(path: string): Result<Path, FsError> {
    if path == "" || ".." in Split(path, '/') then Err(InvalidPath) else Ok(Named(Split(path, '/')))
  }

  function CollectParts(components: seq<Component>, acc: seq<string>): Result<Path, FsError>
    decreases |components|
  {
    if components == [] then Ok(acc)
    else
      match components[0]
      case RootDir => CollectParts(components[1..], acc)
      case ParentDir => Err(InvalidPath)
      case Normal(name) =>
        if name == ".." then Err(InvalidPath)
        else if name == "." || name == "" then CollectParts(components[1..], acc)
        else CollectParts(components[1..], acc + [name])
  }

  lemma {:induction false} CollectPieces(pieces: seq<string>, acc: seq<string>)
    ensures CollectParts(PieceComponents(pieces), acc)
         == if ".." in pieces then Err(InvalidPath) else Ok(acc + Named(pieces))
    decreases |pieces|
  {
    if pieces == [] {
      assert acc + Named(pieces) == acc;
    } else {
      var components := PieceComponents(pieces);
      var head := PieceComponent(pieces[0]);
      assert pieces == [pieces[0]] + pieces[1..];
      if head == [] {
        assert components == PieceComponents(pieces[1..]);
        CollectPieces(pieces[1..], acc);
        assert acc + Named(pieces) == acc + Named(pieces[1..]);
      } else {
        assert components[0] == head[0] && components[1..] == PieceComponents(pieces[1..]);
        CollectPieces(pieces[1..], acc + [pieces[0]]);
        assert (acc + [pieces[0]]) + Named(pieces[1..]) == acc + Named(pieces);
      }
    }
  }

  lemma AnchoredPieces(path: string)
    ensures var pieces := Split("/" + path, '/');
            pieces == [""] + Split(path, '/') && Named(pieces) == Named(Split(path, '/'))
  {
    assert ("/" + path)[1..] == path;
    assert ([""] + Split(path, '/'))[1..] == Split(path, '/');
  }

  /** Collecting the components of an anchored path gives what `Parts` says. */
  lemma CollectIsParts(path: string, effective: string)
    requires path != "" && effective == if path[0] == '/' then path else "/" + path
    ensures CollectParts(Components(effective), []) == Parts(path)
  {
    var pieces := Split(effective, '/');
    CollectPieces(pieces, []);
    AnchoredPieces(path);
    assert Components(effective)[1..] == PieceComponents(pieces);
    assert [] + Named(pieces) == Named(pieces);
    assert path[0] != '/' ==> (".." in pieces <==> ".." in Split(path, '/'));
  }

  method PathParts(path: string) returns (result: Result<Path, FsError>)
    ensures result == Parts(path)
  {
    if path == "" {
      return Err(InvalidPath);
    }
    var effective := if path[0] == '/' then path else "/" + path;
    var components := Components(effective);
    var parts: seq<string> := [];
    var i := 0;
    CollectIsParts(path, effective);
    while i < |components|
      invariant 0 <= i <= |components|
      invariant CollectParts(components, []) == CollectParts(components[i..], parts)
    {
      assert components[i..][1..] == components[i + 1..];
      match components[i] {
        case RootDir =>
        case Normal(name) =>
          if name == ".." {
            return Err(InvalidPath);
          }
          if !(name == "." || name == "") {
            parts := parts + [name];
          }
        case ParentDir =>
          return Err(InvalidPath);
      }
      i := i + 1;
    }
    result := Ok(parts);
  }

  // ─── Flat meaning of the operations ───────────────────────────

  ghost predicate Exists(f: Flat, p: Path) {
    p in f.files || p in f.dirs
  }

  /** A file stands where the walk to `p` needs a directory. */
  ghost predicate FileAbove(f: Flat, p: Path) {
    exists k :: 0 <= k < |p| && p[..k] in f.files
  }

  /** The directories above `p`, and those down to `p` itself. */
  ghost function Above(p: Path): iset<Path> {
    iset q | IsAbove(q, p)
  }

  ghost function DownTo(p: Path): iset<Path> {
    Above(p) + iset{p}
  }

  predicate IsAbove(q: Path, p: Path) {
    q < p
  }

  /** Why `p` cannot be reached as what it is not. */
  ghost function Missing(f: Flat, p: Path): FsError {
    if FileAbove(f, p) || Exists(f, p) then NotFile else NotFound
  }

  ghost function FindFlat(f: Flat, p: Path): Result<seq<Byte>, FsError> {
    if p == [] then Err(InvalidPath)
    else if p in f.files then Ok(f.files[p])
    else Err(Missing(f, p))
  }

  /** The bytes of a file, unless the buffer for them is too large to allocate. */
  ghost function ReadFlat(f: Flat, p: Path): Result<seq<Byte>, FsError> {
    var found := FindFlat(f, p);
    if found.Ok? && |found.value| > ISIZE_MAX then Err(Trap) else found
  }

  ghost function WriteFlat(f: Flat, p: Path, data: seq<Byte>): (Flat, Option<FsError>) {
    if p == [] then (f, Some(InvalidPath))
    else if FileAbove(f, p) || p in f.dirs then (f, Some(NotFile))
    else (Flat(f.files[p := data], f.dirs + Above(p)), None)
  }

  ghost function MkdirFlat(f: Flat, p: Path): (Flat, Option<FsError>) {
    if FileAbove(f, p) || p in f.files then (f, Some(NotFile))
    else (f.(dirs := f.dirs + DownTo(p)), None)
  }

  ghost function DeleteFlat(f: Flat, p: Path): (Flat, Option<FsError>) {
    if p == [] then (f, Some(InvalidPath))
    else if Exists(f, p) then (Without(f, p), None)
    else (f, Some(Missing(f, p)))
  }

  function Zeros(n: nat): seq<Byte> {
    seq(n, _ => 0)
  }

  /** Write at an offset: pad with zeros up to it, overwrite, keep what lies beyond. */
  function WriteAt(bytes: seq<Byte>, offset: nat, data: seq<Byte>): seq<Byte> {
    var padded := if offset > |bytes| then bytes + Zeros(offset - |bytes|) else bytes;
    padded[..offset] + data + (if offset + |data| <= |padded| then padded[offset + |data|..] else [])
  }

  lemma WriteAtEnd(bytes: seq<Byte>, data: seq<Byte>)
    ensures WriteAt(bytes, |bytes|, data) == bytes + data
    ensures bytes == [] ==> bytes + data == data
  {
  }

  ghost function UpdateFlat(f: Flat, p: Path, offset: U64, data: seq<Byte>): (Flat, Option<FsError>) {
    var r := FindFlat(f, p);
    if r.Err? then (f, Some(r.error))
    else (f.(files := f.files[p := WriteAt(r.value, offset, data)]), None)
  }

  ghost function AppendFlat(f: Flat, p: Path, data: seq<Byte>): (Flat, Option<FsError>) {
    if p in f.files && p != [] then (f.(files := f.files[p := f.files[p] + data]), None) else WriteFlat(f, p, data)
  }

  ghost function CopyFlat(f: Flat, source: Path, target: Path): (Flat, Option<FsError>) {
    var r := ReadFlat(f, source);
    if r.Err? then (f, Some(r.error)) else WriteFlat(f, target, r.value)
  }

  ghost function RenameFlat(f: Flat, source: Path, target: Path): (Flat, Option<FsError>) {
    var (f', error) := CopyFlat(f, source, target);
    if error.Some? then (f', error) else DeleteFlat(f', source)
  }

  /** The same on path strings; a bad target is only noticed once the source has been read. */
  ghost function CopyPaths(f: Flat, source: string, target: string): (Flat, Option<FsError>) {
    match Parts(source)
    case Err(e) => (f, Some(e))
    case Ok(p) =>
      match Parts(target)
      case Ok(q) => CopyFlat(f, p, q)
      case Err(e) => (f, Some(if ReadFlat(f, p).Err? then ReadFlat(f, p).error else e))
  }

  ghost function RenamePaths(f: Flat, source: string, target: string): (Flat, Option<FsError>) {
    match Parts(source)
    case Err(e) => (f, Some(e))
    case Ok(p) =>
      match Parts(target)
      case Ok(q) => RenameFlat(f, p, q)
      case Err(e) => CopyPaths(f, source, target)
  }

  datatype Kind = FileKind(size: nat) | DirKind

  ghost function StatFlat(f: Flat, p: Path): Result<Kind, FsError> {
    if p != [] && p in f.files then Ok(FileKind(|f.files[p]|))
    else if p in f.dirs then Ok(DirKind)
    else Err(Missing(f, p))
  }

  /** The slice `bytes[start..end]` as `usize` arithmetic computes its bounds. */
  function RangeOf(bytes: seq<Byte>, offset: U64, len: Usize): Result<seq<Byte>, FsError> {
    var start := offset % USIZE;
    if start >= |bytes| then Ok([])
    else
      var sum := (start + len) % USIZE;
      var end := if sum < |bytes| then sum else |bytes|;
      if start <= end then Ok(bytes[start..end]) else Err(Trap)
  }

  ghost function ReadRangeFlat(f: Flat, p: Path, offset: U64, len: Usize): Result<seq<Byte>, FsError> {
    match ReadFlat(f, p)
    case Err(e) => Err(e)
    case Ok(bytes) => RangeOf(bytes, offset, len)
  }

  // ─── The tree behind the view ─────────────────────────────────

  /** What every view of a tree satisfies. */
  ghost predicate TreeLike(f: Flat) {
    && [] in f.dirs
    && (forall p :: p in f.files ==> p !in f.dirs)
    && (forall p, q :: p < q && Exists(f, q) ==> p in f.dirs)
  }

  lemma ViewIsTreeLike(root: Node)
    requires root.Dir?
    ensures TreeLike(View(root))
  {
    var f := View(root);
    forall p, q | p < q && Exists(f, q) ensures p in f.dirs {
      DirsAbove(root, p, q);
    }
  }

  lemma PrefixOrder(p: Path, j: nat, k: nat)
    requires j <= k <= |p|
    ensures p[..j] <= p[..k] && (j < k ==> p[..j] < p[..k]) && p[..k][..j] == p[..j]
  {
  }

  /** The first step that is not a directory decides why a path is not one. */
  lemma BlockedAt(f: Flat, parts: Path, j: nat)
    requires TreeLike(f) && 0 < j <= |parts| && parts[..j - 1] in f.dirs && parts[..j] !in f.dirs
    ensures parts !in f.dirs
    ensures parts[..j] in f.files ==> parts in f.files || FileAbove(f, parts)
    ensures parts[..j] !in f.files ==> parts !in f.files && !FileAbove(f, parts)
  {
    assert parts[..|parts|] == parts;
    PrefixOrder(parts, j, |parts|);
    forall k | 0 <= k <= |parts| ensures k < j ==> parts[..k] !in f.files
                                 ensures k > j ==> !Exists(f, parts[..k])
    {
      if k < j - 1 {
        PrefixOrder(parts, k, j - 1);
        assert Exists(f, parts[..j - 1]) && parts[..k] in f.dirs;
      } else if k > j {
        PrefixOrder(parts, j, k);
      }
    }
  }

  lemma DownToNext(parts: Path, i: nat)
    requires i < |parts|
    ensures DownTo(parts[..i + 1]) == DownTo(parts[..i]) + iset{parts[..i + 1]}
    ensures Above(parts[..i + 1]) == DownTo(parts[..i])
  {
    forall q ensures q in Above(parts[..i + 1]) <==> q in DownTo(parts[..i]) {
      if q < parts[..i + 1] {
        assert q == parts[..|q|];
        PrefixOrder(parts, |q|, i);
      }
      if q < parts[..i] {
        PrefixOrder(parts, i, i + 1);
      }
    }
  }

  /** A walk to the parent fails for the same reason as a walk to the path. */
  lemma ParentBlocks(f: Flat, p: Path)
    requires TreeLike(f) && p != []
    ensures var parent := p[..|p| - 1];
            && (FileAbove(f, p) <==> FileAbove(f, parent) || parent in f.files)
            && (parent !in f.dirs ==> !Exists(f, p))
            && (parent in f.dirs ==> !FileAbove(f, p))
  {
    var parent := p[..|p| - 1];
    assert parent < p;
    forall k | 0 <= k < |p| ensures p[..k] == if k < |parent| then parent[..k] else parent {
    }
    if parent in f.dirs {
      forall k | 0 <= k < |p| ensures p[..k] !in f.files {
        if k < |parent| {
          assert p[..k] < parent && Exists(f, parent);
        }
      }
    }
  }

  lemma AboveExisting(f: Flat, p: Path)
    requires TreeLike(f) && Exists(f, p)
    ensures Above(p) <= f.dirs
  {
  }

  class FileSystem {
    var root: Node

    ghost predicate Valid()
      reads this
    {
      root.Dir?
    }

    ghost function Now(): (f: Flat)
      reads this
      requires Valid()
      ensures TreeLike(f)
    {
      ViewIsTreeLike(root);
      View(root)
    }

    constructor ()
      ensures Valid() && Now() == Flat(imap[], iset{[]})
    {
      root := Dir(map[]);
      new;
      forall p ensures Lookup(root, p).Some? <==> p == [] {
      }
      assert View(root) == Flat(imap[], iset{[]});
    }

    // ─── Handle primitives ──────────────────────────────────────

    /** `getDirectoryHandle(name, {create})` on a directory handle. */
    method GetDirectoryHandle(dir: Path, name: string, create: bool) returns (result: Result<Path, FsError>)
      requires Valid() && dir in Now().dirs
      modifies this
      ensures Valid()
      ensures var p := dir + [name];
              if p in old(Now()).dirs then result == Ok(p) && Now() == old(Now())
              else if p in old(Now()).files then result == Err(NotFile) && Now() == old(Now())
              else if create then result == Ok(p) && Now() == old(Now()).(dirs := old(Now()).dirs + iset{p})
              else result == Err(NotFound) && Now() == old(Now())
    {
      var p := dir + [name];
      assert Parent(p) == dir;
      var found := Lookup(root, p);
      if found.Some? {
        return if found.value.Dir? then Ok(p) else Err(NotFile);
      }
      if !create {
        return Err(NotFound);
      }
      ViewNewDir(root, p);
      root := Put(root, p, Dir(map[]));
      result := Ok(p);
    }

    /** `getFileHandle(name, {create})`: a new file is empty. */
    method GetFileHandle(dir: Path, name: string, create: bool) returns (result: Result<Path, FsError>)
      requires Valid() && dir in Now().dirs
      modifies this
      ensures Valid()
      ensures var p := dir + [name];
              if p in old(Now()).files then result == Ok(p) && Now() == old(Now())
              else if p in old(Now()).dirs then result == Err(NotFile) && Now() == old(Now())
              else if create then result == Ok(p) && Now() == old(Now()).(files := old(Now()).files[p := []])
              else result == Err(NotFound) && Now() == old(Now())
    {
      var p := dir + [name];
      assert Parent(p) == dir;
      var found := Lookup(root, p);
      if found.Some? {
        return if found.value.File? then Ok(p) else Err(NotFile);
      }
      if !create {
        return Err(NotFound);
      }
      ViewPutFile(root, p, []);
      root := Put(root, p, File([]));
      result := Ok(p);
    }

    /** `removeEntry(name, {recursive: true})`. */
    method RemoveEntry(dir: Path, name: string) returns (error: Option<FsError>)
      requires Valid() && dir in Now().dirs
      modifies this
      ensures Valid()
      ensures var p := dir + [name];
              if Exists(old(Now()), p) then error == None && Now() == Without(old(Now()), p)
              else error == Some(NotFound) && Now() == old(Now())
    {
      var p := dir + [name];
      assert Parent(p) == dir;
      if Lookup(root, p).None? {
        return Some(NotFound);
      }
      ViewRemove(root, p);
      root := Remove(root, p);
      error := None;
    }

    /** `getFile` and its contents. */
    method GetFile(handle: Path) returns (bytes: seq<Byte>)
      requires Valid() && handle in Now().files
      ensures bytes == Now().files[handle]
    {
      bytes := Lookup(root, handle).value.bytes;
    }

    /** `createWritable`, an optional seek, one write, and close. */
    method WriteToHandle(handle: Path, data: seq<Byte>, offset: Option<nat>)
      requires Valid() && handle != [] && handle in Now().files
      modifies this
      ensures Valid()
      ensures var bytes := if offset.Some? then WriteAt(old(Now()).files[handle], offset.value, data) else data;
              Now() == old(Now()).(files := old(Now()).files[handle := bytes])
    {
      var stream := if offset.Some? then Lookup(root, handle).value.bytes else [];
      var position := if offset.Some? then offset.value else 0;
      var written := WriteAt(stream, position, data);
      assert offset.None? ==> written == data;
      DirsAbove(root, Parent(handle), handle);
      ViewPutFile(root, handle, written);
      root := Put(root, handle, File(written));
    }

    // ─── Walks ──────────────────────────────────────────────────

    /** `resolve_dir`, and the parent walk of the other resolvers: no directory is created. */
    method ResolveDir(parts: Path) returns (result: Result<Path, FsError>)
      requires Valid()
      modifies this
      ensures Valid() && Now() == old(Now())
      ensures result == if parts in Now().dirs then Ok(parts)
                        else Err(if parts in Now().files || FileAbove(Now(), parts) then NotFile else NotFound)
    {
      var current: Path := [];
      var i := 0;
      while i < |parts|
        invariant 0 <= i <= |parts| && Valid() && Now() == old(Now())
        invariant current == parts[..i] && current in Now().dirs
      {
        var step := GetDirectoryHandle(current, parts[i], false);
        assert parts[..i] + [parts[i]] == parts[..i + 1];
        if step.Err? {
          BlockedAt(Now(), parts, i + 1);
          return Err(step.error);
        }
        current := step.value;
        i := i + 1;
      }
      assert parts[..i] == parts;
      result := Ok(current);
    }

    /** `resolve_dir_create`: directories are created one by one along the way. */
    method ResolveDirCreate(parts: Path) returns (result: Result<Path, FsError>)
      requires Valid()
      modifies this
      ensures Valid() && Now() == MkdirFlat(old(Now()), parts).0
      ensures result == match MkdirFlat(old(Now()), parts).1 case None => Ok(parts) case Some(e) => Err(e)
    {
      hide View;
      var current: Path := [];
      var i := 0;
      ghost var start := Now();
      assert start.dirs + DownTo(parts[..0]) == start.dirs;
      while i < |parts|
        invariant 0 <= i <= |parts| && Valid()
        invariant current == parts[..i]
        invariant Now() == start.(dirs := start.dirs + DownTo(parts[..i]))
        invariant forall k :: 0 <= k <= i ==> parts[..k] !in start.files
      {
        var step := GetDirectoryHandle(current, parts[i], true);
        assert parts[..i] + [parts[i]] == parts[..i + 1];
        if step.Err? {
          PrefixOrder(parts, i, i + 1);
          AboveExisting(start, parts[..i + 1]);
          assert start.dirs + DownTo(parts[..i]) == start.dirs;
          assert i + 1 < |parts| ==> FileAbove(start, parts);
          assert i + 1 == |parts| ==> parts[..i + 1] == parts;
          return Err(step.error);
        }
        DownToNext(parts, i);
        current := step.value;
        i := i + 1;
      }
      assert parts[..i] == parts;
      result := Ok(current);
    }

    /** `resolve_file`: the parent walk, then the file handle. */
    method ResolveFile(parts: Path) returns (result: Result<Path, FsError>)
      requires Valid()
      modifies this
      ensures Valid() && Now() == old(Now())
      ensures result == match FindFlat(Now(), parts) case Ok(_) => Ok(parts) case Err(e) => Err(e)
    {
      if parts == [] {
        return Err(InvalidPath);
      }
      var parent := parts[..|parts| - 1];
      assert parent + [parts[|parts| - 1]] == parts;
      ParentBlocks(Now(), parts);
      var dir := ResolveDir(parent);
      if dir.Err? {
        return Err(dir.error);
      }
      result := GetFileHandle(dir.value, parts[|parts| - 1], false);
    }

    /** `resolve_file_create`: creates the parents and, if need be, an empty file. */
    method ResolveFileCreate(parts: Path) returns (result: Result<Path, FsError>)
      requires Valid()
      modifies this
      ensures Valid()
      ensures var kept := if parts in old(Now()).files then old(Now()).files[parts] else [];
              var (f, error) := WriteFlat(old(Now()), parts, kept);
              Now() == f && result == match error case None => Ok(parts) case Some(e) => Err(e)
    {
      if parts == [] {
        return Err(InvalidPath);
      }
      ghost var start := Now();
      var parent := parts[..|parts| - 1];
      assert parent + [parts[|parts| - 1]] == parts;
      ParentBlocks(start, parts);
      DownToNext(parts, |parts| - 1);
      assert parts[..|parts|] == parts;
      var dir := ResolveDirCreate(parent);
      if dir.Err? {
        return Err(dir.error);
      }
      if Exists(start, parts) {
        AboveExisting(start, parts);
        assert start.dirs + Above(parts) == start.dirs;
      }
      result := GetFileHandle(dir.value, parts[|parts| - 1], true);
      assert parts in start.files ==> start.files[parts := start.files[parts]] == start.files;
    }

    // ─── Public operations ──────────────────────────────────────

    method Stat(path: string) returns (result: Result<Kind, FsError>)
      requires Valid()
      modifies this
      ensures Valid() && Now() == old(Now())
      ensures result == match Parts(path) case Err(e) => Err(e) case Ok(p) => StatFlat(Now(), p)
    {
      var parts := PathParts(path);
      if parts.Err? {
        return Err(parts.error);
      }
      var handle := ResolveFile(parts.value);
      if handle.Ok? {
        var bytes := GetFile(handle.value);
        return Ok(FileKind(|bytes|));
      }
      var dir := ResolveDir(parts.value);
      result := if dir.Ok? then Ok(DirKind) else Err(dir.error);
    }

    method Mkdir(path: string) returns (error: Option<FsError>)
      requires Valid()
      modifies this
      ensures Valid()
      ensures (Now(), error) == match Parts(path)
                                case Err(e) => (old(Now()), Some(e))
                                case Ok(p) => MkdirFlat(old(Now()), p)
    {
      var parts := PathParts(path);
      if parts.Err? {
        return Some(parts.error);
      }
      var dir := ResolveDirCreate(parts.value);
      error := if dir.Err? then Some(dir.error) else None;
    }

    method Delete(path: string) returns (error: Option<FsError>)
      requires Valid()
      modifies this
      ensures Valid()
      ensures (Now(), error) == match Parts(path)
                                case Err(e) => (old(Now()), Some(e))
                                case Ok(p) => DeleteFlat(old(Now()), p)
    {
      var path' := PathParts(path);
      if path'.Err? {
        return Some(path'.error);
      }
      var parts := path'.value;
      if parts == [] {
        return Some(InvalidPath);
      }
      var parent := parts[..|parts| - 1];
      assert parent + [parts[|parts| - 1]] == parts;
      ParentBlocks(Now(), parts);
      var dir := ResolveDir(parent);
      if dir.Err? {
        return Some(dir.error);
      }
      error := RemoveEntry(dir.value, parts[|parts| - 1]);
    }

    method Read(path: string) returns (result: Result<seq<Byte>, FsError>)
      requires Valid()
      modifies this
      ensures Valid() && Now() == old(Now())
      ensures result == match Parts(path) case Err(e) => Err(e) case Ok(p) => ReadFlat(Now(), p)
    {
      var parts := PathParts(path);
      if parts.Err? {
        return Err(parts.error);
      }
      var handle := ResolveFile(parts.value);
      if handle.Err? {
        return Err(handle.error);
      }
      var bytes := GetFile(handle.value);
      if |bytes| > ISIZE_MAX {
        return Err(Trap);
      }
      result := Ok(bytes);
    }

    method ReadRange(path: string, offset: U64, len: Usize) returns (result: Result<seq<Byte>, FsError>)
      requires Valid()
      modifies this
      ensures Valid() && Now() == old(Now())
      ensures result == match Parts(path)
                        case Err(e) => Err(e)
                        case Ok(p) => ReadRangeFlat(Now(), p, offset, len)
    {
      var read := Read(path);
      if read.Err? {
        return Err(read.error);
      }
      var bytes := read.value;
      var start := offset % USIZE;
      if start >= |bytes| {
        return Ok([]);
      }
      var sum := (start + len) % USIZE;
      var end := if sum < |bytes| then sum else |bytes|;
      result := if start <= end then Ok(bytes[start..end]) else Err(Trap);
    }

    method Write(path: string, data: seq<Byte>) returns (error: Option<FsError>)
      requires Valid()
      modifies this
      ensures Valid()
      ensures (Now(), error) == match Parts(path)
                                case Err(e) => (old(Now()), Some(e))
                                case Ok(p) => WriteFlat(old(Now()), p, data)
    {
      hide WriteAt, TreeLike, View, Above;
      var parts := PathParts(path);
      if parts.Err? {
        return Some(parts.error);
      }
      ghost var start := Now();
      var handle := ResolveFileCreate(parts.value);
      if handle.Err? {
        return Some(handle.error);
      }
      WriteToHandle(handle.value, data, None);
      assert Now().files == start.files[parts.value := data];
      error := None;
    }

    method Append(path: string, data: seq<Byte>) returns (error: Option<FsError>)
      requires Valid()
      modifies this
      ensures Valid()
      ensures (Now(), error) == match Parts(path)
                                case Err(e) => (old(Now()), Some(e))
                                case Ok(p) => AppendFlat(old(Now()), p, data)
    {
      hide WriteAt, TreeLike, View, Above;
      var parts := PathParts(path);
      if parts.Err? {
        return Some(parts.error);
      }
      var p := parts.value;
      ghost var start := Now();
      var handle := ResolveFile(p);
      if handle.Err? {
        if handle.error != NotFound {
          return Some(handle.error);
        }
        handle := ResolveFileCreate(p);
        if handle.Err? {
          return Some(handle.error);
        }
      }
      var bytes := GetFile(handle.value);
      WriteToHandle(handle.value, data, Some(|bytes|));
      WriteAtEnd(bytes, data);
      assert Now().files == start.files[p := bytes + data];
      error := None;
    }

    method Update(path: string, offset: U64, data: seq<Byte>) returns (error: Option<FsError>)
      requires Valid()
      modifies this
      ensures Valid()
      ensures (Now(), error) == match Parts(path)
                                case Err(e) => (old(Now()), Some(e))
                                case Ok(p) => UpdateFlat(old(Now()), p, offset, data)
    {
      var parts := PathParts(path);
      if parts.Err? {
        return Some(parts.error);
      }
      var handle := ResolveFile(parts.value);
      if handle.Err? {
        return Some(handle.error);
      }
      WriteToHandle(handle.value, data, Some(offset));
      error := None;
    }

    method Copy(source: string, target: string) returns (error: Option<FsError>)
      requires Valid()
      modifies this
      ensures Valid()
      ensures (Now(), error) == CopyPaths(old(Now()), source, target)
    {
      var read := Read(source);
      if read.Err? {
        return Some(read.error);
      }
      error := Write(target, read.value);
    }

    method Rename(source: string, target: string) returns (error: Option<FsError>)
      requires Valid()
      modifies this
      ensures Valid()
      ensures (Now(), error) == RenamePaths(old(Now()), source, target)
    {
      error := Copy(source, target);
      if error.None? {
        error := Delete(source);
      }
    }
  }
}
