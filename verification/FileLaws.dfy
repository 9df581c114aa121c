/** What the flat file operations promise together. */
module FileLaws {
  import opened Wrappers
  import opened Strings
  import opened FileTree
  import opened Opfs

  // ─── Bytes ────────────────────────────────────────────────────

  function Max(a: nat, b: nat): nat {
    if a > b then a else b
  }

  /** A write at an offset puts the data there, zero-fills a gap, and keeps everything else. */
  lemma WriteAtMeaning(bytes: seq<Byte>, offset: nat, data: seq<Byte>)
    ensures var w := WriteAt(bytes, offset, data);
            && |w| == Max(|bytes|, offset + |data|)
            && w[offset..offset + |data|] == data
            && (forall i :: 0 <= i < |w| && !(offset <= i < offset + |data|) ==>
                  w[i] == if i < |bytes| then bytes[i] else 0)
  {
  }

  // ─── Append, update, ranges ───────────────────────────────────

  /** An append that succeeds leaves the old bytes, or nothing, followed by the new ones. */
  lemma AppendThenRead(f: Flat, p: Path, data: seq<Byte>)
    requires TreeLike(f) && AppendFlat(f, p, data).1.None?
    ensures var bytes := (if p in f.files then f.files[p] else []) + data;
            ReadFlat(AppendFlat(f, p, data).0, p) == if |bytes| <= ISIZE_MAX then Ok(bytes) else Err(Trap)
  {
    assert [] + data == data;
  }

  /**
   Reading back what an update wrote, at the same offset, returns it exactly when the file is
   then small enough to be read at all; otherwise the read panics before it looks at the range.
   */
  lemma UpdateThenReadRange(f: Flat, p: Path, offset: U64, data: seq<Byte>)
    requires TreeLike(f) && p in f.files && p != [] && |data| < USIZE
    ensures var r := ReadRangeFlat(UpdateFlat(f, p, offset, data).0, p, offset, |data|);
            && (r == Ok(data) <==> Max(|f.files[p]|, offset + |data|) <= ISIZE_MAX)
            && (r == Ok(data) || r == Err(Trap))
  {
    var bytes := WriteAt(f.files[p], offset, data);
    WriteAtMeaning(f.files[p], offset, data);
    assert UpdateFlat(f, p, offset, data).0.files[p] == bytes;
    hide WriteAt;
  }

  /** The bytes from `offset` on, `len` of them or as many as there are. */
  function Wanted(bytes: seq<Byte>, offset: U64, len: Usize): seq<Byte> {
    if offset >= |bytes| then []
    else if offset + len <= |bytes| then bytes[offset..offset + len]
    else bytes[offset..]
  }

  /**
   For every file that can be read at all, the range returned is the one asked for exactly when
   the truncated offset lies beyond the end, or nothing was truncated and the end does not wrap,
   or the offset was truncated but the range is empty.
   */
  lemma RangeExactlyWhen(bytes: seq<Byte>, offset: U64, len: Usize)
    requires |bytes| <= ISIZE_MAX
    ensures RangeOf(bytes, offset, len) == Ok(Wanted(bytes, offset, len))
       <==> offset % USIZE >= |bytes| || (if offset < USIZE then offset + len < USIZE else len == 0)
  {
    var start := offset % USIZE;
    if offset < USIZE {
      assert start == offset;
    }
    if start < |bytes| {
      RangeEnd(start, len);
      assert bytes[start..] == bytes[start..|bytes|];
      if start + len < USIZE {
        var end := if start + len < |bytes| then start + len else |bytes|;
        assert RangeOf(bytes, offset, len) == Ok(bytes[start..end]);
        assert |bytes[start..end]| == end - start;
      }
    }
  }

  lemma RangeEnd(start: Usize, len: Usize)
    ensures (start + len) % USIZE == if start + len < USIZE then start + len else start + len - USIZE
  {
  }

  /** The slice panics exactly when its start lies in the file and its end wraps around. */
  lemma RangeTrapsExactlyWhen(bytes: seq<Byte>, offset: U64, len: Usize)
    requires |bytes| <= ISIZE_MAX
    ensures RangeOf(bytes, offset, len) == Err(Trap)
       <==> offset % USIZE < |bytes| && offset % USIZE + len >= USIZE
    ensures offset % USIZE < |bytes| && offset % USIZE + len < USIZE ==>
              RangeOf(bytes, offset, len) == Ok(Wanted(bytes, offset % USIZE, len))
  {
    var start := offset % USIZE;
    RangeEnd(start, len);
    if start < |bytes| {
      assert bytes[start..] == bytes[start..|bytes|];
    }
  }

  /** A length that reaches the end of the address space panics, however small the file. */
  lemma LargeLengthTraps(bytes: seq<Byte>)
    requires 1 < |bytes| <= ISIZE_MAX
    ensures RangeOf(bytes, 1, USIZE - 1) == Err(Trap)
  {
  }

  /** An offset of 4 GiB reads the beginning of the file. */
  lemma FarOffsetReadsStart(bytes: seq<Byte>)
    requires 0 < |bytes| <= ISIZE_MAX
    ensures RangeOf(bytes, USIZE, 1) == Ok(bytes[..1]) && Wanted(bytes, USIZE, 1) == []
  {
  }

  // ─── Rename ───────────────────────────────────────────────────

  lemma PrefixTake(a: Path, b: Path)
    ensures a <= b ==> b[..|a|] == a
  {
  }

  lemma PrefixChain(a: Path, b: Path, c: Path)
    ensures a <= b && b <= c ==> a <= c
  {
  }

  lemma NotAbove(f: Flat, file: Path, p: Path)
    requires file in f.files && !FileAbove(f, p)
    ensures !(file < p)
  {
    PrefixTake(file, p);
    assert |file| < |p| ==> p[..|file|] !in f.files;
  }

  /**
   Renaming a file that can be read to a path that can be written moves its bytes and changes no other file,
   if and only if the two paths differ; renaming a path to itself deletes the file.
   */
  lemma RenameMovesUnlessSame(f: Flat, source: Path, target: Path)
    requires TreeLike(f) && ReadFlat(f, source).Ok?
    requires WriteFlat(f, target, ReadFlat(f, source).value).1.None?
    ensures RenameFlat(f, source, target).1.None?
    ensures var f' := RenameFlat(f, source, target).0;
            && f'.dirs == f.dirs + Above(target)
            && (target in f'.files <==> source != target)
            && source !in f'.files
            && (source != target ==> f'.files[target] == f.files[source])
            && (forall q :: q != source && q != target ==>
                  (q in f'.files <==> q in f.files) && (q in f.files ==> f'.files[q] == f.files[q]))
  {
    var f1 := WriteFlat(f, target, f.files[source]).0;
    assert source in f1.files;
    NotAbove(f, source, target);
    forall q | source <= q && q != source ensures q !in f.files && q != target && q !in f1.dirs {
      assert source < q;
      assert Exists(f, q) ==> source in f.dirs;
      assert q < target ==> source < target;
    }
    var f' := RenameFlat(f, source, target).0;
    assert f'.dirs == f1.dirs;
  }

  /** Renaming a file to itself, at one input: the file is gone. */
  lemma RenameOntoItself(data: seq<Byte>)
    requires |data| <= ISIZE_MAX
    ensures var f := Flat(imap[["a"] := data], iset{[]});
            TreeLike(f) && RenamePaths(f, "/a", "a") == (Flat(imap[], iset{[]}), None)
  {
    var f := Flat(imap[["a"] := data], iset{[]});
    var p := ["a"];
    PathRoundTrip(p, "");
    assert Join(p, "/") == "a" && "/" + Join(p, "/") == "/a";
    forall q ensures q in Above(p) <==> q == [] {
    }
    RenameMovesUnlessSame(f, p, p);
    assert f.dirs + Above(p) == f.dirs;
    assert RenameFlat(f, p, p).0.files == imap[];
  }

  /** A rename that fails, like every other operation that fails, changes nothing. */
  lemma FailedRenameChangesNothing(f: Flat, source: string, target: string)
    requires TreeLike(f) && RenamePaths(f, source, target).1.Some?
    ensures RenamePaths(f, source, target).0 == f
  {
    if Parts(source).Ok? && Parts(target).Ok? && ReadFlat(f, Parts(source).value).Ok? {
      if WriteFlat(f, Parts(target).value, ReadFlat(f, Parts(source).value).value).1.None? {
        RenameMovesUnlessSame(f, Parts(source).value, Parts(target).value);
      }
    }
  }

  // ─── Any sequence of operations ───────────────────────────────

  datatype FileOp =
    | OpWrite(path: string, data: seq<Byte>)
    | OpAppend(path: string, data: seq<Byte>)
    | OpUpdate(path: string, offset: U64, data: seq<Byte>)
    | OpMkdir(path: string)
    | OpDelete(path: string)
    | OpCopy(source: string, target: string)
    | OpRename(source: string, target: string)

  ghost function Apply(f: Flat, op: FileOp): (Flat, Option<FsError>) {
    match op
    case OpCopy(source, target) => CopyPaths(f, source, target)
    case OpRename(source, target) => RenamePaths(f, source, target)
    case _ =>
      match Parts(op.path)
      case Err(e) => (f, Some(e))
      case Ok(p) =>
        match op
        case OpWrite(_, data) => WriteFlat(f, p, data)
        case OpAppend(_, data) => AppendFlat(f, p, data)
        case OpUpdate(_, offset, data) => UpdateFlat(f, p, offset, data)
        case OpMkdir(_) => MkdirFlat(f, p)
        case OpDelete(_) => DeleteFlat(f, p)
  }

  ghost function ApplyAll(f: Flat, ops: seq<FileOp>): Flat
    decreases |ops|
  {
    if ops == [] then f else ApplyAll(Apply(f, ops[0]).0, ops[1..])
  }

  predicate Names(path: string, q: Path) {
    Parts(path) == Ok(q)
  }

  /** The operation names `q` as something it writes, or deletes `q` or something above it. */
  predicate Touches(op: FileOp, q: Path) {
    match op
    case OpMkdir(_) => false
    case OpDelete(path) => Parts(path).Ok? && Parts(path).value <= q
    case OpCopy(_, target) => Names(target, q)
    case OpRename(source, target) => (Parts(source).Ok? && Parts(source).value <= q) || Names(target, q)
    case _ => Names(op.path, q)
  }

  ghost predicate SameFile(f: Flat, f': Flat, q: Path) {
    (q in f.files <==> q in f'.files) && (q in f.files ==> f'.files[q] == f.files[q])
  }

  /** A failed operation changes nothing, and a successful one only the files it touches. */
  lemma OpIsLocal(f: Flat, op: FileOp, q: Path)
    requires TreeLike(f)
    ensures Apply(f, op).1.Some? ==> Apply(f, op).0 == f
    ensures !Touches(op, q) ==> SameFile(f, Apply(f, op).0, q)
  {
    if op.OpRename? && Apply(f, op).1.Some? {
      FailedRenameChangesNothing(f, op.source, op.target);
    }
  }

  lemma AboveIsClosed(f: Flat, p: Path)
    requires TreeLike(f) && !FileAbove(f, p)
    ensures TreeLike(f.(dirs := f.dirs + Above(p)))
    ensures p !in f.files ==> TreeLike(f.(dirs := f.dirs + DownTo(p)))
  {
    forall q | q < p ensures q !in f.files {
      assert q == p[..|q|];
    }
    var f' := f.(dirs := f.dirs + DownTo(p));
    forall a, b | a < b && Exists(f', b) ensures a in f.dirs + Above(p) && a in f'.dirs {
      if Exists(f, b) {
        assert a in f.dirs;
      } else {
        assert IsAbove(a, p);
      }
    }
    var f'' := f.(dirs := f.dirs + Above(p));
    forall a, b | a < b && Exists(f'', b) ensures a in f''.dirs {
      assert Exists(f', b);
    }
  }

  lemma WriteKeepsTreeLike(f: Flat, p: Path, data: seq<Byte>)
    requires TreeLike(f)
    ensures TreeLike(WriteFlat(f, p, data).0)
  {
    if WriteFlat(f, p, data).1.None? {
      AboveIsClosed(f, p);
      var f' := WriteFlat(f, p, data).0;
      forall a, b | a < b && Exists(f', b) ensures a in f'.dirs {
        if b == p {
          assert IsAbove(a, p);
        } else if Exists(f, b) {
          assert a in f.dirs;
        } else {
          assert IsAbove(a, p);
        }
      }
      assert p !in f'.dirs;
    }
  }

  lemma OpKeepsTreeLike(f: Flat, op: FileOp)
    requires TreeLike(f)
    ensures TreeLike(Apply(f, op).0)
  {
    match op {
      case OpCopy(source, target) => CopyKeepsTreeLike(f, source, target);
      case OpRename(source, target) =>
        CopyKeepsTreeLike(f, source, target);
        if Parts(source).Ok? && Parts(source).value != [] {
          WithoutKeepsTreeLike(CopyPaths(f, source, target).0, Parts(source).value);
        }
      case OpMkdir(path) =>
        if Parts(path).Ok? && !FileAbove(f, Parts(path).value) {
          AboveIsClosed(f, Parts(path).value);
        }
      case OpDelete(path) =>
        if Parts(path).Ok? && Parts(path).value != [] {
          WithoutKeepsTreeLike(f, Parts(path).value);
        }
      case OpUpdate(path, offset, data) =>
        if Parts(path).Ok? {
          RewriteKeepsTreeLike(f, Apply(f, op).0);
        }
      case _ =>
        if Parts(op.path).Ok? {
          RewriteKeepsTreeLike(f, Apply(f, op).0);
          WriteKeepsTreeLike(f, Parts(op.path).value, op.data);
        }
    }
  }

  lemma RewriteKeepsTreeLike(f: Flat, f': Flat)
    requires TreeLike(f)
    ensures f'.dirs == f.dirs && (forall q :: q in f'.files <==> q in f.files) ==> TreeLike(f')
  {
    if f'.dirs == f.dirs && (forall q :: q in f'.files <==> q in f.files) {
      forall a, b | a < b && Exists(f', b) ensures a in f'.dirs {
        assert Exists(f, b);
      }
    }
  }

  lemma CopyKeepsTreeLike(f: Flat, source: string, target: string)
    requires TreeLike(f)
    ensures TreeLike(CopyPaths(f, source, target).0)
  {
    if Parts(source).Ok? && Parts(target).Ok? && ReadFlat(f, Parts(source).value).Ok? {
      WriteKeepsTreeLike(f, Parts(target).value, ReadFlat(f, Parts(source).value).value);
    }
  }

  lemma WithoutKeepsTreeLike(f: Flat, p: Path)
    requires TreeLike(f) && p != []
    ensures TreeLike(Without(f, p))
  {
    var f' := Without(f, p);
    forall a, b | a < b && Exists(f', b) ensures a in f'.dirs {
      assert Exists(f, b);
      PrefixChain(p, a, b);
    }
  }

  /** Over any sequence of operations, a file that none of them touches keeps its bytes. */
  lemma {:induction false} UntouchedFilesSurvive(f: Flat, ops: seq<FileOp>, q: Path)
    requires TreeLike(f) && forall op :: op in ops ==> !Touches(op, q)
    ensures TreeLike(ApplyAll(f, ops)) && SameFile(f, ApplyAll(f, ops), q)
    decreases |ops|
  {
    if ops != [] {
      assert ops[0] in ops;
      OpIsLocal(f, ops[0], q);
      OpKeepsTreeLike(f, ops[0]);
      UntouchedFilesSurvive(Apply(f, ops[0]).0, ops[1..], q);
    }
  }

  // ─── Names of paths ───────────────────────────────────────────

  predicate ValidName(name: string) {
    name != "" && name != "." && name != ".." && '/' !in name
  }

  lemma {:induction false} NamedAll(pieces: seq<string>)
    requires forall piece :: piece in pieces ==> ValidName(piece)
    ensures Named(pieces) == pieces
    decreases |pieces|
  {
    if pieces != [] {
      assert pieces[0] in pieces && forall piece :: piece in pieces[1..] ==> piece in pieces;
      NamedAll(pieces[1..]);
      assert pieces == [pieces[0]] + pieces[1..];
    }
  }

  lemma {:induction false} NamedValid(pieces: seq<string>)
    requires forall piece :: piece in pieces ==> piece != ".." && '/' !in piece
    ensures forall name :: name in Named(pieces) ==> ValidName(name)
    decreases |pieces|
  {
    if pieces != [] {
      assert pieces[0] in pieces && forall piece :: piece in pieces[1..] ==> piece in pieces;
      NamedValid(pieces[1..]);
    }
  }

  /** Every path of valid names can be written down, from the root or relative, and read back;
      and every path string that is accepted names a path of valid names. */
  lemma PathRoundTrip(p: Path, path: string)
    ensures p != [] && (forall name :: name in p ==> ValidName(name)) ==>
              Parts("/" + Join(p, "/")) == Ok(p) && Parts(Join(p, "/")) == Ok(p)
    ensures Parts(path).Ok? ==> forall name :: name in Parts(path).value ==> ValidName(name)
  {
    if p != [] && forall name :: name in p ==> ValidName(name) {
      SplitJoin(p, '/');
      assert Split(Join(p, "/"), '/') == p;
      AnchoredPieces(Join(p, "/"));
      NamedAll(p);
      assert p[0] in p;
      assert Join(p, "/") != "";
      assert ".." !in p;
    }
    if Parts(path).Ok? {
      SplitPieces(path, '/');
      NamedValid(Split(path, '/'));
    }
  }
}
