/** When each file operation succeeds, with which error it fails, and the whole file system it leaves. */
module FileOutcomes {
  import opened Wrappers
  import opened Strings
  import opened FileTree
  import opened Opfs
  import opened FileLaws

  // ─── Paths ────────────────────────────────────────────────────

  /** Empty pieces and `.` name nothing, any other piece is a name of its own, whatever surrounds it. */
  lemma {:induction false} PieceByPiece(a: seq<string>, piece: string, b: seq<string>)
    ensures Named(a + [piece] + b) == Named(a) + (if piece == "" || piece == "." then [] else [piece]) + Named(b)
    decreases |a|
  {
    var all := a + [piece] + b;
    if a == [] {
      assert all == [piece] + b && all[1..] == b;
    } else {
      assert all[1..] == a[1..] + [piece] + b;
      PieceByPiece(a[1..], piece, b);
    }
  }

  /** A path is refused exactly when it is empty or steps to a parent somewhere. */
  lemma PathRefused(path: string)
    ensures Parts(path).Err? <==> path == "" || exists i :: 0 <= i < |Split(path, '/')| && Split(path, '/')[i] == ".."
    ensures Parts(path).Err? ==> Parts(path).error == InvalidPath
  {
    var pieces := Split(path, '/');
    if i :| 0 <= i < |pieces| && pieces[i] == ".." {
      assert ".." in pieces;
    }
  }

  // ─── What stands in the way ───────────────────────────────────

  /** A file stands strictly above `p`. */
  ghost predicate Blocked(f: Flat, p: Path) {
    exists q :: q < p && q in f.files
  }

  lemma BlockedIsFileAbove(f: Flat, p: Path)
    ensures FileAbove(f, p) <==> Blocked(f, p)
  {
    if FileAbove(f, p) {
      var k :| 0 <= k < |p| && p[..k] in f.files;
      assert p[..k] < p;
    }
    if q :| q < p && q in f.files {
      PrefixTake(q, p);
      assert p[..|q|] in f.files;
    }
  }

  /** The same files but at `p`, and the same directories and those strictly above `p`. */
  ghost predicate Made(f: Flat, f': Flat, p: Path, bytes: seq<Byte>) {
    && p in f'.files && f'.files[p] == bytes
    && (forall q :: q != p ==> SameFile(f, f', q))
    && (forall q :: q in f'.dirs <==> q in f.dirs || q < p)
  }

  // ─── Writing ──────────────────────────────────────────────────

  /** Whatever was in the file is replaced; a directory there, or a file above, is the only obstacle. */
  lemma WriteOutcome(f: Flat, path: string, data: seq<Byte>)
    ensures var (f', error) := Apply(f, OpWrite(path, data));
            match Parts(path)
            case Err(_) => error == Some(InvalidPath) && f' == f
            case Ok(p) =>
              && (error == Some(InvalidPath) <==> p == [])
              && (error == Some(NotFile) <==> p != [] && (Blocked(f, p) || p in f.dirs))
              && (error.None? <==> p != [] && !Blocked(f, p) && p !in f.dirs)
              && (error.Some? ==> f' == f)
              && (error.None? ==> Made(f, f', p, data))
  {
    if Parts(path).Ok? {
      BlockedIsFileAbove(f, Parts(path).value);
    }
  }

  /** An append extends a file, and where there is none it writes one under the same conditions. */
  lemma AppendOutcome(f: Flat, path: string, data: seq<Byte>)
    requires TreeLike(f)
    ensures var (f', error) := Apply(f, OpAppend(path, data));
            match Parts(path)
            case Err(_) => error == Some(InvalidPath) && f' == f
            case Ok(p) =>
              && (error == Some(InvalidPath) <==> p == [])
              && (error == Some(NotFile) <==> p != [] && (Blocked(f, p) || p in f.dirs))
              && (error.None? <==> p != [] && !Blocked(f, p) && p !in f.dirs)
              && (error.Some? ==> f' == f)
              && (error.None? ==> Made(f, f', p, (if p in f.files then f.files[p] else []) + data))
  {
    if Parts(path).Ok? {
      var p := Parts(path).value;
      BlockedIsFileAbove(f, p);
      assert [] + data == data;
      if p in f.files {
        forall q | q < p ensures q in f.dirs && q !in f.files {
          assert Exists(f, p);
        }
      }
    }
  }

  /** An update needs a file; it never makes one, nor a directory. */
  lemma UpdateOutcome(f: Flat, path: string, offset: U64, data: seq<Byte>)
    requires TreeLike(f)
    ensures var (f', error) := Apply(f, OpUpdate(path, offset, data));
            match Parts(path)
            case Err(_) => error == Some(InvalidPath) && f' == f
            case Ok(p) =>
              && (error == Some(InvalidPath) <==> p == [])
              && (error == Some(NotFile) <==> p != [] && (Blocked(f, p) || p in f.dirs))
              && (error == Some(NotFound) <==> p != [] && !Blocked(f, p) && p !in f.dirs && p !in f.files)
              && (error.None? <==> p != [] && p in f.files)
              && (error.Some? ==> f' == f)
              && (error.None? ==>
                    f'.dirs == f.dirs && p in f'.files && |f'.files[p]| == Max(|f.files[p]|, offset + |data|)
                    && forall q :: q != p ==> SameFile(f, f', q))
  {
    if Parts(path).Ok? {
      var p := Parts(path).value;
      BlockedIsFileAbove(f, p);
      if p in f.files {
        WriteAtMeaning(f.files[p], offset, data);
        forall q | q < p ensures q !in f.files {
          assert Exists(f, p);
        }
      }
    }
  }

  // ─── Directories ──────────────────────────────────────────────

  /** A directory is made with all those above it, or was there; a file at or above it is the only obstacle. */
  lemma MkdirOutcome(f: Flat, path: string)
    ensures var (f', error) := Apply(f, OpMkdir(path));
            match Parts(path)
            case Err(_) => error == Some(InvalidPath) && f' == f
            case Ok(p) =>
              && (error == Some(NotFile) <==> Blocked(f, p) || p in f.files)
              && (error.None? <==> !Blocked(f, p) && p !in f.files)
              && (error.Some? ==> f' == f)
              && (error.None? ==> f'.files == f.files && forall q :: q in f'.dirs <==> q in f.dirs || q <= p)
  {
    if Parts(path).Ok? {
      var p := Parts(path).value;
      BlockedIsFileAbove(f, p);
      forall q ensures q in DownTo(p) <==> q <= p {
        PathBelow(q, p);
      }
    }
  }

  lemma PathBelow(q: Path, p: Path)
    ensures q <= p <==> q < p || q == p
  {
  }

  /** A delete takes away what is there, file or directory, with all that is below it, and nothing else. */
  lemma DeleteOutcome(f: Flat, path: string)
    requires TreeLike(f)
    ensures var (f', error) := Apply(f, OpDelete(path));
            match Parts(path)
            case Err(_) => error == Some(InvalidPath) && f' == f
            case Ok(p) =>
              && (error == Some(InvalidPath) <==> p == [])
              && (error.None? <==> p != [] && (p in f.files || p in f.dirs))
              && (error == Some(NotFile) <==> p != [] && p !in f.files && p !in f.dirs && Blocked(f, p))
              && (error == Some(NotFound) <==> p != [] && p !in f.files && p !in f.dirs && !Blocked(f, p))
              && (error.Some? ==> f' == f)
              && (error.None? ==>
                    && (forall q :: q in f'.dirs <==> q in f.dirs && !(p <= q))
                    && (forall q :: q in f'.files <==> q in f.files && !(p <= q))
                    && (forall q :: q in f'.files ==> f'.files[q] == f.files[q]))
  {
    if Parts(path).Ok? {
      BlockedIsFileAbove(f, Parts(path).value);
    }
  }

  // ─── Reading ──────────────────────────────────────────────────

  /** Reading and asking for the kind of what is there fail in the same way where nothing is. */
  lemma ReadOutcome(f: Flat, p: Path)
    requires TreeLike(f)
    ensures var read, kind := ReadFlat(f, p), StatFlat(f, p);
            && (read == Err(InvalidPath) <==> p == [])
            && (read == Err(Trap) <==> p != [] && p in f.files && |f.files[p]| > ISIZE_MAX)
            && (read.Ok? <==> p != [] && p in f.files && |f.files[p]| <= ISIZE_MAX)
            && (read.Ok? ==> read.value == f.files[p])
            && (read == Err(NotFile) <==> p != [] && (p in f.dirs || Blocked(f, p)))
            && (kind == Ok(DirKind) <==> p in f.dirs)
            && (p in f.files ==> kind == Ok(FileKind(|f.files[p]|)))
            && (kind == Err(NotFound) <==> p !in f.files && p !in f.dirs && !Blocked(f, p))
            && (kind == Err(NotFile) <==> p !in f.files && p !in f.dirs && Blocked(f, p))
  {
    BlockedIsFileAbove(f, p);
    if p in f.files {
      forall q | q < p ensures q !in f.files {
        assert Exists(f, p);
      }
    }
  }

  // ─── Copying ──────────────────────────────────────────────────

  /**
   A copy succeeds exactly when the source can be read and a file can be written at the target; the
   target then has the source's bytes and the source its own.  Should both fail, the source
   decides the error.
   */
  lemma CopyOutcome(f: Flat, source: string, target: string, p: Path, q: Path)
    requires TreeLike(f) && Parts(source) == Ok(p) && Parts(target) == Ok(q)
    ensures var (f', error) := Apply(f, OpCopy(source, target));
            && (error.None? <==>
                  && p != [] && p in f.files && |f.files[p]| <= ISIZE_MAX
                  && q != [] && !Blocked(f, q) && q !in f.dirs)
            && (error.Some? ==> f' == f)
            && (error.None? ==> Made(f, f', q, f.files[p]) && f'.files[p] == f.files[p])
            && (ReadFlat(f, p).Err? ==> error == Some(ReadFlat(f, p).error))
            && (ReadFlat(f, p).Ok? ==> error == Apply(f, OpWrite(target, [])).1)
  {
    BlockedIsFileAbove(f, q);
    ReadOutcome(f, p);
  }

  /** A rename reports exactly what the copy would: deleting the source never fails after it. */
  lemma RenameOutcome(f: Flat, source: string, target: string)
    requires TreeLike(f)
    ensures Apply(f, OpRename(source, target)).1 == Apply(f, OpCopy(source, target)).1
  {
    if Parts(source).Ok? && Parts(target).Ok? && ReadFlat(f, Parts(source).value).Ok? {
      if WriteFlat(f, Parts(target).value, ReadFlat(f, Parts(source).value).value).1.None? {
        RenameMovesUnlessSame(f, Parts(source).value, Parts(target).value);
      }
    }
  }
}
