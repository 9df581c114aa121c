/**
 The stored tree behind OPFS handles, and the flat view of it: which paths are files, with
 their bytes, and which are directories.
 */
module FileTree {
  import opened Wrappers

  type Byte = b: int | 0 <= b < 256

  type Path = seq<string>

  datatype Node = File(bytes: seq<Byte>) | Dir(entries: map<string, Node>)

  datatype Flat = Flat(files: imap<Path, seq<Byte>>, dirs: iset<Path>)

  function Lookup(root: Node, p: Path): Option<Node>
    decreases |p|
  {
    if p == [] then Some(root)
    else if root.File? || p[0] !in root.entries then None
    else Lookup(root.entries[p[0]], p[1..])
  }

  predicate IsDir(root: Node, p: Path) {
    Lookup(root, p).Some? && Lookup(root, p).value.Dir?
  }

  predicate IsFile(root: Node, p: Path) {
    Lookup(root, p).Some? && Lookup(root, p).value.File?
  }

  ghost function View(root: Node): Flat {
    Flat(imap p | IsFile(root, p) :: Lookup(root, p).value.bytes, iset p | IsDir(root, p))
  }

  function Parent(p: Path): Path
    requires p != []
  {
    p[..|p| - 1]
  }

  /** The tree with `node` at `p`, whose parent is a directory. */
  function Put(root: Node, p: Path, node: Node): Node
    requires p != [] && IsDir(root, Parent(p))
    decreases |p|
  {
    if |p| == 1 then Dir(root.entries[p[0] := node])
    else
      assert Parent(p)[1..] == Parent(p[1..]);
      Dir(root.entries[p[0] := Put(root.entries[p[0]], p[1..], node)])
  }

  function Remove(root: Node, p: Path): Node
    requires p != [] && IsDir(root, Parent(p))
    decreases |p|
  {
    if |p| == 1 then Dir(root.entries - {p[0]})
    else
      assert Parent(p)[1..] == Parent(p[1..]);
      Dir(root.entries[p[0] := Remove(root.entries[p[0]], p[1..])])
  }

  // ─── Shape of the view ────────────────────────────────────────

  lemma {:induction false} NothingBelow(root: Node, p: Path, q: Path)
    requires p < q && !IsDir(root, p)
    ensures Lookup(root, q).None?
    decreases |p|
  {
    if p != [] {
      if root.Dir? && p[0] in root.entries {
        NothingBelow(root.entries[p[0]], p[1..], q[1..]);
      }
    }
  }

  /** Whatever lies above an existing path is a directory. */
  lemma DirsAbove(root: Node, p: Path, q: Path)
    requires p < q && Lookup(root, q).Some?
    ensures IsDir(root, p)
  {
    if !IsDir(root, p) {
      NothingBelow(root, p, q);
    }
  }

  lemma {:induction false} LookupPut(root: Node, p: Path, node: Node, q: Path)
    requires p != [] && IsDir(root, Parent(p))
    ensures p <= q ==> Lookup(Put(root, p, node), q) == Lookup(node, q[|p|..])
    ensures q < p ==> IsDir(Put(root, p, node), q) && IsDir(root, q)
    ensures !(p <= q) && !(q < p) ==> Lookup(Put(root, p, node), q) == Lookup(root, q)
    decreases |p|
  {
    var root' := Put(root, p, node);
    if q != [] && q[0] == p[0] {
      if |p| > 1 {
        assert Parent(p)[1..] == Parent(p[1..]);
        LookupPut(root.entries[p[0]], p[1..], node, q[1..]);
        assert p <= q <==> p[1..] <= q[1..];
        assert q < p <==> q[1..] < p[1..];
        if p <= q {
          assert q[|p|..] == q[1..][|p| - 1..];
        }
      } else {
        assert p <= q && q[|p|..] == q[1..];
      }
    }
  }

  lemma {:induction false} LookupRemove(root: Node, p: Path, q: Path)
    requires p != [] && IsDir(root, Parent(p))
    ensures p <= q ==> Lookup(Remove(root, p), q).None?
    ensures q < p ==> IsDir(Remove(root, p), q) && IsDir(root, q)
    ensures !(p <= q) && !(q < p) ==> Lookup(Remove(root, p), q) == Lookup(root, q)
    decreases |p|
  {
    if q != [] && q[0] == p[0] {
      if |p| > 1 {
        assert Parent(p)[1..] == Parent(p[1..]);
        LookupRemove(root.entries[p[0]], p[1..], q[1..]);
        assert p <= q <==> p[1..] <= q[1..];
        assert q < p <==> q[1..] < p[1..];
      } else {
        assert p <= q;
      }
    }
  }

  // ─── Flat meaning of the primitives ───────────────────────────

  lemma ViewNewDir(root: Node, p: Path)
    requires p != [] && IsDir(root, Parent(p)) && Lookup(root, p).None?
    ensures View(Put(root, p, Dir(map[]))) == View(root).(dirs := View(root).dirs + iset{p})
  {
    var root' := Put(root, p, Dir(map[]));
    forall q ensures IsDir(root', q) <==> IsDir(root, q) || q == p
             ensures IsFile(root', q) <==> IsFile(root, q)
             ensures IsFile(root, q) ==> Lookup(root', q) == Lookup(root, q)
    {
      LookupPut(root, p, Dir(map[]), q);
      if p < q {
        NothingBelow(root, p, q);
      }
    }
  }

  lemma ViewPutFile(root: Node, p: Path, bytes: seq<Byte>)
    requires p != [] && IsDir(root, Parent(p)) && !IsDir(root, p)
    ensures View(Put(root, p, File(bytes))) == View(root).(files := View(root).files[p := bytes])
  {
    var root' := Put(root, p, File(bytes));
    forall q ensures IsDir(root', q) <==> IsDir(root, q)
             ensures IsFile(root', q) <==> IsFile(root, q) || q == p
             ensures IsFile(root', q) ==> Lookup(root', q) == if q == p then Some(File(bytes)) else Lookup(root, q)
    {
      LookupPut(root, p, File(bytes), q);
      assert q == p ==> q[|p|..] == [];
      if p < q {
        NothingBelow(root, p, q);
      }
    }
  }

  ghost function Without(f: Flat, p: Path): Flat {
    Flat(imap q | q in f.files && !(p <= q) :: f.files[q], iset q | q in f.dirs && !(p <= q))
  }

  lemma ViewRemove(root: Node, p: Path)
    requires p != [] && IsDir(root, Parent(p))
    ensures View(Remove(root, p)) == Without(View(root), p)
  {
    var root' := Remove(root, p);
    forall q ensures IsDir(root', q) <==> IsDir(root, q) && !(p <= q)
             ensures IsFile(root', q) <==> IsFile(root, q) && !(p <= q)
             ensures IsFile(root', q) ==> Lookup(root', q) == Lookup(root, q)
    {
      LookupRemove(root, p, q);
    }
  }
}
