/** What each path function returns, by laws that do not follow its loop. */
module PathLaws {
  import opened Strings
  import opened Paths

  // ─── The shortest way ─────────────────────────────────────────

  /** Steps up to where the two lists part and down again. */
  function Distance(a: seq<string>, b: seq<string>): nat {
    |a| + |b| - 2 * Common(a, b)
  }

  lemma CommonBounds(a: seq<string>, b: seq<string>, n: nat)
    requires n <= |a| && n <= |b| && a[..n] == b[..n]
    ensures n <= Common(a, b)
  {
    forall k | 0 <= k < n ensures a[k] == b[k] {
      assert a[k] == a[..n][k] && b[k] == b[..n][k];
    }
  }

  lemma CommonOfPrefix(a: seq<string>, b: seq<string>, k: nat)
    requires k <= |a|
    ensures Common(a[..k], b) <= Common(a, b)
  {
    var n := Common(a[..k], b);
    assert a[..k][..n] == a[..n];
    CommonBounds(a, b, n);
  }

  lemma CommonOneMore(a: seq<string>, b: seq<string>, piece: string)
    ensures Common(a + [piece], b) <= Common(a, b) + 1
  {
    var more := a + [piece];
    var n := Common(more, b);
    if n > 0 {
      var k := if n <= |a| then n else n - 1;
      assert a[..k] == more[..n][..k] == b[..n][..k] == b[..k];
      CommonBounds(a, b, k);
    }
  }

  /** One piece brings the goal nearer by one at most. */
  lemma OneStep(segs: seq<string>, piece: string, goal: seq<string>)
    ensures Distance(segs, goal) <= Distance(Step(segs, piece), goal) + 1
  {
    if piece == "" || piece == "." {
    } else if piece == ".." {
      if segs != [] {
        CommonOfPrefix(segs, goal, |segs| - 1);
      }
    } else {
      CommonOneMore(segs, goal, piece);
    }
  }

  lemma {:induction false} NoShorterWay(segs: seq<string>, pieces: seq<string>, goal: seq<string>)
    requires Fold(segs, pieces) == goal
    ensures Distance(segs, goal) <= |pieces|
    decreases |pieces|
  {
    if pieces == [] {
      CommonBounds(segs, segs, |segs|);
    } else {
      OneStep(segs, pieces[0], goal);
      NoShorterWay(Step(segs, pieces[0]), pieces[1..], goal);
    }
  }

  /**
   The relative path never starts at the root, leads from the one place to the other, and does so in
   the fewest pieces: no other path from here to there has fewer.  It is `.` exactly when there
   is nowhere to go.
   */
  lemma RelativeIsShortest(from: string, to: string, other: string)
    ensures var rel := RelativeTo(from, to);
            && !IsAbsolute(rel)
            && Fold(Segs(from), Split(rel, '/')) == Segs(to)
            && (Fold(Segs(from), Split(other, '/')) == Segs(to) ==> |Split(rel, '/')| <= |Split(other, '/')|)
            && (rel == "." <==> Segs(from) == Segs(to))
  {
    hide Split, Fold, Join, Segs, Common, Plain;
    var a, b := Segs(from), Segs(to);
    RelativePieces(from, to);
    SegsPlain(from);
    SegsPlain(to);
    RelativeLength(from, to);
    RelativeDot(from, to);
    if Fold(a, Split(other, '/')) == b {
      NoShorterWay(a, Split(other, '/'), b);
    }
  }

  lemma RelativeLength(from: string, to: string)
    ensures var d := Distance(Segs(from), Segs(to));
            |Split(RelativeTo(from, to), '/')| == if d == 0 then 1 else d
  {
    hide Split, Fold, Join, Segs, Common, Plain;
    var a, b := Segs(from), Segs(to);
    var route := Route(a, b);
    assert |route| == Distance(a, b);
    if route == [] {
      DotStays(a);
      SplitPlain(".", '/');
    } else {
      SegsPlain(to);
      RoutePieces(a, b);
      assert route[0] in route;
      SplitJoin(route, '/');
      JoinStarts(route);
    }
  }

  lemma EmptyRoute(a: seq<string>, b: seq<string>)
    ensures Route(a, b) == [] <==> a == b
  {
    var n := Common(a, b);
    if Route(a, b) == [] {
      assert a[..n] == a && b[..n] == b;
    }
    if a == b {
      CommonBounds(a, a, |a|);
    }
  }

  lemma RelativeDot(from: string, to: string)
    ensures RelativeTo(from, to) == "." <==> Segs(from) == Segs(to)
  {
    hide Split, Fold, Segs, Plain, Join;
    var a, b := Segs(from), Segs(to);
    var route := Route(a, b);
    SegsPlain(to);
    RoutePieces(a, b);
    EmptyRoute(a, b);
    if a == b {
      DotStays(a);
    } else {
      RouteIsNoDot(a, b);
      assert route[0] in route;
      JoinStarts(route);
    }
  }

  lemma RouteIsNoDot(a: seq<string>, b: seq<string>)
    requires AllPlain(b) && Route(a, b) != []
    ensures Join(Route(a, b), "/") != "."
  {
    hide Common, Plain;
    var route := Route(a, b);
    RoutePieces(a, b);
    if Join(route, "/") == "." {
      SplitJoin(route, '/');
      SplitPlain(".", '/');
      assert route[0] in route && (route[0] in Ups(|a| - Common(a, b)) || route[0] in b);
      DotIsNotPlain();
    }
  }

  lemma DotIsNotPlain()
    ensures !Plain(".")
  {
  }

  // ─── Joining and resolving ────────────────────────────────────

  lemma {:induction false} FoldSkipsEmpty(segs: seq<string>, pieces: seq<string>)
    ensures Fold(segs, NonEmpty(pieces)) == Fold(segs, pieces)
    decreases |pieces|
  {
    if pieces != [] {
      FoldSkipsEmpty(Step(segs, pieces[0]), pieces[1..]);
      if pieces[0] != "" {
        assert NonEmpty(pieces)[1..] == NonEmpty(pieces[1..]);
      } else {
        assert NonEmpty(pieces) == NonEmpty(pieces[1..]);
      }
    }
  }

  lemma {:induction false} PiecesAreNonEmpty(parts: seq<string>)
    requires parts != []
    ensures Pieces(parts) == NonEmpty(Split(Join(parts, "/"), '/'))
    decreases |parts|
  {
    hide Split, NonEmpty;
    if |parts| == 1 {
      PiecesOfOne(parts[0]);
      assert parts == [parts[0]];
    } else {
      var rest := parts[1..];
      PiecesAreNonEmpty(rest);
      PiecesUncons(parts);
      SplitConcat(parts[0], Join(rest, "/"));
      NonEmptyConcat(Split(parts[0], '/'), Split(Join(rest, "/"), '/'));
    }
  }

  lemma {:induction false} PiecesUncons(parts: seq<string>)
    requires parts != []
    ensures Pieces(parts) == NonEmpty(Split(parts[0], '/')) + Pieces(parts[1..])
    decreases |parts|
  {
    hide Split, NonEmpty;
    if |parts| == 1 {
      PiecesOfOne(parts[0]);
      assert parts == [parts[0]];
    } else {
      var front := parts[..|parts| - 1];
      PiecesUncons(front);
      assert front[1..] == parts[1..][..|parts| - 2];
      assert front[0] == parts[0];
    }
  }

  lemma {:induction false} NonEmptyPieces(pieces: seq<string>)
    requires forall piece :: piece in pieces ==> '/' !in piece
    ensures forall piece :: piece in NonEmpty(pieces) ==> piece != "" && '/' !in piece
    ensures NonEmpty(NonEmpty(pieces)) == NonEmpty(pieces)
    decreases |pieces|
  {
    if pieces != [] {
      assert pieces[0] in pieces && forall piece :: piece in pieces[1..] ==> piece in pieces;
      NonEmptyPieces(pieces[1..]);
      if pieces[0] != "" {
        assert NonEmpty(pieces)[1..] == NonEmpty(pieces[1..]);
      } else {
        assert NonEmpty(pieces) == NonEmpty(pieces[1..]);
      }
    }
  }

  /**
   `join` writes the parts below the root with a slash between them, without empty pieces: it has the
   same other pieces, `.` and `..` included, in the same order, and normalizes to the same path.
   */
  lemma JoinIsConcatenation(parts: seq<string>)
    requires parts != []
    ensures var plain := "/" + Join(parts, "/");
            && IsAbsolute(Joined(parts))
            && NonEmpty(Split(Joined(parts), '/')) == NonEmpty(Split(plain, '/'))
            && Normalized(Joined(parts)) == Normalized(plain)
            && Joined([Joined(parts)]) == Joined(parts)
  {
    hide Split, NonEmpty, Fold, Join;
    var whole, pieces := Join(parts, "/"), Pieces(parts);
    PiecesAreNonEmpty(parts);
    SplitPieces(whole, '/');
    NonEmptyPieces(Split(whole, '/'));
    RootPieces(whole);
    RootPieces(Join(pieces, "/"));
    PiecesOfOne(Joined(parts));
    if pieces == [] {
      JoinNothing();
    } else {
      SplitJoin(pieces, '/');
    }
    FoldSkipsEmpty([], Split(whole, '/'));
    FoldSkipsEmpty([], Split(Join(pieces, "/"), '/'));
  }

  lemma JoinNothing()
    ensures Join([], "/") == "" && NonEmpty(Split("", '/')) == []
  {
    NonEmptyRoot();
  }

  lemma {:induction false} JoinSnoc(parts: seq<string>, last: string)
    requires parts != []
    ensures Join(parts + [last], "/") == Join(parts, "/") + "/" + last
    decreases |parts|
  {
    if |parts| == 1 {
      assert (parts + [last])[1..] == [last];
    } else {
      JoinSnoc(parts[1..], last);
      assert (parts + [last])[1..] == parts[1..] + [last];
    }
  }

  lemma {:induction false} UnresolvedIsJoin(parts: seq<string>, resolved: string)
    requires parts != [] && resolved != "" && forall i :: 0 < i < |parts| ==> !IsAbsolute(parts[i])
    ensures Unresolved(parts, resolved) == Join(parts + [resolved], "/")
    decreases |parts|
  {
    var front, last := parts[..|parts| - 1], parts[|parts| - 1];
    var next := Prepend(last, resolved);
    JoinSnoc(parts, resolved);
    if front == [] {
      assert parts == [last] && Unresolved(front, next) == next;
    } else {
      assert parts == front + [last];
      JoinSnoc(front, last);
      JoinSnoc(front, next);
      UnresolvedIsJoin(front, next);
      hide Join;
      Slashes(Join(front, "/"), last, resolved);
    }
  }

  lemma Slashes(a: string, b: string, c: string)
    ensures a + "/" + (b + ("/" + c)) == (a + "/" + b) + "/" + c
  {
  }

  /**
   Resolving parts of which none but the first may be absolute and the last is not empty is
   normalizing them with a slash in between; what comes before an absolute part does not matter.
   */
  lemma ResolveIsJoin(before: seq<string>, parts: seq<string>)
    requires parts != [] && parts[|parts| - 1] != ""
    requires forall i :: 0 < i < |parts| ==> !IsAbsolute(parts[i])
    requires before == [] || IsAbsolute(parts[0])
    ensures Resolved(before + parts) == Normalized(Join(parts, "/"))
  {
    hide Normalized, Join, Unresolved;
    if before != [] {
      ResolveForgets(before, parts, "");
    } else {
      assert before + parts == parts;
    }
    UnresolvedFromLast(parts);
  }

  lemma UnresolvedStep(parts: seq<string>, resolved: string)
    requires parts != []
    ensures var last := parts[|parts| - 1];
            var next := Prepend(last, resolved);
            && Prepend(last, "") == last && Unresolved([], next) == next
            && Unresolved(parts, resolved) == (if IsAbsolute(last) then next
                                               else Unresolved(parts[..|parts| - 1], next))
    ensures |parts| == 1 ==> Join(parts, "/") == parts[0]
  {
  }

  lemma UnresolvedFromLast(parts: seq<string>)
    requires parts != [] && parts[|parts| - 1] != ""
    requires forall i :: 0 < i < |parts| ==> !IsAbsolute(parts[i])
    ensures Unresolved(parts, "") == Join(parts, "/")
  {
    hide Unresolved, Join, Prepend;
    var front, last := parts[..|parts| - 1], parts[|parts| - 1];
    UnresolvedStep(parts, "");
    if front == [] {
      assert parts == [last];
    } else {
      assert parts == front + [last];
      UnresolvedIsJoin(front, last);
    }
  }

  // ─── Directory and base name ──────────────────────────────────

  /** The last slash cuts a path into directory and base name; without one the directory is the root. */
  lemma DirnameCuts(p: string)
    ensures '/' !in Basename(p)
    ensures '/' !in p ==> Dirname(p) == "/" && Basename(p) == p
    ensures '/' in p ==>
              if '/' in p[1..] then p == Dirname(p) + "/" + Basename(p) else Dirname(p) == "/" && p == "/" + Basename(p)
  {
    hide LastSlash, Split, Basename;
    var i := LastSlash(p);
    LastSlashMeaning(p);
    if i < 0 {
      assert p[i + 1..] == p;
      SplitOnly(p);
    } else {
      CutAt(p, i);
      SplitLast(p, p[..i], p[i + 1..]);
      if i == 0 {
        assert p[1..] == p[i + 1..];
      } else {
        assert p[1..][i - 1] == '/';
      }
    }
  }
}
