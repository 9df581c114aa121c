/** The path functions of the prelude: each loop, its specification, and the algebra they obey. */
module Paths {
  import opened Strings

  predicate IsAbsolute(p: string) {
    p != "" && p[0] == '/'
  }

  // ─── Segments ─────────────────────────────────────────────────

  /** A segment that stays in a normalized path. */
  predicate Plain(seg: string) {
    seg != "" && seg != "." && seg != ".." && '/' !in seg
  }

  function Init(segs: seq<string>): seq<string> {
    if segs == [] then [] else segs[..|segs| - 1]
  }

  function Step(segs: seq<string>, piece: string): seq<string> {
    if piece == "" || piece == "." then segs
    else if piece == ".." then Init(segs)
    else segs + [piece]
  }

  function Fold(segs: seq<string>, pieces: seq<string>): seq<string>
    decreases |pieces|
  {
    if pieces == [] then segs else Fold(Step(segs, pieces[0]), pieces[1..])
  }

  /** Where `p` leads from the root. */
  function Segs(p: string): seq<string> {
    Fold([], Split(p, '/'))
  }

  function Spell(absolute: bool, segs: seq<string>): string {
    (if absolute then "/" else "") + Join(segs, "/")
  }

  function Normalized(p: string): string {
    Spell(IsAbsolute(p), Segs(p))
  }

  function NonEmpty(pieces: seq<string>): seq<string>
    decreases |pieces|
  {
    if pieces == [] then [] else (if pieces[0] == "" then [] else [pieces[0]]) + NonEmpty(pieces[1..])
  }

  // ─── Loops ────────────────────────────────────────────────────

  lemma {:induction false} FoldOneMore(segs: seq<string>, pieces: seq<string>, piece: string)
    ensures Fold(segs, pieces + [piece]) == Step(Fold(segs, pieces), piece)
    decreases |pieces|
  {
    if pieces == [] {
      assert [piece][1..] == [];
    } else {
      FoldOneMore(Step(segs, pieces[0]), pieces[1..], piece);
      assert (pieces + [piece])[1..] == pieces[1..] + [piece];
    }
  }

  method Normalize(p: string) returns (result: string)
    ensures result == Normalized(p)
  {
    var segs: seq<string> := [];
    var pieces := Split(p, '/');
    for i := 0 to |pieces|
      invariant segs == Fold([], pieces[..i])
    {
      var seg := pieces[i];
      FoldOneMore([], pieces[..i], seg);
      assert pieces[..i + 1] == pieces[..i] + [seg];
      if seg == "" || seg == "." {
        continue;
      }
      if seg == ".." {
        if |segs| > 0 {
          segs := segs[..|segs| - 1];
        }
        continue;
      }
      segs := segs + [seg];
    }
    assert pieces[..|pieces|] == pieces;
    result := (if IsAbsolute(p) then "/" else "") + Join(segs, "/");
  }

  function Prepend(part: string, resolved: string): string {
    part + if resolved != "" then "/" + resolved else ""
  }

  /** The parts joined from the last absolute one on, followed by what is resolved already. */
  function Unresolved(parts: seq<string>, resolved: string): string
    decreases |parts|
  {
    if parts == [] then resolved
    else
      var part := parts[|parts| - 1];
      if IsAbsolute(part) then Prepend(part, resolved)
      else Unresolved(parts[..|parts| - 1], Prepend(part, resolved))
  }

  function Resolved(parts: seq<string>): string {
    Normalized(Unresolved(parts, ""))
  }

  method Resolve(parts: seq<string>) returns (result: string)
    ensures result == Resolved(parts)
  {
    var resolved := "";
    var i := |parts|;
    assert parts[..i] == parts;
    while i > 0
      invariant 0 <= i <= |parts|
      invariant Unresolved(parts[..i], resolved) == Unresolved(parts, "")
    {
      i := i - 1;
      var part := parts[i];
      assert parts[..i + 1][..i] == parts[..i];
      resolved := part + if resolved != "" then "/" + resolved else "";
      if IsAbsolute(part) {
        assert resolved == Unresolved(parts, "");
        result := Normalize(resolved);
        return;
      }
    }
    result := Normalize(resolved);
  }

  /** How many leading segments two paths share. */
  function Common(a: seq<string>, b: seq<string>): (n: nat)
    ensures n <= |a| && n <= |b| && a[..n] == b[..n]
    ensures n < |a| && n < |b| ==> a[n] != b[n]
    decreases |a|
  {
    if a == [] || b == [] || a[0] != b[0] then 0
    else
      assert a == [a[0]] + a[1..] && b == [b[0]] + b[1..];
      1 + Common(a[1..], b[1..])
  }

  lemma {:induction false} CommonIs(a: seq<string>, b: seq<string>, n: nat)
    requires n <= |a| && n <= |b| && a[..n] == b[..n]
    requires n < |a| && n < |b| ==> a[n] != b[n]
    ensures Common(a, b) == n
    decreases n
  {
    if n > 0 {
      assert a[0] == a[..n][0] && b[0] == b[..n][0];
      assert a[1..][..n - 1] == a[..n][1..] && b[1..][..n - 1] == b[..n][1..];
      CommonIs(a[1..], b[1..], n - 1);
    }
  }

  function Ups(n: nat): (ups: seq<string>)
    ensures |ups| == n
  {
    seq(n, _ => "..")
  }

  /** Up from where the paths part, then down. */
  function Route(a: seq<string>, b: seq<string>): seq<string> {
    Ups(|a| - Common(a, b)) + b[Common(a, b)..]
  }

  function RelativeTo(from: string, to: string): string {
    var route := Join(Route(Segs(from), Segs(to)), "/");
    if route == "" then "." else route
  }

  method Relative(from: string, to: string) returns (result: string)
    ensures result == RelativeTo(from, to)
  {
    hide NonEmpty, Split, Common, Join, Normalized, Segs;
    var from' := Normalize(from);
    var to' := Normalize(to);
    var fromParts := NonEmpty(Split(from', '/'));
    var toParts := NonEmpty(Split(to', '/'));
    NormalizedPieces(from);
    NormalizedPieces(to);
    var i := 0;
    while i < |fromParts| && i < |toParts| && fromParts[i] == toParts[i]
      invariant 0 <= i <= |fromParts| && i <= |toParts| && fromParts[..i] == toParts[..i]
    {
      i := i + 1;
    }
    CommonIs(fromParts, toParts, i);
    var rel: seq<string> := [];
    for j := i to |fromParts|
      invariant rel == Ups(j - i)
    {
      rel := rel + [".."];
    }
    for k := i to |toParts|
      invariant rel == Ups(|fromParts| - i) + toParts[i..k]
    {
      rel := rel + [toParts[k]];
    }
    assert toParts[i..|toParts|] == toParts[i..];
    var route := Join(rel, "/");
    result := if route == "" then "." else route;
  }

  /** All the pieces of all the parts, under the root. */
  function Pieces(parts: seq<string>): seq<string>
    decreases |parts|
  {
    if parts == [] then [] else Pieces(parts[..|parts| - 1]) + NonEmpty(Split(parts[|parts| - 1], '/'))
  }

  function Joined(parts: seq<string>): string {
    "/" + Join(Pieces(parts), "/")
  }

  method JoinParts(parts: seq<string>) returns (result: string)
    ensures result == Joined(parts)
  {
    var segs: seq<string> := [];
    for i := 0 to |parts|
      invariant segs == Pieces(parts[..i])
    {
      var pieces := Split(parts[i], '/');
      ghost var before := segs;
      for j := 0 to |pieces|
        invariant segs == before + NonEmpty(pieces[..j])
      {
        NonEmptyConcat(pieces[..j], [pieces[j]]);
        assert pieces[..j + 1] == pieces[..j] + [pieces[j]];
        if pieces[j] != "" {
          segs := segs + [pieces[j]];
        }
      }
      assert pieces[..|pieces|] == pieces;
      assert parts[..i + 1][..i] == parts[..i];
    }
    assert parts[..|parts|] == parts;
    result := "/" + Join(segs, "/");
  }

  // ─── Segments of a spelled path ───────────────────────────────

  lemma {:induction false} NonEmptyConcat(a: seq<string>, b: seq<string>)
    ensures NonEmpty(a + b) == NonEmpty(a) + NonEmpty(b)
    decreases |a|
  {
    if a == [] {
      assert a + b == b;
    } else {
      NonEmptyConcat(a[1..], b);
      assert (a + b)[1..] == a[1..] + b;
      var first := if a[0] == "" then [] else [a[0]];
      assert NonEmpty(a + b) == first + (NonEmpty(a[1..]) + NonEmpty(b));
    }
  }

  /** The pieces of a string with one character more in front. */
  function Grow(c: char, pieces: seq<string>): seq<string>
    requires pieces != []
  {
    if c == '/' then [""] + pieces else [[c] + pieces[0]] + pieces[1..]
  }

  lemma SplitGrows(s: string)
    requires s != ""
    ensures Split(s, '/') == Grow(s[0], Split(s[1..], '/'))
  {
  }

  lemma GrowConcat(c: char, pieces: seq<string>, rest: seq<string>)
    requires pieces != []
    ensures Grow(c, pieces + rest) == Grow(c, pieces) + rest
  {
    assert (pieces + rest)[1..] == pieces[1..] + rest;
  }

  lemma {:induction false} SplitConcat(a: string, b: string)
    ensures Split(a + "/" + b, '/') == Split(a, '/') + Split(b, '/')
    decreases |a|
  {
    hide Split;
    var s := a + "/" + b;
    SplitGrows(s);
    if a == "" {
      assert s[1..] == b;
      SplitPlain(a, '/');
    } else {
      hide Grow;
      SplitConcat(a[1..], b);
      assert s[1..] == a[1..] + "/" + b;
      SplitGrows(a);
      GrowConcat(a[0], Split(a[1..], '/'), Split(b, '/'));
    }
  }

  lemma {:induction false} FoldConcat(segs: seq<string>, a: seq<string>, b: seq<string>)
    ensures Fold(segs, a + b) == Fold(Fold(segs, a), b)
    decreases |a|
  {
    if a == [] {
      assert a + b == b;
    } else {
      FoldConcat(Step(segs, a[0]), a[1..], b);
      assert (a + b)[1..] == a[1..] + b;
    }
  }

  ghost predicate AllPlain(segs: seq<string>) {
    forall seg :: seg in segs ==> Plain(seg)
  }

  lemma {:induction false} FoldPlain(segs: seq<string>, pieces: seq<string>)
    requires AllPlain(segs) && forall piece :: piece in pieces ==> '/' !in piece
    ensures AllPlain(Fold(segs, pieces))
    decreases |pieces|
  {
    if pieces != [] {
      assert pieces[0] in pieces && forall piece :: piece in pieces[1..] ==> piece in pieces;
      FoldPlain(Step(segs, pieces[0]), pieces[1..]);
    }
  }

  /** A normalized path has no empty, `.` or `..` segment. */
  lemma SegsPlain(p: string)
    ensures AllPlain(Segs(p))
  {
    SplitPieces(p, '/');
    FoldPlain([], Split(p, '/'));
  }

  /** Plain pieces are pushed as they come. */
  lemma {:induction false} FoldPushes(segs: seq<string>, pieces: seq<string>)
    requires AllPlain(pieces)
    ensures Fold(segs, pieces) == segs + pieces
    decreases |pieces|
  {
    if pieces != [] {
      assert pieces[0] in pieces && forall piece :: piece in pieces[1..] ==> piece in pieces;
      FoldPushes(segs + [pieces[0]], pieces[1..]);
      assert (segs + [pieces[0]]) + pieces[1..] == segs + pieces;
    }
  }

  lemma {:induction false} FoldPops(segs: seq<string>, n: nat)
    requires n <= |segs|
    ensures Fold(segs, Ups(n)) == segs[..|segs| - n]
    decreases n
  {
    if n == 0 {
      assert segs[..|segs|] == segs;
    } else {
      FoldPops(Init(segs), n - 1);
      assert Ups(n)[1..] == Ups(n - 1);
      assert Init(segs)[..|segs| - n] == segs[..|segs| - n];
    }
  }

  lemma {:induction false} NonEmptyPlain(pieces: seq<string>)
    requires AllPlain(pieces)
    ensures NonEmpty(pieces) == pieces
    decreases |pieces|
  {
    if pieces != [] {
      assert pieces[0] in pieces && forall piece :: piece in pieces[1..] ==> piece in pieces;
      NonEmptyPlain(pieces[1..]);
    }
  }

  lemma {:induction false} JoinStarts(parts: seq<string>)
    requires parts != [] && parts[0] != ""
    ensures var joined := Join(parts, "/"); joined != "" && joined[0] == parts[0][0]
  {
  }

  lemma RootPieces(p: string)
    ensures Segs("/" + p) == Segs(p)
    ensures NonEmpty(Split("/" + p, '/')) == NonEmpty(Split(p, '/'))
  {
    var pieces := Split(p, '/');
    assert ("/" + p)[1..] == p;
    assert Split("/" + p, '/') == [""] + pieces;
    assert ([""] + pieces)[1..] == pieces;
  }

  lemma JoinedPieces(segs: seq<string>)
    requires AllPlain(segs)
    ensures var p := Join(segs, "/");
            && Segs(p) == segs
            && NonEmpty(Split(p, '/')) == segs
            && !IsAbsolute(p)
            && (p == "" <==> segs == [])
  {
    if segs == [] {
      assert [""][1..] == [];
    } else {
      FoldPushes([], segs);
      NonEmptyPlain(segs);
      assert segs[0] in segs;
      SplitJoin(segs, '/');
      JoinStarts(segs);
      assert segs[0][0] in segs[0];
      assert [] + segs == segs;
    }
  }

  /** The pieces of a spelled path: its segments, and empty ones. */
  lemma SpellPieces(absolute: bool, segs: seq<string>)
    requires AllPlain(segs)
    ensures var p := Spell(absolute, segs);
            && Segs(p) == segs
            && NonEmpty(Split(p, '/')) == segs
            && (IsAbsolute(p) <==> absolute)
            && (p == "" <==> !absolute && segs == [])
  {
    hide Split, Fold, NonEmpty, Join, Segs;
    JoinedPieces(segs);
    RootPieces(Join(segs, "/"));
    assert "" + Join(segs, "/") == Join(segs, "/");
  }

  lemma NormalizedPieces(p: string)
    ensures NonEmpty(Split(Normalized(p), '/')) == Segs(p)
  {
    SegsPlain(p);
    SpellPieces(IsAbsolute(p), Segs(p));
  }

  // ─── The algebra ──────────────────────────────────────────────

  /** `normalize` is idempotent, and what it returns has only plain segments. */
  lemma NormalizeIdempotent(p: string)
    ensures Normalized(Normalized(p)) == Normalized(p)
    ensures AllPlain(NonEmpty(Split(Normalized(p), '/')))
  {
    SegsPlain(p);
    SpellPieces(IsAbsolute(p), Segs(p));
  }

  lemma SegsBelow(a: string, b: string)
    ensures Segs(a + "/" + b) == Fold(Segs(a), Split(b, '/'))
  {
    SplitConcat(a, b);
    FoldConcat([], Split(a, '/'), Split(b, '/'));
  }

  /**
   Normalizing the first half first changes nothing, exactly when that half does not collapse to
   the empty string; a collapsed relative half would make the whole path absolute.
   */
  lemma NormalizeFirstHalf(a: string, b: string)
    ensures Normalized(a + "/" + b) == Normalized(Normalized(a) + "/" + b)
       <==> (Normalized(a) == "" ==> a == "")
  {
    SegsPlain(a);
    SpellPieces(IsAbsolute(a), Segs(a));
    SegsBelow(a, b);
    SegsBelow(Normalized(a), b);
    SpellDiffers(Segs(a + "/" + b));
  }

  lemma SpellDiffers(segs: seq<string>)
    ensures Spell(true, segs) != Spell(false, segs)
  {
    assert |Spell(true, segs)| == |Spell(false, segs)| + 1;
  }

  lemma RouteLeads(a: seq<string>, b: seq<string>)
    requires AllPlain(a) && AllPlain(b)
    ensures Fold(a, Route(a, b)) == b
  {
    hide Fold, Common, Plain;
    var n := Common(a, b);
    FoldConcat(a, Ups(|a| - n), b[n..]);
    FoldPops(a, |a| - n);
    FoldPushes(a[..n], b[n..]);
    assert a[..n] + b[n..] == b;
  }

  /** The relative path splits into the route, or into the one piece `.`. */
  lemma RelativePieces(from: string, to: string)
    ensures var rel := RelativeTo(from, to);
            && rel != "" && !IsAbsolute(rel)
            && Fold(Segs(from), Split(rel, '/')) == Segs(to)
  {
    hide Split, Fold, Join, Segs, Common;
    var route := Route(Segs(from), Segs(to));
    SegsPlain(from);
    SegsPlain(to);
    RouteLeads(Segs(from), Segs(to));
    if route == [] {
      DotStays(Segs(from));
    } else {
      RoutePieces(Segs(from), Segs(to));
      assert route[0] in route;
      SplitJoin(route, '/');
      JoinStarts(route);
      assert route[0][0] in route[0];
    }
  }

  lemma DotStays(segs: seq<string>)
    ensures Join([], "/") == "" && Fold(segs, Split(".", '/')) == segs && Fold(segs, []) == segs
  {
    SplitPlain(".", '/');
  }

  lemma RoutePieces(a: seq<string>, b: seq<string>)
    requires AllPlain(b)
    ensures forall piece :: piece in Route(a, b) ==> piece != "" && '/' !in piece
  {
    hide Common;
    forall piece | piece in Route(a, b) ensures piece != "" && '/' !in piece {
      assert piece in Ups(|a| - Common(a, b)) || piece in b;
    }
  }

  lemma ResolveRelativeIs(from: string, to: string)
    ensures Resolved([from, RelativeTo(from, to)]) == Spell(IsAbsolute(from) || from == "", Segs(to))
  {
    var rel := RelativeTo(from, to);
    RelativePieces(from, to);
    var parts := [from, rel];
    assert parts[..1] == [from] && [from][..0] == [];
    assert Prepend(rel, "") == rel;
    assert Unresolved([from], rel) == from + ("/" + rel);
    assert from + ("/" + rel) == from + "/" + rel;
    SegsBelow(from, rel);
  }

  /**
   Resolving the relative path leads to the normalized target exactly when both paths are
   absolute or neither is, the empty start counting as absolute.
   */
  lemma ResolveRelative(from: string, to: string)
    ensures Resolved([from, RelativeTo(from, to)]) == Normalized(to)
       <==> (IsAbsolute(to) <==> IsAbsolute(from) || from == "")
  {
    ResolveRelativeIs(from, to);
    SpellDiffers(Segs(to));
  }

  /** From an absolute to a relative path, at one input: the result is absolute. */
  lemma ResolveRelativeAnchors()
    ensures Resolved(["/a", RelativeTo("/a", "b")]) == "/b" && Normalized("b") == "b"
  {
    hide Resolved, RelativeTo;
    ResolveRelativeIs("/a", "b");
    SplitPlain("b", '/');
    assert ["b"][1..] == [];
    assert Segs("b") == ["b"];
  }

  /** A resolved path depends on nothing before its last absolute part. */
  lemma {:induction false} ResolveForgets(before: seq<string>, parts: seq<string>, resolved: string)
    requires parts != [] && IsAbsolute(parts[0])
    ensures Unresolved(before + parts, resolved) == Unresolved(parts, resolved)
    decreases |parts|
  {
    var all := before + parts;
    var part := parts[|parts| - 1];
    if !IsAbsolute(part) {
      assert all[..|all| - 1] == before + parts[..|parts| - 1];
      ResolveForgets(before, parts[..|parts| - 1], Prepend(part, resolved));
    }
  }

  // ─── Directory and base name ──────────────────────────────────

  /** `lastIndexOf('/')`, or -1. */
  function LastSlash(p: string): (i: int)
    ensures -1 <= i < |p|
    decreases |p|
  {
    if p == "" then -1
    else if p[|p| - 1] == '/' then |p| - 1
    else LastSlash(p[..|p| - 1])
  }

  function Dirname(p: string): string {
    if LastSlash(p) <= 0 then "/" else p[..LastSlash(p)]
  }

  function Basename(p: string): string {
    var pieces := Split(p, '/');
    pieces[|pieces| - 1]
  }

  lemma NoneAfter(p: string, i: int)
    requires -1 <= i < |p| - 1 && '/' !in p[..|p| - 1][i + 1..] && p[|p| - 1] != '/'
    ensures '/' !in p[i + 1..]
  {
    assert p[i + 1..] == p[..|p| - 1][i + 1..] + [p[|p| - 1]];
  }

  lemma {:induction false} LastSlashMeaning(p: string)
    ensures var i := LastSlash(p);
            (i >= 0 ==> p[i] == '/') && '/' !in p[i + 1..]
    decreases |p|
  {
    if p != "" && p[|p| - 1] != '/' {
      LastSlashMeaning(p[..|p| - 1]);
      NoneAfter(p, LastSlash(p));
    }
  }

  lemma SplitLast(p: string, dir: string, base: string)
    requires p == dir + "/" + base && '/' !in base
    ensures Split(p, '/') == Split(dir, '/') + [base] && Basename(p) == base && Split(base, '/') == [base]
  {
    SplitPlain(base, '/');
    SplitConcat(dir, base);
    hide Split;
  }

  lemma SplitOnly(p: string)
    requires '/' !in p
    ensures Split(p, '/') == [p] && Basename(p) == p
  {
    SplitPlain(p, '/');
  }

  lemma DirnamePieces(p: string)
    ensures NonEmpty(Split(p, '/')) == NonEmpty(Split(Dirname(p), '/')) + NonEmpty(Split(Basename(p), '/'))
  {
    hide LastSlash, Split, NonEmpty, Basename;
    var i := LastSlash(p);
    LastSlashMeaning(p);
    NonEmptyRoot();
    if i < 0 {
      assert p[i + 1..] == p;
      SplitOnly(p);
    } else {
      CutAt(p, i);
      SplitLast(p, p[..i], p[i + 1..]);
      NonEmptyConcat(Split(p[..i], '/'), [p[i + 1..]]);
      assert i == 0 ==> p[..i] == "";
    }
  }

  /** Joining a path's directory and base name gives what joining the path itself gives. */
  lemma JoinDirnameBasename(p: string)
    ensures Joined([Dirname(p), Basename(p)]) == Joined([p])
  {
    hide Dirname, Basename, NonEmpty, Split;
    DirnamePieces(p);
    PiecesOfOne(p);
    PiecesOfTwo(Dirname(p), Basename(p));
  }

  lemma CutAt(p: string, i: nat)
    requires i < |p| && p[i] == '/'
    ensures p == p[..i] + "/" + p[i + 1..]
  {
  }

  lemma NonEmptyRoot()
    ensures NonEmpty(Split("/", '/')) == [] && NonEmpty(Split("", '/')) == [] && NonEmpty([]) == []
  {
    assert "/"[1..] == "";
    assert Split("/", '/') == ["", ""];
    assert ["", ""][1..] == [""];
  }

  lemma PiecesOfOne(p: string)
    ensures Pieces([p]) == NonEmpty(Split(p, '/'))
  {
    assert [p][..0] == [];
  }

  lemma PiecesOfTwo(p: string, q: string)
    ensures Pieces([p, q]) == NonEmpty(Split(p, '/')) + NonEmpty(Split(q, '/'))
  {
    PiecesOfOne(p);
    assert [p, q][..1] == [p];
  }
}
