/** Splitting a string at a character, joining the pieces again, and decimal numerals. */
module Strings {

  /** `split(c)`: one piece more than there are separators. */
  function Split(s: string, c: char): (pieces: seq<string>)
    ensures pieces != []
    decreases |s|
  {
    if s == "" then [""]
    else
      var rest := Split(s[1..], c);
      if s[0] == c then [""] + rest else [[s[0]] + rest[0]] + rest[1..]
  }

  function Join(parts: seq<string>, separator: string): string
    decreases |parts|
  {
    if parts == [] then ""
    else if |parts| == 1 then parts[0]
    else parts[0] + separator + Join(parts[1..], separator)
  }

  lemma {:induction false} SplitPlain(s: string, c: char)
    requires c !in s
    ensures Split(s, c) == [s]
    decreases |s|
  {
    if s != "" {
      assert s == [s[0]] + s[1..];
      SplitPlain(s[1..], c);
    }
  }

  lemma {:induction false} SplitAt(a: string, b: string, c: char)
    requires c !in a
    ensures Split(a + [c] + b, c) == [a] + Split(b, c)
    decreases |a|
  {
    var s := a + [c] + b;
    if a == "" {
      assert s[1..] == b;
    } else {
      assert a == [a[0]] + a[1..];
      assert s[1..] == a[1..] + [c] + b;
      SplitAt(a[1..], b, c);
    }
  }

  lemma {:induction false} SplitPieces(s: string, c: char)
    ensures forall piece :: piece in Split(s, c) ==> c !in piece
    decreases |s|
  {
    if s != "" {
      SplitPieces(s[1..], c);
    }
  }

  /** Splitting a join of pieces that lack the separator gives the pieces back. */
  lemma {:induction false} SplitJoin(parts: seq<string>, c: char)
    requires parts != [] && forall part :: part in parts ==> c !in part
    ensures Split(Join(parts, [c]), c) == parts
    decreases |parts|
  {
    if |parts| == 1 {
      SplitPlain(parts[0], c);
    } else {
      SplitJoin(parts[1..], c);
      SplitAt(parts[0], Join(parts[1..], [c]), c);
      assert parts == [parts[0]] + parts[1..];
    }
  }

  // ─── Decimal numerals ─────────────────────────────────────────

  function Decimal(n: nat): (s: string)
    ensures s != ""
  {
    if n < 10 then [('0' as int + n) as char] else Decimal(n / 10) + [('0' as int + n % 10) as char]
  }

  lemma {:induction false} DecimalInjective(a: nat, b: nat)
    ensures Decimal(a) == Decimal(b) ==> a == b
    decreases a
  {
    var s, t := Decimal(a), Decimal(b);
    if s == t {
      assert s[|s| - 1] == t[|t| - 1];
      assert a % 10 == b % 10;
      if 10 <= a && 10 <= b {
        assert s[..|s| - 1] == Decimal(a / 10) && t[..|t| - 1] == Decimal(b / 10);
        DecimalInjective(a / 10, b / 10);
      }
    }
  }
}
