/**
 The prelude's `btoa` and `atob`.  A JavaScript string is a sequence of 16-bit units; every
 intermediate value of the two functions fits in 16 bits.
 */
module Base64 {
  import opened Wrappers
  import opened Sequences
  import opened Units

  const PAD: Unit := 61  // '='

  /** The alphabet of Table 1 of RFC 4648. */
  function Symbol(v: Unit): Unit
    requires v < 64
  {
    if v < 26 then v + 65 else if v < 52 then v + 71 else if v < 62 then v - 4 else if v == 62 then 43 else 47
  }

  /** The value of a symbol, if it is one. */
  function Lookup(c: Unit): Option<Unit> {
    if 65 <= c <= 90 then Some(c - 65)
    else if 97 <= c <= 122 then Some(c - 71)
    else if 48 <= c <= 57 then Some(c + 4)
    else if c == 43 then Some(62)
    else if c == 47 then Some(63)
    else None
  }

  lemma LookupSymbol(v: Unit)
    requires v < 64
    ensures Lookup(Symbol(v)) == Some(v) && Symbol(v) != PAD
  {
  }

  lemma LookupIsSextet(c: Unit)
    ensures Lookup(c).Some? ==> Lookup(c).value < 64 && Symbol(Lookup(c).value) == c
  {
  }

  // ─── btoa ─────────────────────────────────────────────────────

  function LowBytes(s: seq<Unit>): (bytes: seq<Unit>)
    ensures |bytes| == |s|
  {
    seq(|s|, i requires 0 <= i < |s| => s[i] & 0xff)
  }

  ghost predicate Below(s: seq<Unit>, bound: Unit) {
    forall i :: 0 <= i < |s| ==> s[i] < bound
  }

  /** The four sextets of a group of three bytes. */
  function Sextet1(b1: Unit): (v: Unit)
    requires b1 < 0x100
    ensures v < 64
  {
    b1 >> 2
  }

  function Sextet2(b1: Unit, b2: Unit): (v: Unit)
    requires b1 < 0x100 && b2 < 0x100
    ensures v < 64
  {
    ((b1 & 0x03) << 4) | (b2 >> 4)
  }

  function Sextet3(b2: Unit, b3: Unit): (v: Unit)
    requires b2 < 0x100 && b3 < 0x100
    ensures v < 64
  {
    ((b2 & 0x0f) << 2) | (b3 >> 6)
  }

  function Sextet4(b3: Unit): (v: Unit)
    requires b3 < 0x100
    ensures v < 64
  {
    b3 & 0x3f
  }

  /** The text of the group that starts at `i`. */
  function GroupTextAt(bytes: seq<Unit>, i: nat): (text: seq<Unit>)
    requires i < |bytes| && Below(bytes, 0x100)
    ensures |text| == 4
  {
    var b1, b2, b3 := bytes[i], At(bytes, i + 1), At(bytes, i + 2);
    [Symbol(Sextet1(b1)), Symbol(Sextet2(b1, b2)),
     if i + 1 < |bytes| then Symbol(Sextet3(b2, b3)) else PAD,
     if i + 2 < |bytes| then Symbol(Sextet4(b3)) else PAD]
  }

  function GroupText(bytes: seq<Unit>): (text: seq<Unit>)
    requires bytes != [] && Below(bytes, 0x100)
    ensures |text| == 4
  {
    GroupTextAt(bytes, 0)
  }

  function TextOf(bytes: seq<Unit>): seq<Unit>
    requires Below(bytes, 0x100)
    decreases |bytes|
  {
    if bytes == [] then [] else GroupText(bytes) + TextOf(From(bytes, 3))
  }

  lemma LowByte(u: Unit)
    ensures u & 0xff < 0x100
  {
  }

  lemma LowBytesBelow(s: seq<Unit>)
    ensures Below(LowBytes(s), 0x100)
  {
    forall i | 0 <= i < |s| ensures LowBytes(s)[i] < 0x100 {
      LowByte(s[i]);
    }
  }

  function BtoaOf(s: seq<Unit>): seq<Unit> {
    LowBytesBelow(s);
    TextOf(LowBytes(s))
  }

  lemma NextGroup(bytes: seq<Unit>, i: nat)
    requires i < |bytes| && Below(bytes, 0x100)
    ensures Below(From(bytes, i), 0x100) && Below(From(bytes, i + 3), 0x100)
    ensures TextOf(From(bytes, i)) == GroupText(From(bytes, i)) + TextOf(From(bytes, i + 3))
    ensures GroupText(From(bytes, i)) == GroupTextAt(bytes, i)
  {
    hide Sextet1, Sextet2, Sextet3, Sextet4, Symbol;
    var group := From(bytes, i);
    assert From(group, 3) == From(bytes, i + 3);
    assert At(group, 1) == At(bytes, i + 1) && At(group, 2) == At(bytes, i + 2);
  }

  lemma AppendFour(front: seq<Unit>, w: Unit, x: Unit, y: Unit, z: Unit, rest: seq<Unit>)
    ensures front + [w] + [x] + [y] + [z] + rest == front + ([w, x, y, z] + rest)
  {
  }

  lemma NoneLeft(bytes: seq<Unit>, i: nat)
    ensures i >= |bytes| ==> From(bytes, i) == [] && TextOf([]) == []
  {
  }

  method Btoa(str: seq<Unit>) returns (result: seq<Unit>)
    ensures result == BtoaOf(str)
  {
    hide TextOf, GroupText, Symbol, Sextet1, Sextet2, Sextet3, Sextet4, From;
    var bytes: seq<Unit> := [];
    LowBytesBelow(str);
    for i := 0 to |str|
      invariant bytes == LowBytes(str)[..i]
    {
      bytes := bytes + [str[i] & 0xff];
    }
    assert bytes == LowBytes(str);
    hide LowBytes;
    result := [];
    var i := 0;
    AllLeft(bytes);
    while i < |bytes|
      invariant 0 <= i
      invariant Below(bytes, 0x100) && Below(From(bytes, i), 0x100)
      invariant result + TextOf(From(bytes, i)) == TextOf(bytes)
      decreases |bytes| - i
    {
      NextGroup(bytes, i);
      ghost var before := result;
      ghost var left := TextOf(From(bytes, i + 3));
      var b1 := bytes[i];
      var b2 := if i + 1 < |bytes| then bytes[i + 1] else 0;
      var b3 := if i + 2 < |bytes| then bytes[i + 2] else 0;
      var c1 := Symbol(Sextet1(b1));
      var c2 := Symbol(Sextet2(b1, b2));
      var c3 := if i + 1 < |bytes| then Symbol(Sextet3(b2, b3)) else PAD;
      var c4 := if i + 2 < |bytes| then Symbol(Sextet4(b3)) else PAD;
      assert GroupTextAt(bytes, i) == [c1, c2, c3, c4];
      result := result + [c1];
      result := result + [c2];
      result := result + [c3];
      result := result + [c4];
      AppendFour(before, c1, c2, c3, c4, left);
      i := i + 3;
    }
    NoneLeft(bytes, i);
    assert result + [] == result;
  }

  // ─── atob ─────────────────────────────────────────────────────

  /** The sextets up to the first pad; anything that is no symbol is skipped. */
  function Digits(s: seq<Unit>): seq<Unit>
    decreases |s|
  {
    if s == [] || s[0] == PAD then []
    else (match Lookup(s[0]) case Some(v) => [v] case None => []) + Digits(s[1..])
  }

  function Byte1(v0: Unit, v1: Unit): Unit {
    (v0 << 2) | (v1 >> 4)
  }

  function Byte2(v1: Unit, v2: Unit): Unit {
    ((v1 & 0x0f) << 4) | (v2 >> 2)
  }

  function Byte3(v2: Unit, v3: Unit): Unit {
    ((v2 & 0x03) << 6) | v3
  }

  /** The bytes of the sextets, four at a time; of what is left over, only whole bytes. */
  function Assemble(v: seq<Unit>): seq<Unit>
    decreases |v|
  {
    if |v| < 2 then []
    else if |v| == 2 then [Byte1(v[0], v[1])]
    else if |v| == 3 then [Byte1(v[0], v[1]), Byte2(v[1], v[2])]
    else [Byte1(v[0], v[1]), Byte2(v[1], v[2]), Byte3(v[2], v[3])] + Assemble(v[4..])
  }

  function AtobOf(s: seq<Unit>): seq<Unit> {
    Assemble(Digits(s))
  }

  lemma DigitsAt(s: seq<Unit>, i: nat)
    requires i < |s|
    ensures Digits(s[i..])
         == if s[i] == PAD then [] else (match Lookup(s[i]) case Some(v) => [v] case None => []) + Digits(s[i + 1..])
  {
    assert s[i..][1..] == s[i + 1..];
  }

  lemma AssembleFour(bytes: seq<Unit>, rest: seq<Unit>)
    requires |bytes| == 4
    ensures Assemble(bytes + rest)
         == [Byte1(bytes[0], bytes[1]), Byte2(bytes[1], bytes[2]), Byte3(bytes[2], bytes[3])] + Assemble(rest)
  {
    assert (bytes + rest)[4..] == rest;
  }

  lemma AppendThree(front: seq<Unit>, x: Unit, y: Unit, z: Unit, rest: seq<Unit>)
    ensures front + [x] + [y] + [z] + rest == front + ([x, y, z] + rest)
  {
  }

  method Atob(str: seq<Unit>) returns (result: seq<Unit>)
    ensures result == AtobOf(str)
  {
    hide Digits, Lookup, Byte1, Byte2, Byte3, Assemble;
    result := [];
    var bytes: seq<Unit> := [];
    var i := 0;
    assert str[i..] == str && bytes + Digits(str) == Digits(str);
    while i < |str|
      invariant 0 <= i <= |str| && |bytes| < 4
      invariant result + Assemble(bytes + Digits(str[i..])) == AtobOf(str)
      decreases |str| - i
    {
      DigitsAt(str, i);
      if str[i] == PAD {
        break;
      }
      var val := Lookup(str[i]);
      ghost var later := Digits(str[i + 1..]);
      i := i + 1;
      if val.None? {
        assert [] + later == later;
        continue;
      }
      Regroup(bytes, [val.value], later);
      bytes := bytes + [val.value];
      if |bytes| == 4 {
        AssembleFour(bytes, later);
        ghost var before := result;
        result := result + [Byte1(bytes[0], bytes[1])];
        result := result + [Byte2(bytes[1], bytes[2])];
        result := result + [Byte3(bytes[2], bytes[3])];
        AppendThree(before, Byte1(bytes[0], bytes[1]), Byte2(bytes[1], bytes[2]), Byte3(bytes[2], bytes[3]),
                    Assemble(later));
        bytes := [];
        assert bytes + later == later;
      }
    }
    NoDigitsLeft(str[i..]);
    assert bytes + [] == bytes;
    AssembleFew(bytes);
    if |bytes| >= 2 {
      result := result + [Byte1(bytes[0], bytes[1])];
    }
    if |bytes| >= 3 {
      result := result + [Byte2(bytes[1], bytes[2])];
    }
  }

  lemma AssembleFew(bytes: seq<Unit>)
    requires |bytes| < 4
    ensures Assemble(bytes)
         == if |bytes| < 2 then []
            else if |bytes| == 2 then [Byte1(bytes[0], bytes[1])]
            else [Byte1(bytes[0], bytes[1])] + [Byte2(bytes[1], bytes[2])]
  {
  }

  lemma NoDigitsLeft(rest: seq<Unit>)
    ensures rest == [] || rest[0] == PAD ==> Digits(rest) == []
  {
  }
}
