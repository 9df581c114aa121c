/** `btoa` against section 4 of RFC 4648, `atob` on every text, and the round trip. */
module Base64Laws {
  import opened Base64
  import opened Units

  // ─── 24-bit groups ────────────────────────────────────────────

  /** Three bytes as one 24-bit input group. */
  function Group(b1: Unit, b2: Unit, b3: Unit): bv32 {
    ((b1 as bv32) << 16) | ((b2 as bv32) << 8) | (b3 as bv32)
  }

  /** Four concatenated 6-bit groups. */
  function Quad(v0: Unit, v1: Unit, v2: Unit, v3: Unit): bv32 {
    ((v0 as bv32) << 18) | ((v1 as bv32) << 12) | ((v2 as bv32) << 6) | (v3 as bv32)
  }

  lemma EncodeGroup(b1: Unit, b2: Unit, b3: Unit)
    requires b1 < 0x100 && b2 < 0x100 && b3 < 0x100
    ensures Quad(Sextet1(b1), Sextet2(b1, b2), Sextet3(b2, b3), Sextet4(b3)) == Group(b1, b2, b3)
    ensures b3 == 0 ==> Sextet4(b3) == 0
    ensures b2 == 0 && b3 == 0 ==> Sextet3(b2, b3) == 0
  {
  }

  lemma ByteBounds(v0: Unit, v1: Unit, v2: Unit, v3: Unit)
    requires v0 < 64 && v1 < 64 && v2 < 64 && v3 < 64
    ensures Byte1(v0, v1) < 0x100 && Byte2(v1, v2) < 0x100 && Byte3(v2, v3) < 0x100
  {
  }

  lemma Widen1(v0: Unit, v1: Unit)
    requires v0 < 64 && v1 < 64
    ensures (Byte1(v0, v1) as bv32) << 16 == ((v0 as bv32) << 18) | (((v1 as bv32) & 0x30) << 12)
  {
  }

  lemma Widen2(v1: Unit, v2: Unit)
    requires v1 < 64 && v2 < 64
    ensures (Byte2(v1, v2) as bv32) << 8 == (((v1 as bv32) & 0x0f) << 12) | (((v2 as bv32) & 0x3c) << 6)
  {
  }

  lemma Widen3(v2: Unit, v3: Unit)
    requires v2 < 64 && v3 < 64
    ensures Byte3(v2, v3) as bv32 == (((v2 as bv32) & 0x03) << 6) | (v3 as bv32)
  {
  }

  lemma Halves(w1: bv32, w2: bv32)
    requires w1 < 64 && w2 < 64
    ensures ((w1 & 0x30) << 12) | ((w1 & 0x0f) << 12) == w1 << 12
    ensures ((w2 & 0x3c) << 6) | ((w2 & 0x03) << 6) == w2 << 6
  {
  }

  lemma Ors(a: bv32, b: bv32, c: bv32, d: bv32, e: bv32, f: bv32)
    ensures (a | b) | (c | d) | (e | f) == a | (b | c) | (d | e) | f
  {
  }

  lemma DecodeGroup(v0: Unit, v1: Unit, v2: Unit, v3: Unit)
    requires v0 < 64 && v1 < 64 && v2 < 64 && v3 < 64
    ensures Group(Byte1(v0, v1), Byte2(v1, v2), Byte3(v2, v3)) == Quad(v0, v1, v2, v3)
  {
    hide Byte1, Byte2, Byte3;
    Widen1(v0, v1);
    Widen2(v1, v2);
    Widen3(v2, v3);
    Halves(v1 as bv32, v2 as bv32);
    Ors((v0 as bv32) << 18, ((v1 as bv32) & 0x30) << 12, ((v1 as bv32) & 0x0f) << 12,
        ((v2 as bv32) & 0x3c) << 6, ((v2 as bv32) & 0x03) << 6, v3 as bv32);
  }

  lemma QuadInjective(v0: Unit, v1: Unit, v2: Unit, v3: Unit, w0: Unit, w1: Unit, w2: Unit, w3: Unit)
    requires v0 < 64 && v1 < 64 && v2 < 64 && v3 < 64 && w0 < 64 && w1 < 64 && w2 < 64 && w3 < 64
    requires Quad(v0, v1, v2, v3) == Quad(w0, w1, w2, w3)
    ensures v0 == w0 && v1 == w1 && v2 == w2 && v3 == w3
  {
  }

  lemma GroupInjective(a1: Unit, a2: Unit, a3: Unit, b1: Unit, b2: Unit, b3: Unit)
    requires a1 < 0x100 && a2 < 0x100 && a3 < 0x100 && b1 < 0x100 && b2 < 0x100 && b3 < 0x100
    requires Group(a1, a2, a3) == Group(b1, b2, b3)
    ensures a1 == b1 && a2 == b2 && a3 == b3
  {
  }

  // ─── Section 4 of RFC 4648 ────────────────────────────────────

  function Value(c: Unit): Unit {
    if Lookup(c).Some? then Lookup(c).value else 0
  }

  /** Four characters stand for the group of up to three bytes at the front of `bytes`. */
  predicate StandsFor(text: seq<Unit>, bytes: seq<Unit>)
    requires |text| >= 4 && bytes != []
  {
    && Lookup(text[0]).Some?
    && Lookup(text[1]).Some?
    && (if |bytes| > 1 then Lookup(text[2]).Some? else text[2] == PAD)
    && (if |bytes| > 2 then Lookup(text[3]).Some? else text[3] == PAD)
    && Quad(Value(text[0]), Value(text[1]), Value(text[2]), Value(text[3]))
       == Group(bytes[0], At(bytes, 1), At(bytes, 2))
  }

  /** `text` is the base64 encoding of `bytes`. */
  predicate Encodes(text: seq<Unit>, bytes: seq<Unit>)
    decreases |bytes|
  {
    if bytes == [] then text == []
    else |text| >= 4 && StandsFor(text, bytes) && Encodes(text[4..], From(bytes, 3))
  }

  lemma PadIsNoSymbol()
    ensures Lookup(PAD).None? && Value(PAD) == 0
  {
  }

  lemma GroupTextStands(bytes: seq<Unit>)
    requires bytes != [] && Below(bytes, 0x100)
    ensures StandsFor(GroupText(bytes), bytes)
  {
    hide Lookup, Symbol, Quad, Group, Sextet1, Sextet2, Sextet3, Sextet4;
    var b1, b2, b3 := bytes[0], At(bytes, 1), At(bytes, 2);
    EncodeGroup(b1, b2, b3);
    PadIsNoSymbol();
    LookupSymbol(Sextet1(b1));
    LookupSymbol(Sextet2(b1, b2));
    LookupSymbol(Sextet3(b2, b3));
    LookupSymbol(Sextet4(b3));
  }

  lemma ValueOfSymbol(c: Unit)
    requires Lookup(c).Some?
    ensures Value(c) < 64 && Symbol(Value(c)) == c
  {
    LookupIsSextet(c);
  }

  lemma ValueIsSextet(c: Unit)
    ensures Value(c) < 64
  {
    LookupIsSextet(c);
  }

  lemma StandsForUnique(text: seq<Unit>, other: seq<Unit>, bytes: seq<Unit>)
    requires bytes != [] && |text| >= 4 && |other| >= 4
    requires StandsFor(text, bytes) && StandsFor(other, bytes)
    ensures text[..4] == other[..4]
  {
    hide Lookup, Symbol, Quad, Group, Value;
    forall i | 0 <= i < 4 ensures Value(text[i]) < 64 && Value(other[i]) < 64 {
      ValueIsSextet(text[i]);
      ValueIsSextet(other[i]);
    }
    QuadInjective(Value(text[0]), Value(text[1]), Value(text[2]), Value(text[3]),
                  Value(other[0]), Value(other[1]), Value(other[2]), Value(other[3]));
    ValueOfSymbol(text[0]);
    ValueOfSymbol(other[0]);
    ValueOfSymbol(text[1]);
    ValueOfSymbol(other[1]);
    if |bytes| > 1 {
      ValueOfSymbol(text[2]);
      ValueOfSymbol(other[2]);
    }
    if |bytes| > 2 {
      ValueOfSymbol(text[3]);
      ValueOfSymbol(other[3]);
    }
  }

  lemma {:induction false} TextEncodes(text: seq<Unit>, bytes: seq<Unit>)
    requires Below(bytes, 0x100)
    ensures Encodes(text, bytes) <==> text == TextOf(bytes)
    decreases |bytes|
  {
    hide StandsFor, GroupText;
    if bytes != [] {
      var rest := From(bytes, 3);
      var group := GroupText(bytes);
      assert (group + TextOf(rest))[4..] == TextOf(rest) && (group + TextOf(rest))[..4] == group;
      GroupTextStands(bytes);
      TextEncodes(TextOf(rest), rest);
      FirstFour(group, group + TextOf(rest), bytes);
      if Encodes(text, bytes) {
        TextEncodes(text[4..], rest);
        StandsForUnique(text, group, bytes);
        assert text == text[..4] + text[4..];
        assert group[..4] == group;
      }
    }
  }

  lemma FirstFour(text: seq<Unit>, longer: seq<Unit>, bytes: seq<Unit>)
    requires bytes != [] && |text| >= 4 && |longer| >= 4 && text[..4] == longer[..4]
    ensures StandsFor(text, bytes) <==> StandsFor(longer, bytes)
  {
    hide Lookup, Quad, Group, Value;
    assert forall i :: 0 <= i < 4 ==> text[i] == text[..4][i] && longer[i] == longer[..4][i];
  }

  /** `btoa` returns the base64 encoding of the low bytes, and there is no other. */
  lemma BtoaIsRfc4648(s: seq<Unit>, text: seq<Unit>)
    ensures Encodes(text, LowBytes(s)) <==> text == BtoaOf(s)
  {
    LowBytesBelow(s);
    TextEncodes(text, LowBytes(s));
  }

  // ─── Decoding ─────────────────────────────────────────────────

  lemma FewDigits(text: seq<Unit>, bytes: seq<Unit>)
    requires bytes != [] && |bytes| < 3 && |text| >= 4 && StandsFor(text, bytes)
    ensures Digits(text) == if |bytes| == 1 then [Value(text[0]), Value(text[1])]
                            else [Value(text[0]), Value(text[1]), Value(text[2])]
  {
    hide Lookup, Quad, Group;
    PadIsNoSymbol();
    DigitsAt(text, 0);
    DigitsAt(text, 1);
    DigitsAt(text, 2);
    DigitsAt(text, 3);
    assert text[0..] == text;
  }

  lemma OneInFront(a: Unit, b: Unit, rest: seq<Unit>)
    ensures [a] + ([b] + rest) == [a, b] + rest
  {
  }

  lemma TwoInFront(a: Unit, b: Unit, c: Unit, d: Unit, rest: seq<Unit>)
    ensures [a, b] + ([c, d] + rest) == [a, b, c, d] + rest
  {
  }

  lemma DigitInFront(text: seq<Unit>, i: nat)
    requires i < |text| && Lookup(text[i]).Some?
    ensures Digits(text[i..]) == [Value(text[i])] + Digits(text[i + 1..])
  {
    DigitsAt(text, i);
    PadIsNoSymbol();
  }

  lemma TwoDigits(text: seq<Unit>, i: nat)
    requires i + 1 < |text| && Lookup(text[i]).Some? && Lookup(text[i + 1]).Some?
    ensures Digits(text[i..]) == [Value(text[i]), Value(text[i + 1])] + Digits(text[i + 2..])
  {
    hide Lookup, Digits, Value;
    DigitInFront(text, i);
    DigitInFront(text, i + 1);
    OneInFront(Value(text[i]), Value(text[i + 1]), Digits(text[i + 2..]));
  }

  lemma FourDigits(text: seq<Unit>)
    requires |text| >= 4
    requires Lookup(text[0]).Some? && Lookup(text[1]).Some? && Lookup(text[2]).Some? && Lookup(text[3]).Some?
    ensures Digits(text[0..]) == [Value(text[0]), Value(text[1]), Value(text[2]), Value(text[3])] + Digits(text[4..])
  {
    hide Lookup, Digits, Value;
    TwoDigits(text, 0);
    TwoDigits(text, 2);
    TwoInFront(Value(text[0]), Value(text[1]), Value(text[2]), Value(text[3]), Digits(text[4..]));
  }

  lemma FullGroup(text: seq<Unit>, bytes: seq<Unit>)
    requires |bytes| >= 3 && |text| >= 4 && StandsFor(text, bytes)
    ensures Lookup(text[0]).Some? && Lookup(text[1]).Some? && Lookup(text[2]).Some? && Lookup(text[3]).Some?
  {
    hide Lookup, Quad, Group, Value;
  }

  lemma GroupBytes(text: seq<Unit>, bytes: seq<Unit>)
    requires bytes != [] && |text| >= 4 && StandsFor(text, bytes) && Below(bytes, 0x100)
    ensures Byte1(Value(text[0]), Value(text[1])) == bytes[0]
    ensures |bytes| > 1 ==> Byte2(Value(text[1]), Value(text[2])) == bytes[1]
    ensures |bytes| > 2 ==> Byte3(Value(text[2]), Value(text[3])) == bytes[2]
  {
    hide Lookup, Quad, Group, Value, Byte1, Byte2, Byte3;
    var v0, v1, v2, v3 := Value(text[0]), Value(text[1]), Value(text[2]), Value(text[3]);
    ValueIsSextet(text[0]);
    ValueIsSextet(text[1]);
    ValueIsSextet(text[2]);
    ValueIsSextet(text[3]);
    ByteBounds(v0, v1, v2, v3);
    DecodeGroup(v0, v1, v2, v3);
    GroupInjective(Byte1(v0, v1), Byte2(v1, v2), Byte3(v2, v3), bytes[0], At(bytes, 1), At(bytes, 2));
  }

  /** `atob` inverts the encoding of any bytes. */
  lemma {:induction false} AtobDecodes(text: seq<Unit>, bytes: seq<Unit>)
    requires Below(bytes, 0x100) && Encodes(text, bytes)
    ensures AtobOf(text) == bytes
    decreases |bytes|
  {
    hide StandsFor, Lookup, Value, Byte1, Byte2, Byte3, Digits;
    if bytes == [] {
      NoDigitsLeft(text);
    } else {
      GroupBytes(text, bytes);
      if |bytes| < 3 {
        FewDigits(text, bytes);
      } else {
        FullGroup(text, bytes);
        FourDigits(text);
        assert text[0..] == text;
        AtobDecodes(text[4..], From(bytes, 3));
        AssembleFour([Value(text[0]), Value(text[1]), Value(text[2]), Value(text[3])], Digits(text[4..]));
        assert bytes == [bytes[0], bytes[1], bytes[2]] + From(bytes, 3);
      }
    }
  }

  /** `atob(btoa(s))` is `s` with each unit reduced to its low byte. */
  lemma AtobBtoa(s: seq<Unit>)
    ensures AtobOf(BtoaOf(s)) == LowBytes(s)
  {
    LowBytesBelow(s);
    BtoaIsRfc4648(s, BtoaOf(s));
    AtobDecodes(BtoaOf(s), LowBytes(s));
  }

  /** `k` symbols before the first pad give the whole bytes among their `6 * k` bits. */
  lemma {:induction false} AtobLength(v: seq<Unit>)
    ensures |Assemble(v)| == 6 * |v| / 8
    decreases |v|
  {
    if |v| >= 4 {
      AtobLength(v[4..]);
    }
  }

  lemma {:induction false} DigitsConcat(a: seq<Unit>, b: seq<Unit>)
    ensures Digits(a + b) == if PAD in a then Digits(a) else Digits(a) + Digits(b)
    decreases |a|
  {
    hide Lookup;
    if a == [] {
      assert a + b == b;
    } else {
      DigitsConcat(a[1..], b);
      assert (a + b)[1..] == a[1..] + b;
      assert a == [a[0]] + a[1..];
    }
  }

  /** A character outside the alphabet changes nothing; the first pad ends the text. */
  lemma AtobIgnores(a: seq<Unit>, c: Unit, b: seq<Unit>)
    ensures Lookup(c).None? && c != PAD ==> AtobOf(a + [c] + b) == AtobOf(a + b)
    ensures AtobOf(a + [PAD] + b) == AtobOf(a)
  {
    hide Lookup, Assemble, Digits;
    NoDigit(c);
    NoDigit(PAD);
    PadIsNoSymbol();
    assert Digits(a) + [] == Digits(a);
    assert (a + [c])[|a|] == c && (a + [PAD])[|a|] == PAD;
    assert c != PAD ==> (PAD in a + [c] <==> PAD in a);
    DigitsConcat(a, b);
    DigitsConcat(a + [c], b);
    DigitsConcat(a, [c]);
    DigitsConcat(a + [PAD], b);
    DigitsConcat(a, [PAD]);
  }

  lemma NoDigit(c: Unit)
    ensures Lookup(c).None? ==> Digits([c]) == []
  {
    assert [c][1..] == [];
  }
}
