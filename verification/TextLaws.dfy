/** The text codec against the UTF-8 grammar of section 4 of RFC 3629. */
module TextLaws {
  import opened Wrappers
  import opened TextCodec
  import opened Units

  // ─── UTF-8 ────────────────────────────────────────────────────

  predicate Tail(byte: Unit) {
    0x80 <= byte <= 0xbf
  }

  /** The alternatives UTF8-1, UTF8-2, UTF8-3 and UTF8-4 of the grammar. */
  predicate IsUtf81(a: Unit) {
    a <= 0x7f
  }

  predicate IsUtf82(a: Unit, b: Unit) {
    0xc2 <= a <= 0xdf && Tail(b)
  }

  predicate IsUtf83(a: Unit, b: Unit, c: Unit) {
    Tail(c)
    && (|| (a == 0xe0 && 0xa0 <= b <= 0xbf)
        || ((0xe1 <= a <= 0xec || 0xee <= a <= 0xef) && Tail(b))
        || (a == 0xed && 0x80 <= b <= 0x9f))
  }

  predicate IsUtf84(a: Unit, b: Unit, c: Unit, d: Unit) {
    Tail(c) && Tail(d)
    && (|| (a == 0xf0 && 0x90 <= b <= 0xbf)
        || (0xf1 <= a <= 0xf3 && Tail(b))
        || (a == 0xf4 && 0x80 <= b <= 0x8f))
  }

  /** A character: how many bytes it takes, and its scalar value from their free bits. */
  datatype Char = Char(length: nat, scalar: bv32)

  function Low(byte: Unit, mask: Unit): bv32 {
    (byte & mask) as bv32
  }

  function Scalar2(a: Unit, b: Unit): bv32 {
    (Low(a, 0x1f) << 6) | Low(b, 0x3f)
  }

  function Scalar3(a: Unit, b: Unit, c: Unit): bv32 {
    (Low(a, 0x0f) << 12) | (Low(b, 0x3f) << 6) | Low(c, 0x3f)
  }

  function Scalar4(a: Unit, b: Unit, c: Unit, d: Unit): bv32 {
    (Low(a, 0x07) << 18) | (Low(b, 0x3f) << 12) | (Low(c, 0x3f) << 6) | Low(d, 0x3f)
  }

  function FirstChar(bytes: seq<Unit>): (c: Option<Char>)
    requires bytes != []
    ensures c.Some? ==> 1 <= c.value.length <= 4 && c.value.length <= |bytes|
  {
    var a, b, c, d := At(bytes, 0), At(bytes, 1), At(bytes, 2), At(bytes, 3);
    if IsUtf81(a) then Some(Char(1, a as bv32))
    else if IsUtf82(a, b) then Some(Char(2, Scalar2(a, b)))
    else if IsUtf83(a, b, c) then Some(Char(3, Scalar3(a, b, c)))
    else if IsUtf84(a, b, c, d) then
      Some(Char(4, Scalar4(a, b, c, d)))
    else None
  }

  /** The scalar values of a whole UTF-8 text; None if the bytes are not UTF-8. */
  function Scalars(bytes: seq<Unit>): Option<seq<bv32>>
    decreases |bytes|
  {
    if bytes == [] then Some([])
    else
      var c := FirstChar(bytes);
      if c.None? then None
      else
        var rest := Scalars(bytes[c.value.length..]);
        if rest.None? then None else Some([c.value.scalar] + rest.value)
  }

  // ─── Encoding ─────────────────────────────────────────────────

  predicate Surrogate(code: Unit) {
    0xd800 <= code <= 0xdfff
  }

  ghost predicate NoSurrogates(str: seq<Unit>) {
    forall i :: 0 <= i < |str| ==> !Surrogate(str[i])
  }

  function Widened(str: seq<Unit>): seq<bv32>
    decreases |str|
  {
    if str == [] then [] else [str[0] as bv32] + Widened(str[1..])
  }

  lemma TwoByteUnit(code: Unit)
    requires 0x80 <= code < 0x800
    ensures var a, b := 0xc0 | (code >> 6), 0x80 | (code & 0x3f);
            !IsUtf81(a) && IsUtf82(a, b) && Scalar2(a, b) == code as bv32
  {
  }

  lemma ThreeByteUnit(code: Unit)
    requires 0x800 <= code
    ensures var a, b, c := 0xe0 | (code >> 12), 0x80 | ((code >> 6) & 0x3f), 0x80 | (code & 0x3f);
            && !IsUtf81(a) && !IsUtf82(a, b) && a < 0xf0
            && (IsUtf83(a, b, c) <==> !Surrogate(code))
  {
  }

  lemma ThreeByteScalar(code: Unit)
    requires 0x800 <= code
    ensures var a, b, c := 0xe0 | (code >> 12), 0x80 | ((code >> 6) & 0x3f), 0x80 | (code & 0x3f);
            Scalar3(a, b, c) == code as bv32
  {
  }

  lemma NotFour(a: Unit, b: Unit, c: Unit, d: Unit)
    ensures a < 0xf0 ==> !IsUtf84(a, b, c, d)
  {
  }

  lemma SmallUnits(code: Unit)
    ensures Surrogate(code) ==> code >= 0x800
    ensures code < 0x80 ==> IsUtf81(code)
  {
  }

  lemma EncodeThree(code: Unit, rest: seq<Unit>)
    requires 0x800 <= code
    ensures FirstChar(EncodeUnit(code) + rest) == if Surrogate(code) then None else Some(Char(3, code as bv32))
  {
    hide IsUtf81, IsUtf82, IsUtf83, IsUtf84, Scalar2, Scalar3, Scalar4, Surrogate;
    var a, b, c := 0xe0 | (code >> 12), 0x80 | ((code >> 6) & 0x3f), 0x80 | (code & 0x3f);
    var bytes := EncodeUnit(code) + rest;
    assert At(bytes, 0) == a && At(bytes, 1) == b && At(bytes, 2) == c;
    ThreeByteUnit(code);
    ThreeByteScalar(code);
    NotFour(a, b, c, At(bytes, 3));
  }

  lemma EncodeTwo(code: Unit, rest: seq<Unit>)
    requires 0x80 <= code < 0x800
    ensures FirstChar(EncodeUnit(code) + rest) == Some(Char(2, code as bv32))
  {
    hide IsUtf81, IsUtf82, IsUtf83, IsUtf84, Scalar2, Scalar3, Scalar4;
    var a, b := 0xc0 | (code >> 6), 0x80 | (code & 0x3f);
    var bytes := EncodeUnit(code) + rest;
    assert At(bytes, 0) == a && At(bytes, 1) == b;
    TwoByteUnit(code);
  }

  lemma EncodeOne(code: Unit, rest: seq<Unit>)
    ensures FirstChar(EncodeUnit(code) + rest)
         == if Surrogate(code) then None else Some(Char(|EncodeUnit(code)|, code as bv32))
  {
    SmallUnits(code);
    hide Surrogate;
    if 0x800 <= code {
      hide FirstChar;
      EncodeThree(code, rest);
    } else if 0x80 <= code {
      hide FirstChar;
      EncodeTwo(code, rest);
    }
  }

  lemma SurrogateFirst(str: seq<Unit>)
    requires str != []
    ensures NoSurrogates(str) <==> !Surrogate(str[0]) && NoSurrogates(str[1..])
  {
    hide Surrogate;
  }

  lemma ScalarsAfter(first: seq<Unit>, rest: seq<Unit>)
    requires first != []
    ensures FirstChar(first + rest).None? ==> Scalars(first + rest).None?
    ensures FirstChar(first + rest).Some? && FirstChar(first + rest).value.length == |first| ==>
              Scalars(first + rest)
              == if Scalars(rest).None? then None
                 else Some([FirstChar(first + rest).value.scalar] + Scalars(rest).value)
  {
    hide FirstChar;
    assert (first + rest)[|first|..] == rest;
  }

  /** The encoder's bytes are UTF-8 exactly when the string has no surrogate; then they spell its units. */
  lemma {:induction false} EncodeIsUtf8(str: seq<Unit>)
    ensures Scalars(Encoded(str)) == if NoSurrogates(str) then Some(Widened(str)) else None
    decreases |str|
  {
    if str != [] {
      hide FirstChar, EncodeUnit, Surrogate, NoSurrogates, Scalars;
      EncodeOne(str[0], Encoded(str[1..]));
      EncodeIsUtf8(str[1..]);
      SurrogateFirst(str);
      ScalarsAfter(EncodeUnit(str[0]), Encoded(str[1..]));
    }
  }

  // ─── Decoding ─────────────────────────────────────────────────

  function Short(scalar: bv32): Unit
    requires scalar < 0x10000
  {
    scalar as Unit
  }

  /** The scalars that fit in one unit, in order. */
  function Basic(scalars: seq<bv32>): seq<Unit>
    decreases |scalars|
  {
    if scalars == [] then []
    else (if scalars[0] < 0x10000 then [Short(scalars[0])] else []) + Basic(scalars[1..])
  }

  ghost predicate AllBasic(scalars: seq<bv32>) {
    forall i :: 0 <= i < |scalars| ==> scalars[i] < 0x10000
  }

  lemma Leads(a: Unit, b: Unit, c: Unit)
    ensures IsUtf82(a, b) ==> LeadOf(a) == OfTwo
    ensures IsUtf83(a, b, c) ==> LeadOf(a) == OfThree
  {
  }

  lemma TwoBits(a: Unit, b: Unit)
    requires IsUtf82(a, b)
    ensures 0x80 <= Two(a, b) < 0x800 && 0xc0 | (Two(a, b) >> 6) == a && 0x80 | (Two(a, b) & 0x3f) == b
  {
  }

  lemma TwoScalar(a: Unit, b: Unit)
    ensures Scalar2(a, b) == Two(a, b) as bv32
  {
  }

  lemma ThreeBits(a: Unit, b: Unit, c: Unit)
    requires IsUtf83(a, b, c)
    ensures var u := Three(a, b, c);
            0x800 <= u && 0xe0 | (u >> 12) == a && 0x80 | ((u >> 6) & 0x3f) == b && 0x80 | (u & 0x3f) == c
  {
  }

  lemma ThreeScalar(a: Unit, b: Unit, c: Unit)
    ensures Scalar3(a, b, c) == Three(a, b, c) as bv32
  {
  }

  lemma ReencodeTwo(a: Unit, b: Unit)
    requires IsUtf82(a, b)
    ensures EncodeUnit(Two(a, b)) == [a, b]
  {
    TwoBits(a, b);
    hide Two;
  }

  lemma ReencodeThree(a: Unit, b: Unit, c: Unit)
    requires IsUtf83(a, b, c)
    ensures EncodeUnit(Three(a, b, c)) == [a, b, c]
  {
    ThreeBits(a, b, c);
    hide Three;
  }

  lemma FourBits(a: Unit, b: Unit, c: Unit, d: Unit)
    requires IsUtf84(a, b, c, d)
    ensures LeadOf(a) == Neither && LeadOf(b) == Neither && LeadOf(c) == Neither && LeadOf(d) == Neither
    ensures Scalar4(a, b, c, d) >= 0x10000
  {
  }

  lemma DecodeChar1(bytes: seq<Unit>, c: Char)
    requires bytes != [] && FirstChar(bytes) == Some(c) && c.length == 1
    ensures c.scalar < 0x10000
    ensures Decoded(bytes) == [Short(c.scalar)] + Decoded(bytes[1..]) && EncodeUnit(Short(c.scalar)) == bytes[..1]
  {
  }

  /** What the length of the first character says about the bytes. */
  lemma Shape(bytes: seq<Unit>, c: Char)
    requires bytes != [] && FirstChar(bytes) == Some(c)
    ensures c.length == 2 ==> IsUtf82(bytes[0], bytes[1]) && c.scalar == Scalar2(bytes[0], bytes[1])
    ensures c.length == 3 ==> IsUtf83(bytes[0], bytes[1], bytes[2]) && c.scalar == Scalar3(bytes[0], bytes[1], bytes[2])
    ensures c.length == 4 ==> IsUtf84(bytes[0], bytes[1], bytes[2], bytes[3])
                              && c.scalar == Scalar4(bytes[0], bytes[1], bytes[2], bytes[3])
  {
    hide IsUtf81, IsUtf82, IsUtf83, IsUtf84, Scalar2, Scalar3, Scalar4;
  }

  lemma Slice2(bytes: seq<Unit>)
    requires |bytes| >= 2
    ensures bytes[..2] == [bytes[0], bytes[1]] && From(bytes, 2) == bytes[2..]
  {
  }

  lemma Slice3(bytes: seq<Unit>)
    requires |bytes| >= 3
    ensures bytes[..3] == [bytes[0], bytes[1], bytes[2]] && From(bytes, 3) == bytes[3..]
  {
  }

  lemma DecodeChar2(bytes: seq<Unit>, c: Char)
    requires bytes != [] && FirstChar(bytes) == Some(c) && c.length == 2
    ensures c.scalar < 0x10000
    ensures Decoded(bytes) == [Short(c.scalar)] + Decoded(bytes[2..]) && EncodeUnit(Short(c.scalar)) == bytes[..2]
  {
    hide IsUtf82, IsUtf83, LeadOf, Two, Scalar2, FirstChar, EncodeUnit, From, Decoded, Short;
    Shape(bytes, c);
    AllLeft(bytes);
    DecodedFrom(bytes, 0);
    ReencodeTwo(bytes[0], bytes[1]);
    Leads(bytes[0], bytes[1], 0);
    TwoScalar(bytes[0], bytes[1]);
    Narrow(c.scalar, Two(bytes[0], bytes[1]));
    Slice2(bytes);
  }

  lemma DecodedThree(bytes: seq<Unit>)
    requires |bytes| >= 3 && LeadOf(bytes[0]) == OfThree
    ensures Decoded(bytes) == [Three(bytes[0], bytes[1], bytes[2])] + Decoded(bytes[3..])
  {
    hide LeadOf, Three;
    assert From(bytes, 3) == bytes[3..];
  }

  lemma DecodeChar3(bytes: seq<Unit>, c: Char)
    requires bytes != [] && FirstChar(bytes) == Some(c) && c.length == 3
    ensures c.scalar < 0x10000
    ensures Decoded(bytes) == [Short(c.scalar)] + Decoded(bytes[3..]) && EncodeUnit(Short(c.scalar)) == bytes[..3]
  {
    hide IsUtf82, IsUtf83, LeadOf, Three, Scalar3, FirstChar, EncodeUnit, From, Decoded, Short;
    Shape(bytes, c);
    ReencodeThree(bytes[0], bytes[1], bytes[2]);
    Leads(bytes[0], bytes[1], bytes[2]);
    ThreeScalar(bytes[0], bytes[1], bytes[2]);
    Narrow(c.scalar, Three(bytes[0], bytes[1], bytes[2]));
    DecodedThree(bytes);
    Slice3(bytes);
  }

  lemma DecodeChar4(bytes: seq<Unit>, c: Char)
    requires bytes != [] && FirstChar(bytes) == Some(c) && c.length == 4
    ensures c.scalar >= 0x10000
    ensures Decoded(bytes) == Decoded(bytes[4..])
  {
    hide IsUtf84, LeadOf, Scalar4, FirstChar, Decoded;
    Shape(bytes, c);
    FourBits(bytes[0], bytes[1], bytes[2], bytes[3]);
    DecodedFrom(bytes, 0);
    DecodedFrom(bytes, 1);
    DecodedFrom(bytes, 2);
    DecodedFrom(bytes, 3);
    assert From(bytes, 0) == bytes && From(bytes, 4) == bytes[4..];
  }

  lemma Narrow(scalar: bv32, unit: Unit)
    requires scalar == unit as bv32
    ensures scalar < 0x10000 && Short(scalar) == unit
  {
  }

  /** A character of one unit decodes to it and encodes back; a longer one is skipped byte by byte. */
  lemma DecodeChar(bytes: seq<Unit>, c: Char)
    requires bytes != [] && FirstChar(bytes) == Some(c)
    ensures var rest := bytes[c.length..];
            if c.scalar < 0x10000 then
              Decoded(bytes) == [Short(c.scalar)] + Decoded(rest) && EncodeUnit(Short(c.scalar)) == bytes[..c.length]
            else c.length == 4 && Decoded(bytes) == Decoded(rest)
  {
    hide Decoded, EncodeUnit, FirstChar, Short;
    if c.length == 1 {
      DecodeChar1(bytes, c);
    } else if c.length == 2 {
      DecodeChar2(bytes, c);
    } else if c.length == 3 {
      DecodeChar3(bytes, c);
    } else {
      DecodeChar4(bytes, c);
    }
  }

  /** Decoding UTF-8 gives the scalars that fit in one unit; the others are dropped without a trace. */
  lemma {:induction false} DecodeDropsSupplementary(bytes: seq<Unit>)
    requires Scalars(bytes).Some?
    ensures Decoded(bytes) == Basic(Scalars(bytes).value)
    decreases |bytes|
  {
    if bytes != [] {
      hide FirstChar, Decoded;
      var c := FirstChar(bytes).value;
      var rest := bytes[c.length..];
      DecodeChar(bytes, c);
      DecodeDropsSupplementary(rest);
      var scalars := [c.scalar] + Scalars(rest).value;
      assert scalars[1..] == Scalars(rest).value;
      assert [] + Basic(Scalars(rest).value) == Basic(Scalars(rest).value);
    }
  }

  /** Decoding UTF-8 and encoding again returns the bytes exactly when every scalar fits in one unit. */
  lemma EncodeDecode(bytes: seq<Unit>)
    requires Scalars(bytes).Some?
    ensures Encoded(Decoded(bytes)) == bytes <==> AllBasic(Scalars(bytes).value)
  {
    Reencode(bytes);
  }

  lemma {:induction false} Reencode(bytes: seq<Unit>)
    requires Scalars(bytes).Some?
    ensures var again := Encoded(Decoded(bytes));
            if AllBasic(Scalars(bytes).value) then again == bytes else |again| < |bytes|
    decreases |bytes|
  {
    if bytes == [] {
    } else {
      hide FirstChar, Decoded, EncodeUnit, AllBasic, Short, Encoded;
      var c := FirstChar(bytes).value;
      var rest := bytes[c.length..];
      var scalars := Scalars(rest).value;
      DecodeChar(bytes, c);
      Reencode(rest);
      BasicFirst(c.scalar, scalars);
      if c.scalar < 0x10000 {
        EncodedFirst(Short(c.scalar), Decoded(rest));
        Glue(bytes, c.length, Encoded(Decoded(rest)));
      }
    }
  }

  lemma Glue(bytes: seq<Unit>, k: nat, again: seq<Unit>)
    requires k <= |bytes|
    ensures again == bytes[k..] ==> bytes[..k] + again == bytes
    ensures |bytes[..k] + again| == k + |again| && |bytes[k..]| == |bytes| - k
  {
  }

  lemma EncodedFirst(code: Unit, str: seq<Unit>)
    ensures Encoded([code] + str) == EncodeUnit(code) + Encoded(str)
  {
    assert ([code] + str)[1..] == str;
  }

  lemma BasicFirst(first: bv32, scalars: seq<bv32>)
    ensures AllBasic([first] + scalars) <==> first < 0x10000 && AllBasic(scalars)
  {
    var all := [first] + scalars;
    if first < 0x10000 && AllBasic(scalars) {
      forall i | 0 <= i < |all| ensures all[i] < 0x10000 {
        assert i > 0 ==> all[i] == scalars[i - 1];
      }
    } else if AllBasic(all) {
      assert all[0] == first;
      forall i | 0 <= i < |scalars| ensures scalars[i] < 0x10000 {
        assert all[i + 1] == scalars[i];
      }
      assert false;
    }
  }

  // ─── One character beyond the basic plane ─────────────────────

  /** U+1F600 as UTF-16 and as UTF-8: encoding the one is not UTF-8, decoding the other gives nothing. */
  lemma EmojiIsLost()
    ensures Encoded([0xd83d, 0xde00]) == [0xed, 0xa0, 0xbd, 0xed, 0xb8, 0x80]
    ensures Scalars(Encoded([0xd83d, 0xde00])).None?
    ensures Scalars([0xf0, 0x9f, 0x98, 0x80]) == Some([0x1f600]) && Decoded([0xf0, 0x9f, 0x98, 0x80]) == []
  {
    var str: seq<Unit> := [0xd83d, 0xde00];
    var low: seq<Unit> := [0xde00];
    assert str[1..] == low && low[1..] == [];
    assert EncodeUnit(0xd83d) == [0xed, 0xa0, 0xbd] && EncodeUnit(0xde00) == [0xed, 0xb8, 0x80];
    assert Encoded(low) == [0xed, 0xb8, 0x80];
    EncodeIsUtf8(str);
    assert Surrogate(str[0]);
    var bytes: seq<Unit> := [0xf0, 0x9f, 0x98, 0x80];
    assert FirstChar(bytes) == Some(Char(4, 0x1f600));
    assert bytes[4..] == [];
    var scalars: seq<bv32> := [0x1f600];
    assert scalars[1..] == [] && scalars + [] == scalars;
    assert Scalars(bytes[4..]) == Some([]);
    assert Scalars(bytes) == Some(scalars);
    DecodeDropsSupplementary(bytes);
  }
}
