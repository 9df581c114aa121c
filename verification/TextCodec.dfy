/**
 The prelude's TextEncoder and TextDecoder.  Both work on 16-bit units one by one; the grammar of
 section 4 of RFC 3629 says which byte sequences are UTF-8, and what they stand for.
 */
module TextCodec {
  import opened Sequences
  import opened Units

  // ─── Encoder ──────────────────────────────────────────────────

  function EncodeUnit(code: Unit): (bytes: seq<Unit>)
    ensures bytes != []
  {
    if code < 0x80 then [code]
    else if code < 0x800 then [0xc0 | (code >> 6), 0x80 | (code & 0x3f)]
    else [0xe0 | (code >> 12), 0x80 | ((code >> 6) & 0x3f), 0x80 | (code & 0x3f)]
  }

  function Encoded(str: seq<Unit>): seq<Unit>
    decreases |str|
  {
    if str == [] then [] else EncodeUnit(str[0]) + Encoded(str[1..])
  }

  method Encode(str: seq<Unit>) returns (bytes: seq<Unit>)
    ensures bytes == Encoded(str)
  {
    bytes := [];
    assert str[0..] == str && [] + Encoded(str) == Encoded(str);
    for i := 0 to |str|
      invariant bytes + Encoded(str[i..]) == Encoded(str)
    {
      var code := str[i];
      ghost var before := bytes;
      if code < 0x80 {
        bytes := bytes + [code];
      } else if code < 0x800 {
        bytes := bytes + [0xc0 | (code >> 6), 0x80 | (code & 0x3f)];
      } else {
        bytes := bytes + [0xe0 | (code >> 12), 0x80 | ((code >> 6) & 0x3f), 0x80 | (code & 0x3f)];
      }
      assert str[i..][1..] == str[i + 1..];
      Regroup(before, EncodeUnit(code), Encoded(str[i + 1..]));
    }
    assert bytes + [] == bytes;
  }

  // ─── Decoder ──────────────────────────────────────────────────

  function Two(a: Unit, b: Unit): Unit {
    ((a & 0x1f) << 6) | (b & 0x3f)
  }

  function Three(a: Unit, b: Unit, c: Unit): Unit {
    ((a & 0x0f) << 12) | ((b & 0x3f) << 6) | (c & 0x3f)
  }

  datatype Lead = One | OfTwo | OfThree | Neither

  function LeadOf(byte: Unit): Lead {
    if byte < 0x80 then One else if byte & 0xe0 == 0xc0 then OfTwo else if byte & 0xf0 == 0xe0 then OfThree else Neither
  }

  function Decoded(bytes: seq<Unit>): seq<Unit>
    decreases |bytes|
  {
    if bytes == [] then []
    else
      match LeadOf(bytes[0])
      case One => [bytes[0]] + Decoded(bytes[1..])
      case OfTwo => [Two(bytes[0], At(bytes, 1))] + Decoded(From(bytes, 2))
      case OfThree => [Three(bytes[0], At(bytes, 1), At(bytes, 2))] + Decoded(From(bytes, 3))
      case Neither => Decoded(bytes[1..])
  }

  lemma DecodedFrom(bytes: seq<Unit>, i: nat)
    requires i < |bytes|
    ensures var rest := From(bytes, i);
            Decoded(rest)
            == match LeadOf(bytes[i])
               case One => [bytes[i]] + Decoded(From(bytes, i + 1))
               case OfTwo => [Two(bytes[i], At(bytes, i + 1))] + Decoded(From(bytes, i + 2))
               case OfThree => [Three(bytes[i], At(bytes, i + 1), At(bytes, i + 2))] + Decoded(From(bytes, i + 3))
               case Neither => Decoded(From(bytes, i + 1))
  {
    hide LeadOf, Two, Three;
    var rest := From(bytes, i);
    assert rest[1..] == From(bytes, i + 1);
    assert From(rest, 2) == From(bytes, i + 2);
    assert From(rest, 3) == From(bytes, i + 3);
  }

  method Decode(bytes: seq<Unit>) returns (str: seq<Unit>)
    ensures str == Decoded(bytes)
  {
    hide Decoded, Two, Three, From;
    str := [];
    var i := 0;
    AllLeft(bytes);
    assert [] + Decoded(bytes) == Decoded(bytes);
    while i < |bytes|
      invariant 0 <= i
      invariant str + Decoded(From(bytes, i)) == Decoded(bytes)
      decreases |bytes| - i
    {
      DecodedFrom(bytes, i);
      var byte := bytes[i];
      if byte < 0x80 {
        Regroup(str, [byte], Decoded(From(bytes, i + 1)));
        str := str + [byte];
      } else if byte & 0xe0 == 0xc0 {
        Regroup(str, [Two(byte, At(bytes, i + 1))], Decoded(From(bytes, i + 2)));
        str := str + [Two(byte, At(bytes, i + 1))];
        i := i + 1;
      } else if byte & 0xf0 == 0xe0 {
        Regroup(str, [Three(byte, At(bytes, i + 1), At(bytes, i + 2))], Decoded(From(bytes, i + 3)));
        str := str + [Three(byte, At(bytes, i + 1), At(bytes, i + 2))];
        i := i + 2;
      }
      i := i + 1;
    }
    NoneLeft(bytes, i);
    assert str + [] == str;
  }

  lemma NoneLeft(bytes: seq<Unit>, i: nat)
    ensures i >= |bytes| ==> Decoded(From(bytes, i)) == []
  {
  }

  // ─── Round trip ───────────────────────────────────────────────

  lemma UnitBits(code: Unit)
    ensures code < 0x80 ==> LeadOf(code) == One
    ensures 0x80 <= code < 0x800 ==>
              var a, b := 0xc0 | (code >> 6), 0x80 | (code & 0x3f); LeadOf(a) == OfTwo && Two(a, b) == code
    ensures 0x800 <= code ==>
              var a, b, c := 0xe0 | (code >> 12), 0x80 | ((code >> 6) & 0x3f), 0x80 | (code & 0x3f);
              LeadOf(a) == OfThree && Three(a, b, c) == code
  {
  }

  lemma DecodeOne(code: Unit, rest: seq<Unit>)
    ensures Decoded(EncodeUnit(code) + rest) == [code] + Decoded(rest)
  {
    hide LeadOf, Two, Three;
    UnitBits(code);
    var bytes := EncodeUnit(code) + rest;
    assert bytes[|EncodeUnit(code)|..] == rest;
  }

  /** Decoding what was encoded gives back every sequence of 16-bit units, surrogates included. */
  lemma {:induction false} DecodeEncode(str: seq<Unit>)
    ensures Decoded(Encoded(str)) == str
    decreases |str|
  {
    if str != [] {
      hide EncodeUnit;
      DecodeOne(str[0], Encoded(str[1..]));
      DecodeEncode(str[1..]);
    }
  }
}
