/** What a header means, said without the parser: the arithmetic of the refusals, the fields of a frame, and
    which bytes are UTF-8 (src/net/server.rs:423-452). */
module WireSpec {
  import opened Bytes
  import opened Wire

  // ---- Numbers ----

  /** The first byte is the most significant one. */
  lemma {:induction false} BigEndian(b: byte, s: seq<byte>)
    ensures FromBE([b] + s) == b * Pow256(|s|) + FromBE(s)
  {
    var all := [b] + s;
    if s == [] {
      assert all[..0] == [];
    } else {
      assert all[..|all| - 1] == [b] + s[..|s| - 1];
      BigEndian(b, s[..|s| - 1]);
    }
  }

  /** Every field of `n` bytes is the encoding of its number. */
  lemma {:induction false} BEInverse(s: seq<byte>)
    ensures FromBE(s) < Pow256(|s|) && ToBE(FromBE(s), |s|) == s
  {
    if s != [] {
      BEInverse(s[..|s| - 1]);
      assert s == s[..|s| - 1] + [s[|s| - 1]];
    }
  }

  // ---- UTF-8, section 3 of RFC 3629 ----

  predicate Scalar(c: nat) {
    c < 0xD800 || 0xE000 <= c < 0x11_0000
  }

  function Utf8(c: nat): (s: seq<byte>)
    requires Scalar(c)
    ensures 1 <= |s| <= 4
  {
    if c < 0x80 then [c]
    else if c < 0x800 then [0xC0 + c / 64, 0x80 + c % 64]
    else if c < 0x1_0000 then [0xE0 + c / 4096, 0x80 + c / 64 % 64, 0x80 + c % 64]
    else [0xF0 + c / 0x4_0000, 0x80 + c / 4096 % 64, 0x80 + c / 64 % 64, 0x80 + c % 64]
  }

  function Text(cs: seq<nat>): seq<byte>
    requires forall i | 0 <= i < |cs| :: Scalar(cs[i])
  {
    if cs == [] then [] else Utf8(cs[0]) + Text(cs[1..])
  }

  lemma CharOfFour(c: nat, s: seq<byte>)
    requires Scalar(c) && c >= 0x1_0000
    ensures CharLen(Utf8(c) + s) == 4
  {
  }

  lemma CharOfThree(c: nat, s: seq<byte>)
    requires Scalar(c) && 0x800 <= c < 0x1_0000
    ensures CharLen(Utf8(c) + s) == 3
  {
  }

  lemma CharOfShort(c: nat, s: seq<byte>)
    requires c < 0x800
    ensures CharLen(Utf8(c) + s) == |Utf8(c)|
  {
  }

  /** A scalar value's encoding is read as one character. */
  lemma CharOfScalar(c: nat, s: seq<byte>)
    requires Scalar(c)
    ensures CharLen(Utf8(c) + s) == |Utf8(c)|
  {
    hide CharLen;
    if c >= 0x1_0000 { CharOfFour(c, s); }
    else if c >= 0x800 { CharOfThree(c, s); }
    else { CharOfShort(c, s); }
  }

  lemma Digits(hi: nat, lo: nat)
    requires lo < 64
    ensures (hi * 64 + lo) / 64 == hi && (hi * 64 + lo) % 64 == lo
  {
  }

  lemma ThreeDigits(x: nat, y: nat, z: nat)
    requires y < 64 && z < 64
    ensures var c := x * 4096 + y * 64 + z;
      c / 4096 == x && c / 64 % 64 == y && c % 64 == z
  {
    Digits(x * 64 + y, z);
    Digits(x, y);
  }

  lemma FourDigits(w: nat, x: nat, y: nat, z: nat)
    requires x < 64 && y < 64 && z < 64
    ensures var c := w * 0x4_0000 + x * 4096 + y * 64 + z;
      c / 0x4_0000 == w && c / 4096 % 64 == x && c / 64 % 64 == y && c % 64 == z
  {
    ThreeDigits(w * 64 + x, y, z);
    Digits(w, x);
  }

  lemma ScalarOfThree(s: seq<byte>) returns (c: nat)
    requires CharLen(s) == 3
    ensures Scalar(c) && Utf8(c) == s[..3]
  {
    var x: nat, y: nat, z: nat := s[0] as int - 0xE0, s[1] as int - 0x80, s[2] as int - 0x80;
    ThreeDigits(x, y, z);
    c := x * 4096 + y * 64 + z;
    assert s[..3] == [s[0], s[1], s[2]];
  }

  lemma ScalarOfFour(s: seq<byte>) returns (c: nat)
    requires CharLen(s) == 4
    ensures Scalar(c) && Utf8(c) == s[..4]
  {
    var w: nat, x: nat := s[0] as int - 0xF0, s[1] as int - 0x80;
    var y: nat, z: nat := s[2] as int - 0x80, s[3] as int - 0x80;
    FourDigits(w, x, y, z);
    c := w * 0x4_0000 + x * 4096 + y * 64 + z;
    assert s[..4] == [s[0], s[1], s[2], s[3]];
  }

  lemma ScalarOfShort(s: seq<byte>) returns (c: nat)
    requires 1 <= CharLen(s) <= 2
    ensures Scalar(c) && Utf8(c) == s[..CharLen(s)]
  {
    if CharLen(s) == 1 {
      c := s[0];
    } else {
      var x: nat, y: nat := s[0] as int - 0xC0, s[1] as int - 0x80;
      Digits(x, y);
      c := x * 64 + y;
      assert s[..2] == [s[0], s[1]];
    }
  }

  /** And what is read as one character encodes a scalar value. */
  lemma ScalarOfChar(s: seq<byte>) returns (c: nat)
    requires CharLen(s) > 0
    ensures Scalar(c) && Utf8(c) == s[..CharLen(s)]
  {
    LongestChar(s);
    hide CharLen, Utf8;
    if CharLen(s) == 4 { c := ScalarOfFour(s); }
    else if CharLen(s) == 3 { c := ScalarOfThree(s); }
    else { c := ScalarOfShort(s); }
  }

  lemma LongestChar(s: seq<byte>)
    ensures CharLen(s) <= 4
  {
  }

  lemma {:induction false} TextValid(cs: seq<nat>)
    requires forall i | 0 <= i < |cs| :: Scalar(cs[i])
    ensures ValidUtf8(Text(cs))
  {
    hide CharLen, Utf8;
    if cs != [] {
      var t := Text(cs[1..]);
      CharOfScalar(cs[0], t);
      assert (Utf8(cs[0]) + t)[|Utf8(cs[0])|..] == t;
      TextValid(cs[1..]);
    }
  }

  lemma {:induction false} ValidText(s: seq<byte>) returns (cs: seq<nat>)
    requires ValidUtf8(s)
    ensures (forall i | 0 <= i < |cs| :: Scalar(cs[i])) && Text(cs) == s
    decreases |s|
  {
    hide CharLen, Utf8;
    cs := [];
    if s != [] {
      var n := CharLen(s);
      var c := ScalarOfChar(s);
      var rest := ValidText(s[n..]);
      cs := [c] + rest;
      assert s == s[..n] + s[n..];
    }
  }

  /** Bytes are taken for UTF-8 exactly if they encode a sequence of scalar values. */
  lemma Utf8ExactlyWhen(s: seq<byte>)
    ensures ValidUtf8(s) <==>
      exists cs: seq<nat> :: (forall i | 0 <= i < |cs| :: Scalar(cs[i])) && Text(cs) == s
  {
    hide ValidUtf8, Text;
    if ValidUtf8(s) { var cs := ValidText(s); }
    forall cs: seq<nat> | (forall i | 0 <= i < |cs| :: Scalar(cs[i])) && Text(cs) == s
      ensures ValidUtf8(s)
    {
      TextValid(cs);
    }
  }

  // ---- Queue names ----

  lemma {:induction false} TrimSplits(s: seq<byte>)
    ensures |TrimZeros(s)| <= |s| && s == TrimZeros(s) + Zeros(|s| - |TrimZeros(s)|)
    ensures TrimZeros(s) != [] ==> TrimZeros(s)[|TrimZeros(s)| - 1] != 0
  {
    if s != [] && s[|s| - 1] == 0 {
      TrimSplits(s[..|s| - 1]);
      assert s == s[..|s| - 1] + [0];
    }
  }

  /** A field that is UTF-8 is its name padded with zero bytes, of which the name keeps none at its end; a
      field that is not names the empty string. */
  lemma NameExactlyWhen(field: seq<byte>)
    ensures var name := DecodeName(field);
      (ValidUtf8(field) ==> |name| <= |field| && field == name + Zeros(|field| - |name|)) &&
      (name != [] ==> ValidUtf8(field) && name[|name| - 1] != 0)
  {
    hide ValidUtf8;
    TrimSplits(field);
  }

  // ---- Headers ----

  /** A header is refused for its command exactly if the byte names none of the twelve requests. */
  lemma UnknownExactlyWhen(buf: seq<byte>, free: nat)
    ensures ParseOne(buf, free) == Refused(UnknownRequest) <==> |buf| >= 25 && (buf[0] == 0 || buf[0] > 12)
  {
    hide FromBE, DecodeName;
  }

  /** And for its size exactly if that is above 4 GiB, or nine quarters of it reach the free memory. */
  lemma TooLargeExactlyWhen(buf: seq<byte>, free: nat)
    ensures ParseOne(buf, free) == Refused(PayloadTooLarge) <==>
      |buf| >= 25 && 1 <= buf[0] <= 12 &&
      (FromBE(buf[17..25]) > 0x1_0000_0000 || 9 * FromBE(buf[17..25]) >= 4 * free)
  {
    hide FromBE, DecodeName;
  }

  /** More bytes are waited for exactly while the header, or the frame of an accepted header, is incomplete. */
  lemma WaitsExactlyWhen(buf: seq<byte>, free: nat)
    ensures ParseOne(buf, free).NeedMore? <==>
      |buf| < 25 ||
      (1 <= buf[0] <= 12 && FromBE(buf[17..25]) <= 0x1_0000_0000 && 9 * FromBE(buf[17..25]) < 4 * free &&
       |buf| < 89 + FromBE(buf[17..25]))
  {
    hide FromBE, DecodeName;
  }

  /** A frame that is dispatched consists of the bytes it was read from: encoded again, it gives them back,
      unless its name field is not UTF-8, in which case the name is empty. */
  lemma FrameIsBytes(buf: seq<byte>, free: nat)
    requires ParseOne(buf, free).Got?
    ensures var f, size := ParseOne(buf, free).frame, ParseOne(buf, free).size;
      size <= |buf| && size == 89 + |f.payload| && 1 <= f.command <= 12 && f.client < Pow256(16) &&
      [f.command] + ToBE(f.client, 16) + ToBE(|f.payload|, 8) + buf[25..89] + f.payload == buf[..size] &&
      (if ValidUtf8(buf[25..89]) then Encodable(f) && Encode(f) == buf[..size] else f.name == [])
  {
    hide FromBE, ToBE, ValidUtf8, TrimZeros, Pow256;
    BEInverse(buf[1..17]);
    BEInverse(buf[17..25]);
    NameExactlyWhen(buf[25..89]);
    var f, size := ParseOne(buf, free).frame, ParseOne(buf, free).size;
    assert buf[..size] == [buf[0]] + buf[1..17] + buf[17..25] + buf[25..89] + buf[89..size];
  }
}
