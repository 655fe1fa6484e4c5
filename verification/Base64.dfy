/** Base64 in the two alphabets of MojUtil: the one ids use, which is in ASCII order, and the MIME one. */
module Base64 {
  import opened Bytes

  datatype Alphabet = FileName | Mime

  const PAD: byte := 61

  /** The character of a 6-bit value. */
  function Char(a: Alphabet, v: nat): byte
    requires v < 64
  {
    match a
    case FileName =>
      if v == 0 then 43 else if v <= 10 then 47 + v else if v <= 36 then 54 + v else if v == 37 then 95 else 59 + v
    case Mime =>
      if v < 26 then 65 + v else if v < 52 then 71 + v else if v < 62 then v - 4 else if v == 62 then 43 else 47
  }

  /** The value of a character, 255 for none. */
  function Val(a: Alphabet, c: byte): byte {
    match a
    case FileName =>
      if c == 43 then 0
      else if 48 <= c <= 57 then c - 47
      else if 65 <= c <= 90 then c - 54
      else if c == 95 then 37
      else if 97 <= c <= 122 then c - 59
      else 255
    case Mime =>
      if 65 <= c <= 90 then c - 65
      else if 97 <= c <= 122 then c - 71
      else if 48 <= c <= 57 then c + 4
      else if c == 43 then 62
      else if c == 47 then 63
      else 255
  }

  const UPPER := "ABCDEFGHIJKLMNOPQRSTUVWXYZ"
  const LOWER := "abcdefghijklmnopqrstuvwxyz"
  const DIGITS := "0123456789"

  /** The alphabet of section 4 of RFC 4648, by value. */
  const MIME_CHARS := UPPER + LOWER + DIGITS + "+/"

  /** The alphabet of ids, in ASCII order. */
  const FILE_NAME_CHARS := "+" + DIGITS + UPPER + "_" + LOWER

  function AlphabetOf(a: Alphabet): string {
    if a.Mime? then MIME_CHARS else FILE_NAME_CHARS
  }

  lemma Letters(i: nat)
    requires i < 26
    ensures |UPPER| == |LOWER| == 26 && UPPER[i] as int == 65 + i && LOWER[i] as int == 97 + i
  {
  }

  lemma DigitChars(i: nat)
    requires i < 10
    ensures |DIGITS| == 10 && DIGITS[i] as int == 48 + i
  {
  }

  lemma Parts(u: string, l: string, d: string, v: nat)
    requires |u| == |l| == 26 && |d| == 10 && v < 64
    ensures var m := u + l + d + "+/";
            |m| == 64 && m[v] == if v < 26 then u[v] else if v < 52 then l[v - 26] else if v < 62 then d[v - 52]
                else if v == 62 then '+' else '/'
    ensures var f := "+" + d + u + "_" + l;
            |f| == 64 && f[v] == if v == 0 then '+' else if v < 11 then d[v - 1] else if v < 37 then u[v - 11]
                else if v == 37 then '_' else l[v - 38]
  {
  }

  lemma CharOfParts(a: Alphabet, u: string, l: string, d: string, v: nat)
    requires |u| == |l| == 26 && |d| == 10 && v < 64
    requires forall i :: 0 <= i < 26 ==> u[i] as int == 65 + i && l[i] as int == 97 + i
    requires forall i :: 0 <= i < 10 ==> d[i] as int == 48 + i
    ensures var s := if a.Mime? then u + l + d + "+/" else "+" + d + u + "_" + l;
            |s| == 64 && Char(a, v) as char == s[v]
  {
    Parts(u, l, d, v);
  }

  /** The character of a value is the one at its place in the alphabet. */
  lemma CharsAreAlphabet(a: Alphabet, v: nat)
    requires v < 64
    ensures |AlphabetOf(a)| == 64 && Char(a, v) as char == AlphabetOf(a)[v]
  {
    forall i | 0 <= i < 26 ensures UPPER[i] as int == 65 + i && LOWER[i] as int == 97 + i {
      Letters(i);
    }
    forall i | 0 <= i < 10 ensures DIGITS[i] as int == 48 + i {
      DigitChars(i);
    }
    CharOfParts(a, UPPER, LOWER, DIGITS, v);
  }

  /** A character has a value exactly if it is in the alphabet, and it is its place there. */
  lemma ValsAreAlphabet(a: Alphabet, c: byte)
    ensures |AlphabetOf(a)| == 64 && (Val(a, c) == 255 || Val(a, c) < 64)
    ensures Val(a, c) < 64 <==> c as char in AlphabetOf(a)
    ensures Val(a, c) < 64 ==> AlphabetOf(a)[Val(a, c)] == c as char
  {
    if Val(a, c) < 64 {
      ValChar(a, c);
      CharsAreAlphabet(a, Val(a, c));
    } else if c as char in AlphabetOf(a) {
      var v :| 0 <= v < 64 && AlphabetOf(a)[v] == c as char;
      CharsAreAlphabet(a, v);
      CharVal(a, v);
    }
  }

  lemma CharVal(a: Alphabet, v: nat)
    requires v < 64
    ensures Val(a, Char(a, v)) == v && Char(a, v) != PAD
  {
  }

  lemma ValChar(a: Alphabet, c: byte)
    ensures Val(a, c) != 255 ==> Val(a, c) < 64 && Char(a, Val(a, c)) == c
  {
  }

  /** The characters of the file-name alphabet are in the order of their values. */
  lemma FileNameOrder(v: nat, w: nat)
    requires v < 64 && w < 64
    ensures Cmp(Char(FileName, v), Char(FileName, w)) == Cmp(v, w)
  {
  }

  // ----- encoding -----

  function EncodedLenMax(size: nat): nat {
    (size + 2) / 3 * 4
  }

  /** The n-th of the four 6-bit values of a 24-bit chunk. */
  function Sixth(chunk: nat, n: nat): (v: nat)
    requires chunk < 0x100_0000
    ensures v < 64
  {
    if n == 0 then chunk / 0x4_0000 else if n == 1 then chunk / 0x1000 % 64 else if n == 2 then chunk / 64 % 64
        else chunk % 64
  }

  function Chunk(b0: byte, b1: byte, b2: byte): (c: nat)
    ensures c < 0x100_0000
  {
    b0 * 0x1_0000 + b1 * 0x100 + b2
  }

  /** The first n characters of a chunk. */
  function Chars(a: Alphabet, chunk: nat, n: nat): (s: seq<byte>)
    requires chunk < 0x100_0000 && n <= 4
    ensures |s| == n
  {
    if n == 0 then [] else Chars(a, chunk, n - 1) + [Char(a, Sixth(chunk, n - 1))]
  }

  /** The last one or two bytes, without padding. */
  function Remainder(a: Alphabet, src: seq<byte>): seq<byte>
    requires |src| < 3
  {
    if |src| == 2 then Chars(a, Chunk(src[0], src[1], 0), 3)
    else if |src| == 1 then Chars(a, Chunk(src[0], 0, 0), 2)
    else []
  }

  function Padding(size: nat): seq<byte> {
    if size % 3 == 2 then [PAD] else if size % 3 == 1 then [PAD, PAD] else []
  }

  function Encoded(a: Alphabet, src: seq<byte>): seq<byte> {
    if |src| > 2 then Chars(a, Chunk(src[0], src[1], src[2]), 4) + Encoded(a, src[3..]) else Remainder(a, src)
  }

  function EncodedPadded(a: Alphabet, src: seq<byte>, pad: bool): seq<byte> {
    Encoded(a, src) + if pad then Padding(|src|) else []
  }

  lemma {:induction false} EncodedLength(a: Alphabet, src: seq<byte>)
    ensures |Encoded(a, src)| + |Padding(|src|)| == EncodedLenMax(|src|)
    ensures |Encoded(a, src)| == |src| / 3 * 4 + (if |src| % 3 == 0 then 0 else |src| % 3 + 1)
  {
    if |src| > 2 {
      EncodedLength(a, src[3..]);
      ThreeMore(|src| - 3);
    }
  }

  lemma ThreeMore(n: nat)
    ensures (n + 3) / 3 == n / 3 + 1 && (n + 3) % 3 == n % 3 && EncodedLenMax(n + 3) == EncodedLenMax(n) + 4
  {
  }

  // ----- decoding -----

  function DecodedSizeMax(len: nat): nat {
    (len + 3) / 4 * 3
  }

  /** At most two padding characters go. */
  function Trimmed(src: seq<byte>): (t: seq<byte>)
    ensures |t| <= |src|
  {
    TrimOne(TrimOne(src))
  }

  function TrimOne(src: seq<byte>): seq<byte> {
    if src != [] && src[|src| - 1] == PAD then src[..|src| - 1] else src
  }

  /** The size that is reported: from the full length, less what the remainder falls short. */
  function SizeOut(len: nat, trimmed: nat): int {
    DecodedSizeMax(len) - if trimmed % 4 == 2 then 2 else if trimmed % 4 == 3 then 1 else 0
  }

  predicate AllValues(a: Alphabet, t: seq<byte>) {
    forall i :: 0 <= i < |t| ==> Val(a, t[i]) < 64
  }

  /** The chunk of up to four values. */
  function ChunkOf(a: Alphabet, t: seq<byte>): (c: nat)
    requires |t| <= 4 && AllValues(a, t)
    ensures c < 0x100_0000
  {
    (if |t| > 0 then Val(a, t[0]) * 0x4_0000 else 0) + (if |t| > 1 then Val(a, t[1]) * 0x1000 else 0) +
    (if |t| > 2 then Val(a, t[2]) * 64 else 0) + (if |t| > 3 then Val(a, t[3]) else 0)
  }

  /** The first n bytes of a chunk. */
  function BytesOf(chunk: nat, n: nat): (s: seq<byte>)
    requires chunk < 0x100_0000 && n <= 3
    ensures |s| == n
  {
    [chunk / 0x1_0000, chunk / 0x100 % 256, chunk % 256][..n]
  }

  /** The bytes of trimmed text; nothing comes of a single character left over. */
  function Decoded(a: Alphabet, t: seq<byte>): seq<byte>
    requires AllValues(a, t)
  {
    if |t| >= 4 then BytesOf(ChunkOf(a, t[..4]), 3) + Decoded(a, t[4..])
    else BytesOf(ChunkOf(a, t), if |t| == 0 then 0 else |t| - 1)
  }

  datatype Outcome = Ok(data: seq<byte>, sizeOut: int) | InvalidData

  function Decode(a: Alphabet, src: seq<byte>): Outcome {
    var t := Trimmed(src);
    if AllValues(a, t) && |t| % 4 != 1 then Ok(Decoded(a, t), SizeOut(|src|, |t|)) else InvalidData
  }

  lemma {:induction false} DecodedLength(a: Alphabet, t: seq<byte>)
    requires AllValues(a, t)
    ensures |Decoded(a, t)| == |t| / 4 * 3 + (if |t| % 4 == 0 then 0 else |t| % 4 - 1)
  {
    if |t| >= 4 {
      DecodedLength(a, t[4..]);
    }
  }

  /** The reported size is the size written exactly if the padding that was cut off did not fill another chunk. */
  lemma SizeIsExact(a: Alphabet, src: seq<byte>)
    requires Decode(a, src).Ok?
    ensures Decode(a, src).sizeOut == |Decode(a, src).data| <==> (|src| + 3) / 4 == (|Trimmed(src)| + 3) / 4
  {
    DecodedLength(a, Trimmed(src));
  }

  /** Four characters and a stray padding character: three bytes, reported as six. */
  lemma PaddingMiscounted()
    ensures var r := Decode(FileName, [43, 43, 43, 43, 61]); r.Ok? && |r.data| == 3 && r.sizeOut == 6
  {
    var src: seq<byte> := [43, 43, 43, 43, 61];
    assert TrimOne(src) == [43, 43, 43, 43];
    assert Trimmed(src) == [43, 43, 43, 43];
    DecodedLength(FileName, Trimmed(src));
  }

  // ----- round trip -----

  lemma Divided(c: nat)
    ensures c == c / 64 * 64 + c % 64
    ensures c / 64 == c / 0x1000 * 64 + c / 64 % 64
  {
  }

  lemma SixthsBack(c: nat)
    requires c < 0x100_0000
    ensures Sixth(c, 0) * 0x4_0000 + Sixth(c, 1) * 0x1000 + Sixth(c, 2) * 64 + Sixth(c, 3) == c
  {
    Divided(c);
    Divided(c / 64);
    assert c / 64 / 64 == c / 0x1000 && c / 64 / 0x1000 == c / 0x4_0000;
  }

  lemma BytesBack(b0: byte, b1: byte, b2: byte)
    ensures var c := Chunk(b0, b1, b2); c / 0x1_0000 == b0 && c / 0x100 % 256 == b1 && c % 256 == b2
  {
    var c := Chunk(b0, b1, b2);
    assert c == (b0 * 256 + b1) * 256 + b2;
    assert c / 256 == b0 * 256 + b1;
  }

  lemma Multiple(x: nat)
    ensures x * 64 / 64 == x && x * 64 % 64 == 0
  {
  }

  lemma ShortChunks(b0: byte, b1: byte)
    ensures Sixth(Chunk(b0, b1, 0), 3) == 0 && Sixth(Chunk(b0, 0, 0), 3) == 0 && Sixth(Chunk(b0, 0, 0), 2) == 0
  {
    Multiple(b0 * 1024 + b1 * 4);
    Multiple(b0 * 1024);
    Multiple(b0 * 16);
  }

  lemma CharsBack(a: Alphabet, chunk: nat, n: nat)
    requires chunk < 0x100_0000 && n <= 4
    ensures AllValues(a, Chars(a, chunk, n)) && forall i :: 0 <= i < n ==>
              Val(a, Chars(a, chunk, n)[i]) == Sixth(chunk, i) && Chars(a, chunk, n)[i] != PAD
  {
    if n > 0 {
      CharsBack(a, chunk, n - 1);
      CharVal(a, Sixth(chunk, n - 1));
    }
  }

  lemma FourBack(a: Alphabet, b0: byte, b1: byte, b2: byte)
    ensures var s := Chars(a, Chunk(b0, b1, b2), 4);
            AllValues(a, s) && BytesOf(ChunkOf(a, s), 3) == [b0, b1, b2]
  {
    CharsBack(a, Chunk(b0, b1, b2), 4);
    SixthsBack(Chunk(b0, b1, b2));
    BytesBack(b0, b1, b2);
  }

  /** The characters that are written of a chunk are the whole chunk if the rest of it is zero. */
  lemma ShortBack(a: Alphabet, c: nat, n: nat)
    requires c < 0x100_0000 && 2 <= n <= 3 && Sixth(c, 3) == 0 && (n == 2 ==> Sixth(c, 2) == 0)
    ensures var s := Chars(a, c, n); AllValues(a, s) && PAD !in s && Decoded(a, s) == BytesOf(c, n - 1)
  {
    CharsBack(a, c, n);
    SixthsBack(c);
  }

  lemma RemainderBack(a: Alphabet, src: seq<byte>)
    requires |src| < 3
    ensures AllValues(a, Remainder(a, src)) && Decoded(a, Remainder(a, src)) == src && PAD !in Remainder(a, src)
  {
    if |src| == 2 {
      ShortChunks(src[0], src[1]);
      ShortBack(a, Chunk(src[0], src[1], 0), 3);
      BytesBack(src[0], src[1], 0);
    } else if |src| == 1 {
      ShortChunks(src[0], 0);
      ShortBack(a, Chunk(src[0], 0, 0), 2);
      BytesBack(src[0], 0, 0);
    }
  }

  lemma {:induction false} EncodedBack(a: Alphabet, src: seq<byte>)
    ensures AllValues(a, Encoded(a, src)) && Decoded(a, Encoded(a, src)) == src && PAD !in Encoded(a, src)
  {
    if |src| > 2 {
      var four, rest := Chars(a, Chunk(src[0], src[1], src[2]), 4), Encoded(a, src[3..]);
      EncodedBack(a, src[3..]);
      FourBack(a, src[0], src[1], src[2]);
      CharsBack(a, Chunk(src[0], src[1], src[2]), 4);
      assert (four + rest)[..4] == four && (four + rest)[4..] == rest;
      assert src == [src[0], src[1], src[2]] + src[3..];
    } else {
      RemainderBack(a, src);
    }
  }

  lemma TrimsPadding(s: seq<byte>, size: nat, pad: bool)
    requires PAD !in s
    ensures Trimmed(s + if pad then Padding(size) else []) == s
  {
    var p := if pad then Padding(size) else [];
    if p == [] {
      assert s + p == s;
    } else if |p| == 1 {
      assert (s + p)[..|s|] == s;
    } else {
      assert (s + p)[..|s| + 1] == s + [PAD];
      assert (s + [PAD])[..|s|] == s;
    }
  }

  /** Decoding an encoding gives back the bytes, with the right size, in either alphabet, padded or not. */
  lemma RoundTrip(a: Alphabet, src: seq<byte>, pad: bool)
    ensures Decode(a, EncodedPadded(a, src, pad)) == Ok(src, |src|)
    ensures |EncodedPadded(a, src, pad)| <= EncodedLenMax(|src|)
    ensures pad ==> |EncodedPadded(a, src, pad)| == EncodedLenMax(|src|)
    ensures |src| <= DecodedSizeMax(|EncodedPadded(a, src, pad)|)
  {
    var t := Encoded(a, src);
    EncodedBack(a, src);
    EncodedLength(a, src);
    TrimsPadding(t, |src|, pad);
    Sizes(|src|, |t|, |t|);
    Sizes(|src|, |t|, EncodedLenMax(|src|));
    DecodedLength(a, t);
  }

  // ----- decoding other texts -----

  /** Text in the alphabet and then padding, k characters of it. */
  predicate PaddedBy(a: Alphabet, src: seq<byte>, k: nat) {
    && k <= |src|
    && (forall i :: 0 <= i < |src| - k ==> src[i] as char in AlphabetOf(a))
    && (forall i :: |src| - k <= i < |src| ==> src[i] as char == '=')
  }

  lemma TrimsTo(a: Alphabet, src: seq<byte>, k: nat)
    requires PaddedBy(a, src, k) && k <= 2
    ensures Trimmed(src) == src[..|src| - k] && AllValues(a, Trimmed(src))
  {
    forall i | 0 <= i < |src| - k ensures Val(a, src[i]) < 64 && src[i] != PAD {
      ValsAreAlphabet(a, src[i]);
      CharVal(a, Val(a, src[i]));
    }
    if k > 0 {
      assert TrimOne(src) == src[..|src| - 1];
    }
  }

  lemma TrimmedIs(src: seq<byte>) returns (k: nat)
    ensures k <= 2 && k <= |src| && Trimmed(src) == src[..|src| - k]
    ensures forall i :: |src| - k <= i < |src| ==> src[i] == PAD
  {
    var one := TrimOne(src);
    k := (if one == src then 0 else 1) + (if TrimOne(one) == one then 0 else 1);
  }

  /** Text in the alphabet with none of it left over alone, and at most two paddings. */
  predicate Decodable(a: Alphabet, src: seq<byte>, k: nat) {
    k <= 2 && PaddedBy(a, src, k) && (|src| - k) % 4 != 1
  }

  /** Exactly such data is accepted. */
  lemma DecodesIff(a: Alphabet, src: seq<byte>)
    ensures Decode(a, src).Ok? <==> exists k :: Decodable(a, src, k)
  {
    hide Trimmed, Decoded, Val, AlphabetOf;
    forall k | Decodable(a, src, k) ensures Decode(a, src).Ok? {
      TrimsTo(a, src, k);
    }
    if Decode(a, src).Ok? {
      var k := TrimmedIs(src);
      forall i | 0 <= i < |src| - k ensures src[i] as char in AlphabetOf(a) {
        assert Trimmed(src)[i] == src[i];
        ValsAreAlphabet(a, src[i]);
      }
      assert Decodable(a, src, k);
    }
  }

  /** A value without its last bits, as a short group leaves it. */
  function Cut(v: byte, bits: nat): nat
    requires bits > 0
  {
    v / bits * bits
  }

  lemma ChunkSixths(v0: byte, v1: byte, v2: byte, v3: byte)
    requires v0 < 64 && v1 < 64 && v2 < 64 && v3 < 64
    ensures var c := v0 * 0x4_0000 + v1 * 0x1000 + v2 * 64 + v3;
            c < 0x100_0000 && Sixth(c, 0) == v0 && Sixth(c, 1) == v1 && Sixth(c, 2) == v2 && Sixth(c, 3) == v3
  {
    var c := v0 * 0x4_0000 + v1 * 0x1000 + v2 * 64 + v3;
    assert c / 64 == v0 * 0x1000 + v1 * 64 + v2;
    assert c / 0x1000 == v0 * 64 + v1;
  }

  lemma BytesChunk(c: nat)
    requires c < 0x100_0000
    ensures c / 0x1_0000 * 0x1_0000 + c / 0x100 % 256 * 0x100 + c % 256 == c
  {
    assert c / 0x100 / 256 == c / 0x1_0000;
  }

  lemma FourChars(a: Alphabet, c: nat, t: seq<byte>)
    requires c < 0x100_0000 && |t| == 4 && AllValues(a, t)
    requires forall i :: 0 <= i < 4 ==> Sixth(c, i) == Val(a, t[i])
    ensures Chars(a, c, 4) == t
  {
    hide Char, Val, Sixth;
    CharsBack(a, c, 4);
    forall i | 0 <= i < 4 ensures Chars(a, c, 4)[i] == t[i] {
      ValChar(a, t[i]);
      ValChar(a, Chars(a, c, 4)[i]);
    }
  }

  /** Four characters give three bytes that are written as those characters. */
  lemma FourReencode(a: Alphabet, t: seq<byte>)
    requires |t| == 4 && AllValues(a, t)
    ensures var b := BytesOf(ChunkOf(a, t), 3); Chars(a, Chunk(b[0], b[1], b[2]), 4) == t
  {
    hide Char, Chars, Sixth, Val;
    var c := ChunkOf(a, t);
    ChunkSixths(Val(a, t[0]), Val(a, t[1]), Val(a, t[2]), Val(a, t[3]));
    BytesChunk(c);
    FourChars(a, c, t);
  }

  lemma TwoReencode(a: Alphabet, t: seq<byte>)
    requires |t| == 2 && AllValues(a, t)
    ensures Encoded(a, Decoded(a, t)) == [t[0], Char(a, Cut(Val(a, t[1]), 16))]
  {
    var v0, v1 := Val(a, t[0]), Val(a, t[1]);
    var c := ChunkOf(a, t);
    assert c == (v0 * 64 + v1) * 0x1000;
    var b := c / 0x1_0000;
    assert b == v0 * 4 + v1 / 16;
    assert Decoded(a, t) == [b];
    assert Chunk(b, 0, 0) == v0 * 0x4_0000 + Cut(v1, 16) * 0x1000 + 0 * 64 + 0;
    ChunkSixths(v0, Cut(v1, 16), 0, 0);
    ValChar(a, t[0]);
    ShortChars(a, Chunk(b, 0, 0));
  }

  lemma ThreeReencode(a: Alphabet, t: seq<byte>)
    requires |t| == 3 && AllValues(a, t)
    ensures Encoded(a, Decoded(a, t)) == [t[0], t[1], Char(a, Cut(Val(a, t[2]), 4))]
  {
    var v0, v1, v2 := Val(a, t[0]), Val(a, t[1]), Val(a, t[2]);
    var c := ChunkOf(a, t);
    assert c == (v0 * 0x1000 + v1 * 64 + v2) * 64;
    var b0, b1 := c / 0x1_0000, c / 0x100 % 256;
    assert c / 0x100 == v0 * 1024 + v1 * 16 + v2 / 4;
    assert c / 0x100 / 256 == b0;
    assert b0 * 256 + b1 == v0 * 1024 + v1 * 16 + v2 / 4;
    assert Decoded(a, t) == [b0, b1];
    assert Chunk(b0, b1, 0) == v0 * 0x4_0000 + v1 * 0x1000 + Cut(v2, 4) * 64 + 0;
    ChunkSixths(v0, v1, Cut(v2, 4), 0);
    ValChar(a, t[0]);
    ValChar(a, t[1]);
    ShortChars(a, Chunk(b0, b1, 0));
  }

  lemma ShortChars(a: Alphabet, c: nat)
    requires c < 0x100_0000
    ensures Chars(a, c, 2) == [Char(a, Sixth(c, 0)), Char(a, Sixth(c, 1))]
    ensures Chars(a, c, 3) == [Char(a, Sixth(c, 0)), Char(a, Sixth(c, 1)), Char(a, Sixth(c, 2))]
  {
    assert Chars(a, c, 1) == [Char(a, Sixth(c, 0))];
  }

  /** The same characters but for the bits that stand for no byte: four of the last one's, or two. */
  function Rounded(a: Alphabet, t: seq<byte>): seq<byte>
    requires AllValues(a, t)
  {
    if |t| % 4 == 2 then t[..|t| - 1] + [Char(a, Cut(Val(a, t[|t| - 1]), 16))]
    else if |t| % 4 == 3 then t[..|t| - 1] + [Char(a, Cut(Val(a, t[|t| - 1]), 4))]
    else t
  }

  lemma RoundedOn(a: Alphabet, t: seq<byte>)
    requires AllValues(a, t) && |t| >= 4 && |t| % 4 != 1
    ensures |t[4..]| % 4 == |t| % 4 && Rounded(a, t) == t[..4] + Rounded(a, t[4..])
  {
    hide Char, Val, Cut;
    assert t == t[..4] + t[4..];
    if |t| % 4 == 2 || |t| % 4 == 3 {
      assert t[..4] + t[4..][..|t| - 5] == t[..|t| - 1];
      assert t[4..][|t| - 5] == t[|t| - 1];
    }
  }

  lemma EncodedOn(a: Alphabet, b: seq<byte>, rest: seq<byte>)
    requires |b| == 3
    ensures Encoded(a, b + rest) == Chars(a, Chunk(b[0], b[1], b[2]), 4) + Encoded(a, rest)
  {
    assert (b + rest)[3..] == rest;
  }

  /** What any accepted text decodes to is encoded as that text again, but for bits that stand for no byte. */
  lemma {:induction false} DecodedReencodes(a: Alphabet, t: seq<byte>)
    requires AllValues(a, t) && |t| % 4 != 1
    ensures Encoded(a, Decoded(a, t)) == Rounded(a, t)
  {
    hide Val, Char, Chars, Chunk, Cut, ChunkOf, BytesOf;
    if |t| >= 4 {
      var b, rest := BytesOf(ChunkOf(a, t[..4]), 3), Decoded(a, t[4..]);
      RoundedOn(a, t);
      FourReencode(a, t[..4]);
      DecodedReencodes(a, t[4..]);
      EncodedOn(a, b, rest);
    } else if |t| == 2 {
      TwoReencode(a, t);
    } else if |t| == 3 {
      ThreeReencode(a, t);
    } else {
      NothingDecoded(a, t);
    }
  }

  lemma NothingDecoded(a: Alphabet, t: seq<byte>)
    requires t == []
    ensures Decoded(a, t) == [] && Encoded(a, []) == []
  {
  }

  /** The sizes of n bytes and their text, padded or not. */
  lemma Sizes(n: nat, t: nat, len: nat)
    requires t == n / 3 * 4 + (if n % 3 == 0 then 0 else n % 3 + 1) && (len == t || len == EncodedLenMax(n))
    ensures t <= EncodedLenMax(n) && t % 4 != 1 && SizeOut(len, t) == n <= DecodedSizeMax(len)
  {
    var q, r := n / 3, n % 3;
    assert n == 3 * q + r;
    if r == 0 {
      assert t == 4 * q && (n + 2) / 3 == q;
    } else if r == 1 {
      assert t == 4 * q + 2 && (n + 2) / 3 == q + 1 && (t + 3) / 4 == q + 1;
    } else {
      assert t == 4 * q + 3 && (n + 2) / 3 == q + 1 && (t + 3) / 4 == q + 1;
    }
  }

  // ----- order -----

  /** The bytes of a group of one to three, in a chunk. */
  function GroupChunk(x: seq<byte>): (c: nat)
    requires 0 < |x| <= 3
    ensures c < 0x100_0000
  {
    Chunk(x[0], if |x| > 1 then x[1] else 0, if |x| > 2 then x[2] else 0)
  }

  function Group(x: seq<byte>): seq<byte>
    requires 0 < |x| <= 3
  {
    Chars(FileName, GroupChunk(x), |x| + 1)
  }

  /** Chunks compare as the groups they hold, a shorter group first when they are equal. */
  lemma GroupOrder(x: seq<byte>, y: seq<byte>)
    requires 0 < |x| <= 3 && 0 < |y| <= 3
    ensures Lex(x, y) == if GroupChunk(x) != GroupChunk(y) then Cmp(GroupChunk(x), GroupChunk(y)) else Cmp(|x|, |y|)
  {
    var i := 0;
    while i < |x| && i < |y| && x[i] == y[i]
      invariant 0 <= i <= |x| && i <= |y| && forall j :: 0 <= j < i ==> x[j] == y[j]
    {
      i := i + 1;
    }
    if i < |x| && i < |y| {
      FirstDifference(x, y, i);
    } else if i < |y| {
      assert y == x + y[i..];
      LexCommonPrefix(x, [], y[i..]);
      assert x + [] == x;
    } else {
      assert x == y + x[i..];
      LexCommonPrefix(y, x[i..], []);
      assert y + [] == y;
    }
  }

  /** The first 6-bit value in which two chunks differ decides between them. */
  lemma SixthOrder(c: nat, d: nat) returns (i: nat)
    requires c < 0x100_0000 && d < 0x100_0000
    ensures i <= 4 && forall j :: 0 <= j < i ==> Sixth(c, j) == Sixth(d, j)
    ensures i < 4 ==> Sixth(c, i) != Sixth(d, i) && Cmp(c, d) == Cmp(Sixth(c, i), Sixth(d, i))
    ensures i == 4 ==> c == d
  {
    SixthsBack(c);
    SixthsBack(d);
    if Sixth(c, 0) != Sixth(d, 0) {
      i := 0;
    } else if Sixth(c, 1) != Sixth(d, 1) {
      i := 1;
    } else if Sixth(c, 2) != Sixth(d, 2) {
      i := 2;
    } else if Sixth(c, 3) != Sixth(d, 3) {
      i := 3;
    } else {
      i := 4;
    }
  }

  lemma GroupChars(x: seq<byte>, i: nat)
    requires 0 < |x| <= 3 && i < 4
    ensures |Group(x)| == |x| + 1
    ensures i < |Group(x)| ==> Group(x)[i] == Char(FileName, Sixth(GroupChunk(x), i))
    ensures i >= |Group(x)| ==> Sixth(GroupChunk(x), i) == 0
  {
    CharsAt(GroupChunk(x), |x| + 1);
    ShortChunks(x[0], if |x| > 1 then x[1] else 0);
  }

  lemma {:induction false} CharsAt(chunk: nat, n: nat)
    requires chunk < 0x100_0000 && n <= 4
    ensures forall i :: 0 <= i < n ==> Chars(FileName, chunk, n)[i] == Char(FileName, Sixth(chunk, i))
  {
    if n > 0 {
      CharsAt(chunk, n - 1);
    }
  }

  /** Different groups decide the comparison of what is encoded from them on. */
  lemma GroupDecides(x: seq<byte>, s: seq<byte>, y: seq<byte>, t: seq<byte>)
    requires 0 < |x| <= 3 && 0 < |y| <= 3 && x != y && (|x| < 3 ==> s == []) && (|y| < 3 ==> t == [])
    ensures Lex(Group(x) + s, Group(y) + t) == Lex(x, y)
  {
    var c, d, g, h := GroupChunk(x), GroupChunk(y), Group(x), Group(y);
    var i := SixthOrder(c, d);
    GroupOrder(x, y);
    forall j | 0 <= j < 4
      ensures |g| == |x| + 1 && |h| == |y| + 1
      ensures j < |g| ==> g[j] == Char(FileName, Sixth(c, j))
      ensures j < |h| ==> h[j] == Char(FileName, Sixth(d, j))
      ensures (j >= |g| ==> Sixth(c, j) == 0) && (j >= |h| ==> Sixth(d, j) == 0)
    {
      GroupChars(x, j);
      GroupChars(y, j);
    }
    if i < |g| && i < |h| {
      FileNameOrder(Sixth(c, i), Sixth(d, i));
      FirstDifference(g + s, h + t, i);
    } else if |x| == |y| {
      GroupChunkIsGroup(x, y);
      assert false;
    } else if |x| < |y| {
      assert g <= h;
      assert h == g + h[|g|..];
      assert h + t == g + (h[|g|..] + t) && g + s == g + [];
      LexCommonPrefix(g, [], h[|g|..] + t);
    } else {
      assert h <= g;
      assert g == h + g[|h|..];
      assert g + s == h + (g[|h|..] + s) && h + t == h + [];
      LexCommonPrefix(h, g[|h|..] + s, []);
    }
  }

  lemma GroupChunkIsGroup(x: seq<byte>, y: seq<byte>)
    requires 0 < |x| == |y| <= 3 && GroupChunk(x) == GroupChunk(y)
    ensures x == y
  {
    BytesBack(x[0], if |x| > 1 then x[1] else 0, if |x| > 2 then x[2] else 0);
    BytesBack(y[0], if |y| > 1 then y[1] else 0, if |y| > 2 then y[2] else 0);
  }

  /** The first group of what is not empty. */
  lemma FirstGroup(a: seq<byte>) returns (x: seq<byte>, rest: seq<byte>)
    requires a != []
    ensures 0 < |x| <= 3 && a == x + rest && |rest| < |a| && (|x| < 3 ==> rest == [])
    ensures Encoded(FileName, a) == Group(x) + Encoded(FileName, rest)
    ensures |a| >= 3 ==> |x| == 3
  {
    if |a| > 2 {
      x, rest := a[..3], a[3..];
    } else {
      x, rest := a, [];
      assert Encoded(FileName, []) == [];
      assert Group(x) + [] == Group(x) && a + [] == a;
    }
  }

  lemma LongerGroups(x: seq<byte>, s: seq<byte>, y: seq<byte>, t: seq<byte>)
    requires 0 < |x| <= 3 && 0 < |y| <= 3 && x != y && (|x| < 3 ==> s == []) && (|y| < 3 ==> t == [])
    ensures Lex(x + s, y + t) == Lex(x, y)
  {
    var i := 0;
    while i < |x| && i < |y| && x[i] == y[i]
      invariant 0 <= i <= |x| && i <= |y| && forall j :: 0 <= j < i ==> x[j] == y[j]
    {
      i := i + 1;
    }
    if i < |x| && i < |y| {
      FirstDifference(x, y, i);
      FirstDifference(x + s, y + t, i);
    } else if i < |y| {
      assert y == x + y[i..] && y + t == x + (y[i..] + t) && x + s == x + [] && x == x + [];
      LexCommonPrefix(x, [], y[i..]);
      LexCommonPrefix(x, [], y[i..] + t);
    } else {
      assert |x| == |y| ==> x == y;
      assert x == y + x[i..] && x + s == y + (x[i..] + s) && y + t == y + [] && y == y + [];
      LexCommonPrefix(y, x[i..], []);
      LexCommonPrefix(y, x[i..] + s, []);
    }
  }

  /** Ids compare as the bytes they encode: file-name encoding without padding keeps the order, whatever the lengths. */
  lemma {:induction false} EncodingKeepsOrder(a: seq<byte>, b: seq<byte>)
    ensures Lex(Encoded(FileName, a), Encoded(FileName, b)) == Lex(a, b)
    decreases |a|
  {
    if a != [] && b != [] {
      var x, s := FirstGroup(a);
      var y, t := FirstGroup(b);
      if x == y {
        EncodingKeepsOrder(s, t);
        LexCommonPrefix(x, s, t);
        LexCommonPrefix(Group(x), Encoded(FileName, s), Encoded(FileName, t));
      } else {
        assert |x| < 3 ==> Encoded(FileName, s) == [];
        assert |y| < 3 ==> Encoded(FileName, t) == [];
        GroupDecides(x, Encoded(FileName, s), y, Encoded(FileName, t));
        LongerGroups(x, s, y, t);
      }
    } else if a != [] {
      var x, s := FirstGroup(a);
      GroupChars(x, 0);
    } else if b != [] {
      var y, t := FirstGroup(b);
      GroupChars(y, 0);
    }
  }

  // ----- the loops over buffers -----

  lemma EncodedTail(a: Alphabet, src: seq<byte>, i: nat)
    requires i <= |src|
    ensures |src| - i > 2 ==>
              Encoded(a, src[i..]) == Chars(a, Chunk(src[i], src[i + 1], src[i + 2]), 4) + Encoded(a, src[i + 3..])
    ensures |src| - i <= 2 ==> Encoded(a, src[i..]) == Remainder(a, src[i..])
  {
    if |src| - i > 2 {
      assert src[i..][3..] == src[i + 3..];
    }
  }

  /** The first n characters of a chunk go into the buffer. */
  method PutChars(a: Alphabet, chunk: nat, n: nat, buf: array<byte>, dest: nat)
    requires chunk < 0x100_0000 && n <= 4 && dest + n <= buf.Length
    modifies buf
    ensures buf[..dest + n] == old(buf[..dest]) + Chars(a, chunk, n)
  {
    var k := 0;
    assert buf[..dest] + [] == buf[..dest];
    while k < n
      invariant 0 <= k <= n && buf[..dest + k] == old(buf[..dest]) + Chars(a, chunk, k)
    {
      buf[dest + k] := Char(a, Sixth(chunk, k));
      assert buf[..dest + k + 1] == buf[..dest + k] + [buf[dest + k]];
      k := k + 1;
    }
  }

  lemma GroupFits(size: nat, groups: nat)
    requires 3 * groups + 3 <= size
    ensures 4 * groups + 4 <= EncodedLenMax(size)
  {
  }

  lemma GroupsOf(size: nat, groups: nat)
    requires 3 * groups <= size < 3 * groups + 3
    ensures size / 3 == groups
  {
  }

  /** One full chunk. */
  method EncodeGroup(a: Alphabet, src: seq<byte>, i: nat, buf: array<byte>, dest: nat)
    requires i + 3 <= |src| && dest + 4 <= buf.Length
    modifies buf
    ensures buf[..dest + 4] + Encoded(a, src[i + 3..]) == old(buf[..dest]) + Encoded(a, src[i..])
  {
    EncodedTail(a, src, i);
    var chunk := Chunk(src[i], src[i + 1], src[i + 2]);
    Assoc(buf[..dest], Chars(a, chunk, 4), Encoded(a, src[i + 3..]));
    PutChars(a, chunk, 4, buf, dest);
  }

  /** Full chunks of three bytes. */
  method EncodeChunks(a: Alphabet, src: seq<byte>, buf: array<byte>) returns (i: nat, dest: nat)
    requires buf.Length >= EncodedLenMax(|src|)
    modifies buf
    ensures i <= |src| < i + 3 && dest == |src| / 3 * 4 <= buf.Length
    ensures buf[..dest] + Remainder(a, src[i..]) == Encoded(a, src)
  {
    ghost var groups := 0;
    i, dest := 0, 0;
    assert src[0..] == src && buf[..0] + Encoded(a, src) == Encoded(a, src);
    while |src| - i > 2
      invariant 0 <= i <= |src| && i == 3 * groups && dest == 4 * groups <= buf.Length
      invariant buf[..dest] + Encoded(a, src[i..]) == Encoded(a, src)
    {
      GroupFits(|src|, groups);
      EncodeGroup(a, src, i, buf, dest);
      i, dest, groups := i + 3, dest + 4, groups + 1;
    }
    EncodedTail(a, src, i);
    GroupsOf(|src|, groups);
  }

  /** The last one or two bytes. */
  method EncodeRest(a: Alphabet, left: seq<byte>, buf: array<byte>, dest: nat) returns (end: nat)
    requires |left| < 3 && dest + |Remainder(a, left)| <= buf.Length
    modifies buf
    ensures end == dest + |Remainder(a, left)| && buf[..end] == old(buf[..dest]) + Remainder(a, left)
  {
    end := dest;
    if |left| == 2 {
      PutChars(a, Chunk(left[0], left[1], 0), 3, buf, dest);
      end := dest + 3;
    } else if |left| == 1 {
      PutChars(a, Chunk(left[0], 0, 0), 2, buf, dest);
      end := dest + 2;
    } else {
      assert buf[..dest] + [] == buf[..dest];
    }
  }

  method PutPadding(size: nat, buf: array<byte>, dest: nat) returns (end: nat)
    requires dest + |Padding(size)| <= buf.Length
    modifies buf
    ensures end == dest + |Padding(size)| && buf[..end] == old(buf[..dest]) + Padding(size)
  {
    end := dest;
    if size % 3 == 2 {
      buf[end] := PAD;
      end := end + 1;
    } else if size % 3 == 1 {
      buf[end] := PAD;
      buf[end + 1] := PAD;
      end := end + 2;
    }
    assert buf[..end] == old(buf[..dest]) + Padding(size);
  }

  /** `MojBase64EncodeImpl`. */
  method EncodeInto(a: Alphabet, src: seq<byte>, buf: array<byte>, pad: bool) returns (ok: bool, lenOut: nat)
    modifies buf
    ensures ok <==> buf.Length >= EncodedLenMax(|src|)
    ensures ok ==> lenOut <= buf.Length && buf[..lenOut] == EncodedPadded(a, src, pad)
    ensures !ok ==> buf[..] == old(buf[..])
  {
    if buf.Length < EncodedLenMax(|src|) {
      return false, 0;
    }
    EncodedLength(a, src);
    var i, dest := EncodeChunks(a, src, buf);
    dest := EncodeRest(a, src[i..], buf, dest);
    assert buf[..dest] == Encoded(a, src);
    if pad {
      dest := PutPadding(|src|, buf, dest);
    } else {
      assert buf[..dest] + [] == buf[..dest];
    }
    lenOut, ok := dest, true;
  }

  /** The bytes of the last characters, up to four. */
  function LastBytes(a: Alphabet, four: seq<byte>): seq<byte>
    requires AllValues(a, four) && |four| <= 4
  {
    BytesOf(ChunkOf(a, four), if |four| == 0 then 0 else |four| - 1)
  }

  lemma DecodedOne(a: Alphabet, four: seq<byte>)
    requires AllValues(a, four) && |four| <= 4
    ensures Decoded(a, four) == LastBytes(a, four)
    ensures Decoded(a, []) == []
  {
    if |four| == 4 {
      assert four[..4] == four && four[4..] == [];
    }
  }

  lemma FoursLess(n: nat)
    requires n > 0 && n % 4 == 0
    ensures n >= 4 && (n - 4) % 4 == 0
  {
  }

  lemma DecodedFour(a: Alphabet, h: seq<byte>, t: seq<byte>)
    requires |h| == 4 && AllValues(a, h) && AllValues(a, t)
    ensures AllValues(a, h + t) && Decoded(a, h + t) == BytesOf(ChunkOf(a, h), 3) + Decoded(a, t)
  {
    assert (h + t)[..4] == h && (h + t)[4..] == t;
  }

  lemma Halves(a: Alphabet, t: seq<byte>)
    requires |t| >= 4 && AllValues(a, t)
    ensures t == t[..4] + t[4..] && AllValues(a, t[..4]) && AllValues(a, t[4..])
  {
  }

  lemma {:induction false} DecodedAppend(a: Alphabet, t: seq<byte>, four: seq<byte>)
    requires AllValues(a, t) && AllValues(a, four) && |t| % 4 == 0 && |four| <= 4
    ensures AllValues(a, t + four)
    ensures Decoded(a, t + four) == Decoded(a, t) + LastBytes(a, four)
  {
    if t == [] {
      assert t + four == four;
      DecodedOne(a, four);
    } else {
      FoursLess(|t|);
      Halves(a, t);
      var h, r := t[..4], t[4..];
      DecodedAppend(a, r, four);
      DecodedFour(a, h, r);
      DecodedFour(a, h, r + four);
      Assoc(h, r, four);
      Assoc(BytesOf(ChunkOf(a, h), 3), Decoded(a, r), LastBytes(a, four));
    }
  }

  method PutBytes(chunk: nat, n: nat, buf: array<byte>, dest: nat)
    requires chunk < 0x100_0000 && n <= 3 && dest + n <= buf.Length
    modifies buf
    ensures buf[..dest + n] == old(buf[..dest]) + BytesOf(chunk, n)
  {
    if n > 0 {
      buf[dest] := chunk / 0x1_0000;
    }
    if n > 1 {
      buf[dest + 1] := chunk / 0x100 % 256;
    }
    if n > 2 {
      buf[dest + 2] := chunk % 256;
    }
  }

  /** One character into the chunk: the first of four starts a new one. */
  function Shifted(chunk: nat, v: nat, i: nat): nat {
    if i % 4 == 0 then v * 0x4_0000 else if i % 4 == 1 then chunk + v * 0x1000 else if i % 4 == 2 then chunk + v * 64
        else chunk + v
  }

  lemma ShiftedIn(a: Alphabet, part: seq<byte>, c: byte, chunk: nat, i: nat)
    requires |part| == i % 4 && AllValues(a, part) && Val(a, c) < 64 && (part != [] ==> chunk == ChunkOf(a, part))
    ensures AllValues(a, part + [c]) && Shifted(chunk, Val(a, c), i) == ChunkOf(a, part + [c])
  {
  }

  /** The text so far is whole fours, decoded, and a part of the next, in the chunk. */
  ghost predicate Halfway(a: Alphabet, t: seq<byte>, i: nat, done: seq<byte>, part: seq<byte>, chunk: nat) {
    && i <= |t| && t[..i] == done + part && |done| % 4 == 0 && |part| == i % 4
    && AllValues(a, done) && AllValues(a, part) && (part != [] ==> chunk == ChunkOf(a, part))
  }

  /** One more character that is a value, in the same four. */
  lemma Takes(a: Alphabet, t: seq<byte>, i: nat, done: seq<byte>, part: seq<byte>, chunk: nat)
    requires Halfway(a, t, i, done, part, chunk) && i < |t| && Val(a, t[i]) < 64 && i % 4 < 3
    ensures Halfway(a, t, i + 1, done, part + [t[i]], Shifted(chunk, Val(a, t[i]), i))
  {
    ShiftedIn(a, part, t[i], chunk, i);
    assert t[..i + 1] == t[..i] + [t[i]] && done + part + [t[i]] == done + (part + [t[i]]);
  }

  lemma NextTaken(t: seq<byte>, i: nat, done: seq<byte>, part: seq<byte>)
    requires i < |t| && t[..i] == done + part
    ensures t[..i + 1] == done + (part + [t[i]]) + []
  {
    assert t[..i + 1] == t[..i] + [t[i]];
  }

  lemma FoursAdd(n: nat, i: nat)
    requires n % 4 == 0 && i % 4 == 3
    ensures (n + 4) % 4 == 0 && (i + 1) % 4 == 0
  {
  }

  /** The last of four. */
  lemma TakesFourth(a: Alphabet, t: seq<byte>, i: nat, done: seq<byte>, part: seq<byte>, chunk: nat)
    requires Halfway(a, t, i, done, part, chunk) && i < |t| && Val(a, t[i]) < 64 && i % 4 == 3
    ensures var more, next := part + [t[i]], Shifted(chunk, Val(a, t[i]), i);
            && next < 0x100_0000 && Halfway(a, t, i + 1, done + more, [], next)
            && Decoded(a, done + more) == Decoded(a, done) + BytesOf(next, 3)
  {
    var more := part + [t[i]];
    ShiftedIn(a, part, t[i], chunk, i);
    DecodedAppend(a, done, more);
    NextTaken(t, i, done, part);
    FoursAdd(|done|, i);
    assert |done + more| == |done| + 4;
    assert AllValues(a, []);
  }

  lemma DecodedRoom(n: nat, t: nat)
    requires t <= n
    ensures t / 4 * 3 + (if t % 4 == 0 then 0 else t % 4 - 1) <= DecodedSizeMax(n)
  {
  }

  /** The loop over the characters. */
  method DecodeChunks(a: Alphabet, t: seq<byte>, size: nat, buf: array<byte>)
    returns (ok: bool, dest: nat, chunk: nat, ghost done: seq<byte>, ghost part: seq<byte>)
    requires |t| <= size && buf.Length >= DecodedSizeMax(size)
    modifies buf
    ensures ok <==> AllValues(a, t)
    ensures ok ==>
              Halfway(a, t, |t|, done, part, chunk) && dest == |done| / 4 * 3 <= buf.Length &&
                  buf[..dest] == Decoded(a, done)
  {
    var i := 0;
    ok, dest, chunk, done, part := true, 0, 0, [], [];
    DecodedOne(a, []);
    while i < |t|
      invariant Halfway(a, t, i, done, part, chunk) && dest == |done| / 4 * 3 <= buf.Length &&
                buf[..dest] == Decoded(a, done)
      decreases |t| - i
    {
      var v := Val(a, t[i]);
      ValChar(a, t[i]);
      if v == 255 {
        ok := false;
        return;
      }
      if i % 4 < 3 {
        Takes(a, t, i, done, part, chunk);
      } else {
        TakesFourth(a, t, i, done, part, chunk);
      }
      chunk, part := Shifted(chunk, v, i), part + [t[i]];
      if i % 4 == 3 {
        DecodedRoom(size, |done| + 4);
        PutBytes(chunk, 3, buf, dest);
        dest, done, part := dest + 3, done + part, [];
      }
      i := i + 1;
    }
    AllTaken(a, t, done, part);
  }

  lemma AllTaken(a: Alphabet, t: seq<byte>, done: seq<byte>, part: seq<byte>)
    requires t[..|t|] == done + part && AllValues(a, done) && AllValues(a, part)
    ensures t == done + part && AllValues(a, t)
  {
    assert t[..|t|] == t;
  }

  /** The characters after the last four. */
  method DecodeRest(a: Alphabet, n: nat, chunk: nat, max: nat, buf: array<byte>, dest: nat, ghost done: seq<byte>,
                    ghost part: seq<byte>)
    returns (end: nat, sizeOut: int)
    requires AllValues(a, done) && AllValues(a, part) && |part| == n && n in {0, 2, 3}
    requires part != [] ==> chunk == ChunkOf(a, part)
    requires dest <= dest + n - (if n == 0 then 0 else 1) <= buf.Length && buf[..dest] == Decoded(a, done)
    modifies buf
    ensures end <= buf.Length && buf[..end] == Decoded(a, done) + Decoded(a, part)
    ensures sizeOut == max - if n == 2 then 2 else if n == 3 then 1 else 0
  {
    end, sizeOut := dest, max;
    if n == 2 {
      PutBytes(chunk, 1, buf, dest);
      end, sizeOut := dest + 1, max - 2;
    } else if n == 3 {
      PutBytes(chunk, 2, buf, dest);
      end, sizeOut := dest + 2, max - 1;
    } else {
      assert Decoded(a, done) + [] == Decoded(a, done);
    }
  }

  datatype Status = Success | ShortBuffer | BadData

  /** `MojBase64DecodeImpl`; `written` is how far it got in the buffer. */
  method DecodeInto(a: Alphabet, src: seq<byte>, buf: array<byte>)
    returns (status: Status, sizeOut: int, ghost written: nat)
    modifies buf
    ensures status == ShortBuffer <==> buf.Length < DecodedSizeMax(|src|)
    ensures status == ShortBuffer ==> buf[..] == old(buf[..]) && sizeOut == DecodedSizeMax(|src|)
    ensures status == BadData <==> buf.Length >= DecodedSizeMax(|src|) && Decode(a, src) == InvalidData
    ensures status == Success ==> written <= buf.Length && Decode(a, src) == Ok(buf[..written], sizeOut)
  {
    status, sizeOut, written := Success, DecodedSizeMax(|src|), 0;
    if buf.Length < sizeOut {
      status := ShortBuffer;
      return;
    }
    var t := Trimmed(src);
    var ok, dest, chunk;
    ghost var done, part;
    ok, dest, chunk, done, part := DecodeChunks(a, t, |src|, buf);
    if !ok || |t| % 4 == 1 {
      status := BadData;
      return;
    }
    AllTaken(a, t, done, part);
    DecodedAppend(a, done, part);
    DecodedRoom(|src|, |t|);
    written, sizeOut := DecodeRest(a, |t| % 4, chunk, DecodedSizeMax(|src|), buf, dest, done, part);
  }
}
