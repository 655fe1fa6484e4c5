/** Bytes, machine integers, and the lexicographic order every db8 key comparison uses. */
module Bytes {

  type byte = x: int | 0 <= x < 256
  type int64 = x: int | -0x8000_0000_0000_0000 <= x < 0x8000_0000_0000_0000

  /** The sign of the comparison of two integers. */
  function Cmp(x: int, y: int): (r: int)
    ensures -1 <= r <= 1
  {
    if x < y then -1 else if x > y then 1 else 0
  }

  /** Lexicographic comparison; a proper prefix sorts first. */
  function Lex(a: seq<byte>, b: seq<byte>): (r: int)
    ensures -1 <= r <= 1
  {
    if a == [] then (if b == [] then 0 else -1)
    else if b == [] then 1
    else if a[0] != b[0] then Cmp(a[0], b[0])
    else Lex(a[1..], b[1..])
  }

  predicate NulFree(s: seq<byte>) {
    forall i :: 0 <= i < |s| ==> s[i] != 0
  }

  lemma {:induction false} LexZeroIsEqual(a: seq<byte>, b: seq<byte>)
    ensures Lex(a, b) == 0 <==> a == b
  {
    if a != [] && b != [] && a[0] == b[0] {
      LexZeroIsEqual(a[1..], b[1..]);
      assert a == [a[0]] + a[1..] && b == [b[0]] + b[1..];
    }
  }

  lemma {:induction false} LexAntisymmetric(a: seq<byte>, b: seq<byte>)
    ensures Lex(a, b) == -Lex(b, a)
  {
    if a != [] && b != [] && a[0] == b[0] {
      LexAntisymmetric(a[1..], b[1..]);
    }
  }

  lemma {:induction false} LexTransitive(a: seq<byte>, b: seq<byte>, c: seq<byte>)
    requires Lex(a, b) <= 0 && Lex(b, c) <= 0
    ensures Lex(a, c) <= 0
    ensures Lex(a, b) < 0 || Lex(b, c) < 0 ==> Lex(a, c) < 0
  {
    if a != [] && b != [] && c != [] && a[0] == b[0] == c[0] {
      LexTransitive(a[1..], b[1..], c[1..]);
    }
  }

  /** The first difference decides. */
  lemma {:induction false} FirstDifference(a: seq<byte>, b: seq<byte>, i: nat)
    requires i < |a| && i < |b| && a[i] != b[i] && forall j :: 0 <= j < i ==> a[j] == b[j]
    ensures Lex(a, b) == Cmp(a[i], b[i])
  {
    if i > 0 {
      assert a[0] == b[0];
      FirstDifference(a[1..], b[1..], i - 1);
    }
  }

  /** A common prefix is immaterial. */
  lemma {:induction false} LexCommonPrefix(p: seq<byte>, x: seq<byte>, y: seq<byte>)
    ensures Lex(p + x, p + y) == Lex(x, y)
  {
    if p == [] {
      assert p + x == x && p + y == y;
    } else {
      assert (p + x)[1..] == p[1..] + x && (p + y)[1..] == p[1..] + y;
      LexCommonPrefix(p[1..], x, y);
    }
  }

  /** Blocks of equal length decide the comparison unless they are equal. */
  lemma {:induction false} LexBlocks(a: seq<byte>, b: seq<byte>, x: seq<byte>, y: seq<byte>)
    requires |a| == |b|
    ensures Lex(a + x, b + y) == if a == b then Lex(x, y) else Lex(a, b)
    ensures a != b ==> Lex(a, b) != 0
  {
    LexZeroIsEqual(a, b);
    if a == b {
      LexCommonPrefix(a, x, y);
    } else {
      assert (a + x)[1..] == a[1..] + x && (b + y)[1..] == b[1..] + y;
      if a[0] == b[0] {
        LexBlocks(a[1..], b[1..], x, y);
        assert a == [a[0]] + a[1..] && b == [b[0]] + b[1..];
      }
    }
  }

  /** NUL-terminated strings followed by anything compare as the strings do. */
  lemma {:induction false} LexStrings(s: seq<byte>, t: seq<byte>, x: seq<byte>, y: seq<byte>)
    requires NulFree(s) && NulFree(t)
    ensures Lex(s + [0] + x, t + [0] + y) == if s == t then Lex(x, y) else Lex(s, t)
    ensures s != t ==> Lex(s, t) != 0
  {
    LexZeroIsEqual(s, t);
    var u, v := s + [0] + x, t + [0] + y;
    if s == t {
      LexCommonPrefix(s + [0], x, y);
    } else if s != [] && t != [] && s[0] == t[0] {
      assert u[1..] == s[1..] + [0] + x && v[1..] == t[1..] + [0] + y;
      assert s == [s[0]] + s[1..] && t == [t[0]] + t[1..];
      LexStrings(s[1..], t[1..], x, y);
    } else {
      assert s != [] ==> u[0] == s[0] != 0;
      assert t != [] ==> v[0] == t[0] != 0;
      assert s == [] ==> u[0] == 0;
      assert t == [] ==> v[0] == 0;
    }
  }

  function Pow256(k: nat): (p: nat)
    ensures p > 0
  {
    if k == 0 then 1 else 256 * Pow256(k - 1)
  }

  /** The k-byte big-endian form of an unsigned number. */
  function BigEndian(n: nat, k: nat): (s: seq<byte>)
    ensures |s| == k
  {
    if k == 0 then [] else BigEndian(n / 256, k - 1) + [n % 256]
  }

  /** The number that a big-endian byte string denotes. */
  function FromBigEndian(s: seq<byte>): nat {
    if s == [] then 0 else 256 * FromBigEndian(s[..|s| - 1]) + s[|s| - 1]
  }

  lemma {:induction false} BigEndianRoundTrip(n: nat, k: nat)
    requires n < Pow256(k)
    ensures FromBigEndian(BigEndian(n, k)) == n
  {
    if k > 0 {
      var s := BigEndian(n, k);
      BigEndianRoundTrip(n / 256, k - 1);
      assert s[..k - 1] == BigEndian(n / 256, k - 1) && s[k - 1] == n % 256;
      assert FromBigEndian(s) == 256 * FromBigEndian(s[..k - 1]) + s[k - 1];
    }
  }

  lemma {:induction false} LexAppendOne(a: seq<byte>, b: seq<byte>, x: byte, y: byte)
    requires |a| == |b|
    ensures Lex(a + [x], b + [y]) == if a == b then Cmp(x, y) else Lex(a, b)
  {
    LexBlocks(a, b, [x], [y]);
    assert Lex([x], [y]) == Cmp(x, y) by {
      assert [x][1..] == [] && [y][1..] == [];
    }
  }

  /** Byte order on fixed-width big-endian forms is numeric order. */
  lemma {:induction false} BigEndianOrder(m: nat, n: nat, k: nat)
    requires m < Pow256(k) && n < Pow256(k)
    ensures Lex(BigEndian(m, k), BigEndian(n, k)) == Cmp(m, n)
  {
    if k > 0 {
      BigEndianOrder(m / 256, n / 256, k - 1);
      LexZeroIsEqual(BigEndian(m / 256, k - 1), BigEndian(n / 256, k - 1));
      LexAppendOne(BigEndian(m / 256, k - 1), BigEndian(n / 256, k - 1), m % 256, n % 256);
    }
  }

  /** The 64-bit two's complement pattern of a signed number, as an unsigned number. */
  function ToUnsigned64(v: int64): (u: nat)
    ensures u < 0x1_0000_0000_0000_0000
  {
    if v < 0 then v + 0x1_0000_0000_0000_0000 else v
  }

  function ToSigned64(u: nat): (v: int64)
    requires u < 0x1_0000_0000_0000_0000
    ensures ToUnsigned64(v) == u
  {
    if u >= 0x8000_0000_0000_0000 then u - 0x1_0000_0000_0000_0000 else u
  }

  lemma Pow256Values()
    ensures Pow256(1) == 0x100
    ensures Pow256(2) == 0x1_0000
    ensures Pow256(4) == 0x1_0000_0000
    ensures Pow256(8) == 0x1_0000_0000_0000_0000
  {
    assert Pow256(2) == 256 * Pow256(1);
    assert Pow256(3) == 256 * Pow256(2);
    assert Pow256(4) == 256 * Pow256(3);
    assert Pow256(5) == 256 * Pow256(4);
    assert Pow256(6) == 256 * Pow256(5);
    assert Pow256(7) == 256 * Pow256(6);
  }

  lemma {:induction false} FromBigEndianBound(s: seq<byte>)
    ensures FromBigEndian(s) < Pow256(|s|)
  {
    if s != [] {
      FromBigEndianBound(s[..|s| - 1]);
    }
  }

  // ----- sequences in other brackets -----

  lemma Assoc<T>(a: seq<T>, b: seq<T>, c: seq<T>)
    ensures a + b + c == a + (b + c)
  {
  }

  lemma Assoc4<T>(a: seq<T>, b: seq<T>, c: seq<T>, d: seq<T>)
    ensures a + b + c + d == a + (b + c + d) == a + b + (c + d)
  {
  }
}
