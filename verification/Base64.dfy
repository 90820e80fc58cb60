/**
 The standard Base64 alphabet with mandatory canonical padding (section 4 of RFC 4648;
 trailing bits must be zero, section 3.5), as the `STANDARD` engine applies it.
 */
module Base64 {
  import opened Results
  import opened Bytes

  type Sextet = x: int | 0 <= x < 64

  function Symbol(v: Sextet): char {
    if v < 26 then (v + 65) as char          // 'A'..'Z'
    else if v < 52 then (v + 71) as char     // 'a'..'z'
    else if v < 62 then (v - 4) as char      // '0'..'9'
    else if v == 62 then '+'
    else '/'
  }

  function SextetOf(c: char): Option<Sextet> {
    if 'A' <= c <= 'Z' then Some(c as int - 65)
    else if 'a' <= c <= 'z' then Some(c as int - 71)
    else if '0' <= c <= '9' then Some(c as int + 4)
    else if c == '+' then Some(62)
    else if c == '/' then Some(63)
    else None
  }

  lemma SymbolInverse(v: Sextet)
    ensures SextetOf(Symbol(v)) == Some(v)
    ensures Symbol(v) !in ['=', '|', '.']
  {
  }

  lemma SextetInverse(c: char)
    ensures SextetOf(c).Some? ==> Symbol(SextetOf(c).value) == c
  {
  }

  function Quad(x: Byte, y: Byte, z: Byte): (s: string)
    ensures |s| == 4
  {
    [Symbol(x / 4), Symbol(x % 4 * 16 + y / 16), Symbol(y % 16 * 4 + z / 64), Symbol(z % 64)]
  }

  function Encode(b: seq<Byte>): string {
    if |b| == 0 then []
    else if |b| == 1 then [Symbol(b[0] / 4), Symbol(b[0] % 4 * 16), '=', '=']
    else if |b| == 2 then [Symbol(b[0] / 4), Symbol(b[0] % 4 * 16 + b[1] / 16), Symbol(b[1] % 16 * 4), '=']
    else Quad(b[0], b[1], b[2]) + Encode(b[3..])
  }

  /** Three bytes, or fewer for a padded final quantum. */
  function DecodeQuantum(s: string, final: bool): Option<seq<Byte>>
    requires |s| == 4
  {
    var a, b, c, d := SextetOf(s[0]), SextetOf(s[1]), SextetOf(s[2]), SextetOf(s[3]);
    if a.None? || b.None? then None
    else if c.Some? && d.Some? then
      Some([a.value * 4 + b.value / 16, b.value % 16 * 16 + c.value / 4, c.value % 4 * 64 + d.value])
    else if !final || s[3] != '=' then None
    else if c.Some? then
      if c.value % 4 == 0 then Some([a.value * 4 + b.value / 16, b.value % 16 * 16 + c.value / 4]) else None
    else if s[2] == '=' && b.value % 16 == 0 then Some([a.value * 4 + b.value / 16])
    else None
  }

  function Decode(s: string): Option<seq<Byte>> {
    if |s| == 0 then Some([])
    else if |s| < 4 then None
    else
      var head := DecodeQuantum(s[..4], |s| == 4);
      var tail := Decode(s[4..]);
      if head.Some? && tail.Some? then Some(head.value + tail.value) else None
  }

  /** Joining sextets undoes splitting 24 bits into them. */
  lemma SextetsSplit(x: Byte, y: Byte, z: Byte)
    ensures var a, b, c, d := x / 4, x % 4 * 16 + y / 16, y % 16 * 4 + z / 64, z % 64;
            0 <= a < 64 && 0 <= b < 64 && 0 <= c < 64 && 0 <= d < 64
            && a * 4 + b / 16 == x && b % 16 * 16 + c / 4 == y && c % 4 * 64 + d == z
  {
  }

  lemma QuadInverse(x: Byte, y: Byte, z: Byte, final: bool)
    ensures DecodeQuantum(Quad(x, y, z), final) == Some([x, y, z])
  {
    SextetsSplit(x, y, z);
    var a: Sextet, b: Sextet, c: Sextet, d: Sextet := x / 4, x % 4 * 16 + y / 16, y % 16 * 4 + z / 64, z % 64;
    SymbolInverse(a);
    SymbolInverse(b);
    SymbolInverse(c);
    SymbolInverse(d);
    assert Quad(x, y, z) == [Symbol(a), Symbol(b), Symbol(c), Symbol(d)];
  }

  lemma FinalOne(x: Byte)
    ensures DecodeQuantum([Symbol(x / 4), Symbol(x % 4 * 16), '=', '='], true) == Some([x])
  {
    SextetsSplit(x, 0, 0);
    SymbolInverse(x / 4);
    SymbolInverse(x % 4 * 16);
  }

  lemma FinalTwo(x: Byte, y: Byte)
    ensures DecodeQuantum([Symbol(x / 4), Symbol(x % 4 * 16 + y / 16), Symbol(y % 16 * 4), '='], true)
         == Some([x, y])
  {
    SextetsSplit(x, y, 0);
    SymbolInverse(x / 4);
    SymbolInverse(x % 4 * 16 + y / 16);
    SymbolInverse(y % 16 * 4);
  }

  lemma DecodeStep(q: string, rest: string, head: seq<Byte>, tail: seq<Byte>)
    requires |q| == 4 && DecodeQuantum(q, rest == []) == Some(head) && Decode(rest) == Some(tail)
    ensures Decode(q + rest) == Some(head + tail)
  {
    assert (q + rest)[..4] == q && (q + rest)[4..] == rest;
  }

  /** Decoding undoes encoding, for every byte string. */
  lemma {:induction false} DecodeEncode(b: seq<Byte>)
    ensures Decode(Encode(b)) == Some(b)
  {
    hide DecodeQuantum, Quad, Symbol;
    if |b| == 0 {
    } else if |b| == 1 {
      FinalOne(b[0]);
      DecodeStep(Encode(b), [], [b[0]], []);
      assert Encode(b) + [] == Encode(b) && [b[0]] + [] == b;
    } else if |b| == 2 {
      FinalTwo(b[0], b[1]);
      DecodeStep(Encode(b), [], [b[0], b[1]], []);
      assert Encode(b) + [] == Encode(b) && [b[0], b[1]] + [] == b;
    } else {
      QuadInverse(b[0], b[1], b[2], Encode(b[3..]) == []);
      DecodeEncode(b[3..]);
      DecodeStep(Quad(b[0], b[1], b[2]), Encode(b[3..]), [b[0], b[1], b[2]], b[3..]);
      assert [b[0], b[1], b[2]] + b[3..] == b;
    }
  }

  /** Splitting 24 bits into sextets undoes joining them. */
  lemma SextetsJoin(a: Sextet, b: Sextet, c: Sextet, d: Sextet)
    ensures var x, y, z := a * 4 + b / 16, b % 16 * 16 + c / 4, c % 4 * 64 + d;
            0 <= x < 256 && 0 <= y < 256 && 0 <= z < 256
            && x / 4 == a && x % 4 * 16 + y / 16 == b && y % 16 * 4 + z / 64 == c && z % 64 == d
  {
  }

  lemma QuadCanonical(s: string, a: Sextet, b: Sextet, c: Sextet, d: Sextet)
    requires s == [Symbol(a), Symbol(b), Symbol(c), Symbol(d)]
    ensures var x, y, z := a * 4 + b / 16, b % 16 * 16 + c / 4, c % 4 * 64 + d;
            0 <= x < 256 && 0 <= y < 256 && 0 <= z < 256 && Encode([x, y, z]) == s
  {
    hide Symbol;
    SextetsJoin(a, b, c, d);
    var x: Byte, y: Byte, z: Byte := a * 4 + b / 16, b % 16 * 16 + c / 4, c % 4 * 64 + d;
    assert Quad(x, y, z) == s;
    assert [x, y, z][3..] == [];
  }

  /** A quantum that decodes is the encoding of what it decodes to. */
  lemma QuantumCanonical(s: string, final: bool)
    requires |s| == 4 && DecodeQuantum(s, final).Some?
    ensures var d := DecodeQuantum(s, final).value;
            1 <= |d| <= 3 && Encode(d) == s && (!final ==> |d| == 3)
  {
    SextetInverse(s[0]);
    SextetInverse(s[1]);
    SextetInverse(s[2]);
    SextetInverse(s[3]);
    var a, b, c, d := SextetOf(s[0]).value, SextetOf(s[1]).value, SextetOf(s[2]), SextetOf(s[3]);
    if c.Some? && d.Some? {
      QuadCanonical(s, a, b, c.value, d.value);
    } else if c.Some? {
      SextetsJoin(a, b, c.value, 0);
    } else {
      SextetsJoin(a, b, 0, 0);
    }
  }

  /** The encoding is canonical: only the encoding of `b` decodes to `b`. */
  lemma {:induction false} EncodeDecode(s: string)
    ensures Decode(s).Some? ==> Encode(Decode(s).value) == s
  {
    if |s| >= 4 {
      var head, tail := DecodeQuantum(s[..4], |s| == 4), Decode(s[4..]);
      if head.Some? && tail.Some? {
        QuantumCanonical(s[..4], |s| == 4);
        EncodeDecode(s[4..]);
        var b := head.value + tail.value;
        if |s| > 4 {
          assert b[3..] == tail.value;
          assert Encode(head.value) == Quad(b[0], b[1], b[2]) + Encode(head.value[3..]);
          assert Quad(b[0], b[1], b[2]) == s[..4];
        } else {
          assert b == head.value;
        }
      }
    }
  }

  lemma DecodeExact(s: string, b: seq<Byte>)
    ensures Decode(s) == Some(b) <==> s == Encode(b)
  {
    DecodeEncode(b);
    EncodeDecode(s);
  }

  /** Encoded text never contains the characters that delimit a cipher string. */
  lemma {:induction false} EncodeClean(b: seq<Byte>)
    ensures forall c :: c in Encode(b) ==> c != '|' && c != '.'
  {
    if |b| == 1 {
      SymbolInverse(b[0] / 4);
      SymbolInverse(b[0] % 4 * 16);
    } else if |b| == 2 {
      SymbolInverse(b[0] / 4);
      SymbolInverse(b[0] % 4 * 16 + b[1] / 16);
      SymbolInverse(b[1] % 16 * 4);
    } else if |b| > 2 {
      SymbolInverse(b[0] / 4);
      SymbolInverse(b[0] % 4 * 16 + b[1] / 16);
      SymbolInverse(b[1] % 16 * 4 + b[2] / 64);
      SymbolInverse(b[2] % 64);
      EncodeClean(b[3..]);
    }
  }

  // ----- the encoding, bit by bit -----

  const UPPER := "ABCDEFGHIJKLMNOPQRSTUVWXYZ"
  const LOWER := "abcdefghijklmnopqrstuvwxyz"
  const DIGITS := "0123456789"
  const ALPHABET := UPPER + LOWER + DIGITS + "+/"

  /** The symbols are those of the standard alphabet, in its order. */
  lemma SymbolIs(v: Sextet)
    ensures |ALPHABET| == 64 && Symbol(v) == ALPHABET[v]
  {
    if v < 26 {
      assert ALPHABET[v] == UPPER[v];
    } else if v < 52 {
      assert ALPHABET[v] == LOWER[v - 26];
    } else if v < 62 {
      assert ALPHABET[v] == DIGITS[v - 52];
    } else {
      assert ALPHABET[v] == "+/"[v - 62];
    }
  }

  /** Bit `n` of the byte string, the first bit of a byte being its highest; zero beyond the end. */
  function BitAt(b: seq<Byte>, n: nat): nat {
    if n / 8 < |b| then BitOf(b[n / 8], 7 - n % 8) else 0
  }

  /** The six bits from bit `n` on. */
  function SixBits(b: seq<Byte>, n: nat): nat {
    32 * BitAt(b, n) + 16 * BitAt(b, n + 1) + 8 * BitAt(b, n + 2)
    + 4 * BitAt(b, n + 3) + 2 * BitAt(b, n + 4) + BitAt(b, n + 5)
  }

  /** The number whose binary digits are the `n` of `x` from `m` on. */
  function BinaryValue(x: nat, m: nat, n: nat): nat
    decreases n
  {
    if n == 0 then 0 else BitOf(x, m) + 2 * BinaryValue(x, m + 1, n - 1)
  }

  lemma {:induction false} DigitsShift(x: nat, m: nat, n: nat)
    ensures BinaryValue(x, m + 1, n) == BinaryValue(x / 2, m, n)
    decreases n
  {
    if n > 0 {
      DigitsShift(x, m + 1, n - 1);
    }
  }

  lemma {:induction false} DigitsAll(x: nat, n: nat)
    requires x < Pow2(n)
    ensures BinaryValue(x, 0, n) == x
  {
    if n > 0 {
      DigitsShift(x, 0, n - 1);
      DigitsAll(x / 2, n - 1);
    }
  }

  lemma ByteBits(x: Byte)
    ensures x == 128 * BitOf(x, 7) + 64 * BitOf(x, 6) + 32 * BitOf(x, 5) + 16 * BitOf(x, 4) + 8 * BitOf(x, 3)
                 + 4 * BitOf(x, 2) + 2 * BitOf(x, 1) + BitOf(x, 0)
    ensures forall k :: 0 <= k < 8 ==> 0 <= BitOf(x, k) < 2
  {
    BitsSmall(x);
    Pow2Eight();
    DigitsAll(x, 8);
    hide BitOf, Pow2;
    assert BinaryValue(x, 7, 1) == BitOf(x, 7) + 2 * BinaryValue(x, 8, 0);
    assert BinaryValue(x, 5, 3) == BitOf(x, 5) + 2 * BinaryValue(x, 6, 2);
    assert BinaryValue(x, 3, 5) == BitOf(x, 3) + 2 * BinaryValue(x, 4, 4);
    assert BinaryValue(x, 1, 7) == BitOf(x, 1) + 2 * BinaryValue(x, 2, 6);
  }

  lemma {:induction false} BitSmall(x: nat, k: nat)
    ensures BitOf(x, k) < 2
  {
    if k > 0 {
      BitSmall(x / 2, k - 1);
    }
  }

  lemma BitsSmall(x: Byte)
    ensures forall k :: 0 <= k < 8 ==> 0 <= BitOf(x, k) < 2
  {
    forall k | 0 <= k < 8 ensures BitOf(x, k) < 2 {
      BitSmall(x, k);
    }
  }

  lemma FirstSextets(b: seq<Byte>)
    requires b != []
    ensures SixBits(b, 0) == b[0] / 4
    ensures SixBits(b, 6) == b[0] % 4 * 16 + (if |b| > 1 then b[1] / 16 else 0)
    ensures SixBits(b, 12) == (if |b| > 1 then b[1] % 16 * 4 else 0) + (if |b| > 2 then b[2] / 64 else 0)
    ensures SixBits(b, 18) == if |b| > 2 then b[2] % 64 else 0
  {
    hide BitOf;
    ByteBits(b[0]);
    if |b| > 1 {
      ByteBits(b[1]);
    }
    if |b| > 2 {
      ByteBits(b[2]);
    }
  }

  lemma BitAtRest(b: seq<Byte>, n: nat)
    requires |b| >= 3
    ensures BitAt(b[3..], n) == BitAt(b, n + 24)
  {
    assert (n + 24) / 8 == n / 8 + 3 && (n + 24) % 8 == n % 8;
  }

  lemma SixBitsRest(b: seq<Byte>, n: nat)
    requires |b| >= 3
    ensures SixBits(b[3..], n) == SixBits(b, n + 24)
  {
    hide BitAt;
    forall i | n <= i < n + 6 ensures BitAt(b[3..], i) == BitAt(b, i + 24) {
      BitAtRest(b, i);
    }
  }

  /** The symbol of the next six bits, or `=` where none are left. */
  predicate IsEncoded(b: seq<Byte>, k: nat, c: char) {
    if 6 * k < 8 * |b| then SixBits(b, 6 * k) < 64 && c == ALPHABET[SixBits(b, 6 * k)] else c == '='
  }

  lemma IsSymbol(b: seq<Byte>, k: nat, v: Sextet)
    requires 6 * k < 8 * |b| ==> SixBits(b, 6 * k) == v
    ensures |ALPHABET| == 64
    ensures IsEncoded(b, k, if 6 * k < 8 * |b| then ALPHABET[v] else '=')
  {
    SymbolIs(v);
    hide SixBits, Symbol;
  }

  lemma FirstQuad(b: seq<Byte>, k: nat)
    requires b != [] && k < 4
    ensures |Encode(b)| >= 4 && IsEncoded(b, k, Encode(b)[k])
  {
    FirstSextets(b);
    var s := FirstSymbols(b);
    SymbolIs(s[k]);
    hide SixBits, Symbol, ALPHABET, Encode, IsEncoded;
    assert 6 * k < 8 * |b| ==> SixBits(b, 6 * k) == s[k];
    IsSymbol(b, k, s[k]);
  }

  lemma FirstSymbols(b: seq<Byte>) returns (s: seq<Sextet>)
    requires b != []
    ensures |s| == 4 && |Encode(b)| >= 4
    ensures s == [b[0] / 4, b[0] % 4 * 16 + (if |b| > 1 then b[1] / 16 else 0),
                  (if |b| > 1 then b[1] % 16 * 4 else 0) + (if |b| > 2 then b[2] / 64 else 0),
                  if |b| > 2 then b[2] % 64 else 0]
    ensures forall k :: 0 <= k < 4 ==> Encode(b)[k] == if 6 * k < 8 * |b| then Symbol(s[k]) else '='
  {
    s := [b[0] / 4, b[0] % 4 * 16 + (if |b| > 1 then b[1] / 16 else 0),
          (if |b| > 1 then b[1] % 16 * 4 else 0) + (if |b| > 2 then b[2] / 64 else 0),
          if |b| > 2 then b[2] % 64 else 0];
    hide Symbol;
  }

  /**
   The encoding as section 4 of RFC 4648 has it: four characters for every three bytes or part of them, each
   the symbol of the next six bits, and `=` where no bits are left.
   */
  lemma {:induction false} EncodedAt(b: seq<Byte>, k: nat)
    ensures |Encode(b)| == (|b| + 2) / 3 * 4
    ensures k < |Encode(b)| ==> IsEncoded(b, k, Encode(b)[k])
    decreases |b|
  {
    hide SixBits, Symbol, IsEncoded;
    if b != [] {
      if k < 4 {
        FirstQuad(b, k);
      }
      if |b| >= 3 {
        EncodedAt(b[3..], if k < 4 then 0 else k - 4);
        if k >= 4 {
          EncodedRest(b, k - 4);
        }
      }
    }
  }

  lemma EncodedRest(b: seq<Byte>, k: nat)
    requires |b| >= 3
    ensures forall c :: IsEncoded(b[3..], k, c) <==> IsEncoded(b, k + 4, c)
  {
    hide SixBits;
    SixBitsRest(b, 6 * k);
  }
}
