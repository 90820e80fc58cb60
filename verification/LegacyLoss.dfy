/** A block cipher under which every legacy-wrapped symmetric key is lost (src/vault/crypto.rs:318-336). */
module LegacyLoss {
  import opened Results
  import opened Bytes
  import opened CipherStrings
  import opened Crypto

  /** Zeros but for the last byte, which turns a padding byte of 16 into 1. */
  function Mask(): Block {
    seq(16, i => if i == 15 then 17 else 0)
  }

  function Master(): Key {
    seq(32, _ => 0)
  }

  function Stretched(): Key {
    seq(32, _ => 1)
  }

  /** The identity under the master key, and the mask under any other. */
  function ToyCipher(key: Key, b: Block): Block {
    if key == Master() then b else Xor(b, Mask())
  }

  function Toy(): Primitives {
    Primitives((key, b) => ToyCipher(key, b), (key, b) => ToyCipher(key, b), (_, _) => [], (_, _) => Stretched(),
               _ => None, (_, _, _) => None, _ => None)
  }

  lemma ToyIsLawful()
    ensures Lawful(Toy())
  {
    forall b: Block ensures Xor(Xor(b, Mask()), Mask()) == b {
      XorInvolution(b, Mask());
    }
  }

  /** The order of two masks does not matter. */
  lemma {:induction false} XorBitsSwap(a: nat, b: nat, c: nat, n: nat)
    ensures XorBits(XorBits(a, b, n), c, n) == XorBits(XorBits(a, c, n), b, n)
  {
    if n > 0 {
      XorBitsSwap(a / 2, b / 2, c / 2, n - 1);
      var ab, ac := XorBits(a / 2, b / 2, n - 1), XorBits(a / 2, c / 2, n - 1);
      Digits(ab, XorBit(a % 2, b % 2));
      Digits(ac, XorBit(a % 2, c % 2));
    }
  }

  lemma SixteenBecomesOne()
    ensures XorByte(16, 17) == 1
  {
    Pow2Eight();
    assert XorBits(1, 1, 4) == 0;
    assert XorBits(2, 2, 5) == 2 * XorBits(1, 1, 4);
    assert XorBits(4, 4, 6) == 2 * XorBits(2, 2, 5);
    assert XorBits(8, 8, 7) == 2 * XorBits(4, 4, 6);
  }

  /** The last byte that comes out under the stretched key is the one under the master key, masked. */
  lemma {:induction false} LastByteMasked(iv: Block, ct: seq<Byte>)
    requires ct != [] && |ct| % 16 == 0
    ensures CbcDecrypt(Toy(), Stretched(), iv, ct)[|ct| - 1]
            == XorByte(CbcDecrypt(Toy(), Master(), iv, ct)[|ct| - 1], 17)
    decreases |ct|
  {
    assert Stretched()[0] != Master()[0];
    if |ct| == 16 {
      assert ct[..16] == ct;
      XorBitsSwap(ct[15], 17, iv[15], 8);
    } else {
      LastByteMasked(ct[..16], ct[16..]);
    }
  }

  lemma OneByteOfPadding(buf: seq<Byte>) returns (d: seq<Byte>)
    requires |buf| == 80 && buf[79] == 1
    ensures Crypto.Unpad(buf, 16) == Ok(d) && |d| == 79
  {
    d := buf[..79];
  }

  /** The stretched attempt removes one byte of padding, not sixteen. */
  lemma StretchedAttempt(iv: Block, b: seq<Byte>) returns (d: seq<Byte>)
    requires |b| == 64
    ensures var ct := CbcEncrypt(Toy(), Master(), iv, Pad(b));
            Crypto.Unpad(CbcDecrypt(Toy(), Stretched(), iv, ct), 16) == Ok(d) && |d| == 79
  {
    ToyIsLawful();
    var padded := Pad(b);
    assert |padded| == 80 && padded[79] == 16;
    var ct := CbcEncrypt(Toy(), Master(), iv, padded);
    CbcDecryptEncrypt(Toy(), Master(), iv, padded);
    hide CbcDecrypt, CbcEncrypt, Lawful, XorByte, Pad, Crypto.Unpad, Toy, Master, Stretched;
    LastByteMasked(iv, ct);
    SixteenBecomesOne();
    d := OneByteOfPadding(CbcDecrypt(Toy(), Stretched(), iv, ct));
  }

  /** Under these lawful primitives the key is lost, whichever it is: the first attempt succeeds with 79 bytes. */
  lemma LegacyKeyLost(iv: Block, k: SymmetricKey)
    requires |k.encKey| == 32 && |k.macKey| == 32
    ensures Lawful(Toy())
    ensures var cs := Encrypt(Toy(), AES_CBC256, LegacyKey(Master()), iv, k.encKey + k.macKey);
            DecryptSymmetricKey(Toy(), Print(cs), Master()) == Err(SymKeyLength(79))
  {
    ToyIsLawful();
    var cs := Encrypt(Toy(), AES_CBC256, LegacyKey(Master()), iv, k.encKey + k.macKey);
    ParsePrint(cs);
    var d := StretchedAttempt(iv, k.encKey + k.macKey);
    hide Parse, Print, CbcEncrypt, CbcDecrypt, Crypto.Unpad;
    assert Decrypted(Toy(), cs, StretchKey(Toy(), Master()).value) == Ok(d);
  }
}
