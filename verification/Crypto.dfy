/**
 Decrypting a cipher string (src/vault/crypto.rs): MAC check, CBC chaining (section 6.2 of
 NIST SP 800-38A) and padding removal (section 6.3 of RFC 5652). The block cipher, HMAC, HKDF,
 RSA-OAEP and UTF-8 decoding are parameters; only the block cipher carries a law.
 */
module Crypto {
  import opened Results
  import opened Bytes
  import opened CipherStrings

  type RsaKey = seq<Byte>

  datatype OaepHash = OaepSha256 | OaepSha1

  datatype Primitives = Primitives(
    aesEncrypt: (Key, Block) -> Block,
    aesDecrypt: (Key, Block) -> Block,
    hmac: (seq<Byte>, seq<Byte>) -> seq<Byte>,
    hkdfExpand: (seq<Byte>, string) -> Key,
    rsaFromPkcs8: seq<Byte> -> Option<RsaKey>,
    rsaDecrypt: (OaepHash, RsaKey, seq<Byte>) -> Option<seq<Byte>>,
    utf8: seq<Byte> -> Option<string>
  )

  /** Under every key the block cipher is a permutation of the blocks. */
  ghost predicate Lawful(p: Primitives) {
    && (forall k: Key, b: Block :: p.aesDecrypt(k, p.aesEncrypt(k, b)) == b)
    && (forall k: Key, b: Block :: p.aesEncrypt(k, p.aesDecrypt(k, b)) == b)
  }

  datatype SymmetricKey = SymmetricKey(encKey: seq<Byte>, macKey: seq<Byte>)

  type Outcome = Result<seq<Byte>, CryptoError>

  // ----- padding -----

  function Pad(data: seq<Byte>): (r: seq<Byte>)
    ensures |r| % 16 == 0
  {
    data + seq(16 - |data| % 16, _ => 16 - |data| % 16)
  }

  function Unpad(data: seq<Byte>, n: nat): Outcome
    requires n > 0
  {
    if data == [] || |data| % n != 0 then Err(CryptoError.Unpad) else
    var k := data[|data| - 1];
    if k == 0 || k > n then Err(CryptoError.Unpad) else
    assert |data| >= n;
    if forall i | |data| - k <= i < |data| :: data[i] == k then Ok(data[..|data| - k]) else Err(CryptoError.Unpad)
  }

  /** Unpadding accepts exactly the padded buffers and returns what was padded. */
  lemma UnpadExact(data: seq<Byte>, m: seq<Byte>)
    ensures Unpad(data, 16) == Ok(m) <==> data == Pad(m)
  {
    if Unpad(data, 16) == Ok(m) {
      var k := data[|data| - 1];
      assert k == 16 - |m| % 16;
      assert data == m + data[|m|..];
    }
    if data == Pad(m) {
      assert data[..|m|] == m;
    }
  }

  // ----- CBC -----

  function CbcEncrypt(p: Primitives, key: Key, iv: Block, text: seq<Byte>): (r: seq<Byte>)
    requires |text| % 16 == 0
    ensures |r| == |text|
    decreases |text|
  {
    if text == [] then [] else
    var c := p.aesEncrypt(key, Xor(text[..16], iv));
    c + CbcEncrypt(p, key, c, text[16..])
  }

  function CbcDecrypt(p: Primitives, key: Key, iv: Block, ct: seq<Byte>): (r: seq<Byte>)
    requires |ct| % 16 == 0
    ensures |r| == |ct|
    decreases |ct|
  {
    if ct == [] then [] else
    Xor(p.aesDecrypt(key, ct[..16]), iv) + CbcDecrypt(p, key, ct[..16], ct[16..])
  }

  lemma {:induction false} CbcDecryptEncrypt(p: Primitives, key: Key, iv: Block, text: seq<Byte>)
    requires |text| % 16 == 0 && Lawful(p)
    ensures CbcDecrypt(p, key, iv, CbcEncrypt(p, key, iv, text)) == text
    decreases |text|
  {
    if text != [] {
      var c := p.aesEncrypt(key, Xor(text[..16], iv));
      var ct := CbcEncrypt(p, key, iv, text);
      assert ct[..16] == c && ct[16..] == CbcEncrypt(p, key, c, text[16..]);
      XorInvolution(text[..16], iv);
      CbcDecryptEncrypt(p, key, c, text[16..]);
      assert text[..16] + text[16..] == text;
    }
  }

  lemma {:induction false} CbcEncryptDecrypt(p: Primitives, key: Key, iv: Block, ct: seq<Byte>)
    requires |ct| % 16 == 0 && Lawful(p)
    ensures CbcEncrypt(p, key, iv, CbcDecrypt(p, key, iv, ct)) == ct
    decreases |ct|
  {
    if ct != [] {
      var b := Xor(p.aesDecrypt(key, ct[..16]), iv);
      var text := CbcDecrypt(p, key, iv, ct);
      assert text[..16] == b && text[16..] == CbcDecrypt(p, key, ct[..16], ct[16..]);
      XorInvolution(p.aesDecrypt(key, ct[..16]), iv);
      CbcEncryptDecrypt(p, key, ct[..16], ct[16..]);
      assert ct[..16] + ct[16..] == ct;
    }
  }

  method WriteBlock(buf: array<Byte>, i: nat, b: Block)
    requires i + 16 <= buf.Length
    modifies buf
    ensures buf[..] == old(buf[..i]) + b + old(buf[i + 16..])
  {
    forall j | 0 <= j < 16 {
      buf[i + j] := b[j];
    }
  }

  lemma CbcDecryptStep(p: Primitives, key: Key, prev: Block, done: seq<Byte>, rest: seq<Byte>)
    requires |rest| % 16 == 0 && rest != []
    ensures done + CbcDecrypt(p, key, prev, rest)
         == done + Xor(p.aesDecrypt(key, rest[..16]), prev) + CbcDecrypt(p, key, rest[..16], rest[16..])
  {
  }

  /** The in-place decryption of a block-aligned buffer, one block at a time. */
  method CbcDecryptInPlace(p: Primitives, key: Key, iv: Block, buf: array<Byte>)
    requires buf.Length % 16 == 0
    modifies buf
    ensures buf[..] == CbcDecrypt(p, key, iv, old(buf[..]))
  {
    hide Xor, CbcDecrypt;
    var i, prev := 0, iv;
    ghost var done, rest := [], buf[..];
    while i < buf.Length
      invariant 0 <= i <= buf.Length && |rest| == buf.Length - i && |rest| % 16 == 0
      invariant buf[..] == done + rest && |done| == i
      invariant done + CbcDecrypt(p, key, prev, rest) == CbcDecrypt(p, key, iv, old(buf[..]))
    {
      var cur: Block := buf[i..i + 16];
      var plain := Xor(p.aesDecrypt(key, cur), prev);
      assert cur == rest[..16] && buf[..i] == done && buf[i + 16..] == rest[16..];
      CbcDecryptStep(p, key, prev, done, rest);
      WriteBlock(buf, i, plain);
      done, rest := done + plain, rest[16..];
      i, prev := i + 16, cur;
    }
    assert rest == [] && done + [] == done;
  }

  /** A MAC that is fed piece by piece. */
  class RunningMac {
    const p: Primitives
    const key: seq<Byte>
    var fed: seq<Byte>

    constructor (p: Primitives, key: seq<Byte>)
      ensures this.p == p && this.key == key && fed == []
    {
      this.p, this.key, fed := p, key, [];
    }

    method Update(data: seq<Byte>)
      modifies this
      ensures fed == old(fed) + data
    {
      fed := fed + data;
    }

    method Finalize() returns (tag: seq<Byte>)
      ensures tag == p.hmac(key, fed)
    {
      tag := p.hmac(key, fed);
    }
  }

  // ----- decryption -----

  /** What decrypting `cs` under `key` yields, error by error in the order the checks are made. */
  function Decrypted(p: Primitives, cs: CipherString, key: SymmetricKey): Outcome {
    if |cs.iv| != 16 then Err(InvalidIv(|cs.iv|))
    else if cs.ct == [] || |cs.ct| % 16 != 0 then Err(InvalidCiphertext(|cs.ct|))
    else if cs.encType == AES_CBC256_HMAC_SHA256 && key.macKey == [] then Err(MacKeyMissing)
    else if cs.encType == AES_CBC256_HMAC_SHA256 && p.hmac(key.macKey, cs.iv + cs.ct) != cs.mac then Err(MacMismatch)
    else if |key.encKey| != 32 then Err(EncKeyLength)
    else Unpad(CbcDecrypt(p, key.encKey, cs.iv, cs.ct), 16)
  }

  method Decrypt(p: Primitives, cs: CipherString, key: SymmetricKey) returns (r: Outcome)
    ensures r == Decrypted(p, cs, key)
  {
    if |cs.iv| != 16 {
      return Err(InvalidIv(|cs.iv|));
    }
    if cs.ct == [] || |cs.ct| % 16 != 0 {
      return Err(InvalidCiphertext(|cs.ct|));
    }
    if cs.encType == AES_CBC256_HMAC_SHA256 {
      if key.macKey == [] {
        return Err(MacKeyMissing);
      }
      var mac := new RunningMac(p, key.macKey);
      mac.Update(cs.iv);
      mac.Update(cs.ct);
      var expected := mac.Finalize();
      assert [] + cs.iv + cs.ct == cs.iv + cs.ct;
      if expected != cs.mac {
        return Err(MacMismatch);
      }
    }
    if |key.encKey| != 32 {
      return Err(EncKeyLength);
    }
    var buf := new Byte[|cs.ct|](i requires 0 <= i < |cs.ct| => cs.ct[i]);
    assert buf[..] == cs.ct;
    CbcDecryptInPlace(p, key.encKey, cs.iv, buf);
    r := Unpad(buf[..], 16);
  }

  /** Decryption succeeds with `m` exactly on the encryption of `m`, and for type 2 only under a correct MAC. */
  lemma DecryptExact(p: Primitives, cs: CipherString, key: SymmetricKey, m: seq<Byte>)
    requires Lawful(p)
    ensures Decrypted(p, cs, key) == Ok(m) <==>
            && |cs.iv| == 16 && |key.encKey| == 32
            && cs.ct == CbcEncrypt(p, key.encKey, cs.iv, Pad(m))
            && (cs.encType == AES_CBC256_HMAC_SHA256 ==>
                  key.macKey != [] && cs.mac == p.hmac(key.macKey, cs.iv + cs.ct))
  {
    if |cs.iv| == 16 && |key.encKey| == 32 {
      CbcDecryptEncrypt(p, key.encKey, cs.iv, Pad(m));
      if |cs.ct| % 16 == 0 {
        UnpadExact(CbcDecrypt(p, key.encKey, cs.iv, cs.ct), m);
        CbcEncryptDecrypt(p, key.encKey, cs.iv, cs.ct);
      }
    }
  }

  /** An IV of one block and a whole number of blocks of ciphertext. */
  predicate ShapedAsBlocks(cs: CipherString) {
    |cs.iv| == 16 && |cs.ct| > 0 && |cs.ct| % 16 == 0
  }

  /** The MAC that type 2 asks for is there and right. */
  predicate MacHolds(p: Primitives, cs: CipherString, key: SymmetricKey) {
    cs.encType == 2 ==> key.macKey != [] && cs.mac == p.hmac(key.macKey, cs.iv + cs.ct)
  }

  /** Each error of a decryption, exactly. */
  lemma DecryptErrorsExactly(p: Primitives, cs: CipherString, key: SymmetricKey)
    ensures var r := Decrypted(p, cs, key);
            && (forall n :: r == Err(InvalidIv(n)) <==> |cs.iv| == n && n != 16)
            && (forall n :: r == Err(InvalidCiphertext(n)) <==>
                  |cs.iv| == 16 && |cs.ct| == n && (n == 0 || n % 16 != 0))
            && (r == Err(MacKeyMissing) <==> ShapedAsBlocks(cs) && cs.encType == 2 && key.macKey == [])
            && (r == Err(MacMismatch) <==>
                  ShapedAsBlocks(cs) && cs.encType == 2 && key.macKey != []
                      && cs.mac != p.hmac(key.macKey, cs.iv + cs.ct))
            && (r == Err(EncKeyLength) <==> ShapedAsBlocks(cs) && MacHolds(p, cs, key) && |key.encKey| != 32)
            && (r == Err(CryptoError.Unpad) <==>
                  && ShapedAsBlocks(cs) && MacHolds(p, cs, key) && |key.encKey| == 32
                  && forall m :: CbcDecrypt(p, key.encKey, cs.iv, cs.ct) != Pad(m))
  {
    if ShapedAsBlocks(cs) && MacHolds(p, cs, key) && |key.encKey| == 32 {
      var text := CbcDecrypt(p, key.encKey, cs.iv, cs.ct);
      hide CbcDecrypt, Unpad, Pad;
      forall m: seq<Byte> ensures Unpad(text, 16) == Ok(m) <==> text == Pad(m) {
        UnpadExact(text, m);
      }
      UnpadError(text);
    }
  }

  lemma UnpadError(data: seq<Byte>)
    ensures Unpad(data, 16).Err? ==> Unpad(data, 16) == Err(CryptoError.Unpad)
  {
  }

  // ----- the writer the tests use -----

  function Encrypt(p: Primitives, encType: nat, key: SymmetricKey, iv: Block, m: seq<Byte>): (cs: CipherString)
    requires |key.encKey| == 32
  {
    var ct := CbcEncrypt(p, key.encKey, iv, Pad(m));
    CipherString(encType, iv, ct, if encType == AES_CBC256_HMAC_SHA256 then p.hmac(key.macKey, iv + ct) else [])
  }

  function MakeType2(p: Primitives, key: SymmetricKey, iv: Block, m: seq<Byte>): string
    requires |key.encKey| == 32
  {
    Print(Encrypt(p, AES_CBC256_HMAC_SHA256, key, iv, m))
  }

  function DecryptBytes(p: Primitives, s: string, key: SymmetricKey): Outcome {
    match Parse(s)
    case Err(e) => Err(e)
    case Ok(cs) => Decrypted(p, cs, key)
  }

  /** Printing, parsing and decrypting returns the plaintext, for every key, IV and plaintext. */
  lemma RoundTrip(p: Primitives, key: SymmetricKey, iv: Block, m: seq<Byte>)
    requires Lawful(p) && |key.encKey| == 32 && |key.macKey| == 32
    ensures DecryptBytes(p, MakeType2(p, key, iv, m), key) == Ok(m)
  {
    hide Parse, Print, Decrypted, Pad, CbcEncrypt;
    var cs := Encrypt(p, AES_CBC256_HMAC_SHA256, key, iv, m);
    ParsePrint(cs);
    DecryptExact(p, cs, key, m);
  }

  /** The types that a key can decrypt: type 2 needs a MAC key. */
  predicate Usable(t: nat, key: SymmetricKey) {
    t == AES_CBC256 || (t == AES_CBC256_HMAC_SHA256 && key.macKey != [])
  }

  /** A text decrypts to `m` exactly when it spells a type 0 or type 2 encryption of `m` under this key. */
  lemma DecryptBytesExact(p: Primitives, s: string, key: SymmetricKey, m: seq<Byte>)
    requires Lawful(p)
    ensures DecryptBytes(p, s, key) == Ok(m) <==>
            |key.encKey| == 32 && exists iv: Block, t :: Usable(t, key) && Spells(s, Encrypt(p, t, key, iv, m))
  {
    hide Parse, Spells, Decrypted, Pad, CbcEncrypt;
    if DecryptBytes(p, s, key) == Ok(m) {
      var cs := Parse(s).value;
      ParseExact(s, cs);
      DecryptExact(p, cs, key, m);
      assert cs == Encrypt(p, cs.encType, key, cs.iv, m);
    }
    if |key.encKey| == 32 {
      forall iv: Block, t | Usable(t, key) && Spells(s, Encrypt(p, t, key, iv, m))
        ensures DecryptBytes(p, s, key) == Ok(m)
      {
        var cs := Encrypt(p, t, key, iv, m);
        ParseExact(s, cs);
        DecryptExact(p, cs, key, m);
      }
    }
  }

  // ----- what a text opens to, written out -----

  /** `s` spells type 0: an encryption of `m` under `encKey`. */
  ghost predicate SealsPlain(p: Primitives, s: string, encKey: Key, m: seq<Byte>) {
    exists iv: Block :: Spells(s, CipherString(0, iv, CbcEncrypt(p, encKey, iv, Pad(m)), []))
  }

  /** `s` spells type 2: an encryption of `m` under `encKey`, with its MAC under `macKey`. */
  ghost predicate SealsMac(p: Primitives, s: string, encKey: Key, macKey: seq<Byte>, m: seq<Byte>) {
    exists iv: Block ::
      var ct := CbcEncrypt(p, encKey, iv, Pad(m));
      Spells(s, CipherString(2, iv, ct, p.hmac(macKey, iv + ct)))
  }

  /** `s` spells an encryption of `m` that `key` can open. */
  ghost predicate Opens(p: Primitives, s: string, key: SymmetricKey, m: seq<Byte>) {
    |key.encKey| == 32
    && (SealsPlain(p, s, key.encKey, m) || (key.macKey != [] && SealsMac(p, s, key.encKey, key.macKey, m)))
  }

  lemma OpensExactly(p: Primitives, s: string, key: SymmetricKey, m: seq<Byte>)
    requires Lawful(p)
    ensures DecryptBytes(p, s, key) == Ok(m) <==> Opens(p, s, key, m)
  {
    DecryptBytesExact(p, s, key, m);
    hide Spells, CbcEncrypt, Pad, Lawful, DecryptBytes;
    if |key.encKey| == 32 {
      forall iv: Block
        ensures Encrypt(p, 0, key, iv, m) == CipherString(0, iv, CbcEncrypt(p, key.encKey, iv, Pad(m)), [])
        ensures var ct := CbcEncrypt(p, key.encKey, iv, Pad(m));
                Encrypt(p, 2, key, iv, m) == CipherString(2, iv, ct, p.hmac(key.macKey, iv + ct))
      {
      }
      if exists iv: Block, t :: Usable(t, key) && Spells(s, Encrypt(p, t, key, iv, m)) {
        var iv: Block, t :| Usable(t, key) && Spells(s, Encrypt(p, t, key, iv, m));
        assert t == 0 || (t == 2 && key.macKey != []);
      }
      if SealsPlain(p, s, key.encKey, m) {
        var iv: Block :| Spells(s, CipherString(0, iv, CbcEncrypt(p, key.encKey, iv, Pad(m)), []));
        assert Usable(0, key) && Spells(s, Encrypt(p, 0, key, iv, m));
      }
      if key.macKey != [] && SealsMac(p, s, key.encKey, key.macKey, m) {
        var iv: Block :|
          var ct := CbcEncrypt(p, key.encKey, iv, Pad(m));
          Spells(s, CipherString(2, iv, ct, p.hmac(key.macKey, iv + ct)));
        assert Usable(2, key) && Spells(s, Encrypt(p, 2, key, iv, m));
      }
    }
  }

  /** No text opens to two things under one key. */
  lemma OpensUnique(p: Primitives, s: string, key: SymmetricKey, m: seq<Byte>, n: seq<Byte>)
    requires Lawful(p) && Opens(p, s, key, m) && Opens(p, s, key, n)
    ensures m == n
  {
    hide Opens, Lawful;
    OpensExactly(p, s, key, m);
    OpensExactly(p, s, key, n);
  }

  // ----- keys -----

  function SplitKey(b: seq<Byte>): SymmetricKey
    requires |b| == 64
  {
    SymmetricKey(b[..32], b[32..])
  }

  /** HKDF-Expand needs a pseudorandom key of at least one hash length. */
  function StretchKey(p: Primitives, master: seq<Byte>): Result<SymmetricKey, CryptoError> {
    if |master| < 32 then Err(Hkdf)
    else Ok(SymmetricKey(p.hkdfExpand(master, "enc"), p.hkdfExpand(master, "mac")))
  }

  function LegacyKey(master: seq<Byte>): SymmetricKey {
    SymmetricKey(master, [])
  }

  function DecryptSymmetricKey(p: Primitives, text: string, master: seq<Byte>): Result<SymmetricKey, CryptoError> {
    if text == [] then Err(EmptyKey) else
    match Parse(text)
    case Err(e) => Err(e)
    case Ok(cs) =>
      match StretchKey(p, master)
      case Err(e) => Err(e)
      case Ok(stretched) =>
        var first := Decrypted(p, cs, stretched);
        var d := if first.Ok? then first else Decrypted(p, cs, LegacyKey(master));
        if d.Err? then Err(KeyFallbackFailed)
        else if |d.value| != 64 then Err(SymKeyLength(|d.value|))
        else Ok(SplitKey(d.value))
  }

  /**
   Exactly when a symmetric key comes out: the master key is long enough, the text parses as type 0
   or 2, and either the stretched key decrypts it to 64 bytes, or that attempt fails, the text is
   type 0 and the raw master key decrypts it to 64 bytes.
   */
  lemma SymmetricKeyExact(p: Primitives, text: string, master: seq<Byte>, k: SymmetricKey)
    ensures DecryptSymmetricKey(p, text, master) == Ok(k) <==>
            && |master| >= 32 && Parse(text).Ok? && |k.encKey| == 32 && |k.macKey| == 32
            && var cs, stretched := Parse(text).value, StretchKey(p, master).value;
               && cs.encType in {AES_CBC256, AES_CBC256_HMAC_SHA256}
               && (|| Decrypted(p, cs, stretched) == Ok(k.encKey + k.macKey)
                   || (&& Decrypted(p, cs, stretched).Err?
                       && cs.encType == AES_CBC256
                       && Decrypted(p, cs, LegacyKey(master)) == Ok(k.encKey + k.macKey)))
  {
    if Parse(text).Ok? {
      ParseExact(text, Parse(text).value);
      var b := k.encKey + k.macKey;
      if |k.encKey| == 32 && |k.macKey| == 32 {
        assert |b| == 64 && SplitKey(b) == k;
      }
      forall d: seq<Byte> | |d| == 64 && SplitKey(d) == k ensures d == b {
        assert d == d[..32] + d[32..];
      }
    }
  }

  /** For type 2 a key comes out only if the MAC verifies under the stretched key; RSA texts never yield one. */
  lemma KeyIsAuthenticated(p: Primitives, text: string, master: seq<Byte>)
    requires DecryptSymmetricKey(p, text, master).Ok?
    ensures var cs := Parse(text).value;
            && !IsRsa(cs.encType)
            && (cs.encType == AES_CBC256_HMAC_SHA256 ==>
                  cs.mac == p.hmac(p.hkdfExpand(master, "mac"), cs.iv + cs.ct))
  {
    SymmetricKeyExact(p, text, master, DecryptSymmetricKey(p, text, master).value);
  }

  /** A key wrapped the modern way is recovered, whatever the key and IV. */
  lemma ModernKeyRecovered(p: Primitives, master: seq<Byte>, iv: Block, k: SymmetricKey)
    requires Lawful(p) && |master| >= 32 && |k.encKey| == 32 && |k.macKey| == 32
    ensures DecryptSymmetricKey(p, MakeType2(p, StretchKey(p, master).value, iv, k.encKey + k.macKey), master) == Ok(k)
  {
    hide Parse, Print, Decrypted, Pad, CbcEncrypt;
    var cs := Encrypt(p, AES_CBC256_HMAC_SHA256, StretchKey(p, master).value, iv, k.encKey + k.macKey);
    ParsePrint(cs);
    DecryptExact(p, cs, StretchKey(p, master).value, k.encKey + k.macKey);
    SymmetricKeyExact(p, Print(cs), master, k);
  }

  /**
   A key wrapped the legacy way is recovered exactly when the stretched attempt, which is made first
   and has no MAC to stop it, fails or happens to give the same bytes.
   */
  lemma LegacyKeyRecovered(p: Primitives, master: Key, iv: Block, k: SymmetricKey)
    requires Lawful(p) && |k.encKey| == 32 && |k.macKey| == 32
    ensures var cs := Encrypt(p, AES_CBC256, LegacyKey(master), iv, k.encKey + k.macKey);
            var first := Decrypted(p, cs, StretchKey(p, master).value);
            DecryptSymmetricKey(p, Print(cs), master) == Ok(k) <==> first.Err? || first == Ok(k.encKey + k.macKey)
  {
    hide Parse, Print, Decrypted, Pad, CbcEncrypt;
    var cs := Encrypt(p, AES_CBC256, LegacyKey(master), iv, k.encKey + k.macKey);
    ParsePrint(cs);
    DecryptExact(p, cs, LegacyKey(master), k.encKey + k.macKey);
    SymmetricKeyExact(p, Print(cs), master, k);
  }

  // ----- values that feed the vault -----

  function DecryptStr(p: Primitives, s: string, key: SymmetricKey): Result<string, CryptoError> {
    if s == [] then Ok([]) else
    match DecryptBytes(p, s, key)
    case Err(e) => Err(e)
    case Ok(b) => if p.utf8(b).Some? then Ok(p.utf8(b).value) else Err(Utf8)
  }

  function DecryptPrivateKey(p: Primitives, s: string, key: SymmetricKey): Result<RsaKey, CryptoError> {
    if s == [] then Err(EmptyKey) else
    match DecryptBytes(p, s, key)
    case Err(e) => Err(e)
    case Ok(der) => if p.rsaFromPkcs8(der).Some? then Ok(p.rsaFromPkcs8(der).value) else Err(Pkcs8Error)
  }

  function DecryptRsa(p: Primitives, cs: CipherString, key: RsaKey): Outcome {
    if !IsRsa(cs.encType) then Err(NotRsa(cs.encType)) else
    match p.rsaDecrypt(OaepHashOf(cs.encType), key, cs.ct)
    case Some(b) => Ok(b)
    case None => Err(RsaError)
  }

  function DecryptOrgKey(p: Primitives, s: string, key: RsaKey): (r: Result<SymmetricKey, CryptoError>)
    ensures r.Ok? ==> |r.value.encKey| == 32 && |r.value.macKey| == 32
  {
    if s == [] then Err(EmptyKey) else
    match Parse(s)
    case Err(e) => Err(e)
    case Ok(cs) =>
      match DecryptRsa(p, cs, key)
      case Err(e) => Err(e)
      case Ok(b) => if |b| == 64 then Ok(SplitKey(b)) else Err(OrgKeyLength(|b|))
  }

  function OaepHashOf(t: nat): OaepHash {
    if t == RSA2048_OAEP_SHA256 then OaepSha256 else OaepSha1
  }

  /** The text spells type 3 with plaintext `b` under OAEP with SHA-256, or type 4 under OAEP with SHA-1. */
  ghost predicate SpellsRsa(p: Primitives, s: string, key: RsaKey, b: seq<Byte>) {
    exists ct ::
      || (Spells(s, CipherString(3, [], ct, [])) && p.rsaDecrypt(OaepSha256, key, ct) == Some(b))
      || (Spells(s, CipherString(4, [], ct, [])) && p.rsaDecrypt(OaepSha1, key, ct) == Some(b))
  }

  /** An organization key comes out exactly of the spellings of RSA texts whose plaintext is its two halves in order. */
  lemma OrgKeyExact(p: Primitives, s: string, key: RsaKey, k: SymmetricKey)
    ensures DecryptOrgKey(p, s, key) == Ok(k) <==>
            |k.encKey| == 32 && |k.macKey| == 32 && SpellsRsa(p, s, key, k.encKey + k.macKey)
  {
    hide Parse, Spells;
    var b := k.encKey + k.macKey;
    assert |k.encKey| == 32 && |k.macKey| == 32 ==> |b| == 64 && SplitKey(b) == k;
    if DecryptOrgKey(p, s, key) == Ok(k) {
      var cs := Parse(s).value;
      ParseExact(s, cs);
      var d := DecryptRsa(p, cs, key).value;
      assert d == d[..32] + d[32..];
      assert cs == CipherString(cs.encType, [], cs.ct, []);
    }
    if |b| == 64 && SpellsRsa(p, s, key, b) {
      var ct :| || (Spells(s, CipherString(3, [], ct, [])) && p.rsaDecrypt(OaepSha256, key, ct) == Some(b))
                || (Spells(s, CipherString(4, [], ct, [])) && p.rsaDecrypt(OaepSha1, key, ct) == Some(b));
      RsaOpens(p, s, key, ct, b);
    }
  }

  lemma RsaOpens(p: Primitives, s: string, key: RsaKey, ct: seq<Byte>, b: seq<Byte>)
    requires || (Spells(s, CipherString(3, [], ct, [])) && p.rsaDecrypt(OaepSha256, key, ct) == Some(b))
             || (Spells(s, CipherString(4, [], ct, [])) && p.rsaDecrypt(OaepSha1, key, ct) == Some(b))
    requires |b| == 64
    ensures DecryptOrgKey(p, s, key) == Ok(SplitKey(b))
  {
    hide Parse, Spells;
    var t := if Spells(s, CipherString(3, [], ct, [])) && p.rsaDecrypt(OaepSha256, key, ct) == Some(b) then 3 else 4;
    ParseExact(s, CipherString(t, [], ct, []));
    EmptyIsNoText(CipherString(t, [], ct, []));
  }

  lemma EmptyIsNoText(cs: CipherString)
    ensures Parse("") != Ok(cs)
  {
  }

  // ----- texts and keys, from the text itself -----

  /** A decrypted text, exactly: empty from empty, else what the opened bytes spell. */
  lemma TextExactly(p: Primitives, s: string, key: SymmetricKey, v: string)
    requires Lawful(p)
    ensures DecryptStr(p, s, key) == Ok(v) <==>
            if s == "" then v == "" else exists m :: Opens(p, s, key, m) && p.utf8(m) == Some(v)
  {
    hide Opens, Lawful, DecryptBytes;
    forall m: seq<Byte> ensures DecryptBytes(p, s, key) == Ok(m) <==> Opens(p, s, key, m) {
      OpensExactly(p, s, key, m);
    }
  }

  lemma PrivateKeyComes(p: Primitives, s: string, key: SymmetricKey, der: seq<Byte>, k: RsaKey)
    requires DecryptBytes(p, s, key) == Ok(der) && p.rsaFromPkcs8(der) == Some(k)
    ensures DecryptPrivateKey(p, s, key) == Ok(k)
  {
    EmptyOpensNothing(p, key);
    hide DecryptBytes;
  }

  lemma PrivateKeyCameFrom(p: Primitives, s: string, key: SymmetricKey, k: RsaKey) returns (der: seq<Byte>)
    requires DecryptPrivateKey(p, s, key) == Ok(k)
    ensures DecryptBytes(p, s, key) == Ok(der) && p.rsaFromPkcs8(der) == Some(k)
  {
    hide DecryptBytes;
    der := DecryptBytes(p, s, key).value;
  }

  /** The user's private key, exactly: what PKCS#8 reads from the opened bytes. */
  lemma PrivateKeyExactly(p: Primitives, s: string, key: SymmetricKey, k: RsaKey)
    requires Lawful(p)
    ensures DecryptPrivateKey(p, s, key) == Ok(k) <==>
            exists der :: Opens(p, s, key, der) && p.rsaFromPkcs8(der) == Some(k)
  {
    hide Opens, Lawful, DecryptBytes, DecryptPrivateKey;
    if DecryptPrivateKey(p, s, key) == Ok(k) {
      var der := PrivateKeyCameFrom(p, s, key, k);
      OpensExactly(p, s, key, der);
    }
    if exists der :: Opens(p, s, key, der) && p.rsaFromPkcs8(der) == Some(k) {
      var der :| Opens(p, s, key, der) && p.rsaFromPkcs8(der) == Some(k);
      OpensExactly(p, s, key, der);
      PrivateKeyComes(p, s, key, der, k);
    }
  }

  lemma EmptyOpensNothing(p: Primitives, key: SymmetricKey)
    ensures DecryptBytes(p, "", key).Err?
  {
  }

  /**
   The user's symmetric key, exactly: the two halves of the 64 bytes that the text opens to under the keys
   expanded from the master key with the labels `enc` and `mac`; or, only if it opens to nothing under these and
   is of type 0, under the master key itself.
   */
  lemma UserKeyExactly(p: Primitives, s: string, master: seq<Byte>, k: SymmetricKey)
    requires Lawful(p)
    ensures DecryptSymmetricKey(p, s, master) == Ok(k) <==>
            && |master| >= 32 && |k.encKey| == 32 && |k.macKey| == 32
            && var b := k.encKey + k.macKey;
               var stretched := SymmetricKey(p.hkdfExpand(master, "enc"), p.hkdfExpand(master, "mac"));
               || Opens(p, s, stretched, b)
               || (|master| == 32 && SealsPlain(p, s, master, b) && forall m :: !Opens(p, s, stretched, m))
  {
    KeyByBytes(p, s, master, k);
    hide Opens, SealsPlain, Lawful, DecryptSymmetricKey, DecryptBytes;
    if |master| >= 32 {
      var stretched := SymmetricKey(p.hkdfExpand(master, "enc"), p.hkdfExpand(master, "mac"));
      forall m: seq<Byte> ensures DecryptBytes(p, s, stretched) == Ok(m) <==> Opens(p, s, stretched, m) {
        OpensExactly(p, s, stretched, m);
      }
      LegacyOpens(p, s, master, k.encKey + k.macKey);
    }
  }

  lemma KeyByBytes(p: Primitives, s: string, master: seq<Byte>, k: SymmetricKey)
    ensures DecryptSymmetricKey(p, s, master) == Ok(k) <==>
            && |master| >= 32 && |k.encKey| == 32 && |k.macKey| == 32
            && var b := k.encKey + k.macKey;
               var stretched := SymmetricKey(p.hkdfExpand(master, "enc"), p.hkdfExpand(master, "mac"));
               var first := DecryptBytes(p, s, stretched);
               first == Ok(b) || (first.Err? && DecryptBytes(p, s, SymmetricKey(master, [])) == Ok(b))
  {
    hide Decrypted, ParseFields;
    var b := k.encKey + k.macKey;
    if |k.encKey| == 32 && |k.macKey| == 32 {
      assert |b| == 64 && SplitKey(b) == k;
    }
    forall d: seq<Byte> | |d| == 64 && SplitKey(d) == k ensures d == b {
      assert d == d[..32] + d[32..];
    }
  }

  lemma LegacyOpens(p: Primitives, s: string, master: seq<Byte>, b: seq<Byte>)
    requires Lawful(p)
    ensures DecryptBytes(p, s, SymmetricKey(master, [])) == Ok(b) <==> |master| == 32 && SealsPlain(p, s, master, b)
  {
    hide Lawful, DecryptBytes, SealsPlain;
    OpensExactly(p, s, SymmetricKey(master, []), b);
  }
}
