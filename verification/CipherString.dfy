/**
 The textual form of an encrypted value: `<type>.<iv>|<ct>|<mac>` with Base64 fields
 (src/vault/crypto.rs). `Parse` follows the code; `Print` is the writer the crypto tests use.
 */
module CipherStrings {
  import opened Results
  import opened Bytes
  import opened Text
  import Base64

  const AES_CBC256: nat := 0
  const AES_CBC256_HMAC_SHA256: nat := 2
  const RSA2048_OAEP_SHA256: nat := 3
  const RSA2048_OAEP_SHA1: nat := 4

  datatype CryptoError =
    | Empty
    | MissingSeparator
    | InvalidType(text: string)
    | WrongPartCount(got: nat)
    | UnsupportedType(encType: nat)
    | Base64Error
    | InvalidIv(length: nat)
    | InvalidCiphertext(length: nat)
    | MacKeyMissing
    | MacMismatch
    | EncKeyLength
    | Unpad
    | NotRsa(encType: nat)
    | RsaError
    | Pkcs8Error
    | OrgKeyLength(length: nat)
    | SymKeyLength(length: nat)
    | KeyFallbackFailed
    | Hkdf
    | EmptyKey
    | Utf8

  datatype CipherString = CipherString(encType: nat, iv: seq<Byte>, ct: seq<Byte>, mac: seq<Byte>)

  // ----- splitting -----

  function IndexOf(s: string, c: char): (r: Option<nat>)
    ensures r.None? ==> c !in s
    ensures r.Some? ==> r.value < |s| && s[r.value] == c && c !in s[..r.value]
  {
    if s == [] then None
    else if s[0] == c then Some(0)
    else match IndexOf(s[1..], c)
      case None => None
      case Some(i) => assert s[..i + 1] == [s[0]] + s[1..][..i]; Some(i + 1)
  }

  /** Split at the first `n - 1` occurrences of `c`. */
  function SplitN(s: string, c: char, n: nat): (r: seq<string>)
    requires n > 0
    ensures 0 < |r| <= n
  {
    match IndexOf(s, c)
    case Some(i) => if n == 1 then [s] else [s[..i]] + SplitN(s[i + 1..], c, n - 1)
    case None => [s]
  }

  function Remove(s: string, c: char): (r: string)
    ensures c !in r
  {
    if s == [] then [] else (if s[0] == c then [] else [s[0]]) + Remove(s[1..], c)
  }

  // ----- the type number -----

  /** Unsigned 8-bit parsing: an optional `+`, then decimal digits with value below 256. */
  function ParseU8(s: string): Option<nat> {
    var digits := if |s| > 1 && s[0] == '+' then s[1..] else s;
    if digits == [] || !IsDigits(digits) || DecimalValue(digits) > 255 then None else Some(DecimalValue(digits))
  }

  // ----- parsing -----

  function Parse(s: string): Result<CipherString, CryptoError> {
    if s == [] then Err(Empty) else
    match IndexOf(s, '.')
    case None => Err(MissingSeparator)
    case Some(i) =>
      match ParseU8(s[..i])
      case None => Err(InvalidType(s[..i]))
      case Some(t) => ParseFields(t, s[i + 1..])
  }

  function ParseFields(t: nat, rest: string): Result<CipherString, CryptoError> {
    if t == AES_CBC256 then
      var parts := SplitN(rest, '|', 3);
      if |parts| != 2 then Err(WrongPartCount(|parts|)) else
      match (Base64.Decode(parts[0]), Base64.Decode(parts[1]))
      case (Some(iv), Some(ct)) => Ok(CipherString(t, iv, ct, []))
      case _ => Err(Base64Error)
    else if t == AES_CBC256_HMAC_SHA256 then
      var parts := SplitN(rest, '|', 4);
      if |parts| != 3 then Err(WrongPartCount(|parts|)) else
      match (Base64.Decode(parts[0]), Base64.Decode(parts[1]), Base64.Decode(parts[2]))
      case (Some(iv), Some(ct), Some(mac)) => Ok(CipherString(t, iv, ct, mac))
      case _ => Err(Base64Error)
    else if t == RSA2048_OAEP_SHA256 || t == RSA2048_OAEP_SHA1 then
      match Base64.Decode(Remove(rest, '|'))
      case Some(ct) => Ok(CipherString(t, [], ct, []))
      case None => Err(Base64Error)
    else
      Err(UnsupportedType(t))
  }

  // ----- printing -----

  predicate IsRsa(t: nat) {
    t == RSA2048_OAEP_SHA256 || t == RSA2048_OAEP_SHA1
  }

  /** The four types, with the fields a type does not carry left empty. */
  predicate WellShaped(cs: CipherString) {
    || (cs.encType == AES_CBC256 && cs.mac == [])
    || cs.encType == AES_CBC256_HMAC_SHA256
    || (IsRsa(cs.encType) && cs.iv == [] && cs.mac == [])
  }

  function Fields(cs: CipherString): string {
    if cs.encType == AES_CBC256 then Base64.Encode(cs.iv) + "|" + Base64.Encode(cs.ct)
    else if cs.encType == AES_CBC256_HMAC_SHA256 then
      Base64.Encode(cs.iv) + "|" + Base64.Encode(cs.ct) + "|" + Base64.Encode(cs.mac)
    else Base64.Encode(cs.ct)
  }

  function Print(cs: CipherString): string
    requires cs.encType < 10
  {
    [(cs.encType + 48) as char] + "." + Fields(cs)
  }

  predicate SpelledBy(s: string, cs: CipherString, t: string, rest: string) {
    s == t + "." + rest && ParseU8(t) == Some(cs.encType) && RestMatches(cs, rest)
  }

  predicate RestMatches(cs: CipherString, rest: string) {
    Fields(cs) == if IsRsa(cs.encType) then Remove(rest, '|') else rest
  }

  /** `s` is some spelling of `cs`: any text for the type number, and for RSA any stray pipes. */
  ghost predicate Spells(s: string, cs: CipherString) {
    exists t: string, rest: string :: SpelledBy(s, cs, t, rest)
  }

  // ----- facts about splitting -----

  lemma {:induction false} IndexAfter(a: string, c: char, b: string)
    requires c !in a
    ensures IndexOf(a + [c] + b, c) == Some(|a|)
  {
    var s := a + [c] + b;
    if a != [] {
      assert s[1..] == a[1..] + [c] + b;
      IndexAfter(a[1..], c, b);
    }
  }

  lemma SplitCons(a: string, c: char, b: string, n: nat)
    requires c !in a && n > 1
    ensures SplitN(a + [c] + b, c, n) == [a] + SplitN(b, c, n - 1)
  {
    IndexAfter(a, c, b);
    var s := a + [c] + b;
    assert s[..|a|] == a && s[|a| + 1..] == b;
  }

  lemma {:induction false} RemoveAbsent(s: string, c: char)
    requires c !in s
    ensures Remove(s, c) == s
  {
    if s != [] {
      RemoveAbsent(s[1..], c);
    }
  }

  /** Two parts, the second free of the delimiter, come from exactly one text. */
  lemma SplitTwo(rest: string, c: char, n: nat)
    requires n > 2
    ensures var p := SplitN(rest, c, n); |p| == 2 ==> rest == p[0] + [c] + p[1] && c !in p[0] && c !in p[1]
  {
  }

  lemma SplitUnfold(s: string, c: char, n: nat)
    requires n > 1
    ensures var p := SplitN(s, c, n);
            |p| == 1 || (p[0] == s[..|p[0]|] && c !in p[0] && |p[0]| < |s| && s[|p[0]|] == c
                         && p[1..] == SplitN(s[|p[0]| + 1..], c, n - 1))
  {
  }

  lemma Joined(s: string, a: string, c: char, b: string, d: string)
    requires |a| < |s| && a == s[..|a|] && s[|a|] == c && s[|a| + 1..] == b + [c] + d
    ensures s == a + [c] + b + [c] + d
  {
    assert s == a + [c] + s[|a| + 1..];
    assert a + [c] + (b + [c] + d) == a + [c] + b + [c] + d;
  }

  lemma SplitThree(rest: string, c: char, n: nat)
    requires n > 3
    ensures var p := SplitN(rest, c, n);
            |p| == 3 ==> rest == p[0] + [c] + p[1] + [c] + p[2] && c !in p[0] && c !in p[1] && c !in p[2]
  {
    hide SplitN;
    var p := SplitN(rest, c, n);
    SplitUnfold(rest, c, n);
    if |p| == 3 {
      SplitTwo(rest[|p[0]| + 1..], c, n - 1);
      assert p[1..][0] == p[1] && p[1..][1] == p[2];
      Joined(rest, p[0], c, p[1], p[2]);
    }
  }

  // ----- parsing is the inverse of printing -----

  lemma SplitNone(s: string, c: char, n: nat)
    requires c !in s && n > 0
    ensures SplitN(s, c, n) == [s]
  {
  }

  lemma SplitTwoFields(a: string, b: string, n: nat)
    requires '|' !in a && '|' !in b && n > 1
    ensures SplitN(a + "|" + b, '|', n) == [a, b]
  {
    hide SplitN;
    SplitCons(a, '|', b, n);
    SplitNone(b, '|', n - 1);
  }

  lemma SplitThreeFields(a: string, b: string, c: string)
    requires '|' !in a && '|' !in b && '|' !in c
    ensures SplitN(a + "|" + b + "|" + c, '|', 4) == [a, b, c]
  {
    hide SplitN;
    SplitTwoFields(b, c, 3);
    SplitCons(a, '|', b + "|" + c, 4);
    assert a + "|" + b + "|" + c == a + "|" + (b + "|" + c);
  }

  lemma FieldsInverse0(iv: seq<Byte>, ct: seq<Byte>)
    ensures ParseFields(0, Base64.Encode(iv) + "|" + Base64.Encode(ct)) == Ok(CipherString(0, iv, ct, []))
  {
    hide Base64.Decode, Base64.Encode;
    Base64.EncodeClean(iv);
    Base64.EncodeClean(ct);
    Base64.DecodeEncode(iv);
    Base64.DecodeEncode(ct);
    SplitTwoFields(Base64.Encode(iv), Base64.Encode(ct), 3);
  }

  lemma FieldsInverse2(iv: seq<Byte>, ct: seq<Byte>, mac: seq<Byte>)
    ensures ParseFields(2, Base64.Encode(iv) + "|" + Base64.Encode(ct) + "|" + Base64.Encode(mac))
         == Ok(CipherString(2, iv, ct, mac))
  {
    hide Base64.Decode, Base64.Encode;
    Base64.EncodeClean(iv);
    Base64.EncodeClean(ct);
    Base64.EncodeClean(mac);
    Base64.DecodeEncode(iv);
    Base64.DecodeEncode(ct);
    Base64.DecodeEncode(mac);
    SplitThreeFields(Base64.Encode(iv), Base64.Encode(ct), Base64.Encode(mac));
  }

  lemma FieldsOfParsed(t: nat, rest: string, cs: CipherString)
    requires ParseFields(t, rest) == Ok(cs)
    ensures WellShaped(cs) && t == cs.encType && RestMatches(cs, rest)
  {
    hide Base64.Decode, Base64.Encode;
    if t == AES_CBC256 {
      var p := SplitN(rest, '|', 3);
      SplitTwo(rest, '|', 3);
      Base64.DecodeExact(p[0], cs.iv);
      Base64.DecodeExact(p[1], cs.ct);
    } else if t == AES_CBC256_HMAC_SHA256 {
      var p := SplitN(rest, '|', 4);
      SplitThree(rest, '|', 4);
      Base64.DecodeExact(p[0], cs.iv);
      Base64.DecodeExact(p[1], cs.ct);
      Base64.DecodeExact(p[2], cs.mac);
    } else {
      Base64.DecodeExact(Remove(rest, '|'), cs.ct);
    }
  }

  lemma ParsedOfFields(rest: string, cs: CipherString)
    requires WellShaped(cs) && RestMatches(cs, rest)
    ensures ParseFields(cs.encType, rest) == Ok(cs)
  {
    hide Base64.Decode, Base64.Encode;
    if cs.encType == AES_CBC256 {
      FieldsInverse0(cs.iv, cs.ct);
    } else if cs.encType == AES_CBC256_HMAC_SHA256 {
      FieldsInverse2(cs.iv, cs.ct, cs.mac);
    } else {
      Base64.DecodeEncode(cs.ct);
    }
  }

  lemma TypeTextHasNoDot(t: string)
    requires ParseU8(t).Some?
    ensures '.' !in t
  {
    if |t| > 1 && t[0] == '+' {
      assert t == ['+'] + t[1..];
    }
  }

  lemma ParseSplit(t: string, rest: string)
    requires ParseU8(t).Some?
    ensures Parse(t + "." + rest) == ParseFields(ParseU8(t).value, rest)
  {
    TypeTextHasNoDot(t);
    IndexAfter(t, '.', rest);
    var s := t + "." + rest;
    assert s[..|t|] == t && s[|t| + 1..] == rest;
  }

  /** Parsing accepts a text as `cs` exactly when `cs` is well shaped and the text spells it. */
  lemma ParseExact(s: string, cs: CipherString)
    ensures Parse(s) == Ok(cs) <==> WellShaped(cs) && Spells(s, cs)
  {
    hide ParseFields, RestMatches, WellShaped, ParseU8;
    if Parse(s) == Ok(cs) {
      var i := IndexOf(s, '.').value;
      var t, rest := s[..i], s[i + 1..];
      FieldsOfParsed(ParseU8(t).value, rest, cs);
      assert s == t + "." + rest;
      assert SpelledBy(s, cs, t, rest);
    }
    if WellShaped(cs) && Spells(s, cs) {
      var t: string, rest: string :| SpelledBy(s, cs, t, rest);
      ParseSplit(t, rest);
      ParsedOfFields(rest, cs);
    }
  }

  lemma DigitText(d: nat)
    requires d < 10
    ensures ParseU8([(d + 48) as char]) == Some(d)
  {
    var t := [(d + 48) as char];
    assert t[..0] == [] && DecimalValue(t[..0]) == 0;
  }

  /** Printing and parsing back returns the value, for all four types. */
  lemma ParsePrint(cs: CipherString)
    requires WellShaped(cs)
    ensures Parse(Print(cs)) == Ok(cs)
  {
    DigitText(cs.encType);
    if IsRsa(cs.encType) {
      Base64.EncodeClean(cs.ct);
      RemoveAbsent(Fields(cs), '|');
    }
    ParseSplit([(cs.encType + 48) as char], Fields(cs));
    ParsedOfFields(Fields(cs), cs);
  }

  // ----- the accepted texts, written out -----

  /** `t` is decimal text, with or without a plus sign, for `v`, and `v` fits eight bits. */
  ghost predicate IsTypeText(t: string, v: nat) {
    exists d: string :: (t == d || t == "+" + d) && d != "" && IsDigits(d) && DecimalValue(d) == v && v < 256
  }

  lemma TypeTextExactly(t: string, v: nat)
    ensures ParseU8(t) == Some(v) <==> IsTypeText(t, v)
  {
    if ParseU8(t) == Some(v) {
      var d := if |t| > 1 && t[0] == '+' then t[1..] else t;
      assert t == d || t == "+" + d;
    }
    if IsTypeText(t, v) {
      var d: string :| (t == d || t == "+" + d) && d != "" && IsDigits(d) && DecimalValue(d) == v && v < 256;
      assert IsDigit(d[0]);
      if t == "+" + d {
        assert t[0] == '+' && t[1..] == d;
      }
    }
  }

  /** Removing a character takes it away and leaves any other, */
  lemma RemoveOne(c: char, d: char)
    ensures Remove([d], c) == if d == c then "" else [d]
  {
    assert [d][1..] == "";
  }

  /** and distributes over joining. */
  lemma {:induction false} RemoveJoins(a: string, b: string, c: char)
    ensures Remove(a + b, c) == Remove(a, c) + Remove(b, c)
  {
    if a == [] {
      assert a + b == b;
    } else {
      assert (a + b)[1..] == a[1..] + b;
      RemoveJoins(a[1..], b, c);
    }
  }

  /** The fields of `cs` as they stand after the type. */
  predicate FieldsText(rest: string, cs: CipherString) {
    || (cs.encType == 0 && cs.mac == [] && rest == Base64.Encode(cs.iv) + "|" + Base64.Encode(cs.ct))
    || (cs.encType == 2 && rest == Base64.Encode(cs.iv) + "|" + Base64.Encode(cs.ct) + "|" + Base64.Encode(cs.mac))
    || (cs.encType in {3, 4} && cs.iv == [] && cs.mac == [] && Remove(rest, '|') == Base64.Encode(cs.ct))
  }

  /** The accepted texts: a type number, a dot, and the Base64 fields that type has. */
  lemma ParsesExactly(s: string, cs: CipherString)
    ensures Parse(s) == Ok(cs) <==>
            exists t: string, rest: string :: s == t + "." + rest && IsTypeText(t, cs.encType) && FieldsText(rest, cs)
  {
    ParseExact(s, cs);
    hide Parse, ParseU8, IsTypeText, Remove;
    forall t: string ensures ParseU8(t) == Some(cs.encType) <==> IsTypeText(t, cs.encType) {
      TypeTextExactly(t, cs.encType);
    }
    if WellShaped(cs) && Spells(s, cs) {
      var t: string, rest: string :| SpelledBy(s, cs, t, rest);
      assert s == t + "." + rest && IsTypeText(t, cs.encType) && FieldsText(rest, cs);
    }
    forall t: string, rest: string | s == t + "." + rest && IsTypeText(t, cs.encType) && FieldsText(rest, cs)
      ensures WellShaped(cs) && Spells(s, cs)
    {
      assert SpelledBy(s, cs, t, rest);
    }
  }

  // ----- the refused texts -----

  function Count(s: string, c: char): nat {
    if s == [] then 0 else (if s[0] == c then 1 else 0) + Count(s[1..], c)
  }

  lemma {:induction false} CountSplit(a: string, c: char, b: string)
    requires c !in a
    ensures Count(a + [c] + b, c) == 1 + Count(b, c)
  {
    var s := a + [c] + b;
    if a == [] {
      assert s[1..] == b;
    } else {
      assert s[1..] == a[1..] + [c] + b;
      CountSplit(a[1..], c, b);
    }
  }

  lemma {:induction false} CountNone(s: string, c: char)
    requires c !in s
    ensures Count(s, c) == 0
  {
    if s != [] {
      CountNone(s[1..], c);
    }
  }

  /** As many parts as there are delimiters and one, but never more than asked for. */
  lemma {:induction false} SplitCount(s: string, c: char, n: nat)
    requires n > 0
    ensures |SplitN(s, c, n)| == if Count(s, c) + 1 < n then Count(s, c) + 1 else n
    decreases n
  {
    match IndexOf(s, c)
    case None => CountNone(s, c);
    case Some(i) =>
      assert s == s[..i] + [c] + s[i + 1..];
      CountSplit(s[..i], c, s[i + 1..]);
      if n > 1 {
        SplitCount(s[i + 1..], c, n - 1);
      }
  }

  /** The text has this type number before its first dot, and `rest` after it. */
  ghost predicate HasType(s: string, v: nat, rest: string) {
    exists t: string :: s == t + "." + rest && IsTypeText(t, v)
  }

  lemma TypeOf(s: string, t: string, rest: string)
    requires s == t + "." + rest && '.' !in t
    ensures IndexOf(s, '.') == Some(|t|) && s[..|t|] == t && s[|t| + 1..] == rest
  {
    IndexAfter(t, '.', rest);
  }

  lemma TypeTextClean(t: string, v: nat)
    requires IsTypeText(t, v)
    ensures '.' !in t
  {
    hide IsTypeText;
    TypeTextExactly(t, v);
    TypeTextHasNoDot(t);
  }

  lemma HasTypeParses(s: string, v: nat, rest: string)
    requires HasType(s, v, rest)
    ensures Parse(s) == ParseFields(v, rest)
  {
    var t: string :| s == t + "." + rest && IsTypeText(t, v);
    TypeTextClean(t, v);
    TypeTextExactly(t, v);
    hide ParseU8, IsTypeText;
    ParseSplit(t, rest);
  }

  /** The errors of parsing that come of the type, and of the number of parts, exactly; all else is bad Base64. */
  lemma ParseErrorsExactly(s: string)
    ensures Parse(s) == Err(Empty) <==> s == ""
    ensures Parse(s) == Err(MissingSeparator) <==> s != "" && '.' !in s
    ensures forall t :: Parse(s) == Err(InvalidType(t)) <==>
              && (forall v: nat :: !IsTypeText(t, v)) && '.' !in t && exists rest: string :: s == t + "." + rest
    ensures forall v: nat, rest: string :: HasType(s, v, rest) ==>
              && (Parse(s) == Err(UnsupportedType(v)) <==> v !in {0, 2, 3, 4})
              && (forall n: nat :: Parse(s) == Err(WrongPartCount(n)) <==>
                    || (v == 0 && n != 2 && n == Parts(rest, 3))
                    || (v == 2 && n != 3 && n == Parts(rest, 4)))
  {
    FaultyType(s);
    forall v: nat, rest: string | HasType(s, v, rest)
      ensures Parse(s) == Err(UnsupportedType(v)) <==> v !in {0, 2, 3, 4}
      ensures forall n: nat :: Parse(s) == Err(WrongPartCount(n)) <==>
                (v == 0 && n != 2 && n == Parts(rest, 3)) || (v == 2 && n != 3 && n == Parts(rest, 4))
    {
      HasTypeParses(s, v, rest);
      SplitCount(rest, '|', 3);
      SplitCount(rest, '|', 4);
      hide Parse, SplitN, HasType, Count;
    }
  }

  /** The parts that a text splits into at its pipes, counted up to `most`. */
  function Parts(rest: string, most: nat): nat {
    if Count(rest, '|') + 1 < most then Count(rest, '|') + 1 else most
  }

  lemma FaultyType(s: string)
    ensures Parse(s) == Err(Empty) <==> s == ""
    ensures Parse(s) == Err(MissingSeparator) <==> s != "" && '.' !in s
    ensures forall t :: Parse(s) == Err(InvalidType(t)) <==>
              && (forall v: nat :: !IsTypeText(t, v)) && '.' !in t && exists rest: string :: s == t + "." + rest
  {
    hide ParseFields, ParseU8, IsTypeText;
    forall t: nat, rest: string ensures FieldError(ParseFields(t, rest)) {
      FieldErrors(t, rest);
    }
    forall t ensures ParseU8(t).None? <==> forall v: nat :: !IsTypeText(t, v) {
      forall v: nat ensures ParseU8(t) == Some(v) <==> IsTypeText(t, v) {
        TypeTextExactly(t, v);
      }
    }
    forall t, rest: string | s == t + "." + rest && '.' !in t ensures IndexOf(s, '.') == Some(|t|) && s[..|t|] == t {
      TypeOf(s, t, rest);
    }
    if IndexOf(s, '.').Some? {
      var i := IndexOf(s, '.').value;
      assert s == s[..i] + "." + s[i + 1..];
    }
  }

  /** None of the errors that come of the type text. */
  predicate FieldError(r: Result<CipherString, CryptoError>) {
    r.Err? ==> !r.error.Empty? && !r.error.MissingSeparator? && !r.error.InvalidType?
  }

  lemma FieldErrors(t: nat, rest: string)
    ensures FieldError(ParseFields(t, rest))
  {
  }
}
