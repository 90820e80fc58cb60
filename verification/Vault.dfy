/**
 Decrypting a sync response into a vault cache (src/vault/sync.rs): organization keys, one key per
 cipher, skipped ciphers counted, and the organization-name index.
 */
module Vault {
  import opened Results
  import opened CipherStrings
  import opened Crypto

  /** What the code takes from outside: cryptographic primitives and Unicode lowercasing. */
  datatype Env = Env(prims: Primitives, lower: string -> string)

  datatype Organization = Organization(id: string, name: string, key: string)

  datatype Field = Field(name: Option<string>, value: Option<string>)

  datatype Login = Login(password: Option<string>)

  datatype Cipher = Cipher(id: string, organizationId: Option<string>, name: string, notes: Option<string>,
                           login: Option<Login>, fields: seq<Field>)

  datatype SyncResponse = SyncResponse(privateKey: string, organizations: seq<Organization>, ciphers: seq<Cipher>)

  datatype Item = Item(id: string, organizationId: Option<string>, name: string, password: string, notes: string,
                       fields: map<string, string>)

  datatype VaultCache = VaultCache(items: seq<Item>, orgsByName: map<string, seq<string>>)

  datatype Skips = Skips(noOrgKey: nat, decryptFailed: nat)

  // ----- one cipher -----

  /** An optional text decrypted, with failures and absence both read as empty. */
  function TextOr(env: Env, s: Option<string>, key: SymmetricKey): string {
    match s
    case None => ""
    case Some(t) =>
      match DecryptStr(env.prims, t, key)
      case Ok(v) => v
      case Err(_) => ""
  }

  /** The decrypted name and value of every field, in order. */
  function PlainFields(env: Env, fields: seq<Field>, key: SymmetricKey): seq<(string, string)> {
    seq(|fields|, i requires 0 <= i < |fields| =>
      (TextOr(env, fields[i].name, key), TextOr(env, fields[i].value, key)))
  }

  /** The last position of `name` among the decrypted names. */
  function LastNamed(plain: seq<(string, string)>, name: string): (r: Option<nat>)
    ensures r.Some? ==> r.value < |plain| && plain[r.value].0 == name
    ensures forall i :: (if r.Some? then r.value + 1 else 0) <= i < |plain| ==> plain[i].0 != name
  {
    if plain == [] then None
    else if plain[|plain| - 1].0 == name then Some(|plain| - 1)
    else LastNamed(plain[..|plain| - 1], name)
  }

  /** A field map holds each non-empty name with the value of its last occurrence, and nothing else. */
  ghost predicate IsFieldMap(plain: seq<(string, string)>, m: map<string, string>) {
    forall name :: (name in m <==> name != "" && LastNamed(plain, name).Some?)
                && (name in m ==> m[name] == plain[LastNamed(plain, name).value].1)
  }

  function FieldMap(plain: seq<(string, string)>): map<string, string> {
    if plain == [] then map[] else
    var m, f := FieldMap(plain[..|plain| - 1]), plain[|plain| - 1];
    if f.0 == "" then m else m[f.0 := f.1]
  }

  lemma {:induction false} FieldMapMeaning(plain: seq<(string, string)>)
    ensures IsFieldMap(plain, FieldMap(plain))
  {
    if plain != [] {
      FieldMapMeaning(plain[..|plain| - 1]);
    }
  }

  function Deciphered(env: Env, c: Cipher, key: SymmetricKey): Result<Item, CryptoError> {
    match DecryptStr(env.prims, c.name, key)
    case Err(e) => Err(e)
    case Ok(name) =>
      Ok(Item(c.id,
              if c.organizationId == Some("") then None else c.organizationId,
              name,
              if c.login.Some? then TextOr(env, c.login.value.password, key) else "",
              TextOr(env, c.notes, key),
              FieldMap(PlainFields(env, c.fields, key))))
  }

  method DecryptCipher(env: Env, c: Cipher, key: SymmetricKey) returns (r: Result<Item, CryptoError>)
    ensures r == Deciphered(env, c, key)
  {
    hide DecryptStr, TextOr;
    var name := DecryptStr(env.prims, c.name, key);
    if name.Err? {
      return Err(name.error);
    }
    var notes := TextOr(env, c.notes, key);
    var password := "";
    if c.login.Some? {
      password := TextOr(env, c.login.value.password, key);
    }
    var fields: map<string, string> := map[];
    ghost var plain := PlainFields(env, c.fields, key);
    for i := 0 to |c.fields|
      invariant fields == FieldMap(plain[..i])
    {
      assert plain[..i + 1][..i] == plain[..i];
      var fname := TextOr(env, c.fields[i].name, key);
      var fvalue := TextOr(env, c.fields[i].value, key);
      if fname != "" {
        fields := fields[fname := fvalue];
      }
    }
    assert plain[..|c.fields|] == plain;
    var owner := if c.organizationId == Some("") then None else c.organizationId;
    r := Ok(Item(c.id, owner, name.value, password, notes, fields));
  }

  // ----- sealing a cipher and opening it -----

  /** `text` is a printed type 2 encryption, under some IV, of bytes that spell `plain`. */
  ghost predicate Seals(env: Env, key: SymmetricKey, text: string, plain: string)
    requires |key.encKey| == 32
  {
    exists iv, m :: text == MakeType2(env.prims, key, iv, m) && env.prims.utf8(m) == Some(plain)
  }

  /** As `Seals`, where a missing or empty text stands for the empty plaintext. */
  ghost predicate SealsOption(env: Env, key: SymmetricKey, text: Option<string>, plain: string)
    requires |key.encKey| == 32
  {
    if text == None || text == Some("") then plain == "" else Seals(env, key, text.value, plain)
  }

  /** Every part of `c` seals the part of `item` of the same name; the fields hold the pairs `plain`. */
  ghost predicate SealsItem(env: Env, key: SymmetricKey, c: Cipher, item: Item, plain: seq<(string, string)>)
    requires |key.encKey| == 32
  {
    && c.id == item.id
    && (c.organizationId == item.organizationId || (c.organizationId == Some("") && item.organizationId == None))
    && item.organizationId != Some("")
    && Seals(env, key, c.name, item.name)
    && SealsOption(env, key, c.notes, item.notes)
    && SealsOption(env, key, if c.login.Some? then c.login.value.password else None, item.password)
    && |plain| == |c.fields|
    && (forall i :: 0 <= i < |plain| ==>
          SealsOption(env, key, c.fields[i].name, plain[i].0) && SealsOption(env, key, c.fields[i].value, plain[i].1))
    && IsFieldMap(plain, item.fields)
  }

  lemma SealedTextOpens(env: Env, key: SymmetricKey, text: string, plain: string)
    requires Lawful(env.prims) && |key.encKey| == 32 && |key.macKey| == 32 && Seals(env, key, text, plain)
    ensures text != "" && DecryptStr(env.prims, text, key) == Ok(plain)
  {
    hide Lawful, MakeType2;
    var iv, m :| text == MakeType2(env.prims, key, iv, m) && env.prims.utf8(m) == Some(plain);
    RoundTrip(env.prims, key, iv, m);
    assert DecryptBytes(env.prims, "", key).Err?;
  }

  lemma SealedOptionOpens(env: Env, key: SymmetricKey, text: Option<string>, plain: string)
    requires Lawful(env.prims) && |key.encKey| == 32 && |key.macKey| == 32 && SealsOption(env, key, text, plain)
    ensures TextOr(env, text, key) == plain
  {
    hide Lawful, Seals;
    if text.Some? && text.value != "" {
      SealedTextOpens(env, key, text.value, plain);
    }
  }

  lemma FieldMapUnique(plain: seq<(string, string)>, m: map<string, string>)
    requires IsFieldMap(plain, m)
    ensures m == FieldMap(plain)
  {
    FieldMapMeaning(plain);
    forall k: string ensures k in m <==> k in FieldMap(plain) {
    }
  }

  /** A cipher that seals an item under a key decrypts under that key to exactly that item. */
  lemma SealedItemOpens(env: Env, key: SymmetricKey, c: Cipher, item: Item, plain: seq<(string, string)>)
    requires Lawful(env.prims) && |key.encKey| == 32 && |key.macKey| == 32 && SealsItem(env, key, c, item, plain)
    ensures Deciphered(env, c, key) == Ok(item)
  {
    hide Lawful, Seals, SealsOption, DecryptStr, TextOr, IsFieldMap, FieldMap;
    SealedTextOpens(env, key, c.name, item.name);
    SealedOptionOpens(env, key, c.notes, item.notes);
    var password := if c.login.Some? then c.login.value.password else None;
    SealedOptionOpens(env, key, password, item.password);
    assert TextOr(env, None, key) == "" by { EmptyText(env, key); }
    forall i | 0 <= i < |plain| ensures PlainFields(env, c.fields, key)[i] == plain[i] {
      SealedOptionOpens(env, key, c.fields[i].name, plain[i].0);
      SealedOptionOpens(env, key, c.fields[i].value, plain[i].1);
    }
    assert PlainFields(env, c.fields, key) == plain;
    FieldMapUnique(plain, item.fields);
  }

  lemma EmptyText(env: Env, key: SymmetricKey)
    ensures TextOr(env, None, key) == ""
  {
  }

  // ----- the item of any cipher, part by part -----

  /** The text reads as `v` under the key: empty as empty, else by what it opens to. */
  ghost predicate Reads(env: Env, key: SymmetricKey, text: string, v: string) {
    if text == "" then v == "" else exists m :: Opens(env.prims, text, key, m) && env.prims.utf8(m) == Some(v)
  }

  /** `v` is what the text reads as, and empty if there is no text or it does not read. */
  ghost predicate ReadsOrEmpty(env: Env, key: SymmetricKey, text: Option<string>, v: string) {
    || (text.Some? && Reads(env, key, text.value, v))
    || (v == "" && (text.None? || forall w :: !Reads(env, key, text.value, w)))
  }

  /** Every part of `item` is what that part of `c` reads as; only the name must read. */
  ghost predicate IsItemOf(env: Env, key: SymmetricKey, c: Cipher, item: Item) {
    && item.id == c.id
    && item.organizationId == (if c.organizationId == Some("") then None else c.organizationId)
    && Reads(env, key, c.name, item.name)
    && ReadsOrEmpty(env, key, c.notes, item.notes)
    && ReadsOrEmpty(env, key, if c.login.Some? then c.login.value.password else None, item.password)
    && exists plain :: AreFieldsOf(env, key, c.fields, plain) && IsFieldMap(plain, item.fields)
  }

  ghost predicate AreFieldsOf(env: Env, key: SymmetricKey, fields: seq<Field>, plain: seq<(string, string)>) {
    && |plain| == |fields|
    && forall i :: 0 <= i < |fields| ==>
         ReadsOrEmpty(env, key, fields[i].name, plain[i].0) && ReadsOrEmpty(env, key, fields[i].value, plain[i].1)
  }

  lemma ReadsExactly(env: Env, key: SymmetricKey, text: string, v: string)
    requires Lawful(env.prims)
    ensures DecryptStr(env.prims, text, key) == Ok(v) <==> Reads(env, key, text, v)
  {
    hide Opens, Lawful, DecryptStr;
    TextExactly(env.prims, text, key, v);
  }

  lemma TextOrExactly(env: Env, key: SymmetricKey, text: Option<string>, v: string)
    requires Lawful(env.prims)
    ensures TextOr(env, text, key) == v <==> ReadsOrEmpty(env, key, text, v)
  {
    hide Reads, Lawful, DecryptStr;
    if text.Some? {
      forall w: string ensures DecryptStr(env.prims, text.value, key) == Ok(w) <==> Reads(env, key, text.value, w) {
        ReadsExactly(env, key, text.value, w);
      }
    }
  }

  lemma FieldsExactly(env: Env, key: SymmetricKey, fields: seq<Field>, plain: seq<(string, string)>)
    requires Lawful(env.prims)
    ensures PlainFields(env, fields, key) == plain <==> AreFieldsOf(env, key, fields, plain)
  {
    hide ReadsOrEmpty, Lawful, TextOr;
    forall i, v: string | 0 <= i < |fields|
      ensures TextOr(env, fields[i].name, key) == v <==> ReadsOrEmpty(env, key, fields[i].name, v)
      ensures TextOr(env, fields[i].value, key) == v <==> ReadsOrEmpty(env, key, fields[i].value, v)
    {
      TextOrExactly(env, key, fields[i].name, v);
      TextOrExactly(env, key, fields[i].value, v);
    }
    if AreFieldsOf(env, key, fields, plain) {
      forall i | 0 <= i < |fields| ensures PlainFields(env, fields, key)[i] == plain[i] {
      }
    }
  }

  /** Exactly what comes out of a cipher, whichever of its parts decrypt, and exactly when nothing does. */
  lemma CipherExactly(env: Env, key: SymmetricKey, c: Cipher)
    requires Lawful(env.prims)
    ensures forall item :: Deciphered(env, c, key) == Ok(item) <==> IsItemOf(env, key, c, item)
    ensures Deciphered(env, c, key).Err? <==> forall v :: !Reads(env, key, c.name, v)
  {
    hide Reads, ReadsOrEmpty, Lawful, TextOr, DecryptStr, PlainFields, IsFieldMap, AreFieldsOf, FieldMap;
    forall v: string ensures DecryptStr(env.prims, c.name, key) == Ok(v) <==> Reads(env, key, c.name, v) {
      ReadsExactly(env, key, c.name, v);
    }
    var plain := PlainFields(env, c.fields, key);
    FieldsExactly(env, key, c.fields, plain);
    FieldMapMeaning(plain);
    forall item ensures Deciphered(env, c, key) == Ok(item) <==> IsItemOf(env, key, c, item) {
      TextOrExactly(env, key, c.notes, item.notes);
      var password := if c.login.Some? then c.login.value.password else None;
      TextOrExactly(env, key, password, item.password);
      assert TextOr(env, None, key) == "" by { EmptyText(env, key); }
      if IsItemOf(env, key, c, item) {
        var other :| AreFieldsOf(env, key, c.fields, other) && IsFieldMap(other, item.fields);
        FieldsExactly(env, key, c.fields, other);
        FieldMapUnique(plain, item.fields);
      }
    }
  }

  // ----- organization keys -----

  function PrivateKeyOf(env: Env, resp: SyncResponse, symKey: SymmetricKey): Option<RsaKey> {
    if resp.organizations == [] || resp.privateKey == "" then None else
    match DecryptPrivateKey(env.prims, resp.privateKey, symKey)
    case Ok(k) => Some(k)
    case Err(_) => None
  }

  /** The key of organization `id`: that of its last entry whose key decrypts. */
  function OrgKey(env: Env, orgs: seq<Organization>, priv: RsaKey, id: string): Option<SymmetricKey> {
    if orgs == [] then None else
    var last := orgs[|orgs| - 1];
    var k := DecryptOrgKey(env.prims, last.key, priv);
    if last.id == id && k.Ok? then Some(k.value) else OrgKey(env, orgs[..|orgs| - 1], priv, id)
  }

  /** The key the owner of a cipher dictates; none if its organization has no usable key. */
  function KeyFor(env: Env, resp: SyncResponse, symKey: SymmetricKey, owner: Option<string>): Option<SymmetricKey> {
    if owner.None? || owner.value == "" then Some(symKey) else
    match PrivateKeyOf(env, resp, symKey)
    case None => None
    case Some(priv) => OrgKey(env, resp.organizations, priv, owner.value)
  }

  method DecryptOrgKeys(env: Env, resp: SyncResponse, symKey: SymmetricKey)
    returns (keys: map<string, SymmetricKey>)
    ensures forall id :: id != "" ==>
              KeyFor(env, resp, symKey, Some(id)) == if id in keys then Some(keys[id]) else None
  {
    keys := map[];
    if resp.organizations != [] && resp.privateKey != "" {
      var priv := DecryptPrivateKey(env.prims, resp.privateKey, symKey);
      if priv.Ok? {
        var orgs := resp.organizations;
        for i := 0 to |orgs|
          invariant forall id :: OrgKey(env, orgs[..i], priv.value, id) == if id in keys then Some(keys[id]) else None
        {
          assert orgs[..i + 1][..i] == orgs[..i];
          var k := DecryptOrgKey(env.prims, orgs[i].key, priv.value);
          if k.Ok? {
            keys := keys[orgs[i].id := k.value];
          }
        }
        assert orgs[..|orgs|] == orgs;
      }
    }
  }

  // ----- the organization index -----

  function IdsNamed(env: Env, orgs: seq<Organization>, name: string): seq<string> {
    if orgs == [] then [] else
    var last := orgs[|orgs| - 1];
    IdsNamed(env, orgs[..|orgs| - 1], name) + if env.lower(last.name) == name then [last.id] else []
  }

  /** Each lowercased name that occurs maps to the ids carrying it, in order, and nothing else is present. */
  ghost predicate IsOrgIndex(env: Env, orgs: seq<Organization>, index: map<string, seq<string>>) {
    forall name :: (name in index <==> IdsNamed(env, orgs, name) != [])
                && (name in index ==> index[name] == IdsNamed(env, orgs, name))
  }

  method IndexOrgs(env: Env, orgs: seq<Organization>) returns (index: map<string, seq<string>>)
    ensures IsOrgIndex(env, orgs, index)
  {
    index := map[];
    for i := 0 to |orgs|
      invariant IsOrgIndex(env, orgs[..i], index)
    {
      assert orgs[..i + 1][..i] == orgs[..i];
      var name := env.lower(orgs[i].name);
      index := index[name := (if name in index then index[name] else []) + [orgs[i].id]];
    }
    assert orgs[..|orgs|] == orgs;
  }

  lemma {:induction false} IdsNamedMember(env: Env, orgs: seq<Organization>, name: string, id: string)
    ensures id in IdsNamed(env, orgs, name) <==>
            exists i :: 0 <= i < |orgs| && orgs[i].id == id && env.lower(orgs[i].name) == name
  {
    if orgs != [] {
      IdsNamedMember(env, orgs[..|orgs| - 1], name, id);
    }
  }

  // ----- the whole vault -----

  /** `at` lists the positions of the organizations of that name, in order. */
  ghost predicate ArePositions(env: Env, orgs: seq<Organization>, name: string, at: seq<nat>) {
    && (forall i, j :: 0 <= i < j < |at| ==> at[i] < at[j])
    && (forall x: nat :: x in at <==> x < |orgs| && env.lower(orgs[x].name) == name)
  }

  /** The ids of the organizations of that name, one for each, in their order. */
  lemma {:induction false} IdsNamedExactly(env: Env, orgs: seq<Organization>, name: string) returns (at: seq<nat>)
    ensures ArePositions(env, orgs, name, at)
    ensures |IdsNamed(env, orgs, name)| == |at|
    ensures forall i :: 0 <= i < |at| ==> at[i] < |orgs| && IdsNamed(env, orgs, name)[i] == orgs[at[i]].id
  {
    if orgs == [] {
      at := [];
    } else {
      var last := |orgs| - 1;
      var front := orgs[..last];
      at := IdsNamedExactly(env, front, name);
      assert forall x: nat :: x < last ==> front[x] == orgs[x];
      if env.lower(orgs[last].name) == name {
        assert forall x: nat :: x in at + [last] <==> x in at || x == last;
        assert forall i :: 0 <= i < |at| ==> at[i] in at && at[i] < last;
        at := at + [last];
      }
    }
  }

  /** The private key of the user. */
  ghost predicate IsPrivateKey(env: Env, resp: SyncResponse, symKey: SymmetricKey, priv: RsaKey) {
    exists der :: Opens(env.prims, resp.privateKey, symKey, der) && env.prims.rsaFromPkcs8(der) == Some(priv)
  }

  /** The key in entry `o`, as its RSA text has it. */
  ghost predicate IsEntryKey(env: Env, orgs: seq<Organization>, priv: RsaKey, o: nat, k: SymmetricKey)
    requires o < |orgs|
  {
    |k.encKey| == 32 && |k.macKey| == 32 && SpellsRsa(env.prims, orgs[o].key, priv, k.encKey + k.macKey)
  }

  /** The key in the last entry with this id that has one. */
  ghost predicate IsOrgKey(env: Env, orgs: seq<Organization>, priv: RsaKey, id: string, k: SymmetricKey) {
    exists o: nat :: o < |orgs| && orgs[o].id == id && IsEntryKey(env, orgs, priv, o, k)
                     && forall i, other :: o < i < |orgs| && orgs[i].id == id ==> !IsEntryKey(env, orgs, priv, i, other)
  }

  lemma EntryKeyExactly(env: Env, orgs: seq<Organization>, priv: RsaKey, o: nat)
    requires o < |orgs|
    ensures forall k :: DecryptOrgKey(env.prims, orgs[o].key, priv) == Ok(k) <==> IsEntryKey(env, orgs, priv, o, k)
  {
    hide DecryptOrgKey, SpellsRsa;
    forall k ensures DecryptOrgKey(env.prims, orgs[o].key, priv) == Ok(k) <==> IsEntryKey(env, orgs, priv, o, k) {
      OrgKeyExact(env.prims, orgs[o].key, priv, k);
    }
  }

  lemma {:induction false} OrgKeyExactly(env: Env, orgs: seq<Organization>, priv: RsaKey, id: string, k: SymmetricKey)
    ensures OrgKey(env, orgs, priv, id) == Some(k) <==> IsOrgKey(env, orgs, priv, id, k)
  {
    hide DecryptOrgKey, SpellsRsa, IsEntryKey;
    if orgs != [] {
      var last := |orgs| - 1;
      var front := orgs[..last];
      OrgKeyExactly(env, front, priv, id, k);
      EntryKeyExactly(env, orgs, priv, last);
      forall o: nat, other | o < last
        ensures IsEntryKey(env, front, priv, o, other) <==> IsEntryKey(env, orgs, priv, o, other)
      {
        EntryKeyFrame(env, orgs, priv, o, other);
      }
    }
  }

  lemma EntryKeyFrame(env: Env, orgs: seq<Organization>, priv: RsaKey, o: nat, k: SymmetricKey)
    requires o < |orgs| - 1
    ensures IsEntryKey(env, orgs[..|orgs| - 1], priv, o, k) <==> IsEntryKey(env, orgs, priv, o, k)
  {
  }

  /**
   The key an owner dictates, from the response itself: the user's own, or its organization's under the private
   key.
   */
  lemma KeyForExactly(env: Env, resp: SyncResponse, symKey: SymmetricKey, owner: Option<string>, k: SymmetricKey)
    requires Lawful(env.prims)
    ensures KeyFor(env, resp, symKey, owner) == Some(k) <==>
            if owner == None || owner == Some("") then k == symKey
            else exists priv :: IsPrivateKey(env, resp, symKey, priv)
                                && IsOrgKey(env, resp.organizations, priv, owner.value, k)
  {
    hide OrgKey, DecryptPrivateKey, IsOrgKey, Opens, Lawful;
    forall priv: RsaKey
      ensures DecryptPrivateKey(env.prims, resp.privateKey, symKey) == Ok(priv) <==>
              IsPrivateKey(env, resp, symKey, priv)
      ensures owner.Some? ==> (OrgKey(env, resp.organizations, priv, owner.value) == Some(k)
                               <==> IsOrgKey(env, resp.organizations, priv, owner.value, k))
    {
      PrivateKeyExactly(env.prims, resp.privateKey, symKey, priv);
      if owner.Some? {
        OrgKeyExactly(env, resp.organizations, priv, owner.value, k);
      }
    }
    if owner.Some? {
      forall priv: RsaKey
        ensures resp.organizations == [] ==> !IsOrgKey(env, resp.organizations, priv, owner.value, k)
      {
        NoOrgsNoKey(env, priv, owner.value, k);
      }
    }
    assert resp.privateKey == "" ==> DecryptPrivateKey(env.prims, resp.privateKey, symKey).Err? by {
      EmptyIsNoPrivateKey(env.prims, symKey);
    }
  }

  lemma NoOrgsNoKey(env: Env, priv: RsaKey, id: string, k: SymmetricKey)
    ensures !IsOrgKey(env, [], priv, id, k)
  {
  }

  lemma EmptyIsNoPrivateKey(p: Primitives, key: SymmetricKey)
    ensures DecryptPrivateKey(p, "", key).Err?
  {
  }

  predicate Decrypts(env: Env, resp: SyncResponse, symKey: SymmetricKey, c: Cipher) {
    var key := KeyFor(env, resp, symKey, c.organizationId);
    key.Some? && Deciphered(env, c, key.value).Ok?
  }

  function ItemOf(env: Env, resp: SyncResponse, symKey: SymmetricKey, c: Cipher): Item
    requires Decrypts(env, resp, symKey, c)
  {
    Deciphered(env, c, KeyFor(env, resp, symKey, c.organizationId).value).value
  }

  /** `from` lists, in order, exactly the ciphers below `n` that decrypt, and `items` are their decryptions. */
  ghost predicate KeptFrom(env: Env, resp: SyncResponse, symKey: SymmetricKey, n: nat, items: seq<Item>, from: seq<nat>)
    requires n <= |resp.ciphers|
  {
    && |from| == |items|
    && (forall i :: 0 <= i < |from| ==>
          && from[i] < n
          && Decrypts(env, resp, symKey, resp.ciphers[from[i]])
          && items[i] == ItemOf(env, resp, symKey, resp.ciphers[from[i]]))
    && (forall i, j :: 0 <= i < j < |from| ==> from[i] < from[j])
    && (forall c :: 0 <= c < n && Decrypts(env, resp, symKey, resp.ciphers[c]) ==> c in from)
  }

  function KeylessCount(env: Env, resp: SyncResponse, symKey: SymmetricKey, n: nat): nat
    requires n <= |resp.ciphers|
  {
    if n == 0 then 0 else
    KeylessCount(env, resp, symKey, n - 1)
    + if KeyFor(env, resp, symKey, resp.ciphers[n - 1].organizationId).None? then 1 else 0
  }

  /** `cache` is the decryption of `resp` under `symKey`. */
  ghost predicate IsVaultOf(env: Env, resp: SyncResponse, symKey: SymmetricKey, cache: VaultCache) {
    && (exists from :: KeptFrom(env, resp, symKey, |resp.ciphers|, cache.items, from))
    && IsOrgIndex(env, resp.organizations, cache.orgsByName)
  }

  lemma KeptNone(env: Env, resp: SyncResponse, symKey: SymmetricKey)
    ensures KeptFrom(env, resp, symKey, 0, [], [])
  {
  }

  lemma KeptPush(env: Env, resp: SyncResponse, symKey: SymmetricKey, n: nat, items: seq<Item>, from: seq<nat>)
    requires n < |resp.ciphers| && KeptFrom(env, resp, symKey, n, items, from)
    requires Decrypts(env, resp, symKey, resp.ciphers[n])
    ensures KeptFrom(env, resp, symKey, n + 1, items + [ItemOf(env, resp, symKey, resp.ciphers[n])], from + [n])
  {
    hide Decrypts, ItemOf;
    assert (from + [n])[|from|] == n;
  }

  lemma KeptSkip(env: Env, resp: SyncResponse, symKey: SymmetricKey, n: nat, items: seq<Item>, from: seq<nat>)
    requires n < |resp.ciphers| && KeptFrom(env, resp, symKey, n, items, from)
    requires !Decrypts(env, resp, symKey, resp.ciphers[n])
    ensures KeptFrom(env, resp, symKey, n + 1, items, from)
  {
    hide Decrypts, ItemOf;
  }

  method DecryptVault(env: Env, resp: SyncResponse, symKey: SymmetricKey) returns (cache: VaultCache, skips: Skips)
    ensures IsVaultOf(env, resp, symKey, cache)
    ensures |cache.items| + skips.noOrgKey + skips.decryptFailed == |resp.ciphers|
    ensures skips.noOrgKey == KeylessCount(env, resp, symKey, |resp.ciphers|)
  {
    hide Deciphered, IsOrgIndex, DecryptStr, KeptFrom;
    var orgKeys := DecryptOrgKeys(env, resp, symKey);
    var items: seq<Item> := [];
    ghost var from: seq<nat> := [];
    skips := Skips(0, 0);
    KeptNone(env, resp, symKey);
    for n := 0 to |resp.ciphers|
      invariant KeptFrom(env, resp, symKey, n, items, from)
      invariant |items| + skips.noOrgKey + skips.decryptFailed == n
      invariant skips.noOrgKey == KeylessCount(env, resp, symKey, n)
    {
      var c := resp.ciphers[n];
      var key := symKey;
      if c.organizationId.Some? && c.organizationId.value != "" {
        if c.organizationId.value !in orgKeys {
          skips := skips.(noOrgKey := skips.noOrgKey + 1);
          KeptSkip(env, resp, symKey, n, items, from);
          continue;
        }
        key := orgKeys[c.organizationId.value];
      }
      assert KeyFor(env, resp, symKey, c.organizationId) == Some(key);
      var r := DecryptCipher(env, c, key);
      if r.Ok? {
        KeptPush(env, resp, symKey, n, items, from);
        items, from := items + [r.value], from + [n];
      } else {
        KeptSkip(env, resp, symKey, n, items, from);
        skips := skips.(decryptFailed := skips.decryptFailed + 1);
      }
    }
    var index := IndexOrgs(env, resp.organizations);
    cache := VaultCache(items, index);
  }

  lemma SomeMember(a: seq<nat>)
    ensures a == [] || exists x :: x in a
  {
    assert a == [] || a[0] in a;
  }

  lemma {:induction false} IncreasingEqual(a: seq<nat>, b: seq<nat>)
    requires forall i, j :: 0 <= i < j < |a| ==> a[i] < a[j]
    requires forall i, j :: 0 <= i < j < |b| ==> b[i] < b[j]
    requires forall x :: x in a <==> x in b
    ensures a == b
  {
    SomeMember(a);
    SomeMember(b);
    if a != [] && b != [] {
      var x, y := a[|a| - 1], b[|b| - 1];
      assert x in b && y in a;
      var a', b' := a[..|a| - 1], b[..|b| - 1];
      assert forall z :: z in a' <==> z in a && z != x;
      assert forall z :: z in b' <==> z in b && z != y;
      IncreasingEqual(a', b');
    }
  }

  lemma KeptUnique(env: Env, resp: SyncResponse, symKey: SymmetricKey, a: seq<Item>, f: seq<nat>, b: seq<Item>,
                   g: seq<nat>)
    requires KeptFrom(env, resp, symKey, |resp.ciphers|, a, f) && KeptFrom(env, resp, symKey, |resp.ciphers|, b, g)
    ensures a == b
  {
    hide Decrypts, ItemOf;
    forall x ensures x in f <==> x in g {
    }
    IncreasingEqual(f, g);
  }

  /** A response and a key determine the vault. */
  lemma VaultUnique(env: Env, resp: SyncResponse, symKey: SymmetricKey, a: VaultCache, b: VaultCache)
    requires IsVaultOf(env, resp, symKey, a) && IsVaultOf(env, resp, symKey, b)
    ensures a == b
  {
    hide IdsNamed, KeptFrom;
    var f :| KeptFrom(env, resp, symKey, |resp.ciphers|, a.items, f);
    var g :| KeptFrom(env, resp, symKey, |resp.ciphers|, b.items, g);
    KeptUnique(env, resp, symKey, a.items, f, b.items, g);
    assert a.orgsByName == b.orgsByName;
  }
}
