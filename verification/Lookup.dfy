/** Finding an item in a vault cache and extracting its secret (src/vault/sync.rs). */
module Lookup {
  import opened Results
  import opened Crypto
  import opened Vault

  predicate InScope(item: Item, org: Option<string>) {
    org.None? || item.organizationId == org
  }

  predicate OccursAt(text: string, part: string, i: nat) {
    i + |part| <= |text| && text[i..i + |part|] == part
  }

  predicate Contains(text: string, part: string) {
    exists i :: 0 <= i <= |text| && OccursAt(text, part, i)
  }

  predicate Exact(env: Env, item: Item, name: string) {
    env.lower(item.name) == env.lower(name)
  }

  predicate Partial(env: Env, item: Item, name: string) {
    Contains(env.lower(item.name), env.lower(name))
  }

  lemma ExactIsPartial(env: Env, item: Item, name: string)
    requires Exact(env, item, name)
    ensures Partial(env, item, name)
  {
    var t := env.lower(item.name);
    assert OccursAt(t, t, 0);
  }

  // ----- the two passes -----

  /** The first item that satisfies `p`. */
  function First(items: seq<Item>, p: Item -> bool): (r: Option<nat>)
    ensures r.Some? ==> r.value < |items| && p(items[r.value])
    ensures forall j :: 0 <= j < (if r.Some? then r.value else |items|) ==> !p(items[j])
  {
    if items == [] then None
    else if p(items[0]) then Some(0)
    else match First(items[1..], p)
      case None => None
      case Some(i) => Some(i + 1)
  }

  function ExactIn(env: Env, name: string, org: Option<string>): Item -> bool {
    (item: Item) => InScope(item, org) && Exact(env, item, name)
  }

  function PartialIn(env: Env, name: string, org: Option<string>): Item -> bool {
    (item: Item) => InScope(item, org) && Partial(env, item, name)
  }

  /** The position of the item found: the first exact match, else the first partial one. */
  function Find(env: Env, items: seq<Item>, name: string, org: Option<string>): Option<nat> {
    match First(items, ExactIn(env, name, org))
    case Some(i) => Some(i)
    case None => First(items, PartialIn(env, name, org))
  }

  method FindItem(env: Env, items: seq<Item>, name: string, org: Option<string>) returns (r: Option<nat>)
    ensures r == Find(env, items, name, org)
  {
    var key := env.lower(name);
    for i := 0 to |items|
      invariant forall j :: 0 <= j < i ==> !ExactIn(env, name, org)(items[j])
    {
      if InScope(items[i], org) && env.lower(items[i].name) == key {
        assert ExactIn(env, name, org)(items[i]);
        return Some(i);
      }
    }
    for i := 0 to |items|
      invariant forall j :: 0 <= j < i ==> !PartialIn(env, name, org)(items[j])
    {
      if InScope(items[i], org) && Contains(env.lower(items[i].name), key) {
        assert PartialIn(env, name, org)(items[i]);
        return Some(i);
      }
    }
    return None;
  }

  predicate Candidate(env: Env, item: Item, name: string, org: Option<string>) {
    InScope(item, org) && Partial(env, item, name)
  }

  /** Better: exact before partial, then the earlier position. */
  predicate Before(env: Env, items: seq<Item>, name: string, i: nat, j: nat)
    requires i < |items| && j < |items|
  {
    if Exact(env, items[i], name) == Exact(env, items[j], name) then i <= j else Exact(env, items[i], name)
  }

  /** The search returns the best candidate in scope, and nothing exactly when there is none. */
  lemma FindIsBest(env: Env, items: seq<Item>, name: string, org: Option<string>)
    ensures Find(env, items, name, org).None? <==> forall j :: 0 <= j < |items| ==> !Candidate(env, items[j], name, org)
    ensures forall i: nat :: Find(env, items, name, org) == Some(i) <==>
              && i < |items| && Candidate(env, items[i], name, org)
              && forall j :: 0 <= j < |items| && Candidate(env, items[j], name, org) ==> Before(env, items, name, i, j)
  {
    hide Partial, InScope;
    forall item: Item | Exact(env, item, name) ensures Partial(env, item, name) {
      ExactIsPartial(env, item, name);
    }
    var e, q := ExactIn(env, name, org), PartialIn(env, name, org);
    assert forall j :: 0 <= j < |items| ==> (q(items[j]) <==> Candidate(env, items[j], name, org));
    assert forall j :: 0 <= j < |items| && Candidate(env, items[j], name, org) && Exact(env, items[j], name) ==>
        e(items[j]);
  }

  // ----- scoping -----

  /** The items of one organization, in order. */
  function OwnedBy(items: seq<Item>, id: string): seq<Item> {
    if items == [] then [] else
    (if items[0].organizationId == Some(id) then [items[0]] else []) + OwnedBy(items[1..], id)
  }

  function ItemAt(items: seq<Item>, i: Option<nat>): Option<Item>
    requires i.Some? ==> i.value < |items|
  {
    match i
    case None => None
    case Some(k) => Some(items[k])
  }

  lemma {:induction false} FirstOfOwned(items: seq<Item>, id: string, p: Item -> bool, q: Item -> bool)
    requires forall item: Item :: p(item) <==> item.organizationId == Some(id) && q(item)
    ensures ItemAt(items, First(items, p)) == ItemAt(OwnedBy(items, id), First(OwnedBy(items, id), q))
  {
    if items != [] {
      FirstOfOwned(items[1..], id, p, q);
      var rest := OwnedBy(items[1..], id);
      if items[0].organizationId == Some(id) {
        assert OwnedBy(items, id) == [items[0]] + rest && ([items[0]] + rest)[1..] == rest;
      } else {
        assert OwnedBy(items, id) == rest;
      }
    }
  }

  /** A search scoped to an organization is the unscoped search on that organization's items alone. */
  lemma ScopedIsFiltered(env: Env, items: seq<Item>, name: string, id: string)
    ensures ItemAt(items, Find(env, items, name, Some(id)))
         == ItemAt(OwnedBy(items, id), Find(env, OwnedBy(items, id), name, None))
  {
    FirstOfOwned(items, id, ExactIn(env, name, Some(id)), ExactIn(env, name, None));
    FirstOfOwned(items, id, PartialIn(env, name, Some(id)), PartialIn(env, name, None));
  }

  // ----- lookup -----

  datatype LookupError =
    | VaultNotFound(vault: string)
    | VaultAmbiguous(vault: string)
    | NotFoundInVault(name: string, vault: string, searched: nat)
    | NotFound(name: string, searched: nat)

  predicate IsStaleMiss(e: LookupError) {
    !e.VaultAmbiguous?
  }

  /** Every indexed name has at least one id, so taking the first one cannot fail. */
  predicate WellIndexed(cache: VaultCache) {
    forall name :: name in cache.orgsByName ==> cache.orgsByName[name] != []
  }

  lemma DecryptedIsWellIndexed(env: Env, resp: SyncResponse, symKey: SymmetricKey, cache: VaultCache)
    requires IsVaultOf(env, resp, symKey, cache)
    ensures WellIndexed(cache)
  {
  }

  function LookupItem(env: Env, cache: VaultCache, name: string, vault: Option<string>): Result<Item, LookupError>
    requires WellIndexed(cache)
  {
    match vault
    case Some(v) =>
      if env.lower(v) !in cache.orgsByName then Err(VaultNotFound(v)) else
      var ids := cache.orgsByName[env.lower(v)];
      if |ids| > 1 then Err(VaultAmbiguous(v)) else
      (match Find(env, cache.items, name, Some(ids[0]))
       case Some(i) => Ok(cache.items[i])
       case None => Err(NotFoundInVault(name, v, |cache.items|)))
    case None =>
      match Find(env, cache.items, name, None)
      case Some(i) => Ok(cache.items[i])
      case None => Err(NotFound(name, |cache.items|))
  }

  /** Equal up to the number of items searched, which counts the items of every vault. */
  predicate SameButSearched(a: Result<Item, LookupError>, b: Result<Item, LookupError>) {
    match (a, b)
    case (Err(NotFoundInVault(n, v, _)), Err(NotFoundInVault(n', v', _))) => n == n' && v == v'
    case _ => a == b
  }

  /** Two caches that agree on one organization's ids and items answer every lookup scoped to it alike. */
  lemma NoInterference(env: Env, a: VaultCache, b: VaultCache, name: string, v: string)
    requires WellIndexed(a) && WellIndexed(b)
    requires env.lower(v) in a.orgsByName <==> env.lower(v) in b.orgsByName
    requires env.lower(v) in a.orgsByName ==>
               && a.orgsByName[env.lower(v)] == b.orgsByName[env.lower(v)]
               && OwnedBy(a.items, a.orgsByName[env.lower(v)][0]) == OwnedBy(b.items, a.orgsByName[env.lower(v)][0])
    ensures SameButSearched(LookupItem(env, a, name, Some(v)), LookupItem(env, b, name, Some(v)))
  {
    if env.lower(v) in a.orgsByName {
      ScopedIsFiltered(env, a.items, name, a.orgsByName[env.lower(v)][0]);
      ScopedIsFiltered(env, b.items, name, a.orgsByName[env.lower(v)][0]);
    }
  }

  // ----- every outcome of a lookup, written out -----

  lemma ContainsExactly(text: string, part: string)
    ensures Contains(text, part) <==> exists a: string, b: string :: text == a + part + b
  {
    if Contains(text, part) {
      var i :| 0 <= i <= |text| && OccursAt(text, part, i);
      assert text == text[..i] + part + text[i + |part|..];
    }
    forall a: string, b: string | text == a + part + b ensures Contains(text, part) {
      assert OccursAt(text, part, |a|);
    }
  }

  /**
   The item belongs to the organization, if one is named, and its name contains the requested one up to letter
   case.
   */
  ghost predicate Eligible(env: Env, item: Item, name: string, owner: Option<string>) {
    && (owner.Some? ==> item.organizationId == owner)
    && exists a: string, b: string :: env.lower(item.name) == a + env.lower(name) + b
  }

  /** Item `i` is eligible, and best: one of exactly that name, else any, and the first of those. */
  ghost predicate Chosen(env: Env, items: seq<Item>, name: string, owner: Option<string>, i: nat) {
    && i < |items| && Eligible(env, items[i], name, owner)
    && forall j :: 0 <= j < |items| && Eligible(env, items[j], name, owner) ==>
         var same, other := env.lower(items[i].name) == env.lower(name), env.lower(items[j].name) == env.lower(name);
         if same == other then i <= j else same
  }

  ghost predicate NoneEligible(env: Env, items: seq<Item>, name: string, owner: Option<string>) {
    forall j :: 0 <= j < |items| ==> !Eligible(env, items[j], name, owner)
  }

  lemma ChosenExactly(env: Env, items: seq<Item>, name: string, owner: Option<string>)
    ensures Find(env, items, name, owner).None? <==> NoneEligible(env, items, name, owner)
    ensures forall i: nat :: Find(env, items, name, owner) == Some(i) <==> Chosen(env, items, name, owner, i)
  {
    FindIsBest(env, items, name, owner);
    hide Find, Contains;
    forall item: Item ensures Candidate(env, item, name, owner) <==> Eligible(env, item, name, owner) {
      ContainsExactly(env.lower(item.name), env.lower(name));
    }
    hide Candidate, Eligible;
  }

  /** Without a vault: the best item there is, or `NotFound` exactly if none is eligible. */
  lemma LookupAnywhereExactly(env: Env, cache: VaultCache, name: string)
    requires WellIndexed(cache)
    ensures var r := LookupItem(env, cache, name, None);
            && (forall item :: r == Ok(item) <==>
                  exists i: nat :: Chosen(env, cache.items, name, None, i) && item == cache.items[i])
            && (r == Err(NotFound(name, |cache.items|)) <==> NoneEligible(env, cache.items, name, None))
            && (r.Err? ==> r == Err(NotFound(name, |cache.items|)))
  {
    ChosenExactly(env, cache.items, name, None);
    FindInRange(env, cache.items, name, None);
    hide Find, Chosen, NoneEligible;
  }

  lemma FindInRange(env: Env, items: seq<Item>, name: string, owner: Option<string>)
    ensures Find(env, items, name, owner).Some? ==> Find(env, items, name, owner).value < |items|
  {
  }

  /** How many organizations carry the name `v` in the index. */
  function Carriers(env: Env, cache: VaultCache, v: string): seq<string> {
    if env.lower(v) in cache.orgsByName then cache.orgsByName[env.lower(v)] else []
  }

  /**
   With a vault: no organization of that name, several, or the best item of the one there is, or none; and nothing
   else ever.
   */
  lemma LookupInVaultExactly(env: Env, cache: VaultCache, name: string, v: string)
    requires WellIndexed(cache)
    ensures var r, ids := LookupItem(env, cache, name, Some(v)), Carriers(env, cache, v);
            && (r == Err(VaultNotFound(v)) <==> |ids| == 0)
            && (r == Err(VaultAmbiguous(v)) <==> |ids| > 1)
            && (forall item :: r == Ok(item) <==>
                  && |ids| == 1
                  && exists i: nat :: Chosen(env, cache.items, name, Some(ids[0]), i) && item == cache.items[i])
            && (r == Err(NotFoundInVault(name, v, |cache.items|)) <==>
                  |ids| == 1 && NoneEligible(env, cache.items, name, Some(ids[0])))
            && (r.Err? ==> r.error in {VaultNotFound(v), VaultAmbiguous(v), NotFoundInVault(name, v, |cache.items|)})
  {
    var ids := Carriers(env, cache, v);
    if |ids| == 1 {
      ChosenExactly(env, cache.items, name, Some(ids[0]));
      FindInRange(env, cache.items, name, Some(ids[0]));
    }
    hide Find, Chosen, NoneEligible;
  }

  /** A failed lookup is worth a refresh exactly unless the request names a vault that several organizations carry. */
  lemma WorthRefreshExactly(env: Env, cache: VaultCache, name: string, vault: Option<string>)
    requires WellIndexed(cache) && LookupItem(env, cache, name, vault).Err?
    ensures IsStaleMiss(LookupItem(env, cache, name, vault).error) <==>
            !(vault.Some? && |Carriers(env, cache, vault.value)| > 1)
  {
    hide LookupItem, Carriers;
    if vault.Some? {
      LookupInVaultExactly(env, cache, name, vault.value);
    } else {
      LookupAnywhereExactly(env, cache, name);
    }
  }

  /** Organization `o` of the response is the only one carrying the name `v`, up to letter case. */
  predicate OnlyNamed(env: Env, resp: SyncResponse, o: nat, v: string) {
    && o < |resp.organizations|
    && env.lower(resp.organizations[o].name) == env.lower(v)
    && forall i :: 0 <= i < |resp.organizations| && env.lower(resp.organizations[i].name) == env.lower(v) ==> i == o
  }

  lemma {:induction false} SoleId(env: Env, orgs: seq<Organization>, name: string)
    requires |IdsNamed(env, orgs, name)| == 1
    ensures exists o :: 0 <= o < |orgs| && env.lower(orgs[o].name) == name && orgs[o].id == IdsNamed(env, orgs, name)[0]
                     && forall i :: 0 <= i < |orgs| && env.lower(orgs[i].name) == name ==> i == o
  {
    var last := |orgs| - 1;
    var front := orgs[..last];
    if env.lower(orgs[last].name) == name {
      forall i | 0 <= i < last ensures env.lower(orgs[i].name) != name {
        IdsNamedMember(env, front, name, orgs[i].id);
        assert front[i] == orgs[i] && IdsNamed(env, front, name) == [];
      }
    } else {
      SoleId(env, front, name);
      var o :| 0 <= o < |front| && env.lower(front[o].name) == name && front[o].id == IdsNamed(env, front, name)[0]
               && forall i :: 0 <= i < |front| && env.lower(front[i].name) == name ==> i == o;
      assert forall i :: 0 <= i < |front| ==> orgs[i] == front[i];
    }
  }

  /** `item` is the decryption of cipher `c`, owned by organization `o`, the only one named `v`. */
  ghost predicate ComesFrom(env: Env, resp: SyncResponse, symKey: SymmetricKey, item: Item, v: string, o: nat, c: nat) {
    && OnlyNamed(env, resp, o, v)
    && c < |resp.ciphers|
    && resp.ciphers[c].organizationId == Some(resp.organizations[o].id)
    && resp.organizations[o].id != ""
    && Decrypts(env, resp, symKey, resp.ciphers[c])
    && item == ItemOf(env, resp, symKey, resp.ciphers[c])
  }

  lemma OwnerKept(env: Env, resp: SyncResponse, symKey: SymmetricKey, c: Cipher)
    requires Decrypts(env, resp, symKey, c)
    ensures ItemOf(env, resp, symKey, c).organizationId == if c.organizationId == Some("") then None
            else c.organizationId
  {
    hide KeyFor, DecryptStr, FieldMap;
  }

  lemma SoleOrganization(env: Env, resp: SyncResponse, cache: VaultCache, v: string) returns (o: nat)
    requires IsOrgIndex(env, resp.organizations, cache.orgsByName)
    requires env.lower(v) in cache.orgsByName && |cache.orgsByName[env.lower(v)]| == 1
    ensures OnlyNamed(env, resp, o, v) && resp.organizations[o].id == cache.orgsByName[env.lower(v)][0]
  {
    SoleId(env, resp.organizations, env.lower(v));
    o :| 0 <= o < |resp.organizations| && env.lower(resp.organizations[o].name) == env.lower(v)
             && resp.organizations[o].id == cache.orgsByName[env.lower(v)][0]
             && forall i :: 0 <= i < |resp.organizations| && env.lower(resp.organizations[i].name) == env.lower(v) ==>
                  i == o;
  }

  lemma ItemSource(env: Env, resp: SyncResponse, symKey: SymmetricKey, cache: VaultCache, i: nat) returns (c: nat)
    requires IsVaultOf(env, resp, symKey, cache) && i < |cache.items|
    ensures c < |resp.ciphers| && Decrypts(env, resp, symKey, resp.ciphers[c])
    ensures cache.items[i] == ItemOf(env, resp, symKey, resp.ciphers[c])
  {
    hide Decrypts, ItemOf, IsOrgIndex;
    var from :| KeptFrom(env, resp, symKey, |resp.ciphers|, cache.items, from);
    c := from[i];
  }

  lemma ScopedFindHit(env: Env, items: seq<Item>, name: string, id: string, i: nat)
    requires Find(env, items, name, Some(id)) == Some(i)
    ensures i < |items| && items[i].organizationId == Some(id) && Partial(env, items[i], name)
  {
    FindIsBest(env, items, name, Some(id));
  }

  /**
   From response to result: what a lookup scoped to `v` returns is the decryption, under the key for the id of
   the one organization named `v`, of a cipher with that id, and its name contains `name`.
   */
  lemma ScopedProvenance(env: Env, resp: SyncResponse, symKey: SymmetricKey, cache: VaultCache, name: string, v: string)
    requires IsVaultOf(env, resp, symKey, cache) && WellIndexed(cache)
    requires LookupItem(env, cache, name, Some(v)).Ok?
    ensures var item := LookupItem(env, cache, name, Some(v)).value;
            Partial(env, item, name) && exists o: nat, c: nat :: ComesFrom(env, resp, symKey, item, v, o, c)
  {
    hide Decrypts, ItemOf, OnlyNamed, Partial, Find, IsOrgIndex, KeptFrom, InScope;
    var id := cache.orgsByName[env.lower(v)][0];
    var o := SoleOrganization(env, resp, cache, v);
    var i := Find(env, cache.items, name, Some(id)).value;
    ScopedFindHit(env, cache.items, name, id, i);
    var c := ItemSource(env, resp, symKey, cache, i);
    OwnerKept(env, resp, symKey, resp.ciphers[c]);
    assert ComesFrom(env, resp, symKey, cache.items[i], v, o, c);
  }

  /** If no other entry has its id, the key for an organization's id is the one of its own entry. */
  lemma KeyIsOwn(env: Env, resp: SyncResponse, symKey: SymmetricKey, o: nat)
    requires o < |resp.organizations| && resp.organizations[o].id != ""
    requires forall i :: 0 <= i < |resp.organizations| && resp.organizations[i].id == resp.organizations[o].id ==>
            i == o
    ensures KeyFor(env, resp, symKey, Some(resp.organizations[o].id)) ==
            match PrivateKeyOf(env, resp, symKey)
            case None => None
            case Some(priv) =>
              var k := DecryptOrgKey(env.prims, resp.organizations[o].key, priv);
              if k.Ok? then Some(k.value) else None
  {
    hide DecryptOrgKey, PrivateKeyOf;
    if PrivateKeyOf(env, resp, symKey).Some? {
      OrgKeyOfSole(env, resp.organizations, PrivateKeyOf(env, resp, symKey).value, o);
    }
  }

  lemma {:induction false} OrgKeyOfSole(env: Env, orgs: seq<Organization>, priv: RsaKey, o: nat)
    requires o < |orgs| && forall i :: 0 <= i < |orgs| && orgs[i].id == orgs[o].id ==> i == o
    ensures var k := DecryptOrgKey(env.prims, orgs[o].key, priv);
            OrgKey(env, orgs, priv, orgs[o].id) == if k.Ok? then Some(k.value) else None
  {
    hide DecryptOrgKey;
    var last := |orgs| - 1;
    if o < last {
      OrgKeyOfSole(env, orgs[..last], priv, o);
    } else {
      NoOrgKey(env, orgs[..last], priv, orgs[o].id);
    }
  }

  lemma {:induction false} NoOrgKey(env: Env, orgs: seq<Organization>, priv: RsaKey, id: string)
    requires forall i :: 0 <= i < |orgs| ==> orgs[i].id != id
    ensures OrgKey(env, orgs, priv, id).None?
  {
    hide DecryptOrgKey;
    if orgs != [] {
      NoOrgKey(env, orgs[..|orgs| - 1], priv, id);
    }
  }

  // ----- the secret of an item -----

  const PREFERRED: seq<string> := ["value", "secret", "api_key", "apikey", "token"]

  predicate Filled(fields: map<string, string>, name: string) {
    name in fields && fields[name] != ""
  }

  /** The first preferred name, from position `i` on, that has a non-empty field. */
  function PreferredField(fields: map<string, string>, i: nat): (r: Option<string>)
    requires i <= |PREFERRED|
    ensures r.Some? ==> exists k :: i <= k < |PREFERRED| && r == Some(PREFERRED[k]) && Filled(fields, PREFERRED[k])
                                 && forall j :: i <= j < k ==> !Filled(fields, PREFERRED[j])
    ensures r.None? ==> forall j :: i <= j < |PREFERRED| ==> !Filled(fields, PREFERRED[j])
    decreases |PREFERRED| - i
  {
    if i == |PREFERRED| then None
    else if Filled(fields, PREFERRED[i]) then Some(PREFERRED[i])
    else PreferredField(fields, i + 1)
  }

  function FirstFilled(fields: map<string, string>, order: seq<string>): string
    requires forall k :: k in order ==> k in fields
  {
    if order == [] then ""
    else if fields[order[0]] != "" then fields[order[0]]
    else FirstFilled(fields, order[1..])
  }

  /** Some order in which a hash map may list its keys. */
  ghost predicate Enumerates(order: seq<string>, fields: map<string, string>) {
    && (forall k :: k in order <==> k in fields)
    && (forall i, j :: 0 <= i < j < |order| ==> order[i] != order[j])
  }

  /** The extracted secret when the field map lists its keys in `order`. */
  ghost function ExtractIn(item: Item, order: seq<string>): string
    requires Enumerates(order, item.fields)
  {
    if item.password != "" then item.password else
    match PreferredField(item.fields, 0)
    case Some(k) => item.fields[k]
    case None => if item.notes != "" then item.notes else FirstFilled(item.fields, order)
  }

  predicate Decisive(item: Item) {
    item.password != "" || PreferredField(item.fields, 0).Some? || item.notes != ""
  }

  /** `v` is a secret the item can yield. */
  ghost predicate IsSecret(item: Item, v: string) {
    if item.password != "" then v == item.password
    else if PreferredField(item.fields, 0).Some? then v == item.fields[PreferredField(item.fields, 0).value]
    else if item.notes != "" then v == item.notes
    else if exists k :: Filled(item.fields, k) then exists k :: Filled(item.fields, k) && v == item.fields[k]
    else v == ""
  }

  method ExtractSecret(item: Item) returns (v: string)
    ensures IsSecret(item, v)
  {
    if item.password != "" {
      return item.password;
    }
    for i := 0 to |PREFERRED|
      invariant PreferredField(item.fields, 0) == PreferredField(item.fields, i)
    {
      if PREFERRED[i] in item.fields && item.fields[PREFERRED[i]] != "" {
        return item.fields[PREFERRED[i]];
      }
    }
    if item.notes != "" {
      return item.notes;
    }
    var rest := item.fields.Keys;
    while rest != {}
      invariant rest <= item.fields.Keys
      invariant forall k :: k in item.fields && k !in rest ==> item.fields[k] == ""
      decreases |rest|
    {
      var k :| k in rest;
      if item.fields[k] != "" {
        assert Filled(item.fields, k);
        return item.fields[k];
      }
      rest := rest - {k};
    }
    return "";
  }

  /** The tiers by name: password; the five preferred fields in this order; notes; any field; nothing. */
  ghost predicate TierSecret(item: Item, v: string) {
    if item.password != "" then v == item.password
    else if Filled(item.fields, "value") then v == item.fields["value"]
    else if Filled(item.fields, "secret") then v == item.fields["secret"]
    else if Filled(item.fields, "api_key") then v == item.fields["api_key"]
    else if Filled(item.fields, "apikey") then v == item.fields["apikey"]
    else if Filled(item.fields, "token") then v == item.fields["token"]
    else if item.notes != "" then v == item.notes
    else if exists k :: Filled(item.fields, k) then exists k :: Filled(item.fields, k) && v == item.fields[k]
    else v == ""
  }

  lemma TiersExactly(item: Item, v: string)
    ensures IsSecret(item, v) <==> TierSecret(item, v)
  {
    var m := item.fields;
    assert PREFERRED[0] == "value" && PREFERRED[1] == "secret" && PREFERRED[2] == "api_key";
    assert PREFERRED[3] == "apikey" && PREFERRED[4] == "token" && |PREFERRED| == 5;
    hide Filled;
    assert PreferredField(m, 4) == if Filled(m, "token") then Some("token") else PreferredField(m, 5);
    assert PreferredField(m, 2) == if Filled(m, "api_key") then Some("api_key") else PreferredField(m, 3);
    assert PreferredField(m, 0) == if Filled(m, "value") then Some("value") else PreferredField(m, 1);
  }

  lemma {:induction false} FirstFilledMeaning(fields: map<string, string>, order: seq<string>)
    requires forall k :: k in order ==> k in fields
    ensures var v := FirstFilled(fields, order);
            if v == "" then forall k :: k in order ==> fields[k] == "" else exists k :: k in order && fields[k] == v
  {
    if order != [] {
      FirstFilledMeaning(fields, order[1..]);
      assert order == [order[0]] + order[1..];
    }
  }

  /** Every non-empty map lists its keys in some order starting with any given key. */
  lemma {:induction false} EnumerationExists(fields: map<string, string>) returns (order: seq<string>)
    ensures Enumerates(order, fields)
    decreases |fields|
  {
    if fields == map[] {
      order := [];
    } else {
      var k :| k in fields;
      var smaller := fields - {k};
      assert |smaller.Keys| < |fields.Keys| by { assert smaller.Keys == fields.Keys - {k}; }
      var rest := EnumerationExists(smaller);
      order := [k] + rest;
    }
  }

  /** The possible secrets are exactly what the code extracts over all orders of the field map. */
  lemma SecretsAreExtractions(item: Item, v: string)
    ensures IsSecret(item, v) <==> exists order :: Enumerates(order, item.fields) && ExtractIn(item, order) == v
  {
    hide PreferredField;
    forall order | Enumerates(order, item.fields) ensures IsSecret(item, ExtractIn(item, order)) {
      FirstFilledMeaning(item.fields, order);
      var v := FirstFilled(item.fields, order);
      assert v != "" ==> exists k :: Filled(item.fields, k) && v == item.fields[k];
      assert v == "" ==> forall k :: !Filled(item.fields, k);
    }
    if IsSecret(item, v) {
      var any := EnumerationExists(item.fields);
      if !Decisive(item) && exists k :: Filled(item.fields, k) {
        var k :| Filled(item.fields, k) && v == item.fields[k];
        var rest := EnumerationExists(item.fields - {k});
        var order := [k] + rest;
        assert order[0] == k && forall j :: j in order <==> j == k || j in rest;
        assert k !in rest && order[1..] == rest;
        assert Enumerates(order, item.fields);
        assert ExtractIn(item, order) == FirstFilled(item.fields, order) == v;
      } else {
        FirstFilledMeaning(item.fields, any);
        assert ExtractIn(item, any) == v;
      }
    }
  }

  /** The secret does not depend on the order exactly when an earlier tier decides or all filled fields agree. */
  lemma SecretUniqueExactly(item: Item)
    ensures (forall v, w :: IsSecret(item, v) && IsSecret(item, w) ==> v == w) <==>
            (Decisive(item) || forall j, k :: Filled(item.fields, j) && Filled(item.fields, k) ==>
                item.fields[j] == item.fields[k])
  {
    hide PreferredField;
    if !Decisive(item) {
      forall j, k | Filled(item.fields, j) && Filled(item.fields, k)
        ensures IsSecret(item, item.fields[j]) && IsSecret(item, item.fields[k])
      {
      }
    }
  }

  /** The secret is empty exactly when password, notes and all fields are. */
  lemma SecretEmptyExactly(item: Item, v: string)
    requires IsSecret(item, v)
    ensures v == "" <==> item.password == "" && item.notes == "" && forall k :: k in item.fields ==>
            item.fields[k] == ""
  {
    if v == "" {
      forall k | k in item.fields ensures item.fields[k] == "" {
        assert !Filled(item.fields, k);
      }
    }
  }
}
