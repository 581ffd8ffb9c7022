/** The configuration vault: an in-memory cache, optionally in front of a store whose rows are
    copies. With or without the store it behaves as its specification says. */
module ConfigVault {
  import opened Common
  import opened VaultSpec

  // ---- what the cache holds ----

  datatype Entry = Entry(key: string, scope: Scope, id: Option<string>, content: Content)

  datatype SecretEntry = SecretEntry(key: string, scope: Scope, id: Option<string>, sealed: Sealed)

  // ---- the store: rows by primary key (scope, scope id column, key) ----

  datatype RowKey = RowKey(scope: Scope, sid: string, key: string)

  function Sid(id: Option<string>): string
  {
    OrElse(id, "__global__")
  }

  function Unsid(sid: string): Option<string>
  {
    if sid == "__global__" then None else Some(sid)
  }

  function RowOf(slot: Slot): RowKey
  {
    RowKey(slot.scope, Sid(slot.id), slot.key)
  }

  function SlotOfRow(r: RowKey): Slot
  {
    SlotOf(r.key, r.scope, Unsid(r.sid))
  }

  ghost predicate WellFormedSlot(ids: Ids, slot: Slot)
  {
    Known(ids, slot.id) && Norm(slot.id) == slot.id
  }

  function KeyOf(slot: Slot): string
  {
    CacheKey(slot.key, slot.scope, slot.id)
  }

  /** A row names the slot it was made for, unless the slot's id is the text that stands for a
      missing one. */
  lemma RowRoundTrip(slot: Slot)
    ensures SlotOfRow(RowOf(slot)) == slot <==> slot.id != Some("") && slot.id != Some("__global__")
  {
  }

  lemma KeyOfSlotOf(ids: Ids, key: string, scope: Scope, id: Option<string>)
    requires Known(ids, id)
    ensures WellFormedSlot(ids, SlotOf(key, scope, id)) && KeyOf(SlotOf(key, scope, id)) == CacheKey(key, scope, id)
    ensures RowOf(SlotOf(key, scope, id)) == RowKey(scope, Sid(id), key)
  {
  }

  // ---- agreement of cache and store with the specification ----

  /** Every cached item is what the specification has at the item's own address. */
  ghost predicate CacheAgrees<A(!new), B>(cache: map<string, A>, slotOf: A -> Slot, what: A -> B, spec: map<Slot, B>)
  {
    forall ck :: ck in cache ==>
      var slot := slotOf(cache[ck]);
      slot in spec && KeyOf(slot) == ck && what(cache[ck]) == spec[slot]
  }

  /** The rows are exactly what the specification has. */
  ghost predicate RowsAgree<B>(rows: map<RowKey, B>, spec: map<Slot, B>)
  {
    && (forall slot :: slot in spec ==> RowOf(slot) in rows && rows[RowOf(slot)] == spec[slot])
    && (forall r :: r in rows ==> SlotOfRow(r) in spec && RowOf(SlotOfRow(r)) == r)
  }

  ghost predicate AllCached<A(!new), B>(cache: map<string, A>, spec: map<Slot, B>)
  {
    forall slot :: slot in spec ==> KeyOf(slot) in cache
  }

  ghost predicate SlotsWellFormed<B>(ids: Ids, spec: map<Slot, B>)
  {
    forall slot :: slot in spec ==> WellFormedSlot(ids, slot)
  }

  /** One kind of item, cached and perhaps stored. */
  ghost predicate Agrees<A(!new), B>(ids: Ids, stored: bool, cache: map<string, A>, slotOf: A -> Slot, what: A -> B,
                                     rows: map<RowKey, B>, spec: map<Slot, B>)
  {
    && SlotsWellFormed(ids, spec)
    && CacheAgrees(cache, slotOf, what, spec)
    && (if stored then RowsAgree(rows, spec) else rows == map[] && AllCached(cache, spec))
  }

  function EntrySlot(e: Entry): Slot
  {
    SlotOf(e.key, e.scope, e.id)
  }

  function SecretSlot(e: SecretEntry): Slot
  {
    SlotOf(e.key, e.scope, e.id)
  }

  /** The item found in the cache, or else in the store, is the specification's. */
  lemma Found<A(!new), B>(ids: Ids, stored: bool, cache: map<string, A>, slotOf: A -> Slot, what: A -> B,
                          rows: map<RowKey, B>, spec: map<Slot, B>, slot: Slot)
    requires Agrees(ids, stored, cache, slotOf, what, rows, spec) && WellFormedSlot(ids, slot)
    ensures KeyOf(slot) in cache ==>
              slot in spec && slotOf(cache[KeyOf(slot)]) == slot && what(cache[KeyOf(slot)]) == spec[slot]
    ensures stored ==> (RowOf(slot) in rows <==> slot in spec) && (slot in spec ==> rows[RowOf(slot)] == spec[slot])
    ensures !stored ==> (KeyOf(slot) in cache <==> slot in spec)
  {
    if KeyOf(slot) in cache {
      var other := slotOf(cache[KeyOf(slot)]);
      assert other in spec && WellFormedSlot(ids, other);
      CacheKeyInjective(ids, slot.key, slot.scope, slot.id, other.key, other.scope, other.id);
    }
    RowRoundTrip(slot);
  }

  /** Writing an item through to cache and store keeps the agreement. */
  lemma Written<A(!new), B>(ids: Ids, stored: bool, cache: map<string, A>, slotOf: A -> Slot, what: A -> B,
                            rows: map<RowKey, B>, spec: map<Slot, B>, slot: Slot, a: A)
    requires Agrees(ids, stored, cache, slotOf, what, rows, spec) && WellFormedSlot(ids, slot) && slotOf(a) == slot
    ensures Agrees(ids, stored, cache[KeyOf(slot) := a], slotOf, what,
                   if stored then rows[RowOf(slot) := what(a)] else rows, spec[slot := what(a)])
  {
    RowRoundTrip(slot);
    var spec' := spec[slot := what(a)];
    forall x | x in spec'
      ensures WellFormedSlot(ids, x) && (RowOf(x) == RowOf(slot) ==> x == slot)
    {
      RowRoundTrip(x);
    }
  }

  function EntryContent(e: Entry): Content
  {
    e.content
  }

  function SecretSealed(e: SecretEntry): Sealed
  {
    e.sealed
  }

  /** What a read makes of the entry it finds. */
  function Shown(e: Option<Entry>, default: Option<string>): Option<string>
  {
    if e.None? || e.value.content.deleted then default else Some(e.value.content.value)
  }

  function Resolved(cipher: Option<Cipher>, e: Option<SecretEntry>): Answer
  {
    if cipher.None? then NoCipher
    else if e.None? then NotFound
    else Plain(cipher.value.decrypt(e.value.sealed.cipher))
  }

  function Deleted(c: Content): Content
  {
    c.(deleted := true, version := c.version + 1)
  }

  function Gone(e: Entry): Entry
  {
    e.(content := Deleted(e.content))
  }

  class Vault {
    ghost const ids: Ids        // the scope ids in use
    const stored: bool          // whether a store is wired
    const services: Services
    var config: map<string, Entry>
    var secrets: map<string, SecretEntry>
    var rows: map<RowKey, Content>
    var secretRows: map<RowKey, Sealed>
    ghost var spec: Spec

    ghost predicate Valid()
      reads this
    {
      && Agrees(ids, stored, config, EntrySlot, EntryContent, rows, spec.configs)
      && Agrees(ids, stored, secrets, SecretSlot, SecretSealed, secretRows, spec.secrets)
    }

    constructor (ghost ids: Ids, stored: bool, services: Services)
      ensures Valid() && spec == EMPTY && this.ids == ids && this.stored == stored && this.services == services
    {
      this.ids, this.stored, this.services := ids, stored, services;
      config, secrets, rows, secretRows, spec := map[], map[], map[], map[], EMPTY;
    }

    /** The entry a read finds: the cached one, or else a copy of the store's row. */
    function Sought(key: string, scope: Scope, id: Option<string>): Option<Entry>
      reads this`config, this`rows
    {
      var ck, r := CacheKey(key, scope, id), RowKey(scope, Sid(id), key);
      if ck in config then Some(config[ck])
      else if stored && r in rows then Some(Entry(key, scope, Unsid(r.sid), rows[r]))
      else None
    }

    function SoughtSecret(key: string, scope: Scope, id: Option<string>): Option<SecretEntry>
      reads this`secrets, this`secretRows
    {
      var ck, r := CacheKey(key, scope, id), RowKey(scope, Sid(id), key);
      if ck in secrets then Some(secrets[ck])
      else if stored && r in secretRows then Some(SecretEntry(key, scope, Unsid(r.sid), secretRows[r]))
      else None
    }

    /** What is found for an id in use is what the specification has. */
    lemma SoughtIs(key: string, scope: Scope, id: Option<string>)
      requires Valid() && Known(ids, id)
      ensures var e, slot := Sought(key, scope, id), SlotOf(key, scope, id);
              && (e.Some? <==> slot in spec.configs)
              && (e.Some? ==> EntrySlot(e.value) == slot && e.value.content == spec.configs[slot])
    {
      KeyOfSlotOf(ids, key, scope, id);
      Found(ids, stored, config, EntrySlot, EntryContent, rows, spec.configs, SlotOf(key, scope, id));
      RowRoundTrip(SlotOf(key, scope, id));
    }

    lemma SoughtSecretIs(key: string, scope: Scope, id: Option<string>)
      requires Valid() && Known(ids, id)
      ensures var e, slot := SoughtSecret(key, scope, id), SlotOf(key, scope, id);
              && (e.Some? <==> slot in spec.secrets)
              && (e.Some? ==> SecretSlot(e.value) == slot && e.value.sealed == spec.secrets[slot])
    {
      KeyOfSlotOf(ids, key, scope, id);
      Found(ids, stored, secrets, SecretSlot, SecretSealed, secretRows, spec.secrets, SlotOf(key, scope, id));
      RowRoundTrip(SlotOf(key, scope, id));
    }

    lemma CachesFound(key: string, scope: Scope, id: Option<string>)
      requires Valid() && Known(ids, id)
      ensures Sought(key, scope, id).Some? ==>
                Agrees(ids, stored, config[CacheKey(key, scope, id) := Sought(key, scope, id).value], EntrySlot,
                       EntryContent, rows, spec.configs)
    {
      SoughtIs(key, scope, id);
      KeyOfSlotOf(ids, key, scope, id);
      hide Agrees, Sought, CacheKey, Known;
      var e := Sought(key, scope, id);
      if e.Some? {
        CacheIn(ids, stored, config, EntrySlot, EntryContent, rows, spec.configs, SlotOf(key, scope, id), e.value);
      }
    }

    lemma ResolvedIs(key: string, scope: Scope, id: Option<string>)
      requires Valid() && Known(ids, id)
      ensures Answered(services, spec, ResolveSecret(key, scope, id)) ==
              Resolved(services.cipher, SoughtSecret(key, scope, id))
    {
      SoughtSecretIs(key, scope, id);
    }

    lemma CachesFoundSecret(key: string, scope: Scope, id: Option<string>)
      requires Valid() && Known(ids, id)
      ensures SoughtSecret(key, scope, id).Some? ==>
                Agrees(ids, stored, secrets[CacheKey(key, scope, id) := SoughtSecret(key, scope, id).value], SecretSlot,
                       SecretSealed, secretRows, spec.secrets)
    {
      SoughtSecretIs(key, scope, id);
      KeyOfSlotOf(ids, key, scope, id);
      hide Agrees, SoughtSecret, CacheKey, Known;
      var e := SoughtSecret(key, scope, id);
      if e.Some? {
        CacheIn(ids, stored, secrets, SecretSlot, SecretSealed, secretRows, spec.secrets, SlotOf(key, scope, id),
                e.value);
      }
    }

    /** Cache first, then the store; for an id in use, what the specification has. */
    method Lookup(key: string, scope: Scope, id: Option<string>) returns (e: Option<Entry>)
      ensures e == Sought(key, scope, id)
      ensures Valid() && Known(ids, id) ==>
                var slot := SlotOf(key, scope, id);
                && (e.Some? <==> slot in spec.configs)
                && (e.Some? ==> EntrySlot(e.value) == slot && e.value.content == spec.configs[slot])
    {
      if Valid() && Known(ids, id) {
        SoughtIs(key, scope, id);
      }
      hide Agrees, CacheKey, Norm, Known, SlotOf;
      var ck := CacheKey(key, scope, id);
      if ck in config {
        return Some(config[ck]);
      }
      var r := RowKey(scope, Sid(id), key);
      if stored && r in rows {
        return Some(Entry(key, scope, Unsid(r.sid), rows[r]));
      }
      return None;
    }

    method LookupSecret(key: string, scope: Scope, id: Option<string>) returns (e: Option<SecretEntry>)
      ensures e == SoughtSecret(key, scope, id)
      ensures CacheKey(key, scope, id) in secrets ==> e == Some(secrets[CacheKey(key, scope, id)])
    {
      var ck := CacheKey(key, scope, id);
      if ck in secrets {
        return Some(secrets[ck]);
      }
      var r := RowKey(scope, Sid(id), key);
      if stored && r in secretRows {
        return Some(SecretEntry(key, scope, Unsid(r.sid), secretRows[r]));
      }
      return None;
    }

    /** Writes an entry to the cache and, if there is one, to the store. */
    method Write(key: string, scope: Scope, id: Option<string>, content: Content)
      modifies this`config, this`rows, this`spec
      ensures config == old(config)[CacheKey(key, scope, id) := Entry(key, scope, id, content)]
      ensures rows == if stored then old(rows)[RowKey(scope, Sid(id), key) := content] else old(rows)
      ensures spec == old(spec).(configs := old(spec.configs)[SlotOf(key, scope, id) := content])
      ensures old(Valid()) && Known(ids, id) ==> Valid()
    {
      var e := Entry(key, scope, id, content);
      if Valid() && Known(ids, id) {
        KeyOfSlotOf(ids, key, scope, id);
        Written(ids, stored, config, EntrySlot, EntryContent, rows, spec.configs, SlotOf(key, scope, id), e);
      }
      hide Agrees, CacheKey, Known, Sid;
      config := config[CacheKey(key, scope, id) := e];
      if stored {
        rows := rows[RowKey(scope, Sid(id), key) := content];
      }
      spec := spec.(configs := spec.configs[SlotOf(key, scope, id) := content]);
    }

    method WriteSecret(key: string, scope: Scope, id: Option<string>, sealed: Sealed)
      modifies this`secrets, this`secretRows, this`spec
      ensures secrets == old(secrets)[CacheKey(key, scope, id) := SecretEntry(key, scope, id, sealed)]
      ensures secretRows == if stored then old(secretRows)[RowKey(scope, Sid(id), key) := sealed] else old(secretRows)
      ensures spec == old(spec).(secrets := old(spec.secrets)[SlotOf(key, scope, id) := sealed])
      ensures old(Valid()) && Known(ids, id) ==> Valid()
    {
      var e := SecretEntry(key, scope, id, sealed);
      if Valid() && Known(ids, id) {
        KeyOfSlotOf(ids, key, scope, id);
        Written(ids, stored, secrets, SecretSlot, SecretSealed, secretRows, spec.secrets, SlotOf(key, scope, id), e);
      }
      hide Agrees, CacheKey, Known, Sid;
      secrets := secrets[CacheKey(key, scope, id) := e];
      if stored {
        secretRows := secretRows[RowKey(scope, Sid(id), key) := sealed];
      }
      spec := spec.(secrets := spec.secrets[SlotOf(key, scope, id) := sealed]);
    }

    /** Stores a plain value; its version follows the entry it replaces, deleted or not. */
    method SetValue(key: string, scope: Scope, id: Option<string>, value: string) returns (version: int)
      modifies this
      ensures version == match old(Sought(key, scope, id))
                         case None => 1
                         case Some(e) => e.content.version + 1
      ensures var content := Content(value, version, false, false);
              && config == old(config)[CacheKey(key, scope, id) := Entry(key, scope, id, content)]
              && rows == if stored then old(rows)[RowKey(scope, Sid(id), key) := content] else old(rows)
      ensures secrets == old(secrets) && secretRows == old(secretRows)
      ensures spec == SetConfig(old(spec), SlotOf(key, scope, id), value)
      ensures old(Valid()) && Known(ids, id) ==> Valid() && version == spec.configs[SlotOf(key, scope, id)].version
    {
      hide Agrees, Norm, Known, CacheKey, Sid, Sought;
      var existing := Lookup(key, scope, id);
      version := if existing.Some? then existing.value.content.version + 1 else 1;
      Write(key, scope, id, Content(value, version, false, false));
      spec := SetConfig(old(spec), SlotOf(key, scope, id), value);
    }

    /** Reads a value; an entry found only in the store is cached. */
    method GetValue(key: string, scope: Scope, id: Option<string>, default: Option<string>)
      returns (value: Option<string>)
      modifies this`config
      ensures value == Shown(old(Sought(key, scope, id)), default)
      ensures config == if old(Sought(key, scope, id)).None? then old(config)
                        else old(config)[CacheKey(key, scope, id) := old(Sought(key, scope, id)).value]
      ensures old(Valid()) && Known(ids, id) ==> Valid() && value == Read(spec, SlotOf(key, scope, id), default)
    {
      hide Agrees, CacheKey, Known, Sid, Norm;
      if Valid() && Known(ids, id) {
        CachesFound(key, scope, id);
      }
      var ck := CacheKey(key, scope, id);
      var e := Lookup(key, scope, id);
      if ck !in config && e.Some? {
        config := config[ck := e.value];
      }
      if e.None? || e.value.content.deleted {
        return default;
      }
      return Some(e.value.content.value);
    }

    /** Soft deletion. The store bumps its own row, which ends up as the cache has it. */
    method DeleteValue(key: string, scope: Scope, id: Option<string>) returns (found: bool)
      modifies this
      ensures found == old(Sought(key, scope, id)).Some?
      ensures !found ==> config == old(config) && rows == old(rows)
      ensures found ==>
                var r := RowKey(scope, Sid(id), key);
                && config == old(config)[CacheKey(key, scope, id) := Gone(old(Sought(key, scope, id)).value)]
                && rows == if stored && r in old(rows) then old(rows)[r := Deleted(old(rows)[r])] else old(rows)
      ensures secrets == old(secrets) && secretRows == old(secretRows)
      ensures spec == Remove(old(spec), SlotOf(key, scope, id))
      ensures old(Valid()) && Known(ids, id) ==> Valid() && found == (SlotOf(key, scope, id) in old(spec).configs)
    {
      hide Agrees, Norm, Known, WellFormedSlot, CacheKey, OrElse, Sought, Sid;
      ghost var slot := SlotOf(key, scope, id);
      var e := Lookup(key, scope, id);
      if e.None? {
        spec := Remove(spec, slot);
        return false;
      }
      var entry := Gone(e.value);
      if Valid() && Known(ids, id) {
        KeyOfSlotOf(ids, key, scope, id);
        Found(ids, stored, config, EntrySlot, EntryContent, rows, spec.configs, slot);
        Written(ids, stored, config, EntrySlot, EntryContent, rows, spec.configs, slot, entry);
      }
      config := config[CacheKey(key, scope, id) := entry];
      if stored {
        var r := RowKey(scope, Sid(id), key);
        if r in rows {
          rows := rows[r := Deleted(rows[r])];
        }
      }
      spec := Remove(spec, slot);
      return true;
    }

    /** Encrypts and stores a secret with its marker; refused without a cipher. */
    method PutSecret(key: string, scope: Scope, id: Option<string>, value: string, salt: nat)
      returns (version: Option<int>)
      modifies this
      ensures version.None? <==> services.cipher.None?
      ensures version.None? ==> spec == old(spec) && config == old(config) && secrets == old(secrets)
      ensures version.None? ==> rows == old(rows) && secretRows == old(secretRows)
      ensures version.Some? ==>
                var x, r := services.cipher.value.encrypt(value, salt), RowKey(scope, Sid(id), key);
                var was := old(SoughtSecret(key, scope, id));
                var sealed := Sealed(x, version.value);
                var marker := Content(services.text(x), version.value, true, false);
                && version.value == (if was.Some? then was.value.sealed.version + 1 else 1)
                && secrets == old(secrets)[CacheKey(key, scope, id) := SecretEntry(key, scope, id, sealed)]
                && config == old(config)[CacheKey(key, scope, id) := Entry(key, scope, id, marker)]
                && secretRows == (if stored then old(secretRows)[r := sealed] else old(secretRows))
                && rows == (if stored then old(rows)[r := marker] else old(rows))
                && spec == Seal(old(spec), SlotOf(key, scope, id), x, services.text(x))
      ensures old(Valid()) && Known(ids, id) ==>
                Valid() && (version.Some? ==> version.value == spec.secrets[SlotOf(key, scope, id)].version)
    {
      hide Agrees, Norm, Known, CacheKey, Sid, SoughtSecret, SlotOf, Seal, SecretSlot;
      if services.cipher.None? {
        return None;
      }
      var existing := LookupSecret(key, scope, id);
      if Valid() && Known(ids, id) {
        SoughtSecretIs(key, scope, id);
      }
      var v := if existing.Some? then existing.value.sealed.version + 1 else 1;
      var x := services.cipher.value.encrypt(value, salt);
      WriteSecret(key, scope, id, Sealed(x, v));
      Write(key, scope, id, Content(services.text(x), v, true, false));
      SealIs(old(spec), SlotOf(key, scope, id), x, services.text(x), v);
      spec := Seal(old(spec), SlotOf(key, scope, id), x, services.text(x));
      return Some(v);
    }

    /** The secret sought; one found only in the store is cached. */
    method FetchSecret(key: string, scope: Scope, id: Option<string>) returns (e: Option<SecretEntry>)
      modifies this`secrets
      ensures e == old(SoughtSecret(key, scope, id))
      ensures secrets == if e.None? then old(secrets) else old(secrets)[CacheKey(key, scope, id) := e.value]
      ensures old(Valid()) && Known(ids, id) ==> Valid()
    {
      hide Agrees, CacheKey, Known, SoughtSecret, Sid, SecretSlot;
      if Valid() && Known(ids, id) {
        CachesFoundSecret(key, scope, id);
      }
      var ck := CacheKey(key, scope, id);
      e := LookupSecret(key, scope, id);
      if ck !in secrets && e.Some? {
        secrets := secrets[ck := e.value];
      }
    }

    /** Decrypts a secret. */
    method Resolve(key: string, scope: Scope, id: Option<string>) returns (a: Answer)
      modifies this`secrets
      ensures a == Resolved(services.cipher, old(SoughtSecret(key, scope, id)))
      ensures old(Valid()) && Known(ids, id) ==> Valid() && a == Answered(services, spec, ResolveSecret(key, scope, id))
    {
      hide Agrees, CacheKey, Known, SoughtSecret, Sid, Answered, SlotOf;
      if Valid() && Known(ids, id) {
        ResolvedIs(key, scope, id);
      }
      if services.cipher.None? {
        return NoCipher;
      }
      var e := FetchSecret(key, scope, id);
      if e.None? {
        return NotFound;
      }
      return Plain(services.cipher.value.decrypt(e.value.sealed.cipher));
    }

    /** Whatever is cached, the store has with the same value, version and flags. */
    lemma CacheMatchesStore()
      requires Valid() && stored
      ensures forall ck :: ck in config ==>
                RowOf(EntrySlot(config[ck])) in rows && rows[RowOf(EntrySlot(config[ck]))] == config[ck].content
      ensures forall ck :: ck in secrets ==>
                RowOf(SecretSlot(secrets[ck])) in secretRows
                    && secretRows[RowOf(SecretSlot(secrets[ck]))] == secrets[ck].sealed
    {
    }

    /** Loses part of the cache, as a restart does; only where a store can make up for it. */
    method Forget(keys: set<string>)
      modifies this`config, this`secrets
      ensures config == (if stored then old(config) - keys else old(config))
      ensures secrets == (if stored then old(secrets) - keys else old(secrets))
      ensures old(Valid()) ==> Valid()
    {
      if stored {
        config := config - keys;
        secrets := secrets - keys;
      }
    }

    /** Re-reads everything from the store; nothing to do without one. */
    method ReloadAll()
      requires Valid()
      modifies this`config, this`secrets
      ensures Valid()
      ensures stored ==> AllCached(config, spec.configs) && AllCached(secrets, spec.secrets)
    {
      hide Agrees;
      if stored {
        ReloadConfig();
        ReloadSecrets();
      }
    }

    method ReloadConfig()
      requires Valid() && stored
      modifies this`config
      ensures Valid() && AllCached(config, spec.configs)
    {
      config := map[];
      var todo := rows.Keys;
      while todo != {}
        invariant todo <= rows.Keys && Valid()
        invariant forall r :: r in rows && r !in todo ==> KeyOf(SlotOfRow(r)) in config
        decreases todo
      {
        var r :| r in todo;
        todo := todo - {r};
        CacheIn(ids, stored, config, EntrySlot, EntryContent, rows, spec.configs, SlotOfRow(r),
            Entry(r.key, r.scope, Unsid(r.sid), rows[r]));
        KeyOfRow(ids, rows, spec.configs, r);
        config := config[CacheKey(r.key, r.scope, Unsid(r.sid)) := Entry(r.key, r.scope, Unsid(r.sid), rows[r])];
      }
      RowsCover(ids, rows, spec.configs);
    }

    method ReloadSecrets()
      requires Valid() && stored
      modifies this`secrets
      ensures Valid() && AllCached(secrets, spec.secrets)
    {
      secrets := map[];
      var todo := secretRows.Keys;
      while todo != {}
        invariant todo <= secretRows.Keys && Valid()
        invariant forall r :: r in secretRows && r !in todo ==> KeyOf(SlotOfRow(r)) in secrets
        decreases todo
      {
        var r :| r in todo;
        todo := todo - {r};
        CacheIn(ids, stored, secrets, SecretSlot, SecretSealed, secretRows, spec.secrets, SlotOfRow(r),
            SecretEntry(r.key, r.scope, Unsid(r.sid), secretRows[r]));
        KeyOfRow(ids, secretRows, spec.secrets, r);
        secrets := secrets[CacheKey(r.key, r.scope, Unsid(r.sid)) :=
            SecretEntry(r.key, r.scope, Unsid(r.sid), secretRows[r])];
      }
      RowsCover(ids, secretRows, spec.secrets);
    }

    /** The cached entries, overlaid with the store's rows for the requested scope. */
    method Gather(within: Option<Scope>, id: Option<string>) returns (entries: map<string, Entry>)
      requires Valid()
      ensures CacheAgrees(entries, EntrySlot, EntryContent, spec.configs)
      ensures forall slot :: slot in spec.configs && Listed(slot, spec.configs[slot], within, id, true) ==>
                KeyOf(slot) in entries
    {
      hide KeyOf, CacheKey, Listed, RowOf, SlotOfRow;
      entries := Overlay(ids, spec.configs, config, rows, within, id);
      if stored {
        RowsCover(ids, rows, spec.configs);
        forall slot | slot in spec.configs && Listed(slot, spec.configs[slot], within, id, true)
          ensures KeyOf(slot) in entries
        {
          assert RowOf(slot) in rows && SlotOfRow(RowOf(slot)) == slot && rows[RowOf(slot)] == spec.configs[slot];
        }
      }
    }

    lemma SpecWellFormed()
      requires Valid()
      ensures SlotsWellFormed(ids, spec.configs) && SlotsWellFormed(ids, spec.secrets)
    {
    }

    /** The keys of a scope, or of all. */
    method ListAll(within: Option<Scope>, id: Option<string>, includeDeleted: bool) returns (keys: set<string>)
      requires Valid()
      ensures keys == Listing(spec, within, id, includeDeleted)
    {
      hide *;
      var entries := Gather(within, id);
      SpecWellFormed();
      keys := Select(spec, entries, within, id, includeDeleted);
      ListingCovered(ids, spec, entries, within, id, includeDeleted, keys);
    }
  }

  /** Rows of the requested scope laid over the cached entries. */
  method Overlay(ghost ids: Ids, ghost spec: map<Slot, Content>, config: map<string, Entry>, rows: map<RowKey, Content>,
                 within: Option<Scope>, id: Option<string>)
    returns (entries: map<string, Entry>)
    requires SlotsWellFormed(ids, spec) && CacheAgrees(config, EntrySlot, EntryContent, spec)
    requires rows == map[] || RowsAgree(rows, spec)
    ensures CacheAgrees(entries, EntrySlot, EntryContent, spec) && config.Keys <= entries.Keys
    ensures forall r :: r in rows && Listed(SlotOfRow(r), rows[r], within, id, true) ==> KeyOf(SlotOfRow(r)) in entries
  {
    hide CacheAgrees, RowsAgree, SlotsWellFormed, KeyOf, CacheKey;
    entries := config;
    var todo := rows.Keys;
    while todo != {}
      invariant todo <= rows.Keys && CacheAgrees(entries, EntrySlot, EntryContent, spec)
      invariant config.Keys <= entries.Keys
      invariant forall r :: r in rows && r !in todo && Listed(SlotOfRow(r), rows[r], within, id, true) ==>
                  KeyOf(SlotOfRow(r)) in entries
      decreases todo
    {
      var r :| r in todo;
      todo := todo - {r};
      if within.Some? && (r.scope != within.value || Norm(id) != Norm(Unsid(r.sid))) {
        continue;
      }
      var e := Entry(r.key, r.scope, Unsid(r.sid), rows[r]);
      KeyOfRow(ids, rows, spec, r);
      CachePut(entries, spec, SlotOfRow(r), e);
      entries := entries[CacheKey(r.key, r.scope, Unsid(r.sid)) := e];
    }
  }

  lemma CachePut(cache: map<string, Entry>, spec: map<Slot, Content>, slot: Slot, e: Entry)
    requires CacheAgrees(cache, EntrySlot, EntryContent, spec)
    requires slot in spec && EntrySlot(e) == slot && e.content == spec[slot]
    ensures CacheAgrees(cache[KeyOf(slot) := e], EntrySlot, EntryContent, spec)
  {
  }

  /** The keys of the entries to be listed. */
  method Select(ghost spec: Spec, entries: map<string, Entry>, within: Option<Scope>, id: Option<string>, inc: bool)
    returns (keys: set<string>)
    requires CacheAgrees(entries, EntrySlot, EntryContent, spec.configs)
    ensures forall k :: k in keys ==> k in Listing(spec, within, id, inc)
    ensures forall ck :: ck in entries && Listed(EntrySlot(entries[ck]), entries[ck].content, within, id, inc) ==>
              entries[ck].key in keys
  {
    hide Listing, KeyOf;
    keys := {};
    var todo := entries.Keys;
    while todo != {}
      invariant todo <= entries.Keys
      invariant forall k :: k in keys ==> k in Listing(spec, within, id, inc)
      invariant forall ck :: ck in entries && ck !in todo ==>
                  (Listed(EntrySlot(entries[ck]), entries[ck].content, within, id, inc) ==> entries[ck].key in keys)
      decreases todo
    {
      var ck :| ck in todo;
      todo := todo - {ck};
      var e := entries[ck];
      if within.Some? && (e.scope != within.value || Norm(id) != Norm(e.id)) {
        continue;
      }
      if e.content.deleted && !inc {
        continue;
      }
      ListingHas(spec, EntrySlot(e), within, id, inc);
      keys := keys + {e.key};
    }
  }

  lemma SealIs(s: Spec, slot: Slot, x: seq<int>, text: string, v: int)
    ensures slot in Seal(s, slot, x, text).secrets
    ensures v == (if slot in s.secrets then s.secrets[slot].version + 1 else 1) ==>
              Seal(s, slot, x, text) ==
              Spec(s.configs[slot := Content(text, v, true, false)], s.secrets[slot := Sealed(x, v)])
  {
  }

  /** Any command on any vault has the specified effect and answer. */
  method Execute(v: Vault, c: Command) returns (a: Answer)
    requires v.Valid() && KnownCommand(v.ids, c)
    modifies v
    ensures v.Valid() && v.spec == After(v.services, old(v.spec), c) && a == Answered(v.services, old(v.spec), c)
  {
    hide Agrees, Norm, Known, Seal;
    match c
    case Set(k, sc, i, x) =>
      var version := v.SetValue(k, sc, i, x);
      a := Version(version);
    case Get(k, sc, i, default) =>
      var x := v.GetValue(k, sc, i, default);
      a := Value(x);
    case Delete(k, sc, i) =>
      var found := v.DeleteValue(k, sc, i);
      a := Removed(found);
    case ListKeys(within, i, inc) =>
      var keys := v.ListAll(within, i, inc);
      a := Keys(keys);
    case SetSecret(k, sc, i, x, salt) =>
      var version := v.PutSecret(k, sc, i, x, salt);
      a := if version.None? then NoCipher else Stored;
    case RotateSecret(k, sc, i, x, salt) =>
      a := Rotate(v, k, sc, i, x, salt);
    case ResolveSecret(k, sc, i) =>
      a := v.Resolve(k, sc, i);
    case Reload =>
      v.ReloadAll();
      a := Nothing;
    case DropCache(keys) =>
      v.Forget(keys);
      a := Nothing;
  }

  method Rotate(v: Vault, k: string, sc: Scope, i: Option<string>, x: string, salt: nat) returns (a: Answer)
    requires v.Valid() && Known(v.ids, i)
    modifies v
    ensures v.Valid() && v.spec == After(v.services, old(v.spec), RotateSecret(k, sc, i, x, salt))
    ensures a == Answered(v.services, old(v.spec), RotateSecret(k, sc, i, x, salt))
  {
    hide Agrees, Norm, Known;
    var version := v.PutSecret(k, sc, i, x, salt);
    a := if version.None? then NoCipher else Version(version.value);
  }

  /** Two fresh vaults, one without a store and one over a store, given the same commands, with
      reloads and losses of cache anywhere, give the same answers throughout. */
  method Lockstep(plain: Vault, backed: Vault, cs: seq<Command>) returns (xs: seq<Answer>, ys: seq<Answer>)
    requires plain != backed && !plain.stored && backed.stored
    requires plain.services == backed.services && plain.ids == backed.ids
    requires plain.Valid() && backed.Valid() && plain.spec == EMPTY && backed.spec == EMPTY
    requires forall c :: c in cs ==> KnownCommand(plain.ids, c)
    modifies plain, backed
    ensures xs == ys && |xs| == |cs|
    ensures forall i :: 0 <= i < |cs| ==> xs[i] == Answered(plain.services, Run(plain.services, cs[..i]), cs[i])
    ensures plain.Valid() && backed.Valid() && plain.spec == backed.spec == Run(plain.services, cs)
  {
    hide Agrees, Answered, After;
    xs, ys := [], [];
    for i := 0 to |cs|
      invariant plain.Valid() && backed.Valid() && plain.spec == backed.spec == Run(plain.services, cs[..i])
      invariant xs == ys && |xs| == i
      invariant forall j :: 0 <= j < i ==> xs[j] == Answered(plain.services, Run(plain.services, cs[..j]), cs[j])
    {
      assert cs[..i + 1][..i] == cs[..i];
      var a := Execute(plain, cs[i]);
      var b := Execute(backed, cs[i]);
      xs, ys := xs + [a], ys + [b];
    }
    assert cs[..|cs|] == cs;
  }

  // ---- ids that clash ----

  /** Wherever two settings share a cache key, a vault, stored or not, shows one for the other: a
      value set under the first address is what a read of the second returns, though nothing was
      ever stored there. */
  method Misread(v: Vault, k: string, i: Option<string>, k': string, j: Option<string>, scope: Scope, value: string)
    returns (read: Option<string>)
    requires CacheKey(k, scope, i) == CacheKey(k', scope, j) && SlotOf(k, scope, i) != SlotOf(k', scope, j)
    requires v.config == map[] && v.spec == EMPTY
    modifies v
    ensures read == Some(value) && Read(v.spec, SlotOf(k', scope, j), None) == None
  {
    hide CacheKey, SlotOf;
    var _ := v.SetValue(k, scope, i, value);
    read := v.GetValue(k', scope, j, None);
  }

  /** Over a store, the text that stands for a missing id is such an address once the cache is lost:
      what was set without an id is read under it. */
  method StoreMisread(v: Vault, k: string, scope: Scope, value: string) returns (read: Option<string>)
    requires v.stored && v.config == map[] && v.spec == EMPTY
    modifies v
    ensures read == Some(value) && Read(v.spec, SlotOf(k, scope, Some("__global__")), None) == None
  {
    hide CacheKey;
    assert Sid(None) == Sid(Some("__global__")) && SlotOf(k, scope, None) != SlotOf(k, scope, Some("__global__"));
    hide Sid, SlotOf;
    var _ := v.SetValue(k, scope, None, value);
    v.Forget({CacheKey(k, scope, None)});
    assert v.config == map[];
    read := v.GetValue(k, scope, Some("__global__"), None);
  }

  /** Caching what the specification has changes nothing but the cache. */
  lemma CacheIn<A(!new), B>(ids: Ids, stored: bool, cache: map<string, A>, slotOf: A -> Slot, what: A -> B,
                            rows: map<RowKey, B>, spec: map<Slot, B>, slot: Slot, a: A)
    requires Agrees(ids, stored, cache, slotOf, what, rows, spec)
    requires slot in spec && slotOf(a) == slot && what(a) == spec[slot]
    ensures Agrees(ids, stored, cache[KeyOf(slot) := a], slotOf, what, rows, spec)
  {
  }

  lemma KeyOfRow<B>(ids: Ids, rows: map<RowKey, B>, spec: map<Slot, B>, r: RowKey)
    requires SlotsWellFormed(ids, spec) && RowsAgree(rows, spec) && r in rows
    ensures KeyOf(SlotOfRow(r)) == CacheKey(r.key, r.scope, Unsid(r.sid))
    ensures SlotOfRow(r) in spec && rows[r] == spec[SlotOfRow(r)]
  {
  }

  lemma RowsCover<B>(ids: Ids, rows: map<RowKey, B>, spec: map<Slot, B>)
    requires SlotsWellFormed(ids, spec) && RowsAgree(rows, spec)
    ensures forall slot :: slot in spec ==> RowOf(slot) in rows && SlotOfRow(RowOf(slot)) == slot
  {
    forall slot | slot in spec
      ensures SlotOfRow(RowOf(slot)) == slot
    {
      RowRoundTrip(slot);
    }
  }

  lemma ListingHas(spec: Spec, slot: Slot, within: Option<Scope>, id: Option<string>, inc: bool)
    requires slot in spec.configs && Listed(slot, spec.configs[slot], within, id, inc)
    ensures slot.key in Listing(spec, within, id, inc)
  {
  }

  lemma ListingCovered(ids: Ids, spec: Spec, entries: map<string, Entry>, within: Option<Scope>, id: Option<string>,
                       inc: bool, keys: set<string>)
    requires SlotsWellFormed(ids, spec.configs) && CacheAgrees(entries, EntrySlot, EntryContent, spec.configs)
    requires forall slot :: slot in spec.configs && Listed(slot, spec.configs[slot], within, id, true) ==>
               KeyOf(slot) in entries
    requires forall ck :: ck in entries && Listed(EntrySlot(entries[ck]), entries[ck].content, within, id, inc) ==>
               entries[ck].key in keys
    requires forall k :: k in keys ==> k in Listing(spec, within, id, inc)
    ensures keys == Listing(spec, within, id, inc)
  {
    forall k | k in Listing(spec, within, id, inc)
      ensures k in keys
    {
      var slot :| slot in spec.configs && Listed(slot, spec.configs[slot], within, id, inc) && slot.key == k;
      var other := EntrySlot(entries[KeyOf(slot)]);
      CacheKeyInjective(ids, slot.key, slot.scope, slot.id, other.key, other.scope, other.id);
    }
  }
}
