/** What the configuration vault means, independently of caches and stores: addresses of settings,
    the cache key that encodes them, and the effect and answer of every operation. */
module VaultSpec {
  import opened Common

  datatype Scope = Global | Agent | Workflow | Plugin | McpServer

  function ScopeValue(s: Scope): (v: string)
    ensures ':' !in v
  {
    match s
    case Global => "global"
    case Agent => "agent"
    case Workflow => "workflow"
    case Plugin => "plugin"
    case McpServer => "mcp_server"
  }

  // ---- addresses ----

  /** A missing and an empty scope id are the same. */
  function OrElse(id: Option<string>, other: string): string
  {
    if id.None? || id.value == "" then other else id.value
  }

  function Norm(id: Option<string>): Option<string>
  {
    if id == Some("") then None else id
  }

  function CacheKey(key: string, scope: Scope, id: Option<string>): string
  {
    ScopeValue(scope) + ":" + OrElse(id, "global") + ":" + key
  }

  lemma ScopeValueInjective(s: Scope, t: Scope)
    requires ScopeValue(s) == ScopeValue(t)
    ensures s == t
  {
    assert |"global"| == 6 && |"agent"| == 5 && |"workflow"| == 8 && |"plugin"| == 6 && |"mcp_server"| == 10;
    assert "global"[0] != "plugin"[0];
  }

  /** Neither name, followed by a colon, begins the other. */
  predicate Apart(m: string, n: string)
  {
    !(m + ":" <= n) && !(n + ":" <= m)
  }

  lemma ApartSymmetric(m: string, n: string)
    ensures Apart(m, n) <==> Apart(n, m)
  {
  }

  /** Different names that are apart never make the same text when followed by a colon and more. */
  lemma ApartSplit(m: string, x: string, n: string, y: string)
    requires (m == n || Apart(m, n)) && m + ":" + x == n + ":" + y
    ensures m == n && x == y
  {
    var s := m + ":" + x;
    assert m == s[..|m|] && n == s[..|n|];
    assert x == s[|m| + 1..] && y == s[|n| + 1..];
    assert m + ":" == s[..|m| + 1] && n + ":" == s[..|n| + 1];
    Prefixes(s, |m| + 1, |n|);
    Prefixes(s, |n| + 1, |m|);
  }

  lemma Prefixes(s: string, a: nat, b: nat)
    requires a <= |s| && b <= |s|
    ensures s[..a] <= s[..b] <==> a <= b
  {
  }

  lemma ColonFreeApart(m: string, n: string)
    requires ':' !in m && ':' !in n
    ensures Apart(m, n)
  {
    assert (m + ":")[|m|] == ':' && (n + ":")[|n|] == ':';
  }

  /** The part of a cache key that stands for the scope id. */
  function NameOf(id: Option<string>): string
  {
    OrElse(id, "global")
  }

  lemma Parts(s: Scope, m: string, k: string, s': Scope, m': string, k': string)
    requires ScopeValue(s) + ":" + m + ":" + k == ScopeValue(s') + ":" + m' + ":" + k'
    ensures s == s' && m + ":" + k == m' + ":" + k'
  {
    hide ScopeValue;
    var a, b := ScopeValue(s), ScopeValue(s');
    assert a + ":" + m + ":" + k == a + ":" + (m + ":" + k);
    assert b + ":" + m' + ":" + k' == b + ":" + (m' + ":" + k');
    ColonFreeApart(a, b);
    ApartSplit(a, m + ":" + k, b, m' + ":" + k');
    ScopeValueInjective(s, s');
  }

  /** For scope ids whose names are equal or apart, two cache keys agree exactly when scope, key
      and name agree. */
  lemma CacheKeyExact(k: string, s: Scope, i: Option<string>, k': string, s': Scope, i': Option<string>)
    requires NameOf(i) == NameOf(i') || Apart(NameOf(i), NameOf(i'))
    ensures CacheKey(k, s, i) == CacheKey(k', s', i') <==> k == k' && s == s' && NameOf(i) == NameOf(i')
  {
    hide ScopeValue, OrElse, Apart;
    if CacheKey(k, s, i) == CacheKey(k', s', i') {
      Parts(s, NameOf(i), k, s', NameOf(i'), k');
      ApartSplit(NameOf(i), k, NameOf(i'), k');
    }
  }

  ghost predicate Clash(s: Scope, i: Option<string>, j: Option<string>)
  {
    exists k, k' :: CacheKey(k, s, i) == CacheKey(k', s, j)
  }

  /** Some settings under two different scope ids share a cache key exactly when the ids have the
      same name, or one name followed by a colon begins the other. */
  lemma ClashExactly(s: Scope, i: Option<string>, j: Option<string>)
    requires Norm(i) != Norm(j)
    ensures Clash(s, i, j) <==> NameOf(i) == NameOf(j) || !Apart(NameOf(i), NameOf(j))
  {
    var m, n := NameOf(i), NameOf(j);
    if m == n {
      assert CacheKey("", s, i) == CacheKey("", s, j);
    } else if m + ":" <= n {
      ClashWitness(s, i, j);
    } else if n + ":" <= m {
      ClashWitness(s, j, i);
      var k, k' :| CacheKey(k, s, j) == CacheKey(k', s, i);
      assert CacheKey(k', s, i) == CacheKey(k, s, j);
    } else if Clash(s, i, j) {
      var k, k' :| CacheKey(k, s, i) == CacheKey(k', s, j);
      CacheKeyExact(k, s, i, k', s, j);
    }
  }

  lemma ClashWitness(s: Scope, i: Option<string>, j: Option<string>)
    requires NameOf(i) + ":" <= NameOf(j)
    ensures Clash(s, i, j)
  {
    hide ScopeValue, OrElse;
    var m, n, v := NameOf(i), NameOf(j), ScopeValue(s);
    var rest := n[|m| + 1..] + ":";
    assert m + ":" + rest == n + ":" + "";
    assert v + ":" + m + ":" + rest == v + ":" + (m + ":" + rest);
    assert v + ":" + n + ":" + "" == v + ":" + (n + ":" + "");
    assert CacheKey(rest, s, i) == CacheKey("", s, j);
  }

  datatype Slot = Slot(scope: Scope, id: Option<string>, key: string)

  function SlotOf(key: string, scope: Scope, id: Option<string>): Slot
  {
    Slot(scope, Norm(id), key)
  }

  /** A set of scope ids the vault and its store tell apart, from each other and from a missing
      id. Colons are allowed. */
  ghost predicate Separate(ids: iset<string>)
  {
    && "" !in ids && "__global__" !in ids
    && (forall i :: i in ids ==> i != "global" && Apart("global", i))
    && (forall i, j :: i in ids && j in ids && i != j ==> Apart(i, j))
  }

  type Ids = ids: iset<string> | Separate(ids) witness iset{}

  ghost predicate Known(ids: Ids, id: Option<string>)
  {
    Norm(id).Some? ==> id.value in ids
  }

  /** Ids without colons, other than the two default names, are all separate. */
  lemma ColonFreeSeparate(ids: iset<string>)
    requires forall i :: i in ids ==> i != "" && ':' !in i && i != "global" && i != "__global__"
    ensures Separate(ids)
  {
    forall i | i in ids
      ensures Apart("global", i)
    {
      ColonFreeApart("global", i);
    }
    forall i, j | i in ids && j in ids
      ensures Apart(i, j)
    {
      ColonFreeApart(i, j);
    }
  }

  lemma CacheKeyInjective(ids: Ids, k: string, s: Scope, i: Option<string>,
                          k': string, s': Scope, i': Option<string>)
    requires Known(ids, i) && Known(ids, i')
    ensures CacheKey(k, s, i) == CacheKey(k', s', i') <==> SlotOf(k, s, i) == SlotOf(k', s', i')
  {
    ApartSymmetric(NameOf(i), NameOf(i'));
    assert NameOf(i) == NameOf(i') || Apart(NameOf(i), NameOf(i'));
    hide Apart;
    CacheKeyExact(k, s, i, k', s', i');
  }

  // ---- contents and operations ----

  datatype Content = Content(value: string, version: int, encrypted: bool, deleted: bool)

  datatype Sealed = Sealed(cipher: seq<int>, version: int)

  /** A cipher may salt; decryption does not need the salt. */
  datatype Cipher = Cipher(encrypt: (string, nat) -> seq<int>, decrypt: seq<int> -> string)

  ghost predicate Sound(c: Cipher)
  {
    forall p, salt :: c.decrypt(c.encrypt(p, salt)) == p
  }

  /** The injected services: an optional cipher, and the text form of a ciphertext. */
  datatype Services = Services(cipher: Option<Cipher>, text: seq<int> -> string)

  datatype Spec = Spec(configs: map<Slot, Content>, secrets: map<Slot, Sealed>)

  const EMPTY := Spec(map[], map[])

  datatype Command =
    | Set(key: string, scope: Scope, id: Option<string>, value: string)
    | Get(key: string, scope: Scope, id: Option<string>, default: Option<string>)
    | Delete(key: string, scope: Scope, id: Option<string>)
    | ListKeys(within: Option<Scope>, id: Option<string>, includeDeleted: bool)
    | SetSecret(key: string, scope: Scope, id: Option<string>, value: string, salt: nat)
    | RotateSecret(key: string, scope: Scope, id: Option<string>, value: string, salt: nat)
    | ResolveSecret(key: string, scope: Scope, id: Option<string>)
    | Reload
    | DropCache(keys: set<string>)

  datatype Answer =
    | Version(version: int)
    | Value(value: Option<string>)
    | Removed(found: bool)
    | Keys(keys: set<string>)
    | Stored
    | Plain(text: string)
    | NoCipher
    | NotFound
    | Nothing

  ghost predicate KnownCommand(ids: Ids, c: Command)
  {
    c.ListKeys? || c.Reload? || c.DropCache? || Known(ids, c.id)
  }

  predicate Listed(slot: Slot, c: Content, within: Option<Scope>, id: Option<string>, includeDeleted: bool)
  {
    && (within.Some? ==> slot.scope == within.value && slot.id == Norm(id))
    && (c.deleted ==> includeDeleted)
  }

  function SetConfig(s: Spec, slot: Slot, value: string): Spec
  {
    var version := if slot in s.configs then s.configs[slot].version + 1 else 1;
    s.(configs := s.configs[slot := Content(value, version, false, false)])
  }

  function Remove(s: Spec, slot: Slot): Spec
  {
    if slot !in s.configs then s
    else
      var c := s.configs[slot];
      s.(configs := s.configs[slot := c.(deleted := true, version := c.version + 1)])
  }

  /** Seals a secret; its marker among the settings takes the secret's version. */
  function Seal(s: Spec, slot: Slot, cipher: seq<int>, text: string): Spec
  {
    var version := if slot in s.secrets then s.secrets[slot].version + 1 else 1;
    Spec(s.configs[slot := Content(text, version, true, false)], s.secrets[slot := Sealed(cipher, version)])
  }

  function Read(s: Spec, slot: Slot, default: Option<string>): Option<string>
  {
    if slot in s.configs && !s.configs[slot].deleted then Some(s.configs[slot].value) else default
  }

  function Listing(s: Spec, within: Option<Scope>, id: Option<string>, includeDeleted: bool): set<string>
  {
    set slot | slot in s.configs && Listed(slot, s.configs[slot], within, id, includeDeleted) :: slot.key
  }

  function After(sv: Services, s: Spec, c: Command): Spec
  {
    match c
    case Set(k, sc, i, v) => SetConfig(s, SlotOf(k, sc, i), v)
    case Delete(k, sc, i) => Remove(s, SlotOf(k, sc, i))
    case SetSecret(k, sc, i, v, salt) =>
      if sv.cipher.None? then s
      else var x := sv.cipher.value.encrypt(v, salt); Seal(s, SlotOf(k, sc, i), x, sv.text(x))
    case RotateSecret(k, sc, i, v, salt) =>
      if sv.cipher.None? then s
      else var x := sv.cipher.value.encrypt(v, salt); Seal(s, SlotOf(k, sc, i), x, sv.text(x))
    case _ => s
  }

  function Answered(sv: Services, s: Spec, c: Command): Answer
  {
    match c
    case Set(k, sc, i, v) => Version(SetConfig(s, SlotOf(k, sc, i), v).configs[SlotOf(k, sc, i)].version)
    case Get(k, sc, i, default) => Value(Read(s, SlotOf(k, sc, i), default))
    case Delete(k, sc, i) => Removed(SlotOf(k, sc, i) in s.configs)
    case ListKeys(within, i, inc) => Keys(Listing(s, within, i, inc))
    case SetSecret(k, sc, i, v, salt) => if sv.cipher.None? then NoCipher else Stored
    case RotateSecret(k, sc, i, v, salt) =>
      if sv.cipher.None? then NoCipher
      else Version(Seal(s, SlotOf(k, sc, i), [], "").secrets[SlotOf(k, sc, i)].version)
    case ResolveSecret(k, sc, i) =>
      if sv.cipher.None? then NoCipher
      else if SlotOf(k, sc, i) !in s.secrets then NotFound
      else Plain(sv.cipher.value.decrypt(s.secrets[SlotOf(k, sc, i)].cipher))
    case Reload => Nothing
    case DropCache(_) => Nothing
  }

  // ---- runs ----

  function Run(sv: Services, cs: seq<Command>): Spec
  {
    if cs == [] then EMPTY else After(sv, Run(sv, cs[..|cs| - 1]), cs[|cs| - 1])
  }

  ghost predicate Addresses(c: Command, slot: Slot)
  {
    !(c.ListKeys? || c.Reload? || c.DropCache?) && SlotOf(c.key, c.scope, c.id) == slot
  }

  /** The last value sealed at the slot. */
  function LastSecret(cs: seq<Command>, slot: Slot): Option<string>
  {
    if cs == [] then None
    else
      var c := cs[|cs| - 1];
      if (c.SetSecret? || c.RotateSecret?) && SlotOf(c.key, c.scope, c.id) == slot then Some(c.value)
      else LastSecret(cs[..|cs| - 1], slot)
  }

  /** Secrets resolve to the last value set or rotated, for any cipher whose decryption undoes its
      encryption; deleting the marker does not touch them. */
  lemma {:induction false} ResolveGivesLast(sv: Services, cs: seq<Command>, k: string, sc: Scope, i: Option<string>)
    requires sv.cipher.Some? && Sound(sv.cipher.value)
    ensures Answered(sv, Run(sv, cs), ResolveSecret(k, sc, i)) ==
            match LastSecret(cs, SlotOf(k, sc, i))
            case None => NotFound
            case Some(v) => Plain(v)
  {
    if cs != [] {
      ResolveGivesLast(sv, cs[..|cs| - 1], k, sc, i);
    }
  }

  /** What a reader should see at the slot: the last write, unless deleted since. */
  function Visible(sv: Services, cs: seq<Command>, slot: Slot): Option<string>
  {
    if cs == [] then None
    else
      var c, before := cs[|cs| - 1], Visible(sv, cs[..|cs| - 1], slot);
      if c.ListKeys? || c.Reload? || c.DropCache? || SlotOf(c.key, c.scope, c.id) != slot then before
      else match c
        case Set(_, _, _, v) => Some(v)
        case Delete(_, _, _) => None
        case SetSecret(_, _, _, v, salt) =>
          if sv.cipher.Some? then Some(sv.text(sv.cipher.value.encrypt(v, salt))) else before
        case RotateSecret(_, _, _, v, salt) =>
          if sv.cipher.Some? then Some(sv.text(sv.cipher.value.encrypt(v, salt))) else before
        case _ => before
  }

  lemma {:induction false} GetGivesLastWrite(sv: Services, cs: seq<Command>, slot: Slot, default: Option<string>)
    ensures Read(Run(sv, cs), slot, default) == if Visible(sv, cs, slot).Some? then Visible(sv, cs, slot) else default
  {
    if cs != [] {
      GetGivesLastWrite(sv, cs[..|cs| - 1], slot, default);
    }
  }

  /** Whether anything was ever stored at the slot. */
  function Ever(sv: Services, cs: seq<Command>, slot: Slot): bool
  {
    cs != [] &&
    var c := cs[|cs| - 1];
    || Ever(sv, cs[..|cs| - 1], slot)
    || ((c.Set? || ((c.SetSecret? || c.RotateSecret?) && sv.cipher.Some?)) && SlotOf(c.key, c.scope, c.id) == slot)
  }

  lemma {:induction false} StoredIffEver(sv: Services, cs: seq<Command>, slot: Slot)
    ensures slot in Run(sv, cs).configs <==> Ever(sv, cs, slot)
  {
    if cs != [] {
      StoredIffEver(sv, cs[..|cs| - 1], slot);
    }
  }

  /** Over any run, a key is listed exactly if some slot of the requested scope that has the key
      holds a value written and not deleted since or, where deleted ones are asked for, was ever
      written. */
  lemma ListingGivesWritten(sv: Services, cs: seq<Command>, within: Option<Scope>, id: Option<string>, inc: bool,
                            key: string)
    ensures key in Listing(Run(sv, cs), within, id, inc) <==>
            exists slot: Slot ::
              && slot.key == key && (within.Some? ==> slot.scope == within.value && slot.id == Norm(id))
              && if inc then Ever(sv, cs, slot) else Visible(sv, cs, slot).Some?
  {
    var s := Run(sv, cs);
    forall slot: Slot
      ensures slot in s.configs <==> Ever(sv, cs, slot)
      ensures slot in s.configs && !s.configs[slot].deleted <==> Visible(sv, cs, slot).Some?
    {
      StoredIffEver(sv, cs, slot);
      GetGivesLastWrite(sv, cs, slot, None);
    }
    hide Run, Ever, Visible;
  }

  /** Commands that seal a secret at the slot. */
  function Seals(sv: Services, cs: seq<Command>, slot: Slot): nat
  {
    if cs == [] then 0
    else
      var c := cs[|cs| - 1];
      Seals(sv, cs[..|cs| - 1], slot)
      + if (c.SetSecret? || c.RotateSecret?) && sv.cipher.Some? && SlotOf(c.key, c.scope, c.id) == slot then 1 else 0
  }

  /** Commands that write the slot or delete what is there. */
  function Changes(sv: Services, cs: seq<Command>, slot: Slot): nat
  {
    if cs == [] then 0
    else
      var c, front := cs[|cs| - 1], cs[..|cs| - 1];
      Changes(sv, front, slot)
      + if (c.Set? || (c.Delete? && Ever(sv, front, slot))) && SlotOf(c.key, c.scope, c.id) == slot then 1 else 0
  }

  /** Versions count: a secret's version is the number of times it was sealed, and where nothing was
      sealed a setting's version is the number of times it was written or deleted. */
  lemma {:induction false} VersionsCount(sv: Services, cs: seq<Command>, slot: Slot)
    ensures slot in Run(sv, cs).secrets <==> Seals(sv, cs, slot) > 0
    ensures slot in Run(sv, cs).secrets ==> Run(sv, cs).secrets[slot].version == Seals(sv, cs, slot)
    ensures Seals(sv, cs, slot) == 0 && slot in Run(sv, cs).configs ==>
              Run(sv, cs).configs[slot].version == Changes(sv, cs, slot)
    ensures Seals(sv, cs, slot) == 0 && slot !in Run(sv, cs).configs ==> Changes(sv, cs, slot) == 0
  {
    if cs != [] {
      StoredIffEver(sv, cs[..|cs| - 1], slot);
      VersionsCount(sv, cs[..|cs| - 1], slot);
      hide Ever;
    }
  }

  ghost predicate SameAt(s: Spec, t: Spec, slot: Slot)
  {
    && (slot in s.configs <==> slot in t.configs) && (slot in s.configs ==> s.configs[slot] == t.configs[slot])
    && (slot in s.secrets <==> slot in t.secrets) && (slot in s.secrets ==> s.secrets[slot] == t.secrets[slot])
  }

  /** Operations on other addresses never change what is at a slot, over any stretch of a run. */
  lemma {:induction false} Isolation(sv: Services, cs: seq<Command>, more: seq<Command>, slot: Slot)
    requires forall c :: c in more ==> !Addresses(c, slot)
    ensures SameAt(Run(sv, cs), Run(sv, cs + more), slot)
    decreases |more|
  {
    if more == [] {
      assert cs + more == cs;
    } else {
      var n := |more| - 1;
      assert (cs + more)[..|cs| + n] == cs + more[..n];
      Isolation(sv, cs, more[..n], slot);
      assert more[n] in more;
    }
  }
}
