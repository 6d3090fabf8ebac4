/** Key discovery through the `op` tool and its disk cache:
    `crates/cache-warden-authsock/src/op_discovery.rs`, with `by_fingerprint` of
    `op_cache.rs` and `parse_item_list` of `op.rs`. */
module OpDiscovery {
  import opened Wrappers

  // ---- entities ----

  /** Which account a key was discovered under; `None` is the default account. */
  datatype Provenance = Provenance(account: Option<string>)

  datatype CachedKey = CachedKey(
    itemId: string, fingerprint: string, publicKey: string, title: string, vault: string,
    provenance: Option<Provenance>)

  datatype OpSource = OpSource(vault: Option<string>, item: Option<string>)

  /** One entry of `op item list`, after JSON. */
  datatype ListEntry = ListEntry(id: string, title: string, vaultId: string, vaultName: string, info: Option<string>)

  datatype KeyInfo = KeyInfo(itemId: string, title: string, vaultId: string, vaultName: string, fingerprint: string)

  datatype DiscoveredKey = DiscoveredKey(
    itemId: string, publicKey: string, title: string, fingerprint: string, vault: string)

  datatype Error = ListFailed | ListUnparsable | GetFailed | GetUnparsable

  /** What one call of `op` came back with. */
  datatype ListReply = NoList | BadList | Listed(entries: seq<ListEntry>)
  datatype GetReply = NoField | BadField | Field(publicKey: string)

  /** A reply may depend on how many calls came before. */
  type Lists = (nat, Option<string>) -> ListReply
  type Gets = (nat, string) -> GetReply

  datatype Outcome =
    | Fresh(keys: seq<DiscoveredKey>, cache: seq<CachedKey>)
    | Stale(keys: seq<DiscoveredKey>, error: Error)

  // ---- filters and lookups ----

  function Filter<T(!new)>(p: T -> bool, s: seq<T>): (r: seq<T>)
    ensures forall x :: x in r <==> x in s && p(x)
  {
    if s == [] then []
    else
      assert s == [s[0]] + s[1..];
      (if p(s[0]) then [s[0]] else []) + Filter(p, s[1..])
  }

  lemma {:induction false} FilterAppend<T(!new)>(p: T -> bool, s: seq<T>, t: seq<T>)
    ensures Filter(p, s + t) == Filter(p, s) + Filter(p, t)
  {
    if s == [] {
      assert s + t == t;
    } else {
      assert (s + t)[1..] == s[1..] + t;
      FilterAppend(p, s[1..], t);
    }
  }

  /** A stricter filter gives the same list exactly when it drops nothing more. */
  lemma {:induction false} SameFilterIff<T(!new)>(p: T -> bool, q: T -> bool, s: seq<T>)
    requires forall x :: p(x) ==> q(x)
    ensures |Filter(p, s)| <= |Filter(q, s)|
    ensures Filter(p, s) == Filter(q, s) <==> forall x :: x in s && q(x) ==> p(x)
  {
    if s != [] {
      SameFilterIff(p, q, s[1..]);
      assert s == [s[0]] + s[1..];
      if q(s[0]) && !p(s[0]) {
        assert |Filter(p, s)| < |Filter(q, s)|;
      }
    }
  }

  /** The fingerprint index of a cache: a later entry replaces an earlier one. */
  function ByFingerprint(cache: seq<CachedKey>): map<string, CachedKey> {
    if cache == [] then map[]
    else ByFingerprint(cache[..|cache| - 1])[cache[|cache| - 1].fingerprint := cache[|cache| - 1]]
  }

  lemma {:induction false} IndexAppend(a: seq<CachedKey>, b: seq<CachedKey>)
    ensures ByFingerprint(a + b) == ByFingerprint(a) + ByFingerprint(b)
  {
    if b == [] {
      assert a + b == a;
    } else {
      assert (a + b)[..|a + b| - 1] == a + b[..|b| - 1];
      IndexAppend(a, b[..|b| - 1]);
    }
  }

  const FINGERPRINT_PREFIX := "SHA256:"

  function InfoOf(e: ListEntry): Option<KeyInfo> {
    if e.info.Some? && FINGERPRINT_PREFIX <= e.info.value
    then Some(KeyInfo(e.id, e.title, e.vaultId, e.vaultName, e.info.value)) else None
  }

  predicate ItemWanted(item: Option<string>, k: KeyInfo) {
    item.Some? ==> k.title == item.value || k.itemId == item.value
  }

  function Infos(entries: seq<ListEntry>): seq<KeyInfo> {
    if entries == [] then []
    else
      (match InfoOf(entries[0]) case Some(k) => [k] case None => []) + Infos(entries[1..])
  }

  function ParseItemList(entries: seq<ListEntry>, item: Option<string>): seq<KeyInfo> {
    Filter(k => ItemWanted(item, k), Infos(entries))
  }

  predicate SourceMatches(s: OpSource, vault: string, title: string, itemId: string) {
    && (s.vault.Some? ==> vault == s.vault.value)
    && (s.item.Some? ==> title == s.item.value || itemId == s.item.value)
  }

  predicate InSomeSource(sources: seq<OpSource>, vault: string, title: string, itemId: string) {
    exists i :: 0 <= i < |sources| && SourceMatches(sources[i], vault, title, itemId)
  }

  predicate Belongs(e: CachedKey, sources: seq<OpSource>, account: Option<string>) {
    && e.provenance == Some(Provenance(account))
    && InSomeSource(sources, e.vault, e.title, e.itemId)
  }

  predicate Eligible(e: CachedKey, sources: seq<OpSource>, account: Option<string>) {
    Belongs(e, sources, account) && e.publicKey != ""
  }

  // ---- seeding from the cache ----

  function Offer(e: CachedKey): DiscoveredKey {
    DiscoveredKey(e.itemId, e.publicKey, e.title, e.fingerprint, e.vault)
  }

  function SeedFrom(cache: seq<CachedKey>, sources: seq<OpSource>, account: Option<string>, seen: set<string>)
    : seq<DiscoveredKey>
  {
    if cache == [] then []
    else
      var e := cache[0];
      if Eligible(e, sources, account) && e.fingerprint !in seen
      then [Offer(e)] + SeedFrom(cache[1..], sources, account, seen + {e.fingerprint})
      else SeedFrom(cache[1..], sources, account, seen)
  }

  function Seed(cache: seq<CachedKey>, sources: seq<OpSource>, account: Option<string>): seq<DiscoveredKey> {
    SeedFrom(cache, sources, account, {})
  }

  method AnyMatches(sources: seq<OpSource>, e: CachedKey) returns (b: bool)
    ensures b == InSomeSource(sources, e.vault, e.title, e.itemId)
  {
    b := false;
    for i := 0 to |sources|
      invariant !InSomeSource(sources[..i], e.vault, e.title, e.itemId)
    {
      if SourceMatches(sources[i], e.vault, e.title, e.itemId) {
        return true;
      }
    }
    assert sources[..|sources|] == sources;
  }

  /** `fallback_from_cache`, which `seed_from_cache` also is. */
  method FallbackFromCache(cache: seq<CachedKey>, sources: seq<OpSource>, account: Option<string>)
    returns (out: seq<DiscoveredKey>)
    ensures out == Seed(cache, sources, account)
  {
    out := [];
    var seen: set<string> := {};
    for i := 0 to |cache|
      invariant Seed(cache, sources, account) == out + SeedFrom(cache[i..], sources, account, seen)
    {
      var e := cache[i];
      assert cache[i..][1..] == cache[i + 1..];
      if e.provenance.None? {
        continue;
      }
      if e.provenance.value.account != account {
        continue;
      }
      var inside := AnyMatches(sources, e);
      if !inside {
        continue;
      }
      if e.publicKey == "" {
        continue;
      }
      if e.fingerprint in seen {
        continue;
      }
      seen := seen + {e.fingerprint};
      out := out + [Offer(e)];
    }
  }

  /** The shared cache, updated in place. */
  class OpKeyCache {
    var keys: seq<CachedKey>

    constructor (ks: seq<CachedKey>)
      ensures keys == ks
    {
      keys := ks;
    }

    method MergeSource(sources: seq<OpSource>, account: Option<string>, found: seq<CachedKey>)
      modifies this
      ensures keys == Merge(old(keys), sources, account, found)
    {
      var kept := [];
      for i := 0 to |keys|
        invariant keys == old(keys)
        invariant kept == Filter(e => !Belongs(e, sources, account), keys[..i])
      {
        var inside := AnyMatches(sources, keys[i]);
        var belongs := keys[i].provenance.Some? && keys[i].provenance.value.account == account && inside;
        assert keys[..i + 1] == keys[..i] + [keys[i]];
        FilterAppend(e => !Belongs(e, sources, account), keys[..i], [keys[i]]);
        if !belongs {
          kept := kept + [keys[i]];
        }
      }
      assert keys[..|keys|] == keys;
      keys := kept + found;
    }
  }

  function Merge(cache: seq<CachedKey>, sources: seq<OpSource>, account: Option<string>, found: seq<CachedKey>)
    : seq<CachedKey>
  {
    Filter(e => !Belongs(e, sources, account), cache) + found
  }

  // ---- discovery ----

  function KeyOf(info: KeyInfo, publicKey: string): DiscoveredKey {
    DiscoveredKey(info.itemId, publicKey, info.title, info.fingerprint, info.vaultName)
  }

  function CacheEntry(k: DiscoveredKey, account: Option<string>): CachedKey {
    CachedKey(k.itemId, k.fingerprint, k.publicKey, k.title, k.vault, Some(Provenance(account)))
  }

  function CacheOf(keys: seq<DiscoveredKey>, account: Option<string>): (c: seq<CachedKey>)
    ensures |c| == |keys|
  {
    seq(|keys|, i requires 0 <= i < |keys| => CacheEntry(keys[i], account))
  }

  function Fps(keys: seq<DiscoveredKey>): set<string> {
    set k | k in keys :: k.fingerprint
  }

  /** The keys found and the `item get` calls made so far, or the error that ended it. */
  datatype Progress =
    | Going(keys: seq<DiscoveredKey>, gets: seq<string>)
    | Failed(error: Error, gets: seq<string>)

  function Visit(p: Progress, info: KeyInfo, index: map<string, CachedKey>, get: Gets): Progress {
    if p.Failed? || info.fingerprint in Fps(p.keys) then p
    else if info.fingerprint in index then
      Going(p.keys + [KeyOf(info, index[info.fingerprint].publicKey)], p.gets)
    else
      var gets := p.gets + [info.itemId];
      match get(|p.gets|, info.itemId)
      case NoField => Failed(GetFailed, gets)
      case BadField => Failed(GetUnparsable, gets)
      case Field(pk) => Going(p.keys + [KeyOf(info, pk)], gets)
  }

  function VisitAll(p: Progress, infos: seq<KeyInfo>, index: map<string, CachedKey>, get: Gets): Progress
    decreases |infos|
  {
    if infos == [] then p else VisitAll(Visit(p, infos[0], index, get), infos[1..], index, get)
  }

  /** How a discovery ends, with the complete logs of `op` calls. */
  datatype Ended = Ended(result: Result<Outcome, Error>, lists: seq<Option<string>>, gets: seq<string>)

  /** The remaining sources, after `done` sources and the progress `p`. */
  function DiscoverFrom(p: Progress, lists: seq<Option<string>>, sources: seq<OpSource>, done: nat,
                        account: Option<string>, cache: seq<CachedKey>, list: Lists, get: Gets): Ended
    requires done <= |sources|
    decreases |sources| - done
  {
    if p.Failed? then Ended(Err(p.error), lists, p.gets)
    else if done == |sources| then Ended(Ok(Fresh(p.keys, CacheOf(p.keys, account))), lists, p.gets)
    else
      var s := sources[done];
      var lists' := lists + [s.vault];
      match list(|lists|, s.vault)
      case NoList => Ended(Ok(Stale(Seed(cache, sources, account), ListFailed)), lists', p.gets)
      case BadList => Ended(Err(ListUnparsable), lists', p.gets)
      case Listed(entries) =>
        DiscoverFrom(VisitAll(p, ParseItemList(entries, s.item), ByFingerprint(cache), get),
                     lists', sources, done + 1, account, cache, list, get)
  }

  function Discover(lists: seq<Option<string>>, gets: seq<string>, sources: seq<OpSource>,
                    account: Option<string>, cache: seq<CachedKey>, list: Lists, get: Gets): Ended
  {
    DiscoverFrom(Going([], gets), lists, sources, 0, account, cache, list, get)
  }

  /** The `op` tool, with a log of the calls made to it. */
  class Client {
    const list: Lists
    const get: Gets
    var lists: seq<Option<string>>
    var gets: seq<string>

    constructor (list: Lists, get: Gets)
      ensures this.list == list && this.get == get && lists == [] && gets == []
    {
      this.list, this.get := list, get;
      lists, gets := [], [];
    }

    method ItemList(vault: Option<string>) returns (r: ListReply)
      modifies `lists
      ensures lists == old(lists) + [vault] && r == list(|old(lists)|, vault)
    {
      r := list(|lists|, vault);
      lists := lists + [vault];
    }

    method ItemGet(itemId: string) returns (r: GetReply)
      modifies `gets
      ensures gets == old(gets) + [itemId] && r == get(|old(gets)|, itemId)
    {
      r := get(|gets|, itemId);
      gets := gets + [itemId];
    }
  }

  method ResolveOne(client: Client, info: KeyInfo, index: map<string, CachedKey>) returns (r: Result<DiscoveredKey, Error>)
    modifies client`gets
    ensures info.fingerprint in index ==>
      client.gets == old(client.gets) && r == Ok(KeyOf(info, index[info.fingerprint].publicKey))
    ensures info.fingerprint !in index ==>
      && client.gets == old(client.gets) + [info.itemId]
      && r == match client.get(|old(client.gets)|, info.itemId)
              case NoField => Err(GetFailed)
              case BadField => Err(GetUnparsable)
              case Field(pk) => Ok(KeyOf(info, pk))
  {
    if info.fingerprint in index {
      return Ok(KeyOf(info, index[info.fingerprint].publicKey));
    }
    var reply := client.ItemGet(info.itemId);
    match reply {
      case NoField => r := Err(GetFailed);
      case BadField => r := Err(GetUnparsable);
      case Field(pk) => r := Ok(KeyOf(info, pk));
    }
  }

  method DiscoverKeys(client: Client, sources: seq<OpSource>, account: Option<string>, cache: seq<CachedKey>)
    returns (r: Result<Outcome, Error>)
    modifies client
    ensures Ended(r, client.lists, client.gets)
         == Discover(old(client.lists), old(client.gets), sources, account, cache, client.list, client.get)
  {
    hide ParseItemList, ByFingerprint, Seed;
    var index := ByFingerprint(cache);
    var discovered: seq<DiscoveredKey> := [];
    var seen: set<string> := {};
    var found: seq<CachedKey> := [];
    ghost var ended := Discover(client.lists, client.gets, sources, account, cache, client.list, client.get);
    for s := 0 to |sources|
      invariant seen == Fps(discovered) && found == CacheOf(discovered, account)
      invariant ended == DiscoverFrom(Going(discovered, client.gets), client.lists, sources, s, account, cache, client.list, client.get)
    {
      var json := client.ItemList(sources[s].vault);
      match json {
        case NoList =>
          var keys := FallbackFromCache(cache, sources, account);
          return Ok(Stale(keys, ListFailed));
        case BadList =>
          return Err(ListUnparsable);
        case Listed(entries) =>
          var infos := ParseItemList(entries, sources[s].item);
          ghost var end := VisitAll(Going(discovered, client.gets), infos, index, client.get);
          for i := 0 to |infos|
            invariant seen == Fps(discovered) && found == CacheOf(discovered, account)
            invariant end == VisitAll(Going(discovered, client.gets), infos[i..], index, client.get)
            invariant ended == DiscoverFrom(end, client.lists, sources, s + 1, account, cache, client.list, client.get)
          {
            assert infos[i..][1..] == infos[i + 1..];
            if infos[i].fingerprint in seen {
              continue;
            }
            seen := seen + {infos[i].fingerprint};
            ghost var before := Going(discovered, client.gets);
            var key := ResolveOne(client, infos[i], index);
            if key.Err? {
              FailedStays(Visit(before, infos[i], index, client.get), infos[i + 1..], index, client.get);
              return Err(key.error);
            }
            found := found + [CacheEntry(key.value, account)];
            discovered := discovered + [key.value];
          }
      }
    }
    r := Ok(Fresh(discovered, found));
  }

  lemma {:induction false} FailedStays(p: Progress, infos: seq<KeyInfo>, index: map<string, CachedKey>, get: Gets)
    requires p.Failed?
    ensures VisitAll(p, infos, index, get) == p
  {
    if infos != [] {
      FailedStays(p, infos[1..], index, get);
    }
  }
}
