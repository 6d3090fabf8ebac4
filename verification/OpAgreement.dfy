/** What discovery, the cache and the seed guarantee together. */
module OpAgreement {
  import opened Wrappers
  import opened OpDiscovery

  // ---- what a discovery should return, independently of its loops ----

  /** The listed items whose fingerprint is new, in listing order. */
  function FirstSeen(infos: seq<KeyInfo>, seen: set<string>): (r: seq<KeyInfo>)
    ensures forall k :: k in r ==> k in infos && k.fingerprint !in seen
    decreases |infos|
  {
    if infos == [] then []
    else if infos[0].fingerprint in seen then FirstSeen(infos[1..], seen)
    else
      assert infos == [infos[0]] + infos[1..];
      [infos[0]] + FirstSeen(infos[1..], seen + {infos[0].fingerprint})
  }

  /** The items the index does not know: exactly these are fetched. */
  function Misses(fs: seq<KeyInfo>, index: map<string, CachedKey>): seq<string> {
    if fs == [] then []
    else (if fs[0].fingerprint in index then [] else [fs[0].itemId]) + Misses(fs[1..], index)
  }

  predicate GetsSucceed(fs: seq<KeyInfo>, index: map<string, CachedKey>, get: Gets, n: nat)
    decreases |fs|
  {
    fs == []
    || (if fs[0].fingerprint in index then GetsSucceed(fs[1..], index, get, n)
        else get(n, fs[0].itemId).Field? && GetsSucceed(fs[1..], index, get, n + 1))
  }

  /** The key of each item: its public key from the index, else from its fetch;
      everything else from the listing. */
  function Resolved(fs: seq<KeyInfo>, index: map<string, CachedKey>, get: Gets, n: nat): (r: seq<DiscoveredKey>)
    requires GetsSucceed(fs, index, get, n)
    ensures |r| == |fs|
    ensures forall i :: 0 <= i < |fs| ==> r[i] == KeyOf(fs[i], r[i].publicKey)
    ensures forall i :: 0 <= i < |fs| && fs[i].fingerprint in index ==> r[i].publicKey == index[fs[i].fingerprint].publicKey
    decreases |fs|
  {
    if fs == [] then []
    else if fs[0].fingerprint in index then
      [KeyOf(fs[0], index[fs[0].fingerprint].publicKey)] + Resolved(fs[1..], index, get, n)
    else
      [KeyOf(fs[0], get(n, fs[0].itemId).publicKey)] + Resolved(fs[1..], index, get, n + 1)
  }

  function Listing(list: Lists, n: nat, s: OpSource): seq<KeyInfo> {
    match list(n, s.vault)
    case Listed(entries) => ParseItemList(entries, s.item)
    case _ => []
  }

  predicate AllListed(list: Lists, n: nat, sources: seq<OpSource>) {
    forall i :: 0 <= i < |sources| ==> list(n + i, sources[i].vault).Listed?
  }

  /** Everything the sources list, in order, the `i`-th call being number `n + i`. */
  function Listings(list: Lists, n: nat, sources: seq<OpSource>): seq<KeyInfo>
    decreases |sources|
  {
    if sources == [] then [] else Listing(list, n, sources[0]) + Listings(list, n + 1, sources[1..])
  }

  // ---- the loops compute it ----

  lemma FpsSnoc(ks: seq<DiscoveredKey>, k: DiscoveredKey)
    ensures Fps(ks + [k]) == Fps(ks) + {k.fingerprint}
  {
  }

  lemma ResolveUnfold(fs: seq<KeyInfo>, index: map<string, CachedKey>, get: Gets, n: nat)
    requires fs != []
    ensures var known := fs[0].fingerprint in index;
            var n' := if known then n else n + 1;
            && Misses(fs, index) == (if known then [] else [fs[0].itemId]) + Misses(fs[1..], index)
            && (GetsSucceed(fs, index, get, n)
                <==> (known || get(n, fs[0].itemId).Field?) && GetsSucceed(fs[1..], index, get, n'))
            && (GetsSucceed(fs, index, get, n) ==>
                 Resolved(fs, index, get, n)
                 == [KeyOf(fs[0], if known then index[fs[0].fingerprint].publicKey else get(n, fs[0].itemId).publicKey)]
                    + Resolved(fs[1..], index, get, n'))
  {
  }

  /** Where visiting `infos` from `ks` and `gs` should lead. */
  ghost predicate Leads(p: Progress, ks: seq<DiscoveredKey>, gs: seq<string>, fs: seq<KeyInfo>,
                        index: map<string, CachedKey>, get: Gets)
  {
    && (p.Going? <==> GetsSucceed(fs, index, get, |gs|))
    && (p.Going? ==> p == Going(ks + Resolved(fs, index, get, |gs|), gs + Misses(fs, index)))
  }

  /** One first-seen item, then the rest. */
  lemma LeadsStep(ks: seq<DiscoveredKey>, gs: seq<string>, info: KeyInfo, fs: seq<KeyInfo>,
                  index: map<string, CachedKey>, get: Gets, p: Progress)
    requires info.fingerprint !in Fps(ks)
    requires var q := Visit(Going(ks, gs), info, index, get);
             if q.Failed? then p == q else Leads(p, q.keys, q.gets, fs, index, get)
    ensures Leads(p, ks, gs, [info] + fs, index, get)
  {
    hide Resolved, GetsSucceed, Misses, Fps;
    var n := |gs|;
    var all := [info] + fs;
    assert all[0] == info && all[1..] == fs;
    ResolveUnfold(all, index, get, n);
    if info.fingerprint in index {
      if p.Going? {
        var k := KeyOf(info, index[info.fingerprint].publicKey);
        AppendAfter(ks, k, Resolved(fs, index, get, n));
        assert gs + ([] + Misses(fs, index)) == gs + Misses(fs, index);
      }
    } else if get(n, info.itemId).Field? {
      if p.Going? {
        var k := KeyOf(info, get(n, info.itemId).publicKey);
        AppendAfter(ks, k, Resolved(fs, index, get, n + 1));
        AppendAfter(gs, info.itemId, Misses(fs, index));
      }
    }
  }

  lemma AppendAfter<T>(a: seq<T>, x: T, b: seq<T>)
    ensures a + [x] + b == a + ([x] + b)
  {
  }

  lemma {:induction false} VisitAllResolves(ks: seq<DiscoveredKey>, gs: seq<string>, infos: seq<KeyInfo>,
                                            index: map<string, CachedKey>, get: Gets)
    ensures Leads(VisitAll(Going(ks, gs), infos, index, get), ks, gs, FirstSeen(infos, Fps(ks)), index, get)
    decreases |infos|
  {
    if infos == [] {
      NothingLeft(ks, gs, index, get);
    } else {
      hide Leads, Fps;
      var q := Visit(Going(ks, gs), infos[0], index, get);
      if q.Failed? {
        FailedStays(q, infos[1..], index, get);
      } else {
        if q.keys != ks {
          FpsSnoc(ks, q.keys[|ks|]);
        }
        VisitAllResolves(q.keys, q.gets, infos[1..], index, get);
      }
      if infos[0].fingerprint !in Fps(ks) {
        LeadsStep(ks, gs, infos[0], FirstSeen(infos[1..], Fps(ks) + {infos[0].fingerprint}), index, get,
                  VisitAll(Going(ks, gs), infos, index, get));
      }
    }
  }

  function InfoFps(infos: seq<KeyInfo>): set<string> {
    set k | k in infos :: k.fingerprint
  }

  lemma {:induction false} FirstSeenAppend(a: seq<KeyInfo>, b: seq<KeyInfo>, seen: set<string>)
    ensures FirstSeen(a + b, seen) == FirstSeen(a, seen) + FirstSeen(b, seen + InfoFps(FirstSeen(a, seen)))
    decreases |a|
  {
    if a == [] {
      assert a + b == b && seen + InfoFps([]) == seen;
    } else {
      assert (a + b)[1..] == a[1..] + b;
      if a[0].fingerprint in seen {
        FirstSeenAppend(a[1..], b, seen);
      } else {
        var seen' := seen + {a[0].fingerprint};
        var rest := FirstSeen(a[1..], seen');
        FirstSeenAppend(a[1..], b, seen');
        assert InfoFps([a[0]] + rest) == {a[0].fingerprint} + InfoFps(rest);
        assert seen + InfoFps([a[0]] + rest) == seen' + InfoFps(rest);
      }
    }
  }

  lemma {:induction false} AppendMisses(f: seq<KeyInfo>, g: seq<KeyInfo>, index: map<string, CachedKey>)
    ensures Misses(f + g, index) == Misses(f, index) + Misses(g, index)
  {
    if f == [] {
      assert f + g == g;
    } else {
      assert (f + g)[1..] == f[1..] + g;
      AppendMisses(f[1..], g, index);
    }
  }

  lemma NothingToResolve(index: map<string, CachedKey>, get: Gets, n: nat)
    ensures GetsSucceed([], index, get, n) && Resolved([], index, get, n) == [] && Misses([], index) == []
  {
  }

  lemma {:induction false} AppendSucceeds(f: seq<KeyInfo>, g: seq<KeyInfo>, index: map<string, CachedKey>, get: Gets, n: nat)
    ensures GetsSucceed(f + g, index, get, n)
       <==> GetsSucceed(f, index, get, n) && GetsSucceed(g, index, get, n + |Misses(f, index)|)
    decreases |f|
  {
    if f == [] {
      assert f + g == g;
    } else {
      hide Misses, GetsSucceed, Resolved;
      assert (f + g)[1..] == f[1..] + g;
      ResolveUnfold(f + g, index, get, n);
      ResolveUnfold(f, index, get, n);
      AppendSucceeds(f[1..], g, index, get, if f[0].fingerprint in index then n else n + 1);
    }
  }

  lemma {:induction false} AppendResolved(f: seq<KeyInfo>, g: seq<KeyInfo>, index: map<string, CachedKey>, get: Gets, n: nat)
    requires GetsSucceed(f + g, index, get, n)
    ensures GetsSucceed(f, index, get, n) && GetsSucceed(g, index, get, n + |Misses(f, index)|)
    ensures Resolved(f + g, index, get, n)
         == Resolved(f, index, get, n) + Resolved(g, index, get, n + |Misses(f, index)|)
    decreases |f|
  {
    hide Misses, GetsSucceed, Resolved;
    AppendSucceeds(f, g, index, get, n);
    NothingToResolve(index, get, n);
    if f == [] {
      assert f + g == g;
    } else {
      assert (f + g)[1..] == f[1..] + g;
      ResolveUnfold(f + g, index, get, n);
      ResolveUnfold(f, index, get, n);
      var n' := if f[0].fingerprint in index then n else n + 1;
      AppendResolved(f[1..], g, index, get, n');
      var k := Resolved(f, index, get, n)[0];
      var r, r' := Resolved(f[1..], index, get, n'), Resolved(g, index, get, n + |Misses(f, index)|);
      assert [k] + r + r' == [k] + (r + r');
    }
  }

  lemma FpsOfResolved(ks: seq<DiscoveredKey>, fs: seq<KeyInfo>, index: map<string, CachedKey>, get: Gets, n: nat)
    requires GetsSucceed(fs, index, get, n)
    ensures Fps(ks + Resolved(fs, index, get, n)) == Fps(ks) + InfoFps(fs)
  {
    var r := Resolved(fs, index, get, n);
    forall f ensures f in Fps(r) <==> f in InfoFps(fs) {
      if f in Fps(r) {
        var i :| 0 <= i < |r| && r[i].fingerprint == f;
        assert fs[i].fingerprint == f && fs[i] in fs;
      }
      if f in InfoFps(fs) {
        var i :| 0 <= i < |fs| && fs[i].fingerprint == f;
        assert r[i].fingerprint == f && r[i] in r;
      }
    }
    assert Fps(ks + r) == Fps(ks) + Fps(r);
  }

  predicate IsFresh(e: Ended) {
    e.result.Ok? && e.result.value.Fresh?
  }

  /** What the rest of a discovery should end in. */
  ghost predicate Ends(e: Ended, ks: seq<DiscoveredKey>, gs: seq<string>, allListed: bool, fs: seq<KeyInfo>,
                       account: Option<string>, index: map<string, CachedKey>, get: Gets)
  {
    && (IsFresh(e) <==> allListed && GetsSucceed(fs, index, get, |gs|))
    && (IsFresh(e) ==>
         && e.result.value.keys == ks + Resolved(fs, index, get, |gs|)
         && e.result.value.cache == CacheOf(e.result.value.keys, account)
         && e.gets == gs + Misses(fs, index))
  }

  /** One readable listing, then the rest. */
  lemma EndsStep(p: Progress, e: Ended, ks: seq<DiscoveredKey>, gs: seq<string>, laterListed: bool,
                 f: seq<KeyInfo>, g: seq<KeyInfo>, account: Option<string>, index: map<string, CachedKey>, get: Gets)
    requires Leads(p, ks, gs, f, index, get)
    requires if p.Going? then Ends(e, p.keys, p.gets, laterListed, g, account, index, get) else e.result == Err(p.error)
    ensures Ends(e, ks, gs, laterListed, f + g, account, index, get)
  {
    hide Resolved, GetsSucceed, Misses, CacheOf;
    AppendSucceeds(f, g, index, get, |gs|);
    AppendMisses(f, g, index);
    if GetsSucceed(f + g, index, get, |gs|) {
      AppendResolved(f, g, index, get, |gs|);
      var r, r' := Resolved(f, index, get, |gs|), Resolved(g, index, get, |gs| + |Misses(f, index)|);
      assert ks + r + r' == ks + (r + r');
      assert gs + Misses(f, index) + Misses(g, index) == gs + (Misses(f, index) + Misses(g, index));
    }
  }

  lemma EndsAtLast(ks: seq<DiscoveredKey>, gs: seq<string>, lists: seq<Option<string>>, sources: seq<OpSource>,
                   account: Option<string>, cache: seq<CachedKey>, list: Lists, get: Gets)
    ensures Ends(DiscoverFrom(Going(ks, gs), lists, sources, |sources|, account, cache, list, get), ks, gs,
                 AllListed(list, |lists|, sources[|sources|..]),
                 FirstSeen(Listings(list, |lists|, sources[|sources|..]), Fps(ks)),
                 account, ByFingerprint(cache), get)
  {
    hide ByFingerprint, CacheOf;
    NothingLeft(ks, gs, ByFingerprint(cache), get);
  }

  /** One unreadable listing ends everything. */
  lemma EndsUnlisted(e: Ended, ks: seq<DiscoveredKey>, gs: seq<string>, fs: seq<KeyInfo>,
                     account: Option<string>, index: map<string, CachedKey>, get: Gets)
    requires !IsFresh(e)
    ensures Ends(e, ks, gs, false, fs, account, index, get)
  {
  }

  lemma {:induction false} DiscoverFromResolves(
    ks: seq<DiscoveredKey>, gs: seq<string>, lists: seq<Option<string>>, sources: seq<OpSource>, done: nat,
    account: Option<string>, cache: seq<CachedKey>, list: Lists, get: Gets)
    requires done <= |sources|
    ensures Ends(DiscoverFrom(Going(ks, gs), lists, sources, done, account, cache, list, get), ks, gs,
                 AllListed(list, |lists|, sources[done..]),
                 FirstSeen(Listings(list, |lists|, sources[done..]), Fps(ks)),
                 account, ByFingerprint(cache), get)
    decreases |sources| - done
  {
    hide ByFingerprint, ParseItemList, Seed, Resolved, GetsSucceed, Misses, CacheOf, FirstSeen, AllListed, VisitAll, Leads, Ends;
    var index := ByFingerprint(cache);
    if done == |sources| {
      EndsAtLast(ks, gs, lists, sources, account, cache, list, get);
    } else {
      var s := sources[done];
      var todo := sources[done..];
      assert todo[0] == s && todo[1..] == sources[done + 1..];
      var n := |lists|;
      var here, later := Listing(list, n, s), Listings(list, n + 1, todo[1..]);
      AllListedStep(list, n, todo);
      if list(n, s.vault).Listed? {
        var p := VisitAll(Going(ks, gs), here, index, get);
        var f := FirstSeen(here, Fps(ks));
        VisitAllResolves(ks, gs, here, index, get);
        FirstSeenAppend(here, later, Fps(ks));
        var e := DiscoverFrom(p, lists + [s.vault], sources, done + 1, account, cache, list, get);
        if p.Going? {
          GoingFps(p, ks, gs, f, index, get);
          DiscoverFromResolves(p.keys, p.gets, lists + [s.vault], sources, done + 1, account, cache, list, get);
        }
        EndsStep(p, e, ks, gs, AllListed(list, n + 1, todo[1..]), f, FirstSeen(later, Fps(ks) + InfoFps(f)), account, index, get);
      } else {
        EndsUnlisted(DiscoverFrom(Going(ks, gs), lists, sources, done, account, cache, list, get), ks, gs,
                     FirstSeen(Listings(list, n, todo), Fps(ks)), account, index, get);
      }
    }
  }

  lemma GoingFps(p: Progress, ks: seq<DiscoveredKey>, gs: seq<string>, f: seq<KeyInfo>, index: map<string, CachedKey>, get: Gets)
    requires p.Going? && Leads(p, ks, gs, f, index, get)
    ensures Fps(p.keys) == Fps(ks) + InfoFps(f)
  {
    FpsOfResolved(ks, f, index, get, |gs|);
  }

  lemma NothingLeft(ks: seq<DiscoveredKey>, gs: seq<string>, index: map<string, CachedKey>, get: Gets)
    ensures FirstSeen([], Fps(ks)) == [] && GetsSucceed([], index, get, |gs|)
    ensures ks + Resolved([], index, get, |gs|) == ks && gs + Misses([], index) == gs
  {
  }

  lemma AllListedStep(list: Lists, n: nat, sources: seq<OpSource>)
    requires sources != []
    ensures AllListed(list, n, sources) <==> list(n, sources[0].vault).Listed? && AllListed(list, n + 1, sources[1..])
  {
    if AllListed(list, n, sources) {
      assert list(n + 0, sources[0].vault).Listed?;
      forall i | 0 <= i < |sources[1..]| ensures list(n + 1 + i, sources[1..][i].vault).Listed? {
        assert list(n + (i + 1), sources[i + 1].vault).Listed?;
      }
    }
    if list(n, sources[0].vault).Listed? && AllListed(list, n + 1, sources[1..]) {
      forall i | 0 <= i < |sources| ensures list(n + i, sources[i].vault).Listed? {
        if i > 0 {
          assert list(n + 1 + (i - 1), sources[1..][i - 1].vault).Listed?;
        }
      }
    }
  }

  /** A discovery is fresh exactly when every listing is readable and every fetch
      it needs gives a field. Then it returns one key per distinct fingerprint in
      first-seen order, and has called `item get` once for each of these that the
      cache did not hold, and for nothing else. */
  lemma FreshIff(lists: seq<Option<string>>, gets: seq<string>, sources: seq<OpSource>, account: Option<string>,
                 cache: seq<CachedKey>, list: Lists, get: Gets)
    ensures var e := Discover(lists, gets, sources, account, cache, list, get);
            var index := ByFingerprint(cache);
            var fs := FirstSeen(Listings(list, |lists|, sources), {});
            && (IsFresh(e) <==> AllListed(list, |lists|, sources) && GetsSucceed(fs, index, get, |gets|))
            && (IsFresh(e) ==>
                 && e.result.value.keys == Resolved(fs, index, get, |gets|)
                 && e.result.value.cache == CacheOf(e.result.value.keys, account)
                 && e.gets == gets + Misses(fs, index))
  {
    hide DiscoverFrom, Listings, FirstSeen, GetsSucceed, Resolved, Misses, CacheOf, ByFingerprint;
    DiscoverFromResolves([], gets, lists, sources, 0, account, cache, list, get);
    assert sources[0..] == sources;
    assert Fps([]) == {};
  }

  /** A discovery that could not list anything, wherever it stopped, serves the
      seed: what the socket would have been bound with at startup. */
  lemma {:induction false} StaleIsSeed(p: Progress, lists: seq<Option<string>>, sources: seq<OpSource>, done: nat,
                                       account: Option<string>, cache: seq<CachedKey>, list: Lists, get: Gets)
    requires done <= |sources|
    ensures var r := DiscoverFrom(p, lists, sources, done, account, cache, list, get).result;
            r.Ok? && r.value.Stale? ==> r.value.keys == Seed(cache, sources, account) && r.value.error == ListFailed
    decreases |sources| - done
  {
    hide VisitAll, Seed, ParseItemList;
    if p.Going? && done < |sources| {
      var s := sources[done];
      match list(|lists|, s.vault) {
        case Listed(entries) =>
          StaleIsSeed(VisitAll(p, ParseItemList(entries, s.item), ByFingerprint(cache), get),
                      lists + [s.vault], sources, done + 1, account, cache, list, get);
        case _ =>
      }
    }
  }

  // ---- warm restart ----

  predicate DistinctFps(keys: seq<DiscoveredKey>) {
    forall i, j :: 0 <= i < j < |keys| ==> keys[i].fingerprint != keys[j].fingerprint
  }

  predicate DistinctInfos(fs: seq<KeyInfo>) {
    forall i, j :: 0 <= i < j < |fs| ==> fs[i].fingerprint != fs[j].fingerprint
  }

  lemma DistinctCons(k: KeyInfo, rest: seq<KeyInfo>)
    requires DistinctInfos(rest) && forall x :: x in rest ==> x.fingerprint != k.fingerprint
    ensures DistinctInfos([k] + rest)
  {
    var fs := [k] + rest;
    forall i, j | 0 <= i < j < |fs| ensures fs[i].fingerprint != fs[j].fingerprint {
      assert fs[j] == rest[j - 1] && rest[j - 1] in rest;
      if i > 0 {
        assert fs[i] == rest[i - 1];
      }
    }
  }

  lemma {:induction false} FirstSeenDistinct(infos: seq<KeyInfo>, seen: set<string>)
    ensures DistinctInfos(FirstSeen(infos, seen))
    decreases |infos|
  {
    hide DistinctInfos;
    if infos == [] {
      NoneDistinct();
    } else if infos[0].fingerprint in seen {
      FirstSeenDistinct(infos[1..], seen);
    } else {
      var seen' := seen + {infos[0].fingerprint};
      FirstSeenDistinct(infos[1..], seen');
      DistinctCons(infos[0], FirstSeen(infos[1..], seen'));
    }
  }

  lemma NoneDistinct()
    ensures DistinctInfos([])
  {
  }

  lemma {:induction false} IndexOfCache(keys: seq<DiscoveredKey>, account: Option<string>)
    requires DistinctFps(keys)
    ensures forall i :: 0 <= i < |keys| ==>
      keys[i].fingerprint in ByFingerprint(CacheOf(keys, account))
      && ByFingerprint(CacheOf(keys, account))[keys[i].fingerprint] == CacheEntry(keys[i], account)
  {
    if keys != [] {
      var n := |keys| - 1;
      assert CacheOf(keys, account)[..n] == CacheOf(keys[..n], account);
      IndexOfCache(keys[..n], account);
    }
  }

  lemma {:induction false} KnownResolves(fs: seq<KeyInfo>, index: map<string, CachedKey>, get: Gets, n: nat)
    requires forall i :: 0 <= i < |fs| ==> fs[i].fingerprint in index
    ensures Misses(fs, index) == [] && GetsSucceed(fs, index, get, n)
    decreases |fs|
  {
    if fs != [] {
      KnownResolves(fs[1..], index, get, n);
    }
  }

  /** Discovery again, with the merged cache and listings that say the same,
      fetches nothing, whatever the tool would have answered, and returns the
      same keys and the same cache. `before` is the shared cache merged into. */
  lemma WarmRestart(lists: seq<Option<string>>, gets: seq<string>, sources: seq<OpSource>, account: Option<string>,
                    cache: seq<CachedKey>, list: Lists, get: Gets, before: seq<CachedKey>,
                    lists': seq<Option<string>>, gets': seq<string>, list': Lists, get': Gets)
    requires var e := Discover(lists, gets, sources, account, cache, list, get); IsFresh(e)
    requires AllListed(list', |lists'|, sources) && Listings(list', |lists'|, sources) == Listings(list, |lists|, sources)
    ensures var e := Discover(lists, gets, sources, account, cache, list, get);
            var merged := Merge(before, sources, account, e.result.value.cache);
            var e' := Discover(lists', gets', sources, account, merged, list', get');
            e'.result == e.result && e'.gets == gets'
  {
    hide Listings, Misses, GetsSucceed, ByFingerprint, AllListed, CacheOf, Discover;
    var e := Discover(lists, gets, sources, account, cache, list, get);
    FreshIff(lists, gets, sources, account, cache, list, get);
    var fs := FirstSeen(Listings(list, |lists|, sources), {});
    var keys := e.result.value.keys;
    FirstSeenDistinct(Listings(list, |lists|, sources), {});
    var kept := Filter(c => !Belongs(c, sources, account), before);
    var merged := kept + CacheOf(keys, account);
    IndexAppend(kept, CacheOf(keys, account));
    IndexOfCache(keys, account);
    var index := ByFingerprint(merged);
    forall i | 0 <= i < |fs| ensures fs[i].fingerprint in index && index[fs[i].fingerprint] == CacheEntry(keys[i], account) {
      assert keys[i].fingerprint == fs[i].fingerprint;
    }
    KnownResolves(fs, index, get', |gets'|);
    FreshIff(lists', gets', sources, account, merged, list', get');
    assert Resolved(fs, index, get', |gets'|) == keys;
    assert gets' + [] == gets';
  }

  // ---- the seed agrees with the live discovery ----

  /** Does a source, matched by name, offer this key? */
  predicate Offered(sources: seq<OpSource>, k: DiscoveredKey) {
    InSomeSource(sources, k.vault, k.title, k.itemId)
  }

  function Usable(keys: seq<DiscoveredKey>): seq<DiscoveredKey> {
    Filter((k: DiscoveredKey) => k.publicKey != "", keys)
  }

  function Served(keys: seq<DiscoveredKey>, sources: seq<OpSource>): seq<DiscoveredKey> {
    Filter((k: DiscoveredKey) => k.publicKey != "" && Offered(sources, k), keys)
  }

  lemma {:induction false} SeedSkips(a: seq<CachedKey>, b: seq<CachedKey>, sources: seq<OpSource>,
                                     account: Option<string>, seen: set<string>)
    requires forall e :: e in a ==> !Eligible(e, sources, account)
    ensures SeedFrom(a + b, sources, account, seen) == SeedFrom(b, sources, account, seen)
    decreases |a|
  {
    if a == [] {
      assert a + b == b;
    } else {
      assert (a + b)[1..] == a[1..] + b && a[0] in a;
      SeedSkips(a[1..], b, sources, account, seen);
    }
  }

  /** Entries that are not eligible can be dropped anywhere without effect. */
  lemma {:induction false} SeedFilters(keep: CachedKey -> bool, c: seq<CachedKey>, sources: seq<OpSource>,
                                       account: Option<string>, seen: set<string>)
    requires forall e :: e in c && !keep(e) ==> !Eligible(e, sources, account)
    ensures SeedFrom(Filter(keep, c), sources, account, seen) == SeedFrom(c, sources, account, seen)
    decreases |c|
  {
    if c != [] {
      var e := c[0];
      assert c == [e] + c[1..];
      var rest := Filter(keep, c[1..]);
      var taken := Eligible(e, sources, account) && e.fingerprint !in seen;
      SeedFilters(keep, c[1..], sources, account, if taken then seen + {e.fingerprint} else seen);
      if keep(e) {
        assert ([e] + rest)[1..] == rest;
      } else {
        assert [] + rest == rest;
      }
    }
  }

  lemma {:induction false} SeedEndsWithout(a: seq<CachedKey>, b: seq<CachedKey>, sources: seq<OpSource>,
                                           account: Option<string>, seen: set<string>)
    requires forall e :: e in b ==> !Eligible(e, sources, account)
    ensures SeedFrom(a + b, sources, account, seen) == SeedFrom(a, sources, account, seen)
    decreases |a|
  {
    if a == [] {
      assert a + b == b == b + [];
      SeedSkips(b, [], sources, account, seen);
    } else {
      var e := a[0];
      assert (a + b)[1..] == a[1..] + b;
      SeedEndsWithout(a[1..], b, sources, account,
                      if Eligible(e, sources, account) && e.fingerprint !in seen then seen + {e.fingerprint} else seen);
    }
  }

  /** A cache with one entry per fingerprint offers what its sources match. */
  lemma {:induction false} SeedOfCacheOf(keys: seq<DiscoveredKey>, sources: seq<OpSource>, account: Option<string>, seen: set<string>)
    requires DistinctFps(keys) && forall k :: k in keys ==> k.fingerprint !in seen
    ensures SeedFrom(CacheOf(keys, account), sources, account, seen) == Served(keys, sources)
    decreases |keys|
  {
    if keys != [] {
      var k := keys[0];
      assert keys == [k] + keys[1..];
      var c := CacheOf(keys, account);
      assert c[0] == CacheEntry(k, account) && c[1..] == CacheOf(keys[1..], account);
      var taken := k.publicKey != "" && Offered(sources, k);
      assert taken <==> Eligible(c[0], sources, account);
      forall j | 0 <= j < |keys[1..]| ensures keys[1..][j].fingerprint != k.fingerprint {}
      SeedOfCacheOf(keys[1..], sources, account, if taken then seen + {k.fingerprint} else seen);
      assert Offer(c[0]) == k;
    }
  }

  /** Merging found keys makes the seed exactly those of them that the sources
      match by name, whatever the cache held before. */
  lemma SeedAfterMerge(before: seq<CachedKey>, sources: seq<OpSource>, account: Option<string>, keys: seq<DiscoveredKey>)
    requires DistinctFps(keys)
    ensures Seed(Merge(before, sources, account, CacheOf(keys, account)), sources, account) == Served(keys, sources)
  {
    var kept := Filter(e => !Belongs(e, sources, account), before);
    SeedSkips(kept, CacheOf(keys, account), sources, account, {});
    SeedOfCacheOf(keys, sources, account, {});
  }

  lemma FreshKeysDistinct(lists: seq<Option<string>>, gets: seq<string>, sources: seq<OpSource>, account: Option<string>,
                          cache: seq<CachedKey>, list: Lists, get: Gets)
    requires IsFresh(Discover(lists, gets, sources, account, cache, list, get))
    ensures DistinctFps(Discover(lists, gets, sources, account, cache, list, get).result.value.keys)
  {
    hide Listings, Misses, GetsSucceed, ByFingerprint, AllListed, CacheOf, Discover;
    FreshIff(lists, gets, sources, account, cache, list, get);
    FirstSeenDistinct(Listings(list, |lists|, sources), {});
  }

  /** Of the items a discovery sees first, those with a public key, cached or
      fetched, all match a source by name. */
  predicate UsableOffered(fs: seq<KeyInfo>, sources: seq<OpSource>, index: map<string, CachedKey>, get: Gets, n: nat)
    requires GetsSucceed(fs, index, get, n)
  {
    forall i :: 0 <= i < |fs| && Resolved(fs, index, get, n)[i].publicKey != "" ==>
      InSomeSource(sources, fs[i].vaultName, fs[i].title, fs[i].itemId)
  }

  lemma OfferedKeysIff(fs: seq<KeyInfo>, sources: seq<OpSource>, index: map<string, CachedKey>, get: Gets, n: nat)
    requires GetsSucceed(fs, index, get, n)
    ensures UsableOffered(fs, sources, index, get, n)
       <==> forall k :: k in Resolved(fs, index, get, n) && k.publicKey != "" ==> Offered(sources, k)
  {
    hide InSomeSource, Resolved, GetsSucceed;
    var keys := Resolved(fs, index, get, n);
    forall i | 0 <= i < |fs|
      ensures Offered(sources, keys[i]) <==> InSomeSource(sources, fs[i].vaultName, fs[i].title, fs[i].itemId)
    {
      assert keys[i] == KeyOf(fs[i], keys[i].publicKey);
    }
    if forall k :: k in keys && k.publicKey != "" ==> Offered(sources, k) {
      forall i | 0 <= i < |fs| && keys[i].publicKey != "" ensures Offered(sources, keys[i]) {
        assert keys[i] in keys;
      }
    }
  }

  /** After a fresh discovery is merged, the seed is the discovered keys with a
      public key, in order, exactly when every first-seen listed item that has one
      matches a source by name. */
  lemma SeedAgreesIff(lists: seq<Option<string>>, gets: seq<string>, sources: seq<OpSource>, account: Option<string>,
                      cache: seq<CachedKey>, list: Lists, get: Gets, before: seq<CachedKey>)
    requires IsFresh(Discover(lists, gets, sources, account, cache, list, get))
    ensures GetsSucceed(FirstSeen(Listings(list, |lists|, sources), {}), ByFingerprint(cache), get, |gets|)
    ensures var found := Discover(lists, gets, sources, account, cache, list, get).result.value;
            (Seed(Merge(before, sources, account, found.cache), sources, account) == Usable(found.keys))
            <==> UsableOffered(FirstSeen(Listings(list, |lists|, sources), {}), sources, ByFingerprint(cache), get, |gets|)
  {
    hide Discover, Seed, Merge, CacheOf, Offered, UsableOffered, Listings, FirstSeen, GetsSucceed, Resolved, ByFingerprint;
    var found := Discover(lists, gets, sources, account, cache, list, get).result.value;
    FreshIff(lists, gets, sources, account, cache, list, get);
    FreshKeysDistinct(lists, gets, sources, account, cache, list, get);
    SeedAfterMerge(before, sources, account, found.keys);
    OfferedKeysIff(FirstSeen(Listings(list, |lists|, sources), {}), sources, ByFingerprint(cache), get, |gets|);
    SameFilterIff((k: DiscoveredKey) => k.publicKey != "" && Offered(sources, k),
                  (k: DiscoveredKey) => k.publicKey != "", found.keys);
  }

  /** Of the list calls made, each one for a vault reports only items whose vault
      has that name. */
  predicate ListsByName(list: Lists, n: nat, sources: seq<OpSource>) {
    forall i :: 0 <= i < |sources| && sources[i].vault.Some? ==> ReportsVault(list(n + i, sources[i].vault), sources[i].vault.value)
  }

  predicate ReportsVault(reply: ListReply, vault: string) {
    reply.Listed? ==> forall i :: 0 <= i < |reply.entries| ==> reply.entries[i].vaultName == vault
  }

  lemma {:induction false} InfosKeepVault(entries: seq<ListEntry>, k: KeyInfo)
    requires k in Infos(entries)
    ensures exists i :: 0 <= i < |entries| && entries[i].vaultName == k.vaultName
  {
    if InfoOf(entries[0]) == Some(k) {
      assert entries[0].vaultName == k.vaultName;
    } else {
      InfosKeepVault(entries[1..], k);
      var i :| 0 <= i < |entries[1..]| && entries[1..][i].vaultName == k.vaultName;
      assert entries[i + 1].vaultName == k.vaultName;
    }
  }

  lemma {:induction false} ListedByNameMatches(list: Lists, n: nat, sources: seq<OpSource>, k: KeyInfo)
    requires ListsByName(list, n, sources) && k in Listings(list, n, sources)
    ensures InSomeSource(sources, k.vaultName, k.title, k.itemId)
    decreases |sources|
  {
    var s := sources[0];
    if k in Listing(list, n, s) {
      var reply := list(n + 0, s.vault);
      InfosKeepVault(reply.entries, k);
      assert s.vault.Some? ==> ReportsVault(reply, s.vault.value);
      assert SourceMatches(sources[0], k.vaultName, k.title, k.itemId);
    } else {
      forall i | 0 <= i < |sources[1..]| && sources[1..][i].vault.Some?
        ensures ReportsVault(list(n + 1 + i, sources[1..][i].vault), sources[1..][i].vault.value)
      {
        assert ReportsVault(list(n + (i + 1), sources[i + 1].vault), sources[i + 1].vault.value);
      }
      ListedByNameMatches(list, n + 1, sources[1..], k);
      var i :| 0 <= i < |sources[1..]| && SourceMatches(sources[1..][i], k.vaultName, k.title, k.itemId);
      assert SourceMatches(sources[i + 1], k.vaultName, k.title, k.itemId);
    }
  }

  /** So a tool that, in the calls made, reports vaults under the name they were
      asked for makes the seed agree with the discovery. */
  lemma SeedAgrees(lists: seq<Option<string>>, gets: seq<string>, sources: seq<OpSource>, account: Option<string>,
                   cache: seq<CachedKey>, list: Lists, get: Gets, before: seq<CachedKey>)
    requires IsFresh(Discover(lists, gets, sources, account, cache, list, get)) && ListsByName(list, |lists|, sources)
    ensures var found := Discover(lists, gets, sources, account, cache, list, get).result.value;
            Seed(Merge(before, sources, account, found.cache), sources, account) == Usable(found.keys)
  {
    hide Discover, Seed, Merge, CacheOf, ListsByName, ByFingerprint, GetsSucceed, Misses, Usable, Resolved;
    SeedAgreesIff(lists, gets, sources, account, cache, list, get, before);
    var fs := FirstSeen(Listings(list, |lists|, sources), {});
    forall i | 0 <= i < |fs| ensures InSomeSource(sources, fs[i].vaultName, fs[i].title, fs[i].itemId) {
      assert fs[i] in fs;
      ListedByNameMatches(list, |lists|, sources, fs[i]);
    }
  }

  const PRIVATE_ENTRY := ListEntry("i", "t", "vid", "Private", Some("SHA256:x"))

  function ListPrivate(n: nat, vault: Option<string>): ListReply {
    Listed([PRIVATE_ENTRY])
  }

  function GetAny(n: nat, itemId: string): GetReply {
    Field("ssh-ed25519 A")
  }

  /** The tool also takes a vault by id; a source written that way discovers its
      key and then seeds nothing. */
  lemma VaultByIdExample()
    ensures var sources := [OpSource(Some("vid"), None)];
            var e := Discover([], [], sources, None, [], ListPrivate, GetAny);
            && IsFresh(e) && |Usable(e.result.value.keys)| == 1
            && Seed(Merge([], sources, None, e.result.value.cache), sources, None) == []
  {
    var sources := [OpSource(Some("vid"), None)];
    var info := KeyInfo("i", "t", "vid", "Private", "SHA256:x");
    var key := KeyOf(info, "ssh-ed25519 A");
    assert InfoOf(PRIVATE_ENTRY) == Some(info);
    assert [PRIVATE_ENTRY][1..] == [] && Infos([]) == [] && [info] + Infos([]) == [info];
    assert Infos([PRIVATE_ENTRY]) == [info];
    FilterAll(k => ItemWanted(None, k), [info]);
    assert ParseItemList([PRIVATE_ENTRY], None) == [info];
    assert Fps([]) == {} && [] + [key] == [key] && [] + ["i"] == ["i"];
    assert Visit(Going([], []), info, map[], GetAny) == Going([key], ["i"]);
    assert VisitAll(Going([], []), [info], map[], GetAny) == Going([key], ["i"]);
    assert ByFingerprint([]) == map[];
    var e := Discover([], [], sources, None, [], ListPrivate, GetAny);
    assert e == DiscoverFrom(Going([key], ["i"]), [] + [Some("vid")], sources, 1, None, [], ListPrivate, GetAny);
    assert e.result == Ok(Fresh([key], CacheOf([key], None)));
    assert [key][1..] == [] && Usable([key]) == [key] + Usable([]);
    assert !SourceMatches(sources[0], "Private", "t", "i");
    assert Served([key], sources) == [] + Served([], sources);
    SeedAfterMerge([], sources, None, [key]);
  }

  // ---- siblings ----

  /** A merge leaves alone every seed that neither what it drops nor what it adds
      is eligible for. */
  lemma MergeKeepsSeed(c: seq<CachedKey>, sources: seq<OpSource>, account: Option<string>, found: seq<CachedKey>,
                       sources': seq<OpSource>, account': Option<string>)
    requires forall e :: (e in c && Belongs(e, sources, account)) || e in found ==> !Eligible(e, sources', account')
    ensures Seed(Merge(c, sources, account, found), sources', account') == Seed(c, sources', account')
  {
    var keep := e => !Belongs(e, sources, account);
    SeedEndsWithout(Filter(keep, c), found, sources', account', {});
    SeedFilters(keep, c, sources', account', {});
  }

  /** One source's merge: its members, its account and the keys it found. */
  datatype SourceMerge = SourceMerge(sources: seq<OpSource>, account: Option<string>, keys: seq<DiscoveredKey>)

  function MergeAll(c: seq<CachedKey>, ms: seq<SourceMerge>): seq<CachedKey>
    decreases |ms|
  {
    if ms == [] then c
    else
      var m := ms[|ms| - 1];
      Merge(MergeAll(c, ms[..|ms| - 1]), m.sources, m.account, CacheOf(m.keys, m.account))
  }

  /** Merges under other accounts never change a source's seed. */
  lemma {:induction false} OtherAccountsKeepSeed(c: seq<CachedKey>, ms: seq<SourceMerge>, sources: seq<OpSource>, account: Option<string>)
    requires forall i :: 0 <= i < |ms| ==> ms[i].account != account
    ensures Seed(MergeAll(c, ms), sources, account) == Seed(c, sources, account)
    decreases |ms|
  {
    if ms != [] {
      var n := |ms| - 1;
      var m := ms[n];
      OtherAccountsKeepSeed(c, ms[..n], sources, account);
      MergeKeepsSeed(MergeAll(c, ms[..n]), m.sources, m.account, CacheOf(m.keys, m.account), sources, account);
    }
  }

  /** After any sequence of merges for sources of different accounts, each
      source's seed is its own found keys, and nobody else's. */
  lemma {:induction false} EverySourceKeepsItsSeed(c: seq<CachedKey>, ms: seq<SourceMerge>, i: nat)
    requires i < |ms| && DistinctFps(ms[i].keys)
    requires forall j :: i < j < |ms| ==> ms[j].account != ms[i].account
    ensures Seed(MergeAll(c, ms), ms[i].sources, ms[i].account) == Served(ms[i].keys, ms[i].sources)
    decreases |ms|
  {
    var n := |ms| - 1;
    var m := ms[n];
    var prior := MergeAll(c, ms[..n]);
    if i == n {
      SeedAfterMerge(prior, m.sources, m.account, m.keys);
    } else {
      EverySourceKeepsItsSeed(c, ms[..n], i);
      MergeKeepsSeed(prior, m.sources, m.account, CacheOf(m.keys, m.account), ms[i].sources, ms[i].account);
    }
  }

  /** Whatever belongs to none of the merged sources and is not newly found
      survives in order, entries of the same account under another vault or item
      included. */
  lemma {:induction false} OthersSurvive(c: seq<CachedKey>, ms: seq<SourceMerge>, keep: CachedKey -> bool)
    requires forall e, i :: 0 <= i < |ms| && keep(e) ==> !Belongs(e, ms[i].sources, ms[i].account)
    requires forall e, i :: 0 <= i < |ms| && e in CacheOf(ms[i].keys, ms[i].account) ==> !keep(e)
    ensures Filter(keep, MergeAll(c, ms)) == Filter(keep, c)
    decreases |ms|
  {
    if ms != [] {
      hide Belongs, CacheOf;
      var n := |ms| - 1;
      var m := ms[n];
      var prior := MergeAll(c, ms[..n]);
      OthersSurvive(c, ms[..n], keep);
      var found := CacheOf(m.keys, m.account);
      FilterAppend(keep, Filter(e => !Belongs(e, m.sources, m.account), prior), found);
      FilterTwice(keep, e => !Belongs(e, m.sources, m.account), prior);
      FilterNone(keep, found);
    }
  }

  /** In particular entries of no merged account, provenance or none. */
  lemma ForeignEntriesSurvive(c: seq<CachedKey>, ms: seq<SourceMerge>, foreign: CachedKey -> bool)
    requires forall e, i :: 0 <= i < |ms| && foreign(e) ==> e.provenance != Some(Provenance(ms[i].account))
    ensures Filter(foreign, MergeAll(c, ms)) == Filter(foreign, c)
  {
    OthersSurvive(c, ms, foreign);
  }

  lemma {:induction false} FilterTwice<T(!new)>(p: T -> bool, q: T -> bool, s: seq<T>)
    requires forall x :: p(x) ==> q(x)
    ensures Filter(p, Filter(q, s)) == Filter(p, s)
  {
    if s != [] {
      FilterTwice(p, q, s[1..]);
      if q(s[0]) {
        assert ([s[0]] + Filter(q, s[1..]))[1..] == Filter(q, s[1..]);
      } else {
        assert [] + Filter(q, s[1..]) == Filter(q, s[1..]);
      }
    }
  }

  lemma {:induction false} FilterAll<T(!new)>(p: T -> bool, s: seq<T>)
    requires forall x :: x in s ==> p(x)
    ensures Filter(p, s) == s
  {
    if s != [] {
      assert s == [s[0]] + s[1..];
      FilterAll(p, s[1..]);
    }
  }

  lemma {:induction false} FilterNone<T(!new)>(p: T -> bool, s: seq<T>)
    requires forall x :: x in s ==> !p(x)
    ensures Filter(p, s) == []
  {
    if s != [] {
      assert s[0] in s;
      FilterNone(p, s[1..]);
    }
  }
}
