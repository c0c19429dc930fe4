/**
 Decoding a manifest's tree: it inverts the encoding, and it does not depend on
 the order of entries in integer-keyed maps (crates/ahu/src/manifest.rs:120-612;
 section 4.2 of RFC 8949).
 */
module ManifestCodec {
  import opened Wrappers
  import opened Bytes
  import opened Manifest

  // ---- lookups in encoded maps --------------------------------------------------------

  lemma {:induction false} FindAppend(a: Entries, b: Entries, key: CborInt)
    ensures Find(a + b, key) == if Find(a, key).Some? then Find(a, key) else Find(b, key)
  {
    if a == [] {
      assert a + b == b;
    } else {
      assert (a + b)[1..] == a[1..] + b;
      FindAppend(a[1..], b, key);
    }
  }

  lemma {:induction false} FindKeyed(vs: seq<Value>, first: CborInt, key: CborInt)
    requires first + |vs| < U64_LIMIT
    ensures Find(Keyed(vs, first), key) == if first <= key < first + |vs| then Some(vs[key - first]) else None
  {
    if vs != [] {
      FindKeyed(vs[1..], first + 1, key);
      assert Keyed(vs, first)[1..] == Keyed(vs[1..], first + 1);
    }
  }

  lemma FindOpt(key: CborInt, v: Option<Value>, k: CborInt)
    ensures Find(Opt(key, v), k) == if k == key then v else None
  {
    if v.Some? {
      assert Opt(key, v)[1..] == [];
    }
  }

  // ---- the round trip, part by part -----------------------------------------------------

  lemma WindowRoundTrip(w: Window)
    ensures FromWindow(WindowEntries(w)) == Ok(w)
  {
    var vs := [Integer(w.producedAt), Integer(w.thisUpdateMin), Integer(w.nextUpdateMin), Integer(w.nextUpdateMax)];
    forall k {
      FindKeyed(vs, 1, k);
    }
  }

  lemma IntegrityRoundTrip(i: Integrity)
    ensures FromIntegrity(IntegrityEntries(i)) == Ok(i)
  {
    forall k {
      FindKeyed([ByteString(i.indexDigest), ByteString(i.dataDigest)], 1, k);
    }
  }

  lemma ContinuityRoundTrip(c: Continuity)
    ensures FromContinuity(ContinuityEntries(c)) == Ok(c)
  {
    var p, b, n := DigestValue(c.prevManifestDigest), DigestValue(c.baseManifestDigest), [Integer(c.chainLength)];
    forall k
      ensures Find(ContinuityEntries(c), k) ==
              if k == 1 then p else if k == 2 then b else if k == 3 then Some(n[0]) else None
    {
      FindOpt(1, p, k);
      FindOpt(2, b, k);
      FindKeyed(n, 3, k);
      FindAppend(Opt(1, p), Opt(2, b), k);
      FindAppend(Opt(1, p) + Opt(2, b), Keyed(n, 3), k);
    }
  }

  lemma ShardRoundTrip(s: Shard)
    ensures FromShard(Some(ShardEntries(s))) == Ok(Some(s))
  {
    forall k {
      FindKeyed([Integer(s.shardIndex), Integer(s.shardCount), Integer(s.shardFn)], 1, k);
    }
  }

  lemma CompressionRoundTrip(c: Compression)
    ensures FromCompression(Some(CompressionEntries(c))) == Ok(Some(c))
  {
    var vs, d := [Integer(if c.algorithm.Uncompressed? then 0 else 1)], DigestValue(c.dictionaryDigest);
    forall k
      ensures Find(CompressionEntries(c), k) == if k == 1 then Some(vs[0]) else if k == 2 then d else None
    {
      FindKeyed(vs, 1, k);
      FindOpt(2, d, k);
      FindAppend(Keyed(vs, 1), Opt(2, d), k);
    }
  }

  lemma {:induction false} ExtensionsRoundTrip(x: seq<(string, Value)>)
    ensures FromExtensions(ExtensionEntries(x)) == x
  {
    if x != [] {
      ExtensionsRoundTrip(x[1..]);
      assert ExtensionEntries(x)[1..] == ExtensionEntries(x[1..]);
      assert x == [x[0]] + x[1..];
    }
  }

  lemma {:induction false} AllBytesRoundTrip(bs: seq<Bytes>)
    ensures AllBytes(ByteStrings(bs)) == Ok(bs)
  {
    if bs != [] {
      AllBytesRoundTrip(bs[1..]);
      assert ByteStrings(bs)[1..] == ByteStrings(bs[1..]);
      assert bs == [bs[0]] + bs[1..];
    }
  }

  lemma ResponderIdRoundTrip(r: ResponderId)
    ensures FromResponderId(ResponderIdValue(r).entries) == Ok(r)
  {
    var vs := [Integer(if r.idType.ByName? then 0 else 1), ByteString(r.value)];
    FindKeyed(vs, 1, 1);
    FindKeyed(vs, 1, 2);
  }

  /** Entries under other keys leave the chain alone. */
  lemma {:induction false} ChainSkips(a: Entries, b: Entries, chain: Option<seq<Bytes>>)
    requires forall n :: 0 <= n < |a| ==> a[n].0 != Integer(6)
    ensures ChainFrom(a + b, chain) == ChainFrom(b, chain)
  {
    if a == [] {
      assert a + b == b;
    } else {
      assert (a + b)[1..] == a[1..] + b;
      ChainSkips(a[1..], b, chain);
    }
  }

  /** The three runs of entries a scope is written as. */
  function ScopeHead(s: CaScope): Entries {
    Keyed([ByteString(s.hashAlgorithm), ByteString(s.issuerNameHash), ByteString(s.issuerKeyHash),
           Integer(s.epoch), ResponderIdValue(s.responderId)], 1)
  }

  function ScopeChain(s: CaScope): Entries {
    Opt(6, match s.responderChain case None => None case Some(c) => Some(Array(ByteStrings(c))))
  }

  function ScopeTail(s: CaScope): Entries {
    Keyed([ByteString(s.signatureAlgorithm), Integer(if s.completeness.Partial? then 0 else 1)], 7)
  }

  lemma ChainRoundTrip(s: CaScope)
    ensures ChainFrom(ScopeEntries(s), None) == Ok(s.responderChain)
  {
    var a, c, t := ScopeHead(s), ScopeChain(s), ScopeTail(s);
    assert ScopeEntries(s) == a + (c + t);
    ChainSkips(a, c + t, None);
    assert t == t + [];
    ChainSkips(t, [], s.responderChain);
    if s.responderChain.None? {
      assert c + t == t;
    } else {
      AllBytesRoundTrip(s.responderChain.value);
      assert (c + t)[1..] == t;
    }
  }

  lemma ScopeFinds(s: CaScope, k: CborInt)
    ensures Find(ScopeEntries(s), k) ==
            if Find(ScopeHead(s), k).Some? then Find(ScopeHead(s), k)
            else if Find(ScopeChain(s), k).Some? then Find(ScopeChain(s), k) else Find(ScopeTail(s), k)
  {
    FindAppend(ScopeHead(s), ScopeChain(s), k);
    FindAppend(ScopeHead(s) + ScopeChain(s), ScopeTail(s), k);
  }

  lemma ScopeHeadFinds(s: CaScope)
    ensures var e := ScopeEntries(s);
            && Find(e, 1) == Some(ByteString(s.hashAlgorithm))
            && Find(e, 2) == Some(ByteString(s.issuerNameHash))
            && Find(e, 3) == Some(ByteString(s.issuerKeyHash))
            && Find(e, 4) == Some(Integer(s.epoch))
            && Find(e, 5) == Some(ResponderIdValue(s.responderId))
  {
    var head := [ByteString(s.hashAlgorithm), ByteString(s.issuerNameHash), ByteString(s.issuerKeyHash),
                 Integer(s.epoch), ResponderIdValue(s.responderId)];
    forall k | 1 <= k <= 5
      ensures Find(ScopeEntries(s), k) == Some(head[k - 1])
    {
      FindKeyed(head, 1, k);
      ScopeFinds(s, k);
    }
  }

  lemma ScopeTailFinds(s: CaScope)
    ensures var e := ScopeEntries(s);
            && Find(e, 7) == Some(ByteString(s.signatureAlgorithm))
            && Find(e, 8) == Some(Integer(if s.completeness.Partial? then 0 else 1))
  {
    var head := [ByteString(s.hashAlgorithm), ByteString(s.issuerNameHash), ByteString(s.issuerKeyHash),
                 Integer(s.epoch), ResponderIdValue(s.responderId)];
    var tail := [ByteString(s.signatureAlgorithm), Integer(if s.completeness.Partial? then 0 else 1)];
    forall k | 7 <= k <= 8
      ensures Find(ScopeEntries(s), k) == Some(tail[k - 7])
    {
      FindKeyed(head, 1, k);
      FindOpt(6, match s.responderChain case None => None case Some(c) => Some(Array(ByteStrings(c))), k);
      FindKeyed(tail, 7, k);
      ScopeFinds(s, k);
    }
  }

  lemma ScopeRoundTrip(s: CaScope)
    ensures FromScope(ScopeEntries(s)) == Ok(s)
  {
    ChainRoundTrip(s);
    ResponderIdRoundTrip(s.responderId);
    ScopeHeadFinds(s);
    ScopeTailFinds(s);
  }

  lemma {:induction false} ScopesDecode(vs: seq<Value>, ss: seq<CaScope>)
    requires |vs| == |ss|
    requires forall n :: 0 <= n < |vs| ==> vs[n].Map? && FromScope(vs[n].entries) == Ok(ss[n])
    ensures FromScopes(vs) == Ok(ss)
  {
    if ss != [] {
      ScopesDecode(vs[1..], ss[1..]);
      assert ss == [ss[0]] + ss[1..];
    }
  }

  lemma ScopesRoundTrip(ss: seq<CaScope>)
    ensures FromScopes(ScopeValues(ss)) == Ok(ss)
  {
    forall n | 0 <= n < |ss|
      ensures FromScope(ScopeValues(ss)[n].entries) == Ok(ss[n])
    {
      ScopeRoundTrip(ss[n]);
    }
    ScopesDecode(ScopeValues(ss), ss);
  }

  lemma RequiredFinds(m: Manifest)
    ensures var e := ToValue(m).entries;
            && Find(e, 1) == Some(Integer(m.formatVersion))
            && Find(e, 2) == Some(ByteString(m.bundleId))
            && Find(e, 3) == Some(Text(m.producerId))
            && Find(e, 4) == Some(Integer(m.createdAt))
            && Find(e, 5) == Some(Integer(if m.bundleType.Full? then 0 else 1))
            && Find(e, 6) == Some(Array(ScopeValues(m.caScopes)))
            && Find(e, 7) == Some(Map(WindowEntries(m.window)))
            && Find(e, 8) == Some(Map(IntegrityEntries(m.integrity)))
            && Find(e, 9) == Some(Integer(m.entryCount))
            && Find(e, 10) == Some(Map(ContinuityEntries(m.continuity)))
  {
    RequiredFind(m, 1);
    RequiredFind(m, 2);
    RequiredFind(m, 3);
    RequiredFind(m, 4);
    RequiredFind(m, 5);
    RequiredFind(m, 6);
    RequiredFind(m, 7);
    RequiredFind(m, 8);
    RequiredFind(m, 9);
    RequiredFind(m, 10);
  }

  lemma RequiredFind(m: Manifest, k: CborInt)
    requires 1 <= k <= 10
    ensures Find(ToValue(m).entries, k) == Some(RequiredValues(m)[k - 1])
  {
    FindKeyed(RequiredValues(m), 1, k);
    FindAppend(Keyed(RequiredValues(m), 1), OptionalEntries(m), k);
  }

  lemma OptionalFinds(m: Manifest)
    ensures Find(ToValue(m).entries, 11) == match m.shard case None => None case Some(s) => Some(Map(ShardEntries(s)))
    ensures Find(ToValue(m).entries, 12) ==
            match m.compression case None => None case Some(c) => Some(Map(CompressionEntries(c)))
    ensures Find(ToValue(m).entries, 13) ==
            match m.extensions case None => None case Some(x) => Some(Map(ExtensionEntries(x)))
  {
    var a: Option<Value> := match m.shard case None => None case Some(s) => Some(Map(ShardEntries(s)));
    var b: Option<Value> := match m.compression case None => None case Some(c) => Some(Map(CompressionEntries(c)));
    var c: Option<Value> := match m.extensions case None => None case Some(x) => Some(Map(ExtensionEntries(x)));
    forall k | 11 <= k <= 13
      ensures Find(ToValue(m).entries, k) == if k == 11 then a else if k == 12 then b else c
    {
      FindKeyed(RequiredValues(m), 1, k);
      FindAppend(Keyed(RequiredValues(m), 1), OptionalEntries(m), k);
      FindOpt(11, a, k);
      FindOpt(12, b, k);
      FindOpt(13, c, k);
      FindAppend(Opt(11, a), Opt(12, b), k);
      FindAppend(Opt(11, a) + Opt(12, b), Opt(13, c), k);
    }
  }

  lemma OptionalRoundTrip(m: Manifest)
    ensures FromTail(ToValue(m).entries) == Ok((m.shard, m.compression, m.extensions))
  {
    OptionalFinds(m);
    if m.shard.Some? {
      ShardRoundTrip(m.shard.value);
    }
    if m.compression.Some? {
      CompressionRoundTrip(m.compression.value);
    }
    if m.extensions.Some? {
      ExtensionsRoundTrip(m.extensions.value);
    }
  }

  lemma HeadDecodes(e: Entries, m: Manifest, scopes: seq<Value>)
    requires Find(e, 1) == Some(Integer(m.formatVersion)) && Find(e, 2) == Some(ByteString(m.bundleId))
    requires Find(e, 3) == Some(Text(m.producerId)) && Find(e, 4) == Some(Integer(m.createdAt))
    requires Find(e, 5) == Some(Integer(if m.bundleType.Full? then 0 else 1))
    requires Find(e, 6) == Some(Array(scopes)) && FromScopes(scopes) == Ok(m.caScopes)
    ensures FromHead(e) == Ok((m.formatVersion, m.bundleId, m.producerId, m.createdAt, m.bundleType, m.caScopes))
  {
  }

  lemma MiddleDecodes(e: Entries, m: Manifest, w: Entries, i: Entries, c: Entries)
    requires Find(e, 7) == Some(Map(w)) && FromWindow(w) == Ok(m.window)
    requires Find(e, 8) == Some(Map(i)) && FromIntegrity(i) == Ok(m.integrity)
    requires Find(e, 9) == Some(Integer(m.entryCount))
    requires Find(e, 10) == Some(Map(c)) && FromContinuity(c) == Ok(m.continuity)
    ensures FromMiddle(e) == Ok((m.window, m.integrity, m.entryCount, m.continuity))
  {
  }

  /** Decoding the encoded tree returns the manifest. */
  lemma RoundTrip(m: Manifest)
    ensures FromValue(ToValue(m)) == Ok(m)
  {
    RequiredFinds(m);
    ScopesRoundTrip(m.caScopes);
    WindowRoundTrip(m.window);
    IntegrityRoundTrip(m.integrity);
    ContinuityRoundTrip(m.continuity);
    OptionalRoundTrip(m);
    HeadDecodes(ToValue(m).entries, m, ScopeValues(m.caScopes));
    MiddleDecodes(ToValue(m).entries, m, WindowEntries(m.window), IntegrityEntries(m.integrity),
                  ContinuityEntries(m.continuity));
  }

  /** Equal trees come from equal manifests, which is what structural verification compares. */
  lemma NormalFormIsUnique(m: Manifest, n: Manifest)
    requires ToValue(m) == ToValue(n)
    ensures m == n
  {
    RoundTrip(m);
    RoundTrip(n);
  }

  // ---- independence of entry order ----------------------------------------------------

  /** An integer-keyed map with distinct keys. */
  ghost predicate IntKeyed(m: Entries) {
    && (forall a :: 0 <= a < |m| ==> m[a].0.Integer?)
    && (forall a, b :: 0 <= a < b < |m| ==> m[a].0 != m[b].0)
  }

  /** Integer-keyed maps that hold corresponding values under the same keys, at any depth. */
  ghost predicate Reordered(v: Value, w: Value)
    decreases v
  {
    || v == w
    || (&& v.Map? && w.Map? && IntKeyed(v.entries) && IntKeyed(w.entries)
        && (forall b :: 0 <= b < |w.entries| ==> Find(v.entries, w.entries[b].0.i).Some?)
        && (forall a :: 0 <= a < |v.entries| ==>
              && Find(w.entries, v.entries[a].0.i).Some?
              && Reordered(v.entries[a].1, Find(w.entries, v.entries[a].0.i).value)))
    || (&& v.Array? && w.Array? && |v.items| == |w.items|
        && forall a :: 0 <= a < |v.items| ==> Reordered(v.items[a], w.items[a]))
  }

  ghost predicate SameMaps(m: Entries, n: Entries) {
    Reordered(Map(m), Map(n))
  }

  lemma {:induction false} FindAt(m: Entries, a: nat, k: CborInt)
    requires a < |m| && m[a].0 == Integer(k)
    requires forall b :: 0 <= b < a ==> m[b].0 != m[a].0
    ensures Find(m, k) == Some(m[a].1)
  {
    if a > 0 {
      FindAt(m[1..], a - 1, k);
    }
  }

  lemma {:induction false} FindNone(m: Entries, k: CborInt)
    ensures Find(m, k).None? <==> forall a :: 0 <= a < |m| ==> m[a].0 != Integer(k)
  {
    if m != [] {
      FindNone(m[1..], k);
      assert forall a :: 1 <= a < |m| ==> m[a] == m[1..][a - 1];
    }
  }

  /** Any permutation of an integer-keyed map with distinct keys. */
  lemma PermutedMaps(m: Entries, n: Entries)
    requires IntKeyed(m) && IntKeyed(n) && multiset(m) == multiset(n)
    ensures SameMaps(m, n)
  {
    forall a | 0 <= a < |m|
      ensures Find(n, m[a].0.i) == Some(m[a].1)
    {
      assert m[a] in multiset(m);
      assert m[a] in n;
      var b :| 0 <= b < |n| && n[b] == m[a];
      FindAt(n, b, m[a].0.i);
    }
    forall b | 0 <= b < |n|
      ensures Find(m, n[b].0.i).Some?
    {
      assert n[b] in multiset(n);
      assert n[b] in m;
      FindNone(m, n[b].0.i);
    }
  }

  /** Permuted maps hold corresponding values under every key. */
  lemma FindReordered(m: Entries, n: Entries, k: CborInt)
    requires SameMaps(m, n)
    ensures Find(m, k).None? <==> Find(n, k).None?
    ensures Find(m, k).Some? ==> Reordered(Find(m, k).value, Find(n, k).value)
  {
    if m != n {
      var v, w := Map(m), Map(n);
      assert IntKeyed(v.entries) && IntKeyed(w.entries);
      FindNone(m, k);
      FindNone(n, k);
      if Find(m, k).Some? {
        var a :| 0 <= a < |m| && m[a].0 == Integer(k);
        FindAt(m, a, k);
        assert Reordered(v.entries[a].1, Find(w.entries, v.entries[a].0.i).value);
      }
    }
  }

  /** What the readers of scalar fields see. */
  ghost predicate SameScalars(x: Option<Value>, y: Option<Value>) {
    || (x.None? && y.None?)
    || (x.Some? && y.Some? && (x == y || (x.value.Map? && y.value.Map?) || (x.value.Array? && y.value.Array?)))
  }

  lemma FindsAgree(m: Entries, n: Entries, k: CborInt)
    requires SameMaps(m, n)
    ensures SameScalars(Find(m, k), Find(n, k))
  {
    FindReordered(m, n, k);
  }

  lemma GetsAgree(m: Entries, n: Entries, k: CborInt)
    requires SameScalars(Find(m, k), Find(n, k))
    ensures GetUint(m, k) == GetUint(n, k)
    ensures GetBytes(m, k) == GetBytes(n, k)
    ensures GetText(m, k) == GetText(n, k)
    ensures GetDigest(m, k) == GetDigest(n, k)
    ensures GetOptionalDigest(m, k) == GetOptionalDigest(n, k)
    ensures GetMap(m, k).Err? ==> GetMap(n, k) == GetMap(m, k)
    ensures GetMap(m, k).Ok? <==> GetMap(n, k).Ok?
    ensures GetOptionalMap(m, k).Some? <==> GetOptionalMap(n, k).Some?
    ensures GetArray(m, k).Err? ==> GetArray(n, k) == GetArray(m, k)
    ensures GetArray(m, k).Ok? <==> GetArray(n, k).Ok?
  {
  }

  lemma GetMapsAgree(m: Entries, n: Entries, k: CborInt)
    requires SameMaps(m, n)
    ensures SameScalars(Find(m, k), Find(n, k))
    ensures Find(m, k).Some? && Find(m, k).value.Map? ==> SameMaps(Find(m, k).value.entries, Find(n, k).value.entries)
    ensures Find(m, k).Some? && Find(m, k).value.Array? ==>
              Reordered(Array(Find(m, k).value.items), Array(Find(n, k).value.items))
  {
    FindReordered(m, n, k);
    if Find(m, k).Some? {
      var v, w := Find(m, k).value, Find(n, k).value;
      assert v.Map? ==> v == Map(v.entries) && w == Map(w.entries);
      assert v.Array? ==> v == Array(v.items) && w == Array(w.items);
    }
  }

  /** Readers of flat maps need only the scalars under keys 1 to 4. */
  lemma FlatAgrees(m: Entries, n: Entries)
    requires forall k :: 1 <= k <= 4 ==> SameScalars(Find(m, k), Find(n, k))
    ensures FromWindow(m) == FromWindow(n)
    ensures FromIntegrity(m) == FromIntegrity(n)
    ensures FromContinuity(m) == FromContinuity(n)
    ensures FromResponderId(m) == FromResponderId(n)
    ensures FromShard(Some(m)) == FromShard(Some(n))
    ensures FromCompression(Some(m)) == FromCompression(Some(n))
  {
    GetsAgree(m, n, 1);
    GetsAgree(m, n, 2);
    GetsAgree(m, n, 3);
    GetsAgree(m, n, 4);
  }

  lemma WindowAgrees(m: Entries, n: Entries)
    requires SameMaps(m, n)
    ensures FromWindow(m) == FromWindow(n)
    ensures FromIntegrity(m) == FromIntegrity(n)
    ensures FromContinuity(m) == FromContinuity(n)
    ensures FromResponderId(m) == FromResponderId(n)
    ensures FromShard(Some(m)) == FromShard(Some(n))
    ensures FromCompression(Some(m)) == FromCompression(Some(n))
  {
    forall k | 1 <= k <= 4
      ensures SameScalars(Find(m, k), Find(n, k))
    {
      FindsAgree(m, n, k);
    }
    FlatAgrees(m, n);
  }

  lemma {:induction false} AllBytesAgree(v: seq<Value>, w: seq<Value>)
    requires Reordered(Array(v), Array(w))
    ensures AllBytes(v) == AllBytes(w)
  {
    if v != w {
      assert Reordered(v[0], w[0]);
      forall a | 0 <= a < |v[1..]|
        ensures Reordered(v[1..][a], w[1..][a])
      {
        assert Reordered(v[a + 1], w[a + 1]);
      }
      AllBytesAgree(v[1..], w[1..]);
    }
  }

  /** With distinct keys the chain is whatever array lies under key 6. */
  lemma {:induction false} ChainIsFind(m: Entries, chain: Option<seq<Bytes>>)
    requires IntKeyed(m)
    ensures ChainFrom(m, chain) ==
            match Find(m, 6)
            case Some(Array(items)) => (match AllBytes(items) case Ok(c) => Ok(Some(c)) case Err(e) => Err(e))
            case _ => Ok(chain)
  {
    if m != [] {
      var t := m[1..];
      assert forall a :: 0 <= a < |t| ==> t[a] == m[a + 1];
      if m[0].0 == Integer(6) {
        FindNone(t, 6);
        if m[0].1.Array? && AllBytes(m[0].1.items).Ok? {
          ChainIsFind(t, Some(AllBytes(m[0].1.items).value));
        } else {
          ChainIsFind(t, chain);
        }
      } else {
        ChainIsFind(t, chain);
      }
    }
  }

  lemma ChainAgrees(m: Entries, n: Entries)
    requires SameMaps(m, n)
    ensures ChainFrom(m, None) == ChainFrom(n, None)
  {
    if m != n {
      ChainIsFind(m, None);
      ChainIsFind(n, None);
      FindReordered(m, n, 6);
      if Find(m, 6).Some? && Find(m, 6).value.Array? {
        AllBytesAgree(Find(m, 6).value.items, Find(n, 6).value.items);
      }
    }
  }

  lemma ScopeFieldsAgree(m: Entries, n: Entries)
    requires forall k :: 1 <= k <= 8 ==> SameScalars(Find(m, k), Find(n, k))
    requires ChainFrom(m, None) == ChainFrom(n, None)
    requires GetMap(m, 5).Ok? && GetMap(n, 5).Ok? ==>
               FromResponderId(GetMap(m, 5).value) == FromResponderId(GetMap(n, 5).value)
    ensures FromScope(m) == FromScope(n)
  {
    GetsAgree(m, n, 1);
    GetsAgree(m, n, 2);
    GetsAgree(m, n, 3);
    GetsAgree(m, n, 4);
    GetsAgree(m, n, 5);
    GetsAgree(m, n, 7);
    GetsAgree(m, n, 8);
  }

  lemma ScopeAgrees(m: Entries, n: Entries)
    requires SameMaps(m, n)
    ensures FromScope(m) == FromScope(n)
  {
    forall k | 1 <= k <= 8
      ensures SameScalars(Find(m, k), Find(n, k))
    {
      FindsAgree(m, n, k);
    }
    GetMapsAgree(m, n, 5);
    if GetMap(m, 5).Ok? && GetMap(n, 5).Ok? {
      WindowAgrees(GetMap(m, 5).value, GetMap(n, 5).value);
    }
    ChainAgrees(m, n);
    ScopeFieldsAgree(m, n);
  }

  lemma {:induction false} ScopesAgree(v: seq<Value>, w: seq<Value>)
    requires Reordered(Array(v), Array(w))
    ensures FromScopes(v) == FromScopes(w)
  {
    if v != w {
      assert Reordered(v[0], w[0]);
      forall a | 0 <= a < |v[1..]|
        ensures Reordered(v[1..][a], w[1..][a])
      {
        assert Reordered(v[a + 1], w[a + 1]);
      }
      ScopesAgree(v[1..], w[1..]);
      if v[0].Map? {
        ScopeAgrees(v[0].entries, w[0].entries);
      }
    }
  }

  lemma {:induction false} NoTextKeys(m: Entries)
    requires IntKeyed(m)
    ensures FromExtensions(m) == []
  {
    if m != [] {
      assert forall a :: 0 <= a < |m[1..]| ==> m[1..][a] == m[a + 1];
      NoTextKeys(m[1..]);
    }
  }

  /** The optional parts decode alike. */
  ghost predicate SameOptionals(m: Entries, n: Entries) {
    && FromShard(GetOptionalMap(m, 11)) == FromShard(GetOptionalMap(n, 11))
    && FromCompression(GetOptionalMap(m, 12)) == FromCompression(GetOptionalMap(n, 12))
    && (GetOptionalMap(m, 13).Some? <==> GetOptionalMap(n, 13).Some?)
    && (GetOptionalMap(m, 13).Some? ==>
          FromExtensions(GetOptionalMap(m, 13).value) == FromExtensions(GetOptionalMap(n, 13).value))
  }

  lemma ExtensionsAgree(m: Entries, n: Entries)
    requires SameMaps(m, n)
    ensures FromExtensions(m) == FromExtensions(n)
  {
    if m != n {
      NoTextKeys(m);
      NoTextKeys(n);
    }
  }

  lemma OptionalsAgree(m: Entries, n: Entries)
    requires SameMaps(m, n)
    ensures SameOptionals(m, n)
  {
    GetMapsAgree(m, n, 11);
    GetMapsAgree(m, n, 12);
    GetMapsAgree(m, n, 13);
    if GetOptionalMap(m, 11).Some? {
      WindowAgrees(GetOptionalMap(m, 11).value, GetOptionalMap(n, 11).value);
    }
    if GetOptionalMap(m, 12).Some? {
      WindowAgrees(GetOptionalMap(m, 12).value, GetOptionalMap(n, 12).value);
    }
    if GetOptionalMap(m, 13).Some? {
      ExtensionsAgree(GetOptionalMap(m, 13).value, GetOptionalMap(n, 13).value);
    }
  }

  /** The nested required parts decode alike. */
  ghost predicate SameNested(m: Entries, n: Entries) {
    && (GetArray(m, 6).Ok? && GetArray(n, 6).Ok? ==>
          FromScopes(GetArray(m, 6).value) == FromScopes(GetArray(n, 6).value))
    && (GetMap(m, 7).Ok? && GetMap(n, 7).Ok? ==> FromWindow(GetMap(m, 7).value) == FromWindow(GetMap(n, 7).value))
    && (GetMap(m, 8).Ok? && GetMap(n, 8).Ok? ==> FromIntegrity(GetMap(m, 8).value) == FromIntegrity(GetMap(n, 8).value))
    && (GetMap(m, 10).Ok? && GetMap(n, 10).Ok? ==>
          FromContinuity(GetMap(m, 10).value) == FromContinuity(GetMap(n, 10).value))
  }

  lemma NestedMapAgrees(m: Entries, n: Entries, k: CborInt)
    requires SameMaps(m, n) && GetMap(m, k).Ok? && GetMap(n, k).Ok?
    ensures FromWindow(GetMap(m, k).value) == FromWindow(GetMap(n, k).value)
    ensures FromIntegrity(GetMap(m, k).value) == FromIntegrity(GetMap(n, k).value)
    ensures FromContinuity(GetMap(m, k).value) == FromContinuity(GetMap(n, k).value)
  {
    GetMapsAgree(m, n, k);
    WindowAgrees(GetMap(m, k).value, GetMap(n, k).value);
  }

  lemma NestedAgree(m: Entries, n: Entries)
    requires SameMaps(m, n)
    ensures SameNested(m, n)
  {
    if GetArray(m, 6).Ok? && GetArray(n, 6).Ok? {
      GetMapsAgree(m, n, 6);
      ScopesAgree(GetArray(m, 6).value, GetArray(n, 6).value);
    }
    if GetMap(m, 7).Ok? && GetMap(n, 7).Ok? {
      NestedMapAgrees(m, n, 7);
    }
    if GetMap(m, 8).Ok? && GetMap(n, 8).Ok? {
      NestedMapAgrees(m, n, 8);
    }
    if GetMap(m, 10).Ok? && GetMap(n, 10).Ok? {
      NestedMapAgrees(m, n, 10);
    }
  }

  lemma HeadAgrees(m: Entries, n: Entries)
    requires forall k :: 1 <= k <= 6 ==> SameScalars(Find(m, k), Find(n, k))
    requires GetArray(m, 6).Ok? && GetArray(n, 6).Ok? ==>
               FromScopes(GetArray(m, 6).value) == FromScopes(GetArray(n, 6).value)
    ensures FromHead(m) == FromHead(n)
  {
    GetsAgree(m, n, 1);
    GetsAgree(m, n, 2);
    GetsAgree(m, n, 3);
    GetsAgree(m, n, 4);
    GetsAgree(m, n, 5);
    GetsAgree(m, n, 6);
  }

  lemma MiddleAgrees(m: Entries, n: Entries)
    requires forall k :: 7 <= k <= 10 ==> SameScalars(Find(m, k), Find(n, k))
    requires SameNested(m, n)
    ensures FromMiddle(m) == FromMiddle(n)
  {
    GetsAgree(m, n, 7);
    GetsAgree(m, n, 8);
    GetsAgree(m, n, 9);
    GetsAgree(m, n, 10);
  }

  /** Decoding, and the error when it fails, is unchanged by permuting integer-keyed maps. */
  lemma DecodingIgnoresOrder(v: Value, w: Value)
    requires Reordered(v, w)
    ensures FromValue(v) == FromValue(w)
  {
    if v.Map? && w.Map? {
      var m, n := v.entries, w.entries;
      assert v == Map(m) && w == Map(n);
      forall k | 1 <= k <= 10
        ensures SameScalars(Find(m, k), Find(n, k))
      {
        FindsAgree(m, n, k);
      }
      NestedAgree(m, n);
      OptionalsAgree(m, n);
      HeadAgrees(m, n);
      MiddleAgrees(m, n);
    }
  }

  // ---- codes --------------------------------------------------------------------------------

  /** What a code decodes to is what it is written for, so every other code is refused. */
  lemma CodesAreRead(m: Entries)
    ensures FromResponderId(m).Ok? ==>
              GetUint(m, 1) == Ok(match FromResponderId(m).value.idType case ByName => 0 case ByKey => 1)
    ensures FromScope(m).Ok? ==>
              GetUint(m, 8) == Ok(if FromScope(m).value.completeness.Partial? then 0 else 1)
    ensures FromHead(m).Ok? ==> GetUint(m, 5) == Ok(match FromHead(m).value.4 case Full => 0 case Delta => 1)
    ensures FromCompression(Some(m)).Ok? ==>
              && FromCompression(Some(m)).value.Some?
              && GetUint(m, 1)
              == Ok(match FromCompression(Some(m)).value.value.algorithm case Uncompressed => 0 case Zstd => 1)
  {
  }
}
