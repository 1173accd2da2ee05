/** The response cache: reads, writes and the bulk write of embeddings, over the in-memory
    store. */
module ResponseCache {
  import opened CacheKey
  import opened Options
  import opened Sequences
  import opened InMemoryCache
  import opened CacheRuns

  // ---------- requests ----------

  /** The nested `litellm_params` dictionary, an object that calls share. */
  class LitellmParams {
    var presetCacheKey: Option<string>

    constructor (preset: Option<string>)
      ensures presetCacheKey == preset
    {
      presetCacheKey := preset;
    }
  }

  /** A dictionary entry that may be missing or hold None. */
  datatype Field = Missing | Null | Given(value: real)

  /** The request's `cache` dictionary. */
  datatype Controls = Controls(ttl: Field, namespace: string, sMaxage: Field, sMaxAge: Field, useCache: bool)

  /** Keyword arguments of a call: the ordered parameters that may enter the key text, and
      what else the cache reads. */
  datatype Kwargs = Kwargs(
    params: seq<Kwarg>,
    controls: Controls,
    redisNamespace: string,
    litellmParams: LitellmParams?,
    cacheKey: Option<string>,
    ttl: Option<real>)

  datatype Mode = DefaultOn | DefaultOff

  /** `text` is Python's `str` of a number. */
  datatype Config = Config(
    rules: ParamRules, hash: string -> string, text: real -> string,
    namespace: string, mode: Mode, ttl: Option<real>)

  predicate ShouldUseCache(cfg: Config, kw: Kwargs) {
    cfg.mode == DefaultOn || kw.controls.useCache
  }

  // ---------- keys ----------

  /** The key computed from the request alone. */
  function FreshKey(cfg: Config, kw: Kwargs): string {
    AddNamespace(NamespaceOf(cfg, kw), DigestOf(cfg, kw))
  }

  /** The key get_cache_key returns: the one memoised in the shared dictionary, or a fresh
      one. */
  function KeyFor(cfg: Config, kw: Kwargs): string
    reads kw.litellmParams
  {
    if kw.litellmParams != null && kw.litellmParams.presetCacheKey.Some?
    then kw.litellmParams.presetCacheKey.value
    else FreshKey(cfg, kw)
  }

  method GetCacheKey(cfg: Config, kw: Kwargs) returns (key: string)
    modifies kw.litellmParams
    ensures key == old(KeyFor(cfg, kw))
    ensures kw.litellmParams != null ==> kw.litellmParams.presetCacheKey == Some(key)
    ensures var preset := if kw.litellmParams == null then None else old(kw.litellmParams.presetCacheKey);
      var namespace := if kw.controls.namespace != "" then kw.controls.namespace
                       else if kw.redisNamespace != "" then kw.redisNamespace else cfg.namespace;
      key == if preset.Some? then preset.value
             else (if namespace == "" then "" else namespace + ":") + cfg.hash(RequestText(cfg.rules, kw.params))
  {
    FreshKeyText(cfg, kw);
    if kw.litellmParams != null && kw.litellmParams.presetCacheKey.Some? {
      return kw.litellmParams.presetCacheKey.value;
    }
    var text := BuildKeyText(cfg.rules, kw.params);
    key := AddNamespace(FirstTruthy(kw.controls.namespace, kw.redisNamespace, cfg.namespace), cfg.hash(text));
    if kw.litellmParams != null {
      kw.litellmParams.presetCacheKey := Some(key);
    }
  }

  /** A computed key, source by source: the namespace is the request's own, else its metadata's,
      else the cache's; without one the key is the bare digest of the text. */
  lemma FreshKeyText(cfg: Config, kw: Kwargs)
    ensures var namespace := if kw.controls.namespace != "" then kw.controls.namespace
                             else if kw.redisNamespace != "" then kw.redisNamespace else cfg.namespace;
      FreshKey(cfg, kw)
      == (if namespace == "" then "" else namespace + ":") + cfg.hash(RequestText(cfg.rules, kw.params))
  {
    assert "" + DigestOf(cfg, kw) == DigestOf(cfg, kw);
  }

  /** The key a read or a write uses. */
  function CallKey(cfg: Config, kw: Kwargs): string
    reads kw.litellmParams
  {
    if kw.cacheKey.Some? then kw.cacheKey.value else KeyFor(cfg, kw)
  }

  method GetCallKey(cfg: Config, kw: Kwargs) returns (key: string)
    modifies kw.litellmParams
    ensures key == old(CallKey(cfg, kw)) == CallKey(cfg, kw)
    ensures key == if kw.cacheKey.Some? then kw.cacheKey.value else old(KeyFor(cfg, kw))
    ensures kw.cacheKey.Some? && kw.litellmParams != null ==> unchanged(kw.litellmParams)
  {
    if kw.cacheKey.Some? {
      return kw.cacheKey.value;
    }
    key := GetCacheKey(cfg, kw);
  }

  // ---------- ages ----------

  /** `None` is no limit. The synchronous read takes the first of the two spellings that is
      neither missing, None nor zero. */
  function SyncMaxAge(c: Controls): Option<real> {
    if c.sMaxage.Given? && c.sMaxage.value != 0.0 then Some(c.sMaxage.value)
    else if c.sMaxAge.Given? && c.sMaxAge.value != 0.0 then Some(c.sMaxAge.value)
    else None
  }

  /** The asynchronous read takes `s-max-age` if present, else `s-maxage`. */
  function AsyncMaxAge(c: Controls): Option<real> {
    var field := if c.sMaxAge != Missing then c.sMaxAge else c.sMaxage;
    if field.Given? then Some(field.value) else None
  }

  predicate Limits(f: Field) {
    f.Given? && f.value != 0.0
  }

  /** The two reads apply the same age limit exactly when no spelling holds zero that the
      asynchronous read would obey, and the spelling it ignores does not limit. */
  lemma ReadsAgreeOnAge(c: Controls)
    ensures SyncMaxAge(c) == AsyncMaxAge(c) <==>
      && (c.sMaxAge == Missing ==> c.sMaxage != Given(0.0))
      && (c.sMaxAge == Null ==> !Limits(c.sMaxage))
      && (c.sMaxAge.Given? ==> if Limits(c.sMaxage) then c.sMaxage == c.sMaxAge else Limits(c.sMaxAge))
  {
  }

  /** Each read's age limit, spelling by spelling. */
  lemma AgeLimits(c: Controls)
    ensures Limits(c.sMaxage) ==> SyncMaxAge(c) == Some(c.sMaxage.value)
    ensures !Limits(c.sMaxage) && Limits(c.sMaxAge) ==> SyncMaxAge(c) == Some(c.sMaxAge.value)
    ensures !Limits(c.sMaxage) && !Limits(c.sMaxAge) ==> SyncMaxAge(c) == None
    ensures c.sMaxAge.Given? ==> AsyncMaxAge(c) == Some(c.sMaxAge.value)
    ensures c.sMaxAge == Null ==> AsyncMaxAge(c) == None
    ensures c.sMaxAge == Missing && c.sMaxage.Given? ==> AsyncMaxAge(c) == Some(c.sMaxage.value)
    ensures c.sMaxAge == Missing && !c.sMaxage.Given? ==> AsyncMaxAge(c) == None
  {
  }

  datatype CachedData<+R> = CachedData(timestamp: real, response: R)

  /** _get_cache_logic for a stored entry: nothing if it is older than the limit. */
  function Serve<R>(data: CachedData<R>, maxAge: Option<real>, now: real): Option<R> {
    if maxAge.Some? && now - data.timestamp > maxAge.value then None else Some(data.response)
  }

  // ---------- namespaces ----------

  /** Whether a key lies in a namespace whose digests have length `n`; "" is no namespace. */
  predicate InNamespace(key: string, namespace: string, n: nat) {
    if namespace == "" then |key| == n
    else |key| == |namespace| + 1 + n && key[..|namespace| + 1] == namespace + ":"
  }

  lemma NamespacesAreDisjoint(key: string, a: string, b: string, n: nat)
    requires a != b && InNamespace(key, a, n)
    ensures !InNamespace(key, b, n)
  {
    assert (a + ":")[..|a|] == a && (b + ":")[..|b|] == b;
  }

  /** Requests in different namespaces never observe each other as long as no write finds the
      store full: whatever else is done, a read in a namespace finds what it would find if
      only the operations of that namespace had been done. */
  lemma NamespacesAreIsolated<R(!new)>(l: Limits, states: seq<Store<CachedData<R>>>, ops: seq<Op<CachedData<R>>>,
                                       n: nat, namespace: string, digest: string,
                                       alone: seq<Store<CachedData<R>>>, now: real)
    requires Run(l, states, ops) && n <= |ops| && states[0] == Store(map[], map[], multiset{})
    requires forall i :: 0 <= i < n ==> !ops[i].Flush? && !FullWrite(l, states[i], ops[i])
    requires var own := Own((k: string) => InNamespace(k, namespace, |digest|), ops, n);
      Run(l, alone, own) && alone[0] == states[0]
    ensures var key := AddNamespace(namespace, digest);
      var own := Own((k: string) => InNamespace(k, namespace, |digest|), ops, n);
      Answer(states[n], key, now) == Answer(alone[|own|], key, now)
  {
    var mine := (k: string) => InNamespace(k, namespace, |digest|);
    var own := Own(mine, ops, n);
    assert own == Own((k: string) => InNamespace(k, namespace, |digest|), ops, n);
    assert mine(AddNamespace(namespace, digest));
    OthersDoNotInterfere(l, mine, states, ops, n, alone);
  }

  /** A read never finds another namespace's response, full store or not: what it finds is the
      value of the last accepted write under its key, and a key of the namespace is in no
      other one. */
  lemma ReadsAreOwnWrites<R(!new)>(l: Limits, states: seq<Store<CachedData<R>>>, ops: seq<Op<CachedData<R>>>, n: nat,
                                   namespace: string, digest: string, other: string, now: real)
    requires Run(l, states, ops) && n <= |ops| && states[0] == Store(map[], map[], multiset{})
    ensures var key := AddNamespace(namespace, digest);
      && (Answer(states[n], key, now).Some? ==> Latest(l, ops, key, n) == Answer(states[n], key, now))
      && (namespace != other ==> !InNamespace(key, other, |digest|))
  {
    var key := AddNamespace(namespace, digest);
    HistoryDecides(l, states, ops, key, n, now);
    assert InNamespace(key, namespace, |digest|);
    if namespace != other {
      NamespacesAreDisjoint(key, namespace, other, |digest|);
    }
  }

  /** One operation in another namespace changes what a read finds if and only if it is a write
      that finds the store full and evicts an item that the read would have found. */
  lemma NamespacesInterfereIff<R(!new)>(l: Limits, s: Store<CachedData<R>>, op: Op<CachedData<R>>,
                                        s': Store<CachedData<R>>, namespace: string, digest: string,
                                        other: string, now: real)
    requires Consistent(s) && Step(l, s, op, s') && !op.Flush?
    requires namespace != other && InNamespace(op.key, other, |digest|)
    ensures var key := AddNamespace(namespace, digest);
      Answer(s', key, now) != Answer(s, key, now) <==> Answer(s, key, now).Some? && EvictsBySize(l, s, op, key)
  {
    NamespacesAreDisjoint(op.key, other, namespace, |digest|);
    InterferesIff(l, s, op, s', AddNamespace(namespace, digest), now);
  }

  /** The namespace of a request: its own, else its metadata's, else the cache's. */
  function NamespaceOf(cfg: Config, kw: Kwargs): string {
    FirstTruthy(kw.controls.namespace, kw.redisNamespace, cfg.namespace)
  }

  /** The text of a request's parameters. */
  function TextOf(cfg: Config, kw: Kwargs): string {
    RequestText(cfg.rules, kw.params)
  }

  function DigestOf(cfg: Config, kw: Kwargs): string {
    cfg.hash(TextOf(cfg, kw))
  }

  /** Two requests, even to two caches over one store, share a key if and only if they share
      their namespace, wherever each takes it from, and their digest. */
  lemma NamespacesSeparateRequests(cfg: Config, kw: Kwargs, cfg': Config, kw': Kwargs)
    requires |DigestOf(cfg, kw)| == |DigestOf(cfg', kw')|
    ensures FreshKey(cfg, kw) == FreshKey(cfg', kw')
        <==> NamespaceOf(cfg, kw) == NamespaceOf(cfg', kw') && DigestOf(cfg, kw) == DigestOf(cfg', kw')
  {
    NamespacedKeysDiffer(NamespaceOf(cfg, kw), DigestOf(cfg, kw), NamespaceOf(cfg', kw'), DigestOf(cfg', kw'));
  }

  // ---------- embedding requests ----------

  /** Sets a keyword argument: in place if it is there, else at the end. */
  function SetParam(params: seq<Kwarg>, name: string, value: string): seq<Kwarg> {
    if params == [] then [Kwarg(name, Some(value))]
    else if params[0].name == name then [Kwarg(name, Some(value))] + params[1..]
    else [params[0]] + SetParam(params[1..], name, value)
  }

  /** The request for a single input. */
  function WithInput(kw: Kwargs, input: string): Kwargs {
    WithParam(kw, "input", input)
  }

  /** Bookkeeping arguments that the key text ignores. */
  predicate Ignored(rules: ParamRules, name: string) {
    name !in rules.api && (name in rules.litellm || !rules.providerSpecific) && name != "input"
  }

  lemma {:induction false} IgnoredAlone(rules: ParamRules, params: seq<Kwarg>, name: string, value: string)
    requires Ignored(rules, name)
    ensures Selected(rules, SetParam(params, name, value)) == Selected(rules, params)
  {
    if params == [] {
      assert SetParam(params, name, value)[1..] == [];
    } else if params[0].name != name {
      IgnoredAlone(rules, params[1..], name, value);
      assert SetParam(params, name, value)[1..] == SetParam(params[1..], name, value);
    }
  }

  lemma IgnoredParam(rules: ParamRules, params: seq<Kwarg>, name: string, value: string, input: string)
    requires Ignored(rules, name)
    ensures RequestText(rules, SetParam(SetParam(params, name, value), "input", input))
         == RequestText(rules, SetParam(params, "input", input))
  {
    SelectIgnoresParam(rules, params, name, value, input);
  }

  lemma {:induction false} SelectIgnoresParam(rules: ParamRules, params: seq<Kwarg>, name: string, value: string,
                                              input: string)
    requires Ignored(rules, name)
    ensures Selected(rules, SetParam(SetParam(params, name, value), "input", input))
         == Selected(rules, SetParam(params, "input", input))
  {
    var more := SetParam(params, name, value);
    if params == [] {
      assert more[1..] == [];
      assert SetParam(more, "input", input)[1..] == SetParam([], "input", input);
    } else if params[0].name == "input" {
      IgnoredAlone(rules, params[1..], name, value);
      assert more[1..] == SetParam(params[1..], name, value);
    } else if params[0].name != name {
      SelectIgnoresParam(rules, params[1..], name, value, input);
      assert more[1..] == SetParam(params[1..], name, value);
    }
  }

  /** Setting a parameter leaves the others as they are: it takes the place of the first one of
      its name, or comes last. */
  lemma {:induction false} SetParamSplits(params: seq<Kwarg>, name: string)
    returns (front: seq<Kwarg>, was: seq<Kwarg>, back: seq<Kwarg>)
    ensures params == front + was + back && |was| <= 1 && (was == [] ==> back == [])
    ensures (forall k :: k in was ==> k.name == name) && (forall k :: k in front ==> k.name != name)
    ensures forall v :: SetParam(params, name, v) == front + [Kwarg(name, Some(v))] + back
  {
    if params == [] {
      front, was, back := [], [], [];
    } else if params[0].name == name {
      front, was, back := [], [params[0]], params[1..];
    } else {
      front, was, back := SetParamSplits(params[1..], name);
      front := [params[0]] + front;
    }
  }

  /** The request with one parameter set. */
  function WithParam(kw: Kwargs, name: string, value: string): Kwargs {
    kw.(params := SetParam(kw.params, name, value))
  }

  /** Requests that differ in one parameter have different keys, as far as the hash tells their
      texts apart: for every API parameter, and for every parameter in neither list if
      provider-specific parameters count. */
  lemma ParametersHaveTheirOwnKeys(cfg: Config, kw: Kwargs, name: string, a: string, b: string)
    requires name in cfg.rules.api || (name !in cfg.rules.litellm && cfg.rules.providerSpecific)
    requires |DigestOf(cfg, WithParam(kw, name, a))| == |DigestOf(cfg, WithParam(kw, name, b))|
    requires DigestOf(cfg, WithParam(kw, name, a)) == DigestOf(cfg, WithParam(kw, name, b))
         ==> TextOf(cfg, WithParam(kw, name, a)) == TextOf(cfg, WithParam(kw, name, b))
    ensures FreshKey(cfg, WithParam(kw, name, a)) == FreshKey(cfg, WithParam(kw, name, b)) <==> a == b
  {
    NamespacesSeparateRequests(cfg, WithParam(kw, name, a), cfg, WithParam(kw, name, b));
    var front, was, back := SetParamSplits(kw.params, name);
    ParameterReachesText(cfg.rules, front, name, a, b, back);
  }

  /** So single-input requests that differ in their input have different keys. */
  lemma InputsHaveTheirOwnKeys(cfg: Config, kw: Kwargs, a: string, b: string)
    requires "input" in cfg.rules.api
    requires |DigestOf(cfg, WithInput(kw, a))| == |DigestOf(cfg, WithInput(kw, b))|
    requires DigestOf(cfg, WithInput(kw, a)) == DigestOf(cfg, WithInput(kw, b))
         ==> TextOf(cfg, WithInput(kw, a)) == TextOf(cfg, WithInput(kw, b))
    ensures FreshKey(cfg, WithInput(kw, a)) == FreshKey(cfg, WithInput(kw, b)) <==> a == b
  {
    ParametersHaveTheirOwnKeys(cfg, kw, "input", a, b);
  }

  /** The keys under which a bulk write stores the results for `items`: without a shared
      dictionary, each input's own; with one, the first key for all of them. */
  function PipelineKeys(cfg: Config, kw: Kwargs, items: seq<string>): (r: seq<string>)
    reads kw.litellmParams
    ensures |r| == |items|
  {
    if kw.litellmParams == null then seq(|items|, i requires 0 <= i < |items| => FreshKey(cfg, WithInput(kw, items[i])))
    else if items == [] then []
    else
      var shared := KeyFor(cfg, WithInput(kw, items[0]));
      seq(|items|, _ => shared)
  }

  /** A bulk write stores every result under the key that a request for its input alone
      computes exactly when there is no shared dictionary, or there is one and all inputs
      are the same. */
  lemma PipelineKeysAreOwnKeys(cfg: Config, kw: Kwargs, items: seq<string>)
    requires "input" in cfg.rules.api
    requires kw.litellmParams != null ==> kw.litellmParams.presetCacheKey == None
    requires forall a, b :: a in items && b in items ==>
      var s, t := TextOf(cfg, WithInput(kw, a)), TextOf(cfg, WithInput(kw, b));
      |cfg.hash(s)| == |cfg.hash(t)| && (cfg.hash(s) == cfg.hash(t) ==> s == t)
    ensures (forall i :: 0 <= i < |items| ==> PipelineKeys(cfg, kw, items)[i] == FreshKey(cfg, WithInput(kw, items[i])))
        <==> (kw.litellmParams == null || forall i :: 0 <= i < |items| ==> items[i] == items[0])
  {
    var keys := PipelineKeys(cfg, kw, items);
    if kw.litellmParams != null {
      forall i | 0 <= i < |items|
        ensures keys[i] == FreshKey(cfg, WithInput(kw, items[i])) <==> items[i] == items[0]
      {
        assert items[0] in items && items[i] in items;
        InputsHaveTheirOwnKeys(cfg, kw, items[0], items[i]);
        assert keys[i] == FreshKey(cfg, WithInput(kw, items[0]));
      }
    }
  }

  /** One result of a bulk write, with the time it is stamped with. */
  datatype Event<+R> = Event(key: string, data: CachedData<R>)

  function Events<R>(keys: seq<string>, data: seq<R>, stamp: nat -> real): (r: seq<Event<R>>)
    requires |keys| <= |data|
    ensures |r| == |keys|
  {
    seq(|keys|, i requires 0 <= i < |keys| => Event(keys[i], CachedData(stamp(i), data[i])))
  }

  /** The store operations of a bulk write; `clock(i)` is read for entry i. */
  function BulkOps<R>(events: seq<Event<R>>, ttl: Option<real>, fits: CachedData<R> -> bool, clock: nat -> Clock)
    : (r: seq<Op<CachedData<R>>>)
    ensures |r| == |events|
  {
    seq(|events|, i requires 0 <= i < |events| =>
      Set(events[i].key, events[i].data, ttl, fits(events[i].data), clock(i)))
  }

  /** The two requests compute the same key for every single input. */
  ghost predicate SameKeys(cfg: Config, a: Kwargs, b: Kwargs) {
    forall v :: FreshKey(cfg, WithInput(a, v)) == FreshKey(cfg, WithInput(b, v))
  }

  /** In the loop of the bulk write, the key of the next item: the arguments may have changed,
      but not what they say of keys. */
  lemma NextPipelineKey(cfg: Config, kw: Kwargs, kwargs: Kwargs, items: seq<string>, keys: seq<string>, idx: nat)
    requires idx < |items| == |keys| && kwargs.litellmParams == kw.litellmParams && SameKeys(cfg, kwargs, kw)
    requires kw.litellmParams == null ==> keys[idx] == FreshKey(cfg, WithInput(kw, items[idx]))
    requires kw.litellmParams != null ==> keys[idx] == keys[0]
    requires kw.litellmParams != null && idx > 0 ==> kw.litellmParams.presetCacheKey == Some(keys[0])
    requires kw.litellmParams != null && idx == 0 ==> keys[0] == KeyFor(cfg, WithInput(kw, items[0]))
    ensures KeyFor(cfg, WithInput(kwargs, items[idx])) == keys[idx]
  {
    assert FreshKey(cfg, WithInput(kwargs, items[idx])) == FreshKey(cfg, WithInput(kw, items[idx]));
  }

  // ---------- the object ----------

  /** Time to live of a write: the request's control if it has one (None asks for the store's
      default), else the cache's own, else one among the keyword arguments. */
  function WriteTtl(cfg: Config, kw: Kwargs): Option<real> {
    match kw.controls.ttl
    case Given(v) => Some(v)
    case Null => None
    case Missing => if cfg.ttl.Some? then cfg.ttl else kw.ttl
  }

  class Cache<R(!new)> {
    const cfg: Config
    const backend: InMemoryCache<CachedData<R>>
    /** The store's size check. */
    const fits: CachedData<R> -> bool
    /** Every operation on the store, in order, and the states it passed through. */
    ghost var ops: seq<Op<CachedData<R>>>
    ghost var states: seq<Store<CachedData<R>>>

    ghost predicate Valid()
      reads this, backend
    {
      && backend.Valid()
      && Run(backend.Bounds(), states, ops)
      && states[0] == Store(map[], map[], multiset{}) && states[|ops|] == backend.State()
    }

    constructor (cfg: Config, backend: InMemoryCache<CachedData<R>>, fits: CachedData<R> -> bool)
      requires backend.Valid() && backend.State() == Store(map[], map[], multiset{})
      ensures Valid() && ops == []
      ensures this.cfg == cfg && this.backend == backend && this.fits == fits
    {
      this.cfg, this.backend, this.fits := cfg, backend, fits;
      ops, states := [], [backend.State()];
    }

    /** What the whole history says a read of `key` finds. */
    ghost function Remembered(key: string): Option<Slot<CachedData<R>>>
      requires |states| == |ops| + 1
      reads this
    {
      SlotAfter(backend.Bounds(), states, ops, key, |ops|)
    }

    ghost method Record(op: Op<CachedData<R>>)
      requires Run(backend.Bounds(), states, ops)
      requires states[0] == Store(map[], map[], multiset{})
      requires backend.Valid() && Step(backend.Bounds(), states[|ops|], op, backend.State())
      modifies this
      ensures Valid() && ops == old(ops) + [op]
    {
      RunOneMore(backend.Bounds(), states, ops, op, backend.State());
      ops, states := ops + [op], states + [backend.State()];
    }

    /** Hands one entry to the store. */
    method Write(key: string, data: CachedData<R>, ttl: Option<real>, t: Clock)
      requires Valid()
      modifies this, backend
      ensures Valid() && ops == old(ops) + [Set(key, data, ttl, fits(data), t)]
    {
      backend.SetCache(key, data, ttl, fits(data), t);
      Record(Set(key, data, ttl, fits(data), t));
    }

    method AddCache(result: R, kw: Kwargs, stamp: real, t: Clock)
      requires Valid()
      modifies this, backend, kw.litellmParams
      ensures Valid()
      ensures var data := CachedData(stamp, result);
        ops == old(ops) + if !ShouldUseCache(cfg, kw) then []
                          else [Set(old(CallKey(cfg, kw)), data, WriteTtl(cfg, kw), fits(data), t)]
      ensures CallKey(cfg, kw) == old(CallKey(cfg, kw))
      ensures cfg.mode == DefaultOff && !kw.controls.useCache ==>
        ops == old(ops) && backend.State() == old(backend.State())
      ensures cfg.mode == DefaultOn || kw.controls.useCache ==>
        && |ops| == |old(ops)| + 1
        && var w := ops[|old(ops)|];
           && w.Set? && w.key == old(CallKey(cfg, kw)) && w.value == CachedData(stamp, result)
           && w.ttl == (match kw.controls.ttl
                        case Given(v) => Some(v)
                        case Null => None
                        case Missing => if cfg.ttl.Some? then cfg.ttl else kw.ttl)
    {
      if !ShouldUseCache(cfg, kw) {
        return;
      }
      var key := GetCallKey(cfg, kw);
      Write(key, CachedData(stamp, result), WriteTtl(cfg, kw), t);
    }

    /** Asks the store. */
    method Lookup(key: string, read: real) returns (cached: Option<CachedData<R>>)
      requires Valid()
      modifies this, backend
      ensures Valid() && ops == old(ops) + [Get(key, read)]
      ensures var slot := old(Remembered(key));
        cached == if slot.Some? && read <= slot.value.deadline then Some(slot.value.value) else None
      ensures cached.Some? ==> Latest(backend.Bounds(), old(ops), key, |old(ops)|) == cached
    {
      HistoryDecides(backend.Bounds(), states, ops, key, |ops|, read);
      cached := backend.GetCache(key, read);
      Record(Get(key, read));
    }

    /** A read answers from the whole history of adds and gets: it returns the response of the
        latest write under its key, unless the store dropped it by then, its deadline has
        passed, or the write is older than the age limit. */
    method GetCache(kw: Kwargs, isAsync: bool, read: real, now: real) returns (r: Option<R>)
      requires Valid()
      modifies this, backend, kw.litellmParams
      ensures Valid()
      ensures ops == old(ops) + if ShouldUseCache(cfg, kw) then [Get(old(CallKey(cfg, kw)), read)] else []
      ensures CallKey(cfg, kw) == old(CallKey(cfg, kw))
      ensures var slot := old(Remembered(CallKey(cfg, kw)));
        var maxAge := if isAsync then AsyncMaxAge(kw.controls) else SyncMaxAge(kw.controls);
        r == if ShouldUseCache(cfg, kw) && slot.Some? && read <= slot.value.deadline
                && (maxAge == None || now <= slot.value.value.timestamp + maxAge.value)
             then Some(slot.value.value.response) else None
      ensures r.Some? ==>
        var latest := Latest(backend.Bounds(), old(ops), old(CallKey(cfg, kw)), |old(ops)|);
        latest.Some? && r.value == latest.value.response
      ensures cfg.mode == DefaultOff && !kw.controls.useCache ==>
        r == None && ops == old(ops) && backend.State() == old(backend.State())
      ensures cfg.mode == DefaultOn || kw.controls.useCache ==> |ops| == |old(ops)| + 1
    {
      if !ShouldUseCache(cfg, kw) {
        return None;
      }
      var key := GetCallKey(cfg, kw);
      var maxAge := if isAsync then AsyncMaxAge(kw.controls) else SyncMaxAge(kw.controls);
      var cached := Lookup(key, read);
      if cached.None? {
        return None;
      }
      return Serve(cached.value, maxAge, now);
    }

    /** One embedding result for the bulk write; fails when there is no such result. The
        caller's keyword arguments gain the key, and the ttl if there is one. */
    method AddEmbeddingResponse(data: seq<R>, input: string, kw: Kwargs, idx: nat, stamp: real)
      returns (entry: Option<Event<R>>, kw': Kwargs)
      requires Ignored(cfg.rules, "cache_key") && Ignored(cfg.rules, "ttl")
      modifies kw.litellmParams
      ensures entry == if idx >= |data| then None
                       else Some(Event(old(KeyFor(cfg, WithInput(kw, input))), CachedData(stamp, data[idx])))
      ensures kw'.litellmParams == kw.litellmParams && kw'.controls == kw.controls
      ensures SameKeys(cfg, kw', kw)
      ensures kw.litellmParams != null ==>
        kw.litellmParams.presetCacheKey == Some(old(KeyFor(cfg, WithInput(kw, input))))
      ensures idx < |data| ==> kw'.ttl == WriteTtl(cfg, kw) == WriteTtl(cfg, kw')
    {
      var key := GetCacheKey(cfg, WithInput(kw, input));
      kw' := kw.(cacheKey := Some(key), params := SetParam(kw.params, "cache_key", key));
      forall v ensures FreshKey(cfg, WithInput(kw', v)) == FreshKey(cfg, WithInput(kw, v)) {
        IgnoredParam(cfg.rules, kw.params, "cache_key", key, v);
      }
      if idx >= |data| {
        return None, kw';
      }
      entry := Some(Event(key, CachedData(stamp, data[idx])));
      var ttl := WriteTtl(cfg, kw');
      kw' := kw'.(ttl := ttl);
      if ttl.Some? {
        ghost var before := kw';
        var text := cfg.text(ttl.value);
        kw' := kw'.(params := SetParam(kw'.params, "ttl", text));
        forall v ensures FreshKey(cfg, WithInput(kw', v)) == FreshKey(cfg, WithInput(before, v)) {
          IgnoredParam(cfg.rules, before.params, "ttl", text, v);
        }
      }
    }

    /** The loop of the bulk write that pairs inputs with results; `stamp(i)` is the time read
        for result i. */
    method PairResults(data: seq<R>, items: seq<string>, kw: Kwargs, stamp: nat -> real)
      returns (cacheList: seq<Event<R>>, kwargs: Kwargs)
      requires Ignored(cfg.rules, "cache_key") && Ignored(cfg.rules, "ttl")
      modifies kw.litellmParams
      ensures cacheList == if |items| <= |data| then Events(old(PipelineKeys(cfg, kw, items)), data, stamp) else []
      ensures |cacheList| == if |items| <= |data| then |items| else 0
      ensures forall i :: 0 <= i < |cacheList| ==>
        && cacheList[i].data == CachedData(stamp(i), data[i])
        && cacheList[i].key == if kw.litellmParams == null then FreshKey(cfg, WithInput(kw, items[i]))
                               else old(KeyFor(cfg, WithInput(kw, items[0])))
      ensures cacheList != [] ==> kwargs.ttl == WriteTtl(cfg, kw)
      ensures items != [] && kw.litellmParams != null ==>
        kw.litellmParams.presetCacheKey == Some(old(KeyFor(cfg, WithInput(kw, items[0]))))
    {
      cacheList, kwargs := [], kw;
      ghost var keys := PipelineKeys(cfg, kw, items);
      for idx := 0 to |items|
        invariant |cacheList| == idx <= |data|
        invariant forall i :: 0 <= i < idx ==> cacheList[i] == Event(keys[i], CachedData(stamp(i), data[i]))
        invariant kwargs.litellmParams == kw.litellmParams && WriteTtl(cfg, kwargs) == WriteTtl(cfg, kw)
        invariant idx > 0 ==> kwargs.ttl == WriteTtl(cfg, kw)
        invariant SameKeys(cfg, kwargs, kw)
        invariant idx > 0 && kw.litellmParams != null ==> kw.litellmParams.presetCacheKey == Some(keys[0])
        invariant idx == 0 && kw.litellmParams != null ==> unchanged(kw.litellmParams)
      {
        NextPipelineKey(cfg, kw, kwargs, items, keys, idx);
        var entry;
        entry, kwargs := AddEmbeddingResponse(data, items[idx], kwargs, idx, stamp(idx));
        if entry.None? {
          return [], kwargs;
        }
        cacheList := cacheList + [entry.value];
      }
    }

    /** The store's own bulk write. */
    method WriteAll(cacheList: seq<Event<R>>, ttl: Option<real>, clock: nat -> Clock)
      requires Valid()
      modifies this, backend
      ensures Valid() && ops == old(ops) + BulkOps(cacheList, ttl, fits, clock)
    {
      ghost var bulk := BulkOps(cacheList, ttl, fits, clock);
      for i := 0 to |cacheList|
        invariant Valid() && ops == old(ops) + bulk[..i]
      {
        Write(cacheList[i].key, cacheList[i].data, ttl, clock(i));
        assert bulk[..i + 1] == bulk[..i] + [bulk[i]];
        ConcatAssociates(old(ops), bulk[..i], [bulk[i]]);
      }
    }

    /** The bulk write of embeddings: with a result for every input, one entry per input, in
        order, entry i holding result i, all with the time to live of a single write; with
        fewer results, nothing is written at all. */
    method AddCachePipeline(data: seq<R>, items: seq<string>, kw: Kwargs, stamp: nat -> real, clock: nat -> Clock)
      returns (written: seq<Event<R>>)
      requires Valid() && Ignored(cfg.rules, "cache_key") && Ignored(cfg.rules, "ttl")
      modifies this, backend, kw.litellmParams
      ensures Valid()
      ensures written == if ShouldUseCache(cfg, kw) && |items| <= |data|
                         then Events(old(PipelineKeys(cfg, kw, items)), data, stamp) else []
      ensures ops == old(ops) + BulkOps(written, WriteTtl(cfg, kw), fits, clock)
      ensures |written| == if (cfg.mode == DefaultOn || kw.controls.useCache) && |items| <= |data| then |items| else 0
      ensures |ops| == |old(ops)| + |written| && old(ops) <= ops
      ensures forall i :: 0 <= i < |written| ==>
        && ops[|old(ops)| + i]
           == Set(written[i].key, written[i].data, WriteTtl(cfg, kw), fits(written[i].data), clock(i))
        && written[i].data == CachedData(stamp(i), data[i])
        && written[i].key == if kw.litellmParams == null then FreshKey(cfg, WithInput(kw, items[i]))
                             else old(KeyFor(cfg, WithInput(kw, items[0])))
      ensures ShouldUseCache(cfg, kw) && items != [] && kw.litellmParams != null ==>
        forall v :: KeyFor(cfg, WithInput(kw, v)) == old(KeyFor(cfg, WithInput(kw, items[0])))
    {
      written := [];
      if !ShouldUseCache(cfg, kw) {
        return;
      }
      var kwargs;
      written, kwargs := PairResults(data, items, kw, stamp);
      WriteAll(written, kwargs.ttl, clock);
    }
  }

  /** Write and read agree, over any history before the write and any after it: a later read
      under the write's key finds the write, with the deadline it was given, if and only if
      since then nothing evicted or deleted it and nothing read it after that deadline;
      unless it was overwritten. */
  lemma ReadBack<R(!new)>(l: Limits, states: seq<Store<CachedData<R>>>, ops: seq<Op<CachedData<R>>>, i: nat, n: nat,
                          read: real)
    requires Run(l, states, ops) && states[0] == Store(map[], map[], multiset{}) && i < n <= |ops|
    requires l.max > 0 && ops[i].Set? && ops[i].fits && NotRewritten(ops, ops[i].key, i + 1, n)
    ensures var w := ops[i];
      var pending := if EvictsBySize(l, states[i], w, w.key) then None else DeadlineOf(states[i].ttl, w.key);
      var deadline := NextDeadline(pending, w.t, w.ttl.GetOr(l.ttl));
      Answer(states[n], w.key, read)
      == if LeftAlone(l, states, ops, w.key, i + 1, n) && read <= deadline then Some(w.value) else None
  {
    WrittenInRun(l, states, ops, i);
    ReadFindsItemFrom(l, states, ops, ops[i].key, i + 1, n, read);
  }

  lemma WrittenInRun<V(!new)>(l: Limits, states: seq<Store<V>>, ops: seq<Op<V>>, i: nat)
    requires Run(l, states, ops) && states[0] == Store(map[], map[], multiset{}) && i < |ops|
    requires l.max > 0 && ops[i].Set? && ops[i].fits
    ensures var s, w, s' := states[i], ops[i], states[i + 1];
      var pending := if EvictsBySize(l, s, w, w.key) then None else DeadlineOf(s.ttl, w.key);
      && Consistent(s') && w.key in s'.cached && s'.cached[w.key] == w.value
      && s'.ttl[w.key] == NextDeadline(pending, w.t, w.ttl.GetOr(l.ttl))
  {
    RunIsConsistent(l, states, ops, i + 1);
    assert StepAt(l, states, ops, i);
    AcceptedWrite(l, states[i], ops[i], states[i + 1]);
  }

  /** A bulk write that stores all results under one key, from operation `m` on. */
  datatype Bulk<!R> = Bulk(key: string, data: seq<R>, stamp: nat -> real, ttl: Option<real>,
                           fits: CachedData<R> -> bool, clock: nat -> Clock)
  {
    function Entry(i: nat): CachedData<R>
      requires i < |data|
    {
      CachedData(stamp(i), data[i])
    }

    function WriteAt(i: nat): Op<CachedData<R>>
      requires i < |data|
    {
      Set(key, Entry(i), ttl, fits(Entry(i)), clock(i))
    }
  }

  /** What the shared key does to the cache: after a bulk write under one key from operation `m`
      on, a read of any input, which uses that key, is answered with the result of the last
      input that the store accepted, `last`; never with another's. */
  lemma SharedKeyAnswersLast<R(!new)>(l: Limits, states: seq<Store<CachedData<R>>>, ops: seq<Op<CachedData<R>>>,
                                      bulk: Bulk<R>, m: nat, n: nat, last: nat, read: real)
    requires Run(l, states, ops) && states[0] == Store(map[], map[], multiset{})
    requires m + |bulk.data| <= n <= |ops|
    requires ops[m..m + |bulk.data|] == seq(|bulk.data|, i requires 0 <= i < |bulk.data| => bulk.WriteAt(i))
    requires l.max > 0 && last < |bulk.data| && bulk.fits(bulk.Entry(last))
    requires forall i :: last < i < |bulk.data| ==> !bulk.fits(bulk.Entry(i))
    requires NotRewritten(ops, bulk.key, m + |bulk.data|, n)
    ensures var s, w := states[m + last], bulk.WriteAt(last);
      var pending := if EvictsBySize(l, s, w, bulk.key) then None else DeadlineOf(s.ttl, bulk.key);
      var deadline := NextDeadline(pending, bulk.clock(last), bulk.ttl.GetOr(l.ttl));
      Answer(states[n], bulk.key, read)
      == if LeftAlone(l, states, ops, bulk.key, m + last + 1, n) && read <= deadline
         then Some(bulk.Entry(last)) else None
  {
    var part := ops[m..m + |bulk.data|];
    assert forall j :: m <= j < m + |bulk.data| ==> ops[j] == part[j - m];
    assert part[last] == bulk.WriteAt(last);
    forall j | m + last + 1 <= j < n ensures !Rewrites(ops[j], bulk.key) {
      if j < m + |bulk.data| {
        assert part[j - m] == bulk.WriteAt(j - m);
      }
    }
    ReadBack(l, states, ops, m + last, n, read);
  }
}
