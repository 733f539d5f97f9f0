/**
 * The binding registry of `src/Serialize.ts`: the two `Map`s that
 * `BindPropertyToApi` keeps on a class prototype (property name to API key,
 * property name to the `deserializable` flag) and their lookup through the
 * prototype chain.
 */
module BindingRegistry {
  import opened Wrappers

  /**
   * A JavaScript `Map` with string keys. `keys` is the insertion order that
   * `Map.prototype.keys` enumerates; `vals` holds the entries.
   */
  class JsMap<V> {
    var keys: seq<string>
    var vals: map<string, V>

    /**
     * No key is listed twice, and the entries are exactly the listed keys.
     * The first conjunct is `Distinct(keys)` written out, so that where a
     * map is updated the quantifier is at hand without unfolding a predicate.
     */
    ghost predicate Valid()
      reads this
    {
      && (forall i, j :: 0 <= i < j < |keys| ==> keys[i] != keys[j])
      && (forall k :: k in vals <==> k in keys)
    }

    /** `new Map()` */
    constructor ()
      ensures Valid() && keys == [] && vals == map[]
    {
      keys := [];
      vals := map[];
    }

    /** `Map.prototype.get`; None stands for `undefined`. */
    function Get(k: string): Option<V>
      reads this
    {
      if k in vals then Some(vals[k]) else None
    }

    /** `Map.prototype.set`: an existing key keeps its place, a new one goes last. */
    method Set(k: string, v: V)
      requires Valid()
      modifies this
      ensures Valid()
      ensures vals == old(vals)[k := v]
      ensures keys == Appended(old(keys), k)
    {
      if k !in vals {
        keys := keys + [k];
      }
      vals := vals[k := v];
    }
  }

  /** No key is listed twice. */
  ghost predicate Distinct(keys: seq<string>)
  {
    forall i, j :: 0 <= i < j < |keys| ==> keys[i] != keys[j]
  }

  /** The key order after `Map.prototype.set(k, _)` on a map with key order `keys`. */
  function Appended(keys: seq<string>, k: string): seq<string>
  {
    if k in keys then keys else keys + [k]
  }

  /** The entries of a possibly absent map (absent reads as empty). */
  function ValsOf<V>(m: JsMap?<V>): map<string, V>
    reads m
  {
    if m == null then map[] else m.vals
  }

  /** The key order of a possibly absent map (absent reads as empty). */
  function KeysOf<V>(m: JsMap?<V>): seq<string>
    reads m
  {
    if m == null then [] else m.keys
  }

  /**
   * A class prototype. `parent` is the prototype it inherits from; `names`
   * and `flags` are its own `modelNames` and `modelNamesConfig` slots, null
   * when the prototype has no own property under that symbol. `depth` is the
   * length of the chain above it, which makes walks up the chain terminate.
   */
  class Proto {
    const parent: Proto?
    const depth: nat
    var names: JsMap?<string>
    var flags: JsMap?<bool>

    /** Every link of the chain goes to a strictly shallower prototype. */
    ghost predicate Rooted()
      decreases depth
    {
      parent != null ==> parent.depth < depth && parent.Rooted()
    }

    /** A fresh prototype (a class being defined) with no registry of its own. */
    constructor (parent: Proto?)
      requires parent != null ==> parent.Rooted()
      ensures this.parent == parent && Rooted()
      ensures names == null && flags == null
    {
      this.parent := parent;
      depth := if parent == null then 0 else parent.depth + 1;
      names := null;
      flags := null;
    }

    /** The prototypes a property lookup on this prototype visits. */
    ghost function Chain(): (c: set<Proto>)
      requires Rooted()
      ensures this in c
      ensures forall q :: q in c ==> q.Rooted() && (q == this || q.depth < depth)
      decreases depth
    {
      if parent == null then {this} else {this} + parent.Chain()
    }

    /**
     * `target[modelNames]`: the first own `modelNames` slot on the chain,
     * or null (`undefined`) when no prototype of the chain has one.
     */
    function ResolvedNames(): (m: JsMap?<string>)
      requires Rooted()
      reads Chain()`names
      ensures names != null ==> m == names
      decreases depth
    {
      if names != null then names
      else if parent == null then null
      else parent.ResolvedNames()
    }

    /** `target[modelNamesConfig]`, resolved the same way. */
    function ResolvedFlags(): (m: JsMap?<bool>)
      requires Rooted()
      reads Chain()`flags
      ensures flags != null ==> m == flags
      decreases depth
    {
      if flags != null then flags
      else if parent == null then null
      else parent.ResolvedFlags()
    }

    /** The two own slots are set together: both present or both absent. */
    ghost predicate SlotsPaired()
      reads this
    {
      (names == null) == (flags == null)
    }
  }

  /**
   * `target[modelNames]` looks the chain up from the most derived
   * prototype: it is undefined exactly when no prototype of the chain has an
   * own slot, and otherwise it is the slot of the deepest prototype that has
   * one, every more derived prototype having none.
   */
  lemma {:induction false} ResolvedNamesIsFirstOwn(p: Proto)
    requires p.Rooted()
    ensures p.ResolvedNames() == null <==> forall q :: q in p.Chain() ==> q.names == null
    ensures p.ResolvedNames() != null ==>
      exists q :: q in p.Chain() && q.names == p.ResolvedNames() &&
        forall r :: r in p.Chain() && r.depth > q.depth ==> r.names == null
    decreases p.depth
  {
    if p.names == null && p.parent != null {
      ResolvedNamesIsFirstOwn(p.parent);
    }
  }

  /** `target[modelNamesConfig]` is looked up the same way. */
  lemma {:induction false} ResolvedFlagsIsFirstOwn(p: Proto)
    requires p.Rooted()
    ensures p.ResolvedFlags() == null <==> forall q :: q in p.Chain() ==> q.flags == null
    ensures p.ResolvedFlags() != null ==>
      exists q :: q in p.Chain() && q.flags == p.ResolvedFlags() &&
        forall r :: r in p.Chain() && r.depth > q.depth ==> r.flags == null
    decreases p.depth
  {
    if p.flags == null && p.parent != null {
      ResolvedFlagsIsFirstOwn(p.parent);
    }
  }

  /** Every prototype on an allocated prototype's chain is allocated. */
  lemma {:induction false} ChainAllocated(p: Proto)
    requires p.Rooted()
    ensures forall q :: q in p.Chain() ==> allocated(q)
    decreases p.depth
  {
    if p.parent != null {
      ChainAllocated(p.parent);
    }
  }

  /**
   * What `BindPropertyToApi` keeps true of a prototype chain: every
   * prototype's two slots are set together, and the two maps the chain
   * resolves to are well formed and list the same properties in the same
   * order.
   */
  ghost predicate ChainCoherent(p: Proto)
    requires p.Rooted()
    reads p.Chain(), p.ResolvedNames(), p.ResolvedFlags()
  {
    && (forall q :: q in p.Chain() ==> q.SlotsPaired())
    && (p.ResolvedNames() != null && p.ResolvedFlags() != null ==>
          && p.ResolvedNames().Valid()
          && p.ResolvedFlags().Valid()
          && p.ResolvedNames().keys == p.ResolvedFlags().keys)
  }

  /** On a coherent chain both lookups stop at the same prototype. */
  lemma {:induction false} ResolvedTogether(p: Proto)
    requires p.Rooted()
    requires forall q :: q in p.Chain() ==> q.SlotsPaired()
    ensures (p.ResolvedNames() == null) == (p.ResolvedFlags() == null)
    ensures p.ResolvedNames() != null ==>
      exists q :: q in p.Chain() && q.names == p.ResolvedNames() && q.flags == p.ResolvedFlags()
    decreases p.depth
  {
    assert p.SlotsPaired();
    if p.names == null && p.parent != null {
      ResolvedTogether(p.parent);
    }
  }

  /**
   * `findApiKey`: the API key bound to `key` in the registry the chain
   * resolves to; None when there is no registry or no entry for `key`.
   */
  function FindApiKey(p: Proto, key: string): (r: Option<string>)
    requires p.Rooted()
    reads p.Chain(), p.ResolvedNames()
  {
    var m := p.ResolvedNames();
    if m == null then None else m.Get(key)
  }

  /** The options object of the `BindPropertyToApi` decorator; None is an omitted option. */
  datatype BindParams = BindParams(apiKey: Option<string>, deserializable: Option<bool>)

  /** The API key a registration records: `apiKey` defaults to the property name. */
  function ApiKeyFor(params: BindParams, propertyKey: string): string
  {
    match params.apiKey
    case Some(k) => k
    case None => propertyKey
  }

  /** The flag a registration records: `deserializable` defaults to false. */
  function DeserializableFor(params: BindParams): bool
  {
    match params.deserializable
    case Some(b) => b
    case None => false
  }

  /**
   * `BindPropertyToApi(params)(target, propertyKey)`. The maps are fetched
   * through the prototype chain, updated in place, and stored as own slots
   * of `target`; when `target` inherited them, its ancestor's maps change too.
   */
  method BindPropertyToApi(params: BindParams, target: Proto, propertyKey: string)
    requires target.Rooted() && ChainCoherent(target)
    modifies target, target.ResolvedNames(), target.ResolvedFlags()
    ensures ChainCoherent(target)
    ensures target.names != null && target.flags != null
    ensures old(target.ResolvedNames()) != null ==>
      target.names == old(target.ResolvedNames()) && target.flags == old(target.ResolvedFlags())
    ensures old(target.ResolvedNames()) == null ==> fresh(target.names) && fresh(target.flags)
    ensures target.names.vals == old(ValsOf(target.ResolvedNames()))[propertyKey := ApiKeyFor(params, propertyKey)]
    ensures target.flags.vals == old(ValsOf(target.ResolvedFlags()))[propertyKey := DeserializableFor(params)]
    ensures target.names.keys == target.flags.keys == Appended(old(KeysOf(target.ResolvedNames())), propertyKey)
    ensures forall q :: q in target.Chain() && q.ResolvedNames() == target.names ==>
      FindApiKey(q, propertyKey) == Some(ApiKeyFor(params, propertyKey))
  {
    ResolvedTogether(target);
    ChainAllocated(target);
    var oldNames, oldFlags := target.ResolvedNames(), target.ResolvedFlags();
    var names := SetOrCreate(oldNames, propertyKey, ApiKeyFor(params, propertyKey));
    var flags := SetOrCreate(oldFlags, propertyKey, DeserializableFor(params));
    target.names := names;
    target.flags := flags;
    assert target.ResolvedNames() == names && target.ResolvedFlags() == flags;
    assert names.Valid() && flags.Valid() && names.keys == flags.keys;
    assert forall q :: q in target.Chain() && q != target ==> q.SlotsPaired() == old(q.SlotsPaired());
  }

  /** `(m || new Map()).set(k, v)`, returning the map that was set. */
  method SetOrCreate<V>(m: JsMap?<V>, k: string, v: V) returns (r: JsMap<V>)
    requires m != null ==> m.Valid()
    modifies m
    ensures r.Valid()
    ensures m != null ==> r == m
    ensures m == null ==> fresh(r)
    ensures r.vals == old(ValsOf(m))[k := v]
    ensures r.keys == Appended(old(KeysOf(m)), k)
  {
    if m == null {
      r := new JsMap<V>();
    } else {
      r := m;
    }
    r.Set(k, v);
  }

  /**
   * A base class binds `name` with the default options; a subclass then
   * binds `id` to `user_id`. The subclass stored the base class's `Map`
   * on its own prototype and added to it, so the base class now reports the
   * subclass's binding too.
   */
  method SharedRegistryScenario() returns (base: Proto, derived: Proto)
    ensures base.Rooted() && derived.Rooted() && derived.parent == base
    ensures FindApiKey(base, "name") == Some("name")
    ensures base.ResolvedFlags() != null && base.ResolvedFlags().Get("name") == Some(false)
    ensures base.ResolvedFlags().Get("id") == Some(true)
    ensures FindApiKey(derived, "id") == Some("user_id")
    ensures FindApiKey(base, "id") == Some("user_id")
  {
    base := new Proto(null);
    BindPropertyToApi(BindParams(None, None), base, "name");
    derived := new Proto(base);
    BindPropertyToApi(BindParams(Some("user_id"), Some(true)), derived, "id");
  }
}
