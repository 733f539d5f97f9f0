/**
 * `Serializable.deserialize` and the `Deserialize` class decorator: the
 * loop over the binding registry that assigns an instance's fields while it
 * is being constructed.
 */
module Deserialization {
  import opened Wrappers
  import opened JsValues
  import opened BindingRegistry

  /**
   * The condition under which the `forEach` callback assigns field `key`:
   * its API key is truthy (defined and non-empty), the payload has that API
   * key as an own property, and its `deserializable` flag is truthy.
   */
  predicate Assigns(key: string, apiKeys: map<string, string>, flags: map<string, bool>, resp: Option<seq<Prop>>)
  {
    && key in apiKeys && apiKeys[key] != ""
    && resp.Some? && HasOwn(resp.value, apiKeys[key])
    && key in flags && flags[key]
  }

  /**
   * One run of the callback on the fields `own`: when it assigns, the new
   * value of `key` is the instance's own current value under the API key.
   */
  function DeserializeStep(own: seq<Prop>, key: string, apiKeys: map<string, string>,
                           flags: map<string, bool>, resp: Option<seq<Prop>>): seq<Prop>
  {
    if Assigns(key, apiKeys, flags, resp) then Put(own, key, Read(own, apiKeys[key])) else own
  }

  /** The fields after the callback has run on `keys`, in order, starting from `own`. */
  function Deserialized(own: seq<Prop>, keys: seq<string>, apiKeys: map<string, string>,
                        flags: map<string, bool>, resp: Option<seq<Prop>>): seq<Prop>
    decreases |keys|
  {
    if keys == [] then own
    else DeserializeStep(Deserialized(own, keys[..|keys| - 1], apiKeys, flags, resp), keys[|keys| - 1], apiKeys, flags, resp)
  }

  /**
   * Only fields whose registry entry meets the three conditions change;
   * every other property keeps its value, the existing properties keep
   * their order, and any new property is one of the assigned fields.
   */
  lemma {:induction false} DeserializedChangesOnlyAssigned(own: seq<Prop>, keys: seq<string>, apiKeys: map<string, string>,
                                                           flags: map<string, bool>, resp: Option<seq<Prop>>)
    ensures var r := Deserialized(own, keys, apiKeys, flags, resp);
      && (forall f :: !(f in keys && Assigns(f, apiKeys, flags, resp)) ==> Get(r, f) == Get(own, f))
      && Keys(own) <= Keys(r)
      && (forall f :: f in Keys(r) ==> f in Keys(own) || (f in keys && Assigns(f, apiKeys, flags, resp)))
    decreases |keys|
  {
    if keys != [] {
      var prefix := keys[..|keys| - 1];
      DeserializedChangesOnlyAssigned(own, prefix, apiKeys, flags, resp);
      assert forall f :: f in prefix ==> f in keys;
    }
  }

  /**
   * An assigned field receives the instance's own value under its API key,
   * as it was before `deserialize`, provided that the API key is the field
   * itself (the default binding, which leaves the field as it was) or names
   * no field the loop itself assigns.
   */
  lemma {:induction false} DeserializedFieldValue(own: seq<Prop>, keys: seq<string>, apiKeys: map<string, string>,
                                                  flags: map<string, bool>, resp: Option<seq<Prop>>, f: string)
    requires Distinct(keys)
    requires f in keys && Assigns(f, apiKeys, flags, resp)
    requires apiKeys[f] == f || !(apiKeys[f] in keys && Assigns(apiKeys[f], apiKeys, flags, resp))
    ensures Get(Deserialized(own, keys, apiKeys, flags, resp), f) == Some(Read(own, apiKeys[f]))
    decreases |keys|
  {
    var prefix := keys[..|keys| - 1];
    var last := keys[|keys| - 1];
    assert forall k :: k in prefix ==> k in keys;
    DeserializedChangesOnlyAssigned(own, prefix, apiKeys, flags, resp);
    if last != f {
      assert f in prefix;
      DeserializedFieldValue(own, prefix, apiKeys, flags, resp, f);
    } else {
      assert f !in prefix;
    }
  }

  /**
   * The payload's values are never read: two payloads with the same own
   * keys give the same fields.
   */
  lemma {:induction false} DeserializedIgnoresPayloadValues(own: seq<Prop>, keys: seq<string>, apiKeys: map<string, string>,
                                                            flags: map<string, bool>, resp1: seq<Prop>, resp2: seq<Prop>)
    requires forall k :: HasOwn(resp1, k) <==> HasOwn(resp2, k)
    ensures Deserialized(own, keys, apiKeys, flags, Some(resp1)) == Deserialized(own, keys, apiKeys, flags, Some(resp2))
    decreases |keys|
  {
    if keys != [] {
      DeserializedIgnoresPayloadValues(own, keys[..|keys| - 1], apiKeys, flags, resp1, resp2);
    }
  }

  /**
   * Every assigned field ends up with the value its own step gave it: the
   * value under its API key in the fields as the loop left them just
   * before that step. Later steps assign other fields only.
   */
  lemma {:induction false} DeserializedValueAtStep(own: seq<Prop>, keys: seq<string>, apiKeys: map<string, string>,
                                                   flags: map<string, bool>, resp: Option<seq<Prop>>, j: int)
    requires Distinct(keys) && 0 <= j < |keys| && Assigns(keys[j], apiKeys, flags, resp)
    ensures Get(Deserialized(own, keys, apiKeys, flags, resp), keys[j])
         == Some(Read(Deserialized(own, keys[..j], apiKeys, flags, resp), apiKeys[keys[j]]))
    decreases |keys|
  {
    var n := |keys| - 1;
    var prefix := keys[..n];
    var before := Deserialized(own, prefix, apiKeys, flags, resp);
    assert Deserialized(own, keys, apiKeys, flags, resp) == DeserializeStep(before, keys[n], apiKeys, flags, resp);
    if j < n {
      assert prefix[j] == keys[j] && prefix[..j] == keys[..j];
      assert Distinct(prefix);
      assert keys[n] != keys[j];
      DeserializedValueAtStep(own, prefix, apiKeys, flags, resp, j);
      assert Get(DeserializeStep(before, keys[n], apiKeys, flags, resp), keys[j]) == Get(before, keys[j]);
    } else {
      assert prefix == keys[..j];
    }
  }

  /**
   * A write made earlier in the loop is visible to a later read: when the
   * registry entry `b` right after `a` is bound to the API key `a` and both
   * are assigned, `b` receives the value `a` has just been given, not the
   * value `a` had before the call.
   */
  lemma DeserializeSeesEarlierWrites(own: seq<Prop>, keys: seq<string>, apiKeys: map<string, string>,
                                     flags: map<string, bool>, resp: Option<seq<Prop>>, j: int)
    requires Distinct(keys) && 0 < j < |keys|
    requires Assigns(keys[j - 1], apiKeys, flags, resp) && Assigns(keys[j], apiKeys, flags, resp)
    requires apiKeys[keys[j]] == keys[j - 1]
    ensures Get(Deserialized(own, keys, apiKeys, flags, resp), keys[j])
         == Some(Read(Deserialized(own, keys[..j - 1], apiKeys, flags, resp), apiKeys[keys[j - 1]]))
  {
    DeserializedValueAtStep(own, keys, apiKeys, flags, resp, j);
    var upTo := keys[..j];
    assert upTo[..j - 1] == keys[..j - 1] && upTo[j - 1] == keys[j - 1];
    var before := Deserialized(own, keys[..j - 1], apiKeys, flags, resp);
    var v := Read(before, apiKeys[keys[j - 1]]);
    assert Deserialized(own, upTo, apiKeys, flags, resp) == Put(before, keys[j - 1], v);
    assert Get(Put(before, keys[j - 1], v), keys[j - 1]) == Some(v);
  }

  /**
   * A field `fullName` bound to the API key `"full_name"` with
   * `deserializable: true`, on a fresh instance, with the payload
   * `{ full_name: "Ada Lovelace", id: 7 }`: the field becomes `undefined`.
   */
  lemma FullNameScenarioAsWritten()
    ensures Deserialized([], ["fullName"], map["fullName" := "full_name"], map["fullName" := true],
                         Some([Prop("full_name", Str("Ada Lovelace")), Prop("id", Num(7))]))
         == [Prop("fullName", Undefined)]
  {
  }

  /** The callback with the payload read in place of the instance: `this[key] = resp[apiKey]`. */
  function PayloadStep(own: seq<Prop>, key: string, apiKeys: map<string, string>,
                       flags: map<string, bool>, resp: Option<seq<Prop>>): seq<Prop>
  {
    if Assigns(key, apiKeys, flags, resp) then Put(own, key, Read(resp.value, apiKeys[key])) else own
  }

  /** The loop of `deserialize` with `PayloadStep` as its callback. */
  function DeserializedFromPayload(own: seq<Prop>, keys: seq<string>, apiKeys: map<string, string>,
                                   flags: map<string, bool>, resp: Option<seq<Prop>>): seq<Prop>
    decreases |keys|
  {
    if keys == [] then own
    else PayloadStep(DeserializedFromPayload(own, keys[..|keys| - 1], apiKeys, flags, resp), keys[|keys| - 1], apiKeys, flags, resp)
  }

  /**
   * Reading the payload gives the documented merge: an assigned field equals
   * the payload's own property under its API key, every other property is
   * left as it was.
   */
  lemma {:induction false} DeserializedFromPayloadCopiesPayload(own: seq<Prop>, keys: seq<string>, apiKeys: map<string, string>,
                                                                flags: map<string, bool>, resp: Option<seq<Prop>>, f: string)
    ensures var r := DeserializedFromPayload(own, keys, apiKeys, flags, resp);
      && (f in keys && Assigns(f, apiKeys, flags, resp) ==> Get(r, f) == Get(resp.value, apiKeys[f]))
      && (!(f in keys && Assigns(f, apiKeys, flags, resp)) ==> Get(r, f) == Get(own, f))
    decreases |keys|
  {
    if keys != [] {
      var prefix := keys[..|keys| - 1];
      var last := keys[|keys| - 1];
      assert forall k :: k in prefix ==> k in keys;
      DeserializedFromPayloadCopiesPayload(own, prefix, apiKeys, flags, resp, f);
      var r' := DeserializedFromPayload(own, prefix, apiKeys, flags, resp);
      var r := PayloadStep(r', last, apiKeys, flags, resp);
      assert r == DeserializedFromPayload(own, keys, apiKeys, flags, resp);
      if last != f {
        assert Get(r, f) == Get(r', f);
        assert f in keys <==> f in prefix;
      } else if Assigns(f, apiKeys, flags, resp) {
        assert Get(r, f) == Some(Read(resp.value, apiKeys[f]));
        assert Get(resp.value, apiKeys[f]) == Some(Read(resp.value, apiKeys[f]));
      } else {
        assert r == r';
      }
    }
  }

  /** The same scenario with the payload read: the field gets `"Ada Lovelace"`. */
  lemma FullNameScenarioFromPayload()
    ensures DeserializedFromPayload([], ["fullName"], map["fullName" := "full_name"], map["fullName" := true],
                                    Some([Prop("full_name", Str("Ada Lovelace")), Prop("id", Num(7))]))
         == [Prop("fullName", Str("Ada Lovelace"))]
  {
  }

  /**
   * What `deserialize` needs so that it does not throw a `TypeError`: a
   * `modelNamesConfig` map beside every `modelNames` map, and a payload
   * whenever some registered property has a truthy API key (the point where
   * `resp.hasOwnProperty` is called).
   */
  predicate CanDeserialize(p: Proto, resp: Option<seq<Prop>>)
    requires p.Rooted()
    reads p.Chain(), p.ResolvedNames()
  {
    var m := p.ResolvedNames();
    m != null ==>
      && p.ResolvedFlags() != null
      && (resp.None? ==> forall k :: k in m.keys ==> !Truthy(m.Get(k)))
  }

  /** The fields `deserialize` leaves on an instance of a class with prototype `p`. */
  function DeserializeResult(p: Proto, own: seq<Prop>, resp: Option<seq<Prop>>): seq<Prop>
    requires p.Rooted() && CanDeserialize(p, resp)
    reads p.Chain(), p.ResolvedNames(), p.ResolvedFlags()
  {
    var m := p.ResolvedNames();
    if m == null then own else Deserialized(own, m.keys, m.vals, p.ResolvedFlags().vals, resp)
  }

  /** An instance of a `Serializable` subclass: its class's prototype and its own fields. */
  class ModelObject {
    const proto: Proto
    var own: seq<Prop>

    /** `Serializable`'s empty constructor, after the subclass's field initialisers `init`. */
    constructor (proto: Proto, init: seq<Prop>)
      ensures this.proto == proto && own == init
    {
      this.proto := proto;
      own := init;
    }

    /**
     * `deserialize(resp)`: walk the registry's keys in insertion order and
     * assign each field that meets the three conditions from the instance's
     * own value under its API key.
     */
    method Deserialize(resp: Option<seq<Prop>>)
      requires proto.Rooted() && CanDeserialize(proto, resp)
      modifies this`own
      ensures old(proto.ResolvedNames()) == null ==> own == old(own)
      ensures own == old(DeserializeResult(proto, own, resp))
    {
      ChainAllocated(proto);
      var names := proto.ResolvedNames();
      var flags := proto.ResolvedFlags();
      if names == null {
        return;
      }
      var keys := names.keys;
      var i := 0;
      while i < |keys|
        invariant 0 <= i <= |keys|
        invariant own == Deserialized(old(own), keys[..i], names.vals, flags.vals, resp)
        invariant resp.None? ==> forall k :: k in keys ==> !Truthy(names.Get(k))
      {
        var key := keys[i];
        var apiKey := names.Get(key);
        if Truthy(apiKey) && HasOwn(resp.value, apiKey.value) && flags.Get(key) == Some(true) {
          own := Put(own, key, Read(own, apiKey.value));
        }
        assert keys[..i + 1][..i] == keys[..i];
        i := i + 1;
      }
      assert keys[..i] == keys;
      assert names == old(proto.ResolvedNames()) && flags == old(proto.ResolvedFlags());
      assert names.keys == old(names.keys) && names.vals == old(names.vals) && flags.vals == old(flags.vals);
    }
  }

  /**
   * `new C(resp)` for a class `C` decorated with `Deserialize`: the
   * subclass the decorator returns runs the original constructor, which
   * ignores its argument, and then `this.deserialize(resp)`.
   */
  method ConstructDeserialized(proto: Proto, init: seq<Prop>, resp: Option<seq<Prop>>) returns (o: ModelObject)
    requires proto.Rooted() && CanDeserialize(proto, resp)
    ensures fresh(o) && o.proto == proto
    ensures o.own == old(DeserializeResult(proto, init, resp))
  {
    ChainAllocated(proto);
    ResolvedNamesIsFirstOwn(proto);
    ResolvedFlagsIsFirstOwn(proto);
    o := new ModelObject(proto, init);
    o.Deserialize(resp);
  }

  /**
   * A class binds `fullName` to `full_name` as deserializable and is
   * constructed from `{ full_name: "Ada Lovelace", id: 7 }`: the new
   * instance's `fullName` is `undefined`, because the value is read from
   * the instance itself.
   */
  method FullNameConstruction() returns (o: ModelObject, payload: seq<Prop>)
    ensures payload == [Prop("full_name", Str("Ada Lovelace")), Prop("id", Num(7))]
    ensures o.proto.Rooted() && FindApiKey(o.proto, "fullName") == Some("full_name")
    ensures o.proto.ResolvedFlags() != null && o.proto.ResolvedFlags().Get("fullName") == Some(true)
    ensures CanDeserialize(o.proto, Some(payload)) && o.own == DeserializeResult(o.proto, [], Some(payload))
    ensures o.own == [Prop("fullName", Undefined)]
  {
    var user := new Proto(null);
    BindPropertyToApi(BindParams(Some("full_name"), Some(true)), user, "fullName");
    payload := [Prop("full_name", Str("Ada Lovelace")), Prop("id", Num(7))];
    FullNameScenarioAsWritten();
    o := ConstructDeserialized(user, [], Some(payload));
  }
}
