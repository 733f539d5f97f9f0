/**
 * `Serializable.serialize` and `findApiKey`: the fold over an instance's own
 * keys that builds the plain object sent to the API, renaming bound fields
 * and flattening their values one level.
 */
module Serialization {
  import opened Wrappers
  import opened JsValues
  import opened BindingRegistry

  /** The prototypes whose registries a serialization of `v` may consult. */
  ghost function Protos(v: Value): set<Proto>
    requires Rooted(v)
    decreases v
  {
    match v
    case Arr(es) => ElemsProtos(es)
    case Plain(ps) => PropsProtos(ps)
    case Model(i) => i.proto.Chain() + PropsProtos(i.own)
    case _ => {}
  }

  ghost function ElemsProtos(es: seq<Value>): set<Proto>
    requires forall e :: e in es ==> Rooted(e)
    decreases es
  {
    if es == [] then {} else Protos(es[0]) + ElemsProtos(es[1..])
  }

  ghost function PropsProtos(ps: seq<Prop>): set<Proto>
    requires forall f :: f in ps ==> Rooted(f.val)
    decreases ps
  {
    if ps == [] then {} else Protos(ps[0].val) + PropsProtos(ps[1..])
  }

  /** The prototypes of `ps` together with their own `modelNames` maps. */
  ghost function Footprint(ps: set<Proto>): set<object>
    reads ps
  {
    ps + set q | q in ps && q.names != null :: q.names
  }

  lemma FootprintMono(a: set<Proto>, b: set<Proto>)
    requires a <= b
    ensures Footprint(a) <= Footprint(b)
  {
  }

  /** The map a chain inside `ps` resolves to is in the footprint of `ps`. */
  lemma {:induction false} ResolvedInFootprint(p: Proto, ps: set<Proto>)
    requires p.Rooted() && p.Chain() <= ps
    ensures p.Chain() + {p.ResolvedNames()} - {null} <= Footprint(ps)
    decreases p.depth
  {
    if p.names == null && p.parent != null {
      ResolvedInFootprint(p.parent, ps);
    }
  }

  /**
   * The key a field is written under: the API key `findApiKey` returns
   * when it is truthy, otherwise the field's own name.
   */
  function OutKey(p: Proto, key: string): string
    requires p.Rooted()
    reads p.Chain(), p.ResolvedNames()
  {
    var apiKey := FindApiKey(p, key);
    if Truthy(apiKey) then apiKey.value else key
  }

  /** An array element: an instance is serialized, anything else is kept. */
  function FlattenElem(e: Value): Value
    requires Rooted(e)
    reads Footprint(Protos(e))
    decreases e
  {
    if e.Model? then Plain(SerializeInstance(e.inst)) else e
  }

  /** `es.map(FlattenElem)`. */
  function FlattenElems(es: seq<Value>): seq<Value>
    requires forall e :: e in es ==> Rooted(e)
    reads Footprint(ElemsProtos(es))
    decreases es
  {
    if es == [] then []
    else
      FootprintMono(Protos(es[0]), ElemsProtos(es));
      FootprintMono(ElemsProtos(es[1..]), ElemsProtos(es));
      [FlattenElem(es[0])] + FlattenElems(es[1..])
  }

  /**
   * The value written for a bound field: an array is mapped one level, an
   * instance is serialized, anything else is copied.
   */
  function Flatten(v: Value): Value
    requires Rooted(v)
    reads Footprint(Protos(v))
    decreases v
  {
    match v
    case Arr(es) => Arr(FlattenElems(es))
    case Model(i) => Plain(SerializeInstance(i))
    case _ => v
  }

  /** The value a field contributes to the output. */
  function OutValue(p: Proto, f: Prop): Value
    requires p.Rooted() && Rooted(f.val)
    reads Footprint(p.Chain() + Protos(f.val))
    decreases f, 0
  {
    ResolvedInFootprint(p, p.Chain() + Protos(f.val));
    FootprintMono(Protos(f.val), p.Chain() + Protos(f.val));
    if Truthy(FindApiKey(p, f.key)) then Flatten(f.val) else f.val
  }

  /** The `reduce` callback: `acc[outKey] = outValue`. */
  function Step(p: Proto, acc: seq<Prop>, f: Prop): seq<Prop>
    requires p.Rooted() && Rooted(f.val)
    reads Footprint(p.Chain() + Protos(f.val))
    decreases f, 1
  {
    ResolvedInFootprint(p, p.Chain() + Protos(f.val));
    Put(acc, OutKey(p, f.key), OutValue(p, f))
  }

  /** `reduce` over the own fields `ps`, in order, from the accumulator `acc`. */
  function Fold(p: Proto, ps: seq<Prop>, acc: seq<Prop>): seq<Prop>
    requires p.Rooted() && forall f :: f in ps ==> Rooted(f.val)
    reads Footprint(p.Chain() + PropsProtos(ps))
    decreases ps
  {
    if ps == [] then acc
    else
      FootprintMono(p.Chain() + Protos(ps[0].val), p.Chain() + PropsProtos(ps));
      FootprintMono(p.Chain() + PropsProtos(ps[1..]), p.Chain() + PropsProtos(ps));
      Fold(p, ps[1..], Step(p, acc, ps[0]))
  }

  /** `instance.serialize()`: the fold from the empty object `{}`. */
  function SerializeInstance(i: Instance): seq<Prop>
    requires Rooted(Model(i))
    reads Footprint(Protos(Model(i)))
    decreases i
  {
    Fold(i.proto, i.own, [])
  }

  /** The output keys of the fields `ps`, in order. */
  function OutKeys(p: Proto, ps: seq<Prop>): (ks: seq<string>)
    requires p.Rooted()
    reads p.Chain(), p.ResolvedNames()
    ensures |ks| == |ps|
    ensures forall j :: 0 <= j < |ps| ==> ks[j] == OutKey(p, ps[j].key)
  {
    if ps == [] then [] else [OutKey(p, ps[0].key)] + OutKeys(p, ps[1..])
  }

  /** The key order after assigning the keys `ks`, in order, to an object with key order `keys`. */
  function AppendedAll(keys: seq<string>, ks: seq<string>): seq<string>
    decreases ks
  {
    if ks == [] then keys else AppendedAll(Appended(keys, ks[0]), ks[1..])
  }

  /** The keys after the assignments are the old keys and the assigned ones. */
  lemma {:induction false} AppendedAllMembers(keys: seq<string>, ks: seq<string>)
    ensures forall k :: k in AppendedAll(keys, ks) <==> k in keys || k in ks
    decreases ks
  {
    if ks != [] {
      AppendedAllMembers(Appended(keys, ks[0]), ks[1..]);
      assert ks == [ks[0]] + ks[1..];
    }
  }

  /** Assignments never list a key twice. */
  lemma {:induction false} AppendedAllDistinct(keys: seq<string>, ks: seq<string>)
    requires Distinct(keys)
    ensures Distinct(AppendedAll(keys, ks))
    decreases ks
  {
    if ks != [] {
      var keys' := Appended(keys, ks[0]);
      assert Distinct(keys');
      AppendedAllDistinct(keys', ks[1..]);
    }
  }

  /**
   * The fold writes the output key of every field, in field order: a key
   * seen for the first time is appended, a repeated one keeps its place.
   */
  lemma {:induction false} FoldKeyOrder(p: Proto, ps: seq<Prop>, acc: seq<Prop>)
    requires p.Rooted() && forall f :: f in ps ==> Rooted(f.val)
    ensures Keys(Fold(p, ps, acc)) == AppendedAll(Keys(acc), OutKeys(p, ps))
    decreases ps
  {
    if ps != [] {
      FoldKeyOrder(p, ps[1..], Step(p, acc, ps[0]));
    }
  }

  /** A key that no field is written under keeps the accumulator's value. */
  lemma {:induction false} FoldUntouched(p: Proto, ps: seq<Prop>, acc: seq<Prop>, k: string)
    requires p.Rooted() && forall f :: f in ps ==> Rooted(f.val)
    requires k !in OutKeys(p, ps)
    ensures Get(Fold(p, ps, acc), k) == Get(acc, k)
    decreases ps
  {
    if ps != [] {
      assert OutKeys(p, ps) == [OutKey(p, ps[0].key)] + OutKeys(p, ps[1..]);
      FoldUntouched(p, ps[1..], Step(p, acc, ps[0]), k);
    }
  }

  /** The last field written under a key decides that key's value. */
  lemma {:induction false} FoldLastWins(p: Proto, ps: seq<Prop>, acc: seq<Prop>, j: int)
    requires p.Rooted() && forall f :: f in ps ==> Rooted(f.val)
    requires 0 <= j < |ps|
    requires forall j' :: j < j' < |ps| ==> OutKey(p, ps[j'].key) != OutKey(p, ps[j].key)
    ensures Get(Fold(p, ps, acc), OutKey(p, ps[j].key)) == Some(OutValue(p, ps[j]))
    decreases ps
  {
    var acc' := Step(p, acc, ps[0]);
    if j == 0 {
      var k := OutKey(p, ps[0].key);
      assert forall i :: 0 <= i < |ps[1..]| ==> OutKeys(p, ps[1..])[i] != k by {
        assert forall i :: 0 <= i < |ps[1..]| ==> ps[1..][i] == ps[i + 1];
      }
      FoldUntouched(p, ps[1..], acc', k);
    } else {
      var rest := ps[1..];
      assert rest[j - 1] == ps[j];
      forall j' | j - 1 < j' < |rest|
        ensures OutKey(p, rest[j'].key) != OutKey(p, rest[j - 1].key)
      {
        assert rest[j'] == ps[j' + 1];
      }
      assert forall f :: f in rest ==> f in ps;
      FoldLastWins(p, rest, acc', j - 1);
    }
  }

  /**
   * When no field resolves to a truthy API key, the fold appends the fields
   * as they are.
   */
  lemma {:induction false} FoldUnboundCopies(p: Proto, ps: seq<Prop>, acc: seq<Prop>)
    requires p.Rooted() && forall f :: f in ps ==> Rooted(f.val)
    requires forall f :: f in ps ==> !Truthy(FindApiKey(p, f.key))
    requires UniqueKeys(acc + ps)
    ensures Fold(p, ps, acc) == acc + ps
    decreases ps
  {
    if ps != [] {
      var f, rest := ps[0], ps[1..];
      var acc' := acc + [f];
      assert f in ps;
      FreshFirstKey(acc, ps);
      UnboundStepAppends(p, acc, f);
      assert Fold(p, ps, acc) == Fold(p, rest, acc');
      MoveHead(acc, ps);
      FoldUnboundCopies(p, rest, acc');
    }
  }

  lemma MoveHead(a: seq<Prop>, b: seq<Prop>)
    requires b != []
    ensures a + [b[0]] + b[1..] == a + b
  {
    assert b == [b[0]] + b[1..];
  }

  /** An unbound field with a new key is appended as it is. */
  lemma UnboundStepAppends(p: Proto, acc: seq<Prop>, f: Prop)
    requires p.Rooted() && Rooted(f.val)
    requires !Truthy(FindApiKey(p, f.key)) && f.key !in Keys(acc)
    ensures Step(p, acc, f) == acc + [f]
  {
    PutNewKeyAppends(acc, f.key, f.val);
  }

  /** The first of the properties appended to `acc` is not yet a key of `acc`. */
  lemma FreshFirstKey(acc: seq<Prop>, ps: seq<Prop>)
    requires ps != [] && UniqueKeys(acc + ps)
    ensures ps[0].key !in Keys(acc)
  {
    forall i | 0 <= i < |acc|
      ensures Keys(acc)[i] != ps[0].key
    {
      assert (acc + ps)[i] == acc[i] && (acc + ps)[|acc|] == ps[0];
    }
  }

  /**
   * `serialize` has one key per distinct output key of the instance's
   * fields, in the order those keys are first written.
   */
  lemma SerializeKeys(i: Instance)
    requires Rooted(Model(i))
    ensures var r := SerializeInstance(i);
      && Keys(r) == AppendedAll([], OutKeys(i.proto, i.own))
      && (forall k :: k in Keys(r) <==> exists j :: 0 <= j < |i.own| && OutKey(i.proto, i.own[j].key) == k)
      && UniqueKeys(r)
  {
    var r := SerializeInstance(i);
    var ks := OutKeys(i.proto, i.own);
    FoldKeyOrder(i.proto, i.own, []);
    AppendedAllMembers([], ks);
    AppendedAllDistinct([], ks);
    forall k | k in Keys(r)
      ensures exists j :: 0 <= j < |i.own| && OutKey(i.proto, i.own[j].key) == k
    {
      var j :| 0 <= j < |ks| && ks[j] == k;
    }
    forall a, b | 0 <= a < b < |r|
      ensures r[a].key != r[b].key
    {
      assert Keys(r)[a] == r[a].key && Keys(r)[b] == r[b].key;
    }
  }

  /**
   * The value under an output key is the value of the last field written
   * under it: flattened when the field is bound to a truthy API key, the
   * field's own value otherwise.
   */
  lemma SerializeLastWins(i: Instance, j: int)
    requires Rooted(Model(i))
    requires 0 <= j < |i.own|
    requires forall j' :: j < j' < |i.own| ==> OutKey(i.proto, i.own[j'].key) != OutKey(i.proto, i.own[j].key)
    ensures Get(SerializeInstance(i), OutKey(i.proto, i.own[j].key))
         == Some(if Truthy(FindApiKey(i.proto, i.own[j].key)) then Flatten(i.own[j].val) else i.own[j].val)
  {
    FoldLastWins(i.proto, i.own, [], j);
  }

  /** An instance without bound fields serializes to a copy of its own fields. */
  lemma SerializeUnboundIsCopy(i: Instance)
    requires Rooted(Model(i)) && UniqueKeys(i.own)
    requires forall f :: f in i.own ==> !Truthy(FindApiKey(i.proto, f.key))
    ensures SerializeInstance(i) == i.own
  {
    assert [] + i.own == i.own;
    FoldUnboundCopies(i.proto, i.own, []);
  }

  /**
   * Flattening works one level deep: the result is never an instance; an
   * array keeps its length and order, its instances are serialized and its
   * other elements are kept; plain objects and primitives are kept as they
   * are (including any instances a plain object holds).
   */
  lemma {:induction false} FlattenOneLevel(v: Value)
    requires Rooted(v)
    ensures !Flatten(v).Model?
    ensures v.Model? ==> Flatten(v) == Plain(SerializeInstance(v.inst))
    ensures !v.Model? && !v.Arr? ==> Flatten(v) == v
    ensures v.Arr? ==> FlattenedArray(v.elems, Flatten(v))
  {
    if v.Arr? {
      FlattenElemsPointwise(v.elems);
    }
  }

  /** `r` is `es.map(k => k instanceof Serializable ? k.serialize() : k)`. */
  ghost predicate FlattenedArray(es: seq<Value>, r: Value)
    requires forall e :: e in es ==> Rooted(e)
    reads Footprint(ElemsProtos(es))
  {
    ElemsFootprints(es);
    && r.Arr? && |r.elems| == |es|
    && forall j :: 0 <= j < |es| ==>
         (if es[j].Model? then r.elems[j] == Plain(SerializeInstance(es[j].inst)) else r.elems[j] == es[j])
  }

  /** Each element's footprint lies within the array's. */
  lemma {:induction false} ElemsFootprints(es: seq<Value>)
    requires forall e :: e in es ==> Rooted(e)
    ensures forall j :: 0 <= j < |es| ==> Footprint(Protos(es[j])) <= Footprint(ElemsProtos(es))
    decreases es
  {
    if es != [] {
      ElemsFootprints(es[1..]);
      forall j | 0 <= j < |es|
        ensures Footprint(Protos(es[j])) <= Footprint(ElemsProtos(es))
      {
        if j == 0 {
          FootprintMono(Protos(es[0]), ElemsProtos(es));
        } else {
          assert es[1..][j - 1] == es[j];
          FootprintMono(ElemsProtos(es[1..]), ElemsProtos(es));
        }
      }
    }
  }

  lemma {:induction false} FlattenElemsPointwise(es: seq<Value>)
    requires forall e :: e in es ==> Rooted(e)
    ensures FlattenedArray(es, Arr(FlattenElems(es)))
    decreases es
  {
    if es != [] {
      FlattenElemsPointwise(es[1..]);
      var r := FlattenElems(es);
      assert forall j :: 1 <= j < |es| ==> es[1..][j - 1] == es[j] && r[j] == FlattenElems(es[1..])[j - 1];
    }
  }

  /** The fold over two fields is two steps. */
  lemma FoldTwo(p: Proto, a: Prop, b: Prop)
    requires p.Rooted() && Rooted(a.val) && Rooted(b.val)
    ensures Fold(p, [a, b], []) == Step(p, Step(p, [], a), b)
  {
    var acc := Step(p, [], a);
    calc {
      Fold(p, [a, b], []);
      { assert [a, b][0] == a && [a, b][1..] == [b]; }
      Fold(p, [b], acc);
      { assert [b][0] == b && [b][1..] == []; }
      Fold(p, [], Step(p, acc, b));
    }
  }

  /** The second assignment of the scenario below: `id` is a new key. */
  lemma AppendId(acc: seq<Prop>)
    requires acc == [Prop("full_name", Str("Ada"))]
    ensures Put(acc, "id", Num(7)) == [Prop("full_name", Str("Ada")), Prop("id", Num(7))]
  {
    PutNewKeyAppends(acc, "id", Num(7));
  }

  /**
   * A class binds `fullName` to `full_name`; serializing an instance with
   * fields `fullName` and `id` renames the first and copies the second.
   */
  method RenameScenario() returns (i: Instance, r: seq<Prop>)
    ensures Rooted(Model(i)) && r == SerializeInstance(i)
    ensures i.own == [Prop("fullName", Str("Ada")), Prop("id", Num(7))]
    ensures FindApiKey(i.proto, "fullName") == Some("full_name") && FindApiKey(i.proto, "id") == None
    ensures r == [Prop("full_name", Str("Ada")), Prop("id", Num(7))]
  {
    var user := new Proto(null);
    BindPropertyToApi(BindParams(Some("full_name"), None), user, "fullName");
    var own := [Prop("fullName", Str("Ada")), Prop("id", Num(7))];
    i := Instance(user, own);
    assert user.names.vals == map["fullName" := "full_name"];
    assert OutKey(user, "fullName") == "full_name" && OutValue(user, own[0]) == Str("Ada");
    assert OutKey(user, "id") == "id" && OutValue(user, own[1]) == Num(7);
    assert forall f :: f in own ==> Rooted(f.val);
    var acc := Step(user, [], own[0]);
    assert acc == [Prop("full_name", Str("Ada"))];
    var last := Step(user, acc, own[1]);
    assert last == Put(acc, "id", Num(7));
    AppendId(acc);
    FoldTwo(user, own[0], own[1]);
    r := last;
  }
}
