/**
 * JavaScript values as the serializer sees them, and plain objects as
 * ordered property lists: the order is the order `Object.keys` enumerates,
 * and assigning `o[k] = v` overwrites an existing property in place or
 * appends a new one at the end.
 */
module JsValues {
  import opened Wrappers
  import BindingRegistry

  /**
   * A value stored in a field or a payload. `Model` is a value for which
   * `instanceof Serializable` holds; `Plain` is any other object.
   */
  datatype Value =
    | Undefined
    | Null
    | Bool(b: bool)
    | Num(n: int)
    | Str(s: string)
    | Arr(elems: seq<Value>)
    | Plain(props: seq<Prop>)
    | Model(inst: Instance)

  /** One own enumerable string-keyed property. */
  datatype Prop = Prop(key: string, val: Value)

  /**
   * An instance of a `Serializable` subclass: the prototype of its class,
   * where the binding registry is looked up, and its own fields.
   */
  datatype Instance = Instance(proto: BindingRegistry.Proto, own: seq<Prop>)

  /** `Object.keys(o)` */
  function Keys(ps: seq<Prop>): (ks: seq<string>)
    ensures |ks| == |ps|
    ensures forall i :: 0 <= i < |ps| ==> ks[i] == ps[i].key
  {
    if ps == [] then [] else [ps[0].key] + Keys(ps[1..])
  }

  /** A JavaScript object never holds two own properties under one key. */
  ghost predicate UniqueKeys(ps: seq<Prop>)
  {
    BindingRegistry.Distinct(Keys(ps))
  }

  /** The own property `k` of `ps`, or None when `ps` has no own property `k`. */
  function Get(ps: seq<Prop>, k: string): (r: Option<Value>)
    ensures r.Some? <==> k in Keys(ps)
  {
    if ps == [] then None
    else if ps[0].key == k then Some(ps[0].val)
    else Get(ps[1..], k)
  }

  /** `o.hasOwnProperty(k)` */
  predicate HasOwn(ps: seq<Prop>, k: string)
  {
    k in Keys(ps)
  }

  /** `o[k]` for an own property; `undefined` when there is none. */
  function Read(ps: seq<Prop>, k: string): Value
  {
    match Get(ps, k)
    case Some(v) => v
    case None => Undefined
  }

  /** JavaScript truthiness of a `string | undefined`. */
  function Truthy(k: Option<string>): bool
  {
    k.Some? && k.value != ""
  }

  /** `o[k] = v`: overwrite the property in place, or append it. */
  function Put(ps: seq<Prop>, k: string, v: Value): (r: seq<Prop>)
    ensures Keys(r) == if k in Keys(ps) then Keys(ps) else Keys(ps) + [k]
    ensures Get(r, k) == Some(v)
    ensures forall k' :: k' != k ==> Get(r, k') == Get(ps, k')
  {
    if ps == [] then [Prop(k, v)]
    else if ps[0].key == k then
      var r := [Prop(k, v)] + ps[1..];
      assert r[1..] == ps[1..];
      r
    else
      var rest := Put(ps[1..], k, v);
      var r := [ps[0]] + rest;
      assert r[1..] == rest;
      r
  }

  /** Assignment keeps a property list free of duplicate keys. */
  lemma PutKeepsUniqueKeys(ps: seq<Prop>, k: string, v: Value)
    requires UniqueKeys(ps)
    ensures UniqueKeys(Put(ps, k, v))
  {
    var r := Put(ps, k, v);
    forall i, j | 0 <= i < j < |r|
      ensures r[i].key != r[j].key
    {
      assert Keys(r)[i] == r[i].key && Keys(r)[j] == r[j].key;
      if j < |ps| {
        assert Keys(ps)[i] == ps[i].key && Keys(ps)[j] == ps[j].key;
      } else {
        assert Keys(ps)[i] == ps[i].key;
      }
    }
  }

  /** Assigning a key the object does not have appends one property at the end. */
  lemma {:induction false} PutNewKeyAppends(ps: seq<Prop>, k: string, v: Value)
    requires k !in Keys(ps)
    ensures Put(ps, k, v) == ps + [Prop(k, v)]
  {
    if ps != [] {
      assert ps[0].key != k && k !in Keys(ps[1..]) by {
        assert Keys(ps) == [ps[0].key] + Keys(ps[1..]);
      }
      PutNewKeyAppends(ps[1..], k, v);
      HeadThenTail(ps, [Prop(k, v)]);
    }
  }

  lemma HeadThenTail(ps: seq<Prop>, tail: seq<Prop>)
    requires ps != []
    ensures [ps[0]] + (ps[1..] + tail) == ps + tail
  {
    assert ps == [ps[0]] + ps[1..];
  }

  /** Each prototype of the classes of the instances inside `v` has a finite chain. */
  ghost predicate Rooted(v: Value)
  {
    match v
    case Arr(es) => forall e :: e in es ==> Rooted(e)
    case Plain(ps) => forall p :: p in ps ==> Rooted(p.val)
    case Model(i) => i.proto.Rooted() && forall p :: p in i.own ==> Rooted(p.val)
    case _ => true
  }
}
