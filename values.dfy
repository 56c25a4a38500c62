/**
 * The Python objects the walker can produce, and the two built-in behaviours
 * of Python it relies on: unary minus, and the hashing and key equality that
 * `dict(...)` uses.
 */
module Values {

  import opened Wrappers

  datatype Value =
    | NoneVal
    | BoolVal(b: bool)
    | IntVal(i: int)
    | FloatVal(r: real)
    | StrVal(s: string)
    | ListVal(items: seq<Value>)
    | TupleVal(items: seq<Value>)
    | DictVal(entries: seq<(Value, Value)>)               // insertion order, keys pairwise distinct
    | CallableRef(moduleName: string, name: string)       // the class `moduleName.name` itself
    | Constructed(moduleName: string, name: string, args: seq<Value>)  // `moduleName.name(*args)`

  /** bool, int and float: the values Python compares numerically. */
  predicate IsNumber(v: Value) {
    v.BoolVal? || v.IntVal? || v.FloatVal?
  }

  function NumberOf(v: Value): real
    requires IsNumber(v)
  {
    match v
    case BoolVal(b) => if b then 1.0 else 0.0
    case IntVal(i) => i as real
    case FloatVal(r) => r
  }

  /**
   * Python's unary minus on the constants `visitConst` can return: an int or a
   * float is negated and a string raises TypeError (None here). A bool, which
   * no constant is, negates as the int 0 or -1; the remaining values are never
   * negated by the walker.
   */
  function Negate(v: Value): (r: Option<Value>)
    ensures r.Some? <==> IsNumber(v)
    ensures r.Some? ==> IsNumber(r.value) && NumberOf(r.value) == -NumberOf(v)
    ensures r.Some? && v.FloatVal? ==> r.value.FloatVal?
    ensures r.Some? && !v.FloatVal? ==> r.value.IntVal?
  {
    match v
    case BoolVal(b) => Some(IntVal(if b then -1 else 0))
    case IntVal(i) => Some(IntVal(-i))
    case FloatVal(r) => Some(FloatVal(-r))
    case _ => None
  }

  /** Whether `hash(v)` succeeds: lists and dicts are unhashable, and so is a tuple holding one. */
  predicate Hashable(v: Value)
    decreases v
  {
    match v
    case ListVal(_) => false
    case DictVal(_) => false
    case TupleVal(items) => forall i :: 0 <= i < |items| ==> Hashable(items[i])
    case _ => true
  }

  /**
   * Python's `==` as a dict uses it on keys: numbers by numeric value (so
   * `True`, `1` and `1.0` are one key), tuples element by element, everything
   * else by identity of value.
   */
  predicate SameKey(a: Value, b: Value)
    decreases a
  {
    if IsNumber(a) || IsNumber(b) then
      IsNumber(a) && IsNumber(b) && NumberOf(a) == NumberOf(b)
    else if a.TupleVal? && b.TupleVal? then
      |a.items| == |b.items| && forall i :: 0 <= i < |a.items| ==> SameKey(a.items[i], b.items[i])
    else
      a == b
  }

  lemma {:induction false} SameKeyReflexive(a: Value)
    ensures SameKey(a, a)
    decreases a
  {
    if a.TupleVal? && !IsNumber(a) {
      forall i | 0 <= i < |a.items|
        ensures SameKey(a.items[i], a.items[i])
      {
        SameKeyReflexive(a.items[i]);
      }
    }
  }

  lemma {:induction false} SameKeySymmetric(a: Value, b: Value)
    requires SameKey(a, b)
    ensures SameKey(b, a)
    decreases a
  {
    if !IsNumber(a) && !IsNumber(b) && a.TupleVal? && b.TupleVal? {
      forall i | 0 <= i < |b.items|
        ensures SameKey(b.items[i], a.items[i])
      {
        SameKeySymmetric(a.items[i], b.items[i]);
      }
    }
  }

  lemma {:induction false} SameKeyTransitive(a: Value, b: Value, c: Value)
    requires SameKey(a, b) && SameKey(b, c)
    ensures SameKey(a, c)
    decreases a
  {
    if !IsNumber(a) && !IsNumber(b) && !IsNumber(c) && a.TupleVal? && b.TupleVal? && c.TupleVal? {
      forall i | 0 <= i < |a.items|
        ensures SameKey(a.items[i], c.items[i])
      {
        SameKeyTransitive(a.items[i], b.items[i], c.items[i]);
      }
    }
  }
}
