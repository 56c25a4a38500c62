/**
 * The round trip the unit tests check with `assert_eval`: evaluating the
 * tree the parser builds for `repr(v)` gives back `v`, for every value whose
 * `repr` is source text the walker accepts.
 */
module RoundTrip {

  import opened Wrappers
  import opened Ast
  import opened Values
  import Dicts
  import opened SafeEval
  import opened SafeEvalProperties

  /**
   * The tree of the source text of `v`: `None`, `True` and `False` are names,
   * a negative number is a minus applied to its magnitude, and an instance of a
   * `datetime` class is a call written through its module, as
   * `datetime.timedelta(0, 2)`. For every value but a class this text is
   * `repr(v)`. A class itself is written here as its dotted name
   * `datetime.datetime`; its `repr`, `<type 'datetime.datetime'>`, does not
   * parse, so a class is never `Reproducible`.
   */
  function ReprTree(v: Value): Node
    decreases v
  {
    match v
    case NoneVal => Name("None")
    case BoolVal(b) => Name(if b then "True" else "False")
    case IntVal(i) => if i < 0 then UnarySub(Const(IntLit(-i))) else Const(IntLit(i))
    case FloatVal(r) => if r < 0.0 then UnarySub(Const(FloatLit(-r))) else Const(FloatLit(r))
    case StrVal(s) => Const(StrLit(s))
    case ListVal(items) => List(ReprAll(items))
    case TupleVal(items) => Tuple(ReprAll(items))
    case DictVal(entries) => Dict(ReprEntries(entries))
    case CallableRef(m, name) => Getattr(Name(m), name)
    case Constructed(m, name, args) => CallFunc(Getattr(Name(m), name), ReprAll(args))
  }

  function ReprAll(vs: seq<Value>): (r: seq<Node>)
    ensures |r| == |vs| && forall i :: 0 <= i < |vs| ==> r[i] == ReprTree(vs[i])
    decreases vs
  {
    if vs == [] then [] else [ReprTree(vs[0])] + ReprAll(vs[1..])
  }

  function ReprEntry(p: (Value, Value)): (Node, Node)
    decreases p
  {
    (ReprTree(p.0), ReprTree(p.1))
  }

  function ReprEntries(es: seq<(Value, Value)>): (r: seq<(Node, Node)>)
    ensures |r| == |es| && forall i :: 0 <= i < |es| ==> r[i] == ReprEntry(es[i])
    decreases es
  {
    if es == [] then [] else [ReprEntry(es[0])] + ReprEntries(es[1..])
  }

  /**
   * The values whose `repr` is source the walker accepts: dicts are real dicts
   * (hashable, distinct keys), every instance is of a whitelisted class, and no
   * class itself occurs, at the top or nested.
   */
  predicate Reproducible(v: Value)
    decreases v
  {
    match v
    case ListVal(items) => forall i :: 0 <= i < |items| ==> Reproducible(items[i])
    case TupleVal(items) => forall i :: 0 <= i < |items| ==> Reproducible(items[i])
    case DictVal(entries) =>
      && Dicts.DistinctKeys(entries)
      && forall i :: 0 <= i < |entries| ==>
           Hashable(entries[i].0) && Reproducible(entries[i].0) && Reproducible(entries[i].1)
    case CallableRef(_, _) => false
    case Constructed(m, name, args) =>
      name in AllowedCallables && AllowedCallables[name] == m && forall i :: 0 <= i < |args| ==> Reproducible(args[i])
    case _ => true
  }

  lemma {:induction false} ReprTreeRoundTrip(v: Value)
    requires Reproducible(v)
    ensures Visit(ReprTree(v)) == Ok(v)
    decreases v
  {
    match v
    case ListVal(items) => ListRoundTrip(items);
    case TupleVal(items) => TupleRoundTrip(items);
    case DictVal(entries) => DictRoundTrip(entries);
    case Constructed(m, name, args) => ConstructedRoundTrip(m, name, args);
    case _ => ScalarRoundTrip(v);
  }

  lemma ScalarRoundTrip(v: Value)
    requires !v.ListVal? && !v.TupleVal? && !v.DictVal? && !v.Constructed?
    requires Reproducible(v)
    ensures Visit(ReprTree(v)) == Ok(v)
  {
    match v
    case NoneVal => NameRoundTrip(v);
    case BoolVal(b) => NameRoundTrip(v);
    case IntVal(i) =>
    case FloatVal(r) =>
    case StrVal(s) =>
    case CallableRef(_, _) =>
  }

  lemma NameRoundTrip(v: Value)
    requires v.NoneVal? || v.BoolVal?
    ensures Visit(ReprTree(v)) == Ok(v)
  {
    if v.NoneVal? {
      NoneName();
    } else if v.b {
      TrueName();
    } else {
      FalseName();
    }
  }

  // The three names `repr` writes.

  lemma NoneName()
    ensures Visit(Name("None")) == Ok(NoneVal)
  {
    BareNames("None");
  }

  lemma TrueName()
    ensures Visit(Name("True")) == Ok(BoolVal(true))
  {
    BareNames("True");
  }

  lemma FalseName()
    ensures Visit(Name("False")) == Ok(BoolVal(false))
  {
    BareNames("False");
  }

  lemma {:induction false} ListRoundTrip(items: seq<Value>)
    requires Reproducible(ListVal(items))
    ensures Visit(ReprTree(ListVal(items))) == Ok(ListVal(items))
    decreases items, 1
  {
    ReprAllRoundTrip(items);
  }

  lemma {:induction false} TupleRoundTrip(items: seq<Value>)
    requires Reproducible(TupleVal(items))
    ensures Visit(ReprTree(TupleVal(items))) == Ok(TupleVal(items))
    decreases items, 1
  {
    ReprAllRoundTrip(items);
  }

  lemma {:induction false} DictRoundTrip(entries: seq<(Value, Value)>)
    requires Reproducible(DictVal(entries))
    ensures Visit(ReprTree(DictVal(entries))) == Ok(DictVal(entries))
    decreases entries, 1
  {
    ReprEntriesRoundTrip(entries);
    Dicts.FromDistinctPairs(entries);
  }

  lemma {:induction false} ConstructedRoundTrip(m: string, name: string, args: seq<Value>)
    requires Reproducible(Constructed(m, name, args))
    ensures Visit(ReprTree(Constructed(m, name, args))) == Ok(Constructed(m, name, args))
    decreases args, 1
  {
    var callee := Getattr(Name(m), name);
    assert Visit(callee) == Ok(CallableRef(m, name));
    ReprAllRoundTrip(args);
    assert ReprTree(Constructed(m, name, args)) == CallFunc(callee, ReprAll(args));
  }

  lemma {:induction false} ReprAllRoundTrip(vs: seq<Value>)
    requires forall i :: 0 <= i < |vs| ==> Reproducible(vs[i])
    ensures VisitAll(ReprAll(vs)) == Ok(vs)
    decreases vs, 0
  {
    if vs != [] {
      ReprTreeRoundTrip(vs[0]);
      ReprAllRoundTrip(vs[1..]);
      assert ReprAll(vs)[1..] == ReprAll(vs[1..]);
      assert [vs[0]] + vs[1..] == vs;
    }
  }

  lemma {:induction false} ReprEntryRoundTrip(p: (Value, Value))
    requires Reproducible(p.0) && Reproducible(p.1)
    ensures VisitItem(ReprEntry(p)) == Ok(p)
    decreases p
  {
    ReprTreeRoundTrip(p.0);
    ReprTreeRoundTrip(p.1);
  }

  lemma {:induction false} ReprEntriesRoundTrip(es: seq<(Value, Value)>)
    requires forall i :: 0 <= i < |es| ==> Reproducible(es[i].0) && Reproducible(es[i].1)
    ensures VisitItems(ReprEntries(es)) == Ok(es)
    decreases es, 0
  {
    if es != [] {
      ReprEntryRoundTrip(es[0]);
      ReprEntriesRoundTrip(es[1..]);
      assert ReprEntries(es)[1..] == ReprEntries(es[1..]);
      assert [es[0]] + es[1..] == es;
    }
  }

  /** `data_eval(repr(v)) == v`, at the level of the parsed tree, which the parser wraps in an `Expression`. */
  lemma AssertEval(v: Value)
    requires Reproducible(v)
    ensures Visit(Expression(ReprTree(v))) == Ok(v)
  {
    ReprTreeRoundTrip(v);
  }
}
