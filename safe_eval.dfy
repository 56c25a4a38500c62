/**
 * The `SafeEval` walker: reduces a parsed expression tree to a value,
 * accepting only the node classes it has a `visit*` method for and raising
 * an error for everything else.
 */
module SafeEval {

  import opened Wrappers
  import opened Ast
  import opened Values
  import opened Errors
  import Dicts

  /** `NAME_MAP`: the only bare names that are values, looked up in lower case. */
  const NameMap: map<string, Value> := map["none" := NoneVal, "true" := BoolVal(true), "false" := BoolVal(false)]

  /** `ALLOWED_CALLABLES`: callable name to the module it is imported from. */
  const AllowedCallables: map<string, string> := map["datetime" := "datetime", "timedelta" := "datetime"]

  /** Python 2's `str.lower` on an identifier: ASCII upper-case letters become lower-case. */
  function LowerChar(c: char): char {
    if 'A' <= c <= 'Z' then (c as int + 32) as char else c
  }

  function Lower(s: string): (r: string)
    ensures |r| == |s| && forall i :: 0 <= i < |s| ==> r[i] == LowerChar(s[i])
  {
    if s == [] then [] else [LowerChar(s[0])] + Lower(s[1..])
  }

  function ConstValue(c: Literal): Value {
    match c
    case IntLit(i) => IntVal(i)
    case FloatLit(r) => FloatVal(r)
    case StrLit(s) => StrVal(s)
  }

  function VisitName(name: string): Result<Value, Error> {
    var lower := Lower(name);
    if lower in NameMap then Ok(NameMap[lower])
    else Err(UnsafeSourceError(StringsMustBeQuoted, name))
  }

  /** `visitConst` reads `node.value`; a node of any other class has no such attribute. */
  function VisitConst(n: Node): Result<Value, Error> {
    match n
    case Const(c) => Ok(ConstValue(c))
    case _ => Err(HostException(AttributeError))
  }

  function VisitUnarySub(child: Node): Result<Value, Error> {
    var number :- VisitConst(child);
    match Negate(number)
    case Some(r) => Ok(r)
    case None => Err(HostException(TypeError))
  }

  /** The object expression of `expr.attrname` is never evaluated. */
  function VisitGetattr(attrname: string): Result<Value, Error> {
    if attrname in AllowedCallables then Ok(CallableRef(AllowedCallables[attrname], attrname))
    else Err(UnsafeSourceError(CallableNotAllowed, attrname))
  }

  /** `callable(*args)`: only the whitelisted classes are callable; construction is kept symbolic. */
  function Call(f: Value, args: seq<Value>): Result<Value, Error> {
    match f
    case CallableRef(m, n) => Ok(Constructed(m, n, args))
    case _ => Err(HostException(TypeError))
  }

  /** `SafeEval().visit(node)`, with the dispatch on the node's class written as a match. */
  function Visit(n: Node): Result<Value, Error>
    decreases n
  {
    match n
    case Expression(node) => Visit(node)
    case Name(name) => VisitName(name)
    case Const(c) => Ok(ConstValue(c))
    case UnarySub(expr) => VisitUnarySub(expr)
    case Dict(items) =>
      var pairs :- VisitItems(items);
      var entries :- Dicts.FromPairs(pairs);
      Ok(DictVal(entries))
    case Tuple(nodes) =>
      var vs :- VisitAll(nodes);
      Ok(TupleVal(vs))
    case List(nodes) =>
      var vs :- VisitAll(nodes);
      Ok(ListVal(vs))
    case Getattr(_, attrname) => VisitGetattr(attrname)
    case CallFunc(node, args) =>
      var callable :- Visit(node);
      var vs :- VisitAll(args);
      Call(callable, vs)
    case Other(kind) => Err(UnsafeSourceError(UnsupportedConstruct, kind))
  }

  /** `[self.visit(i) for i in nodes]`: left to right, the first error ends it. */
  function VisitAll(nodes: seq<Node>): Result<seq<Value>, Error>
    decreases nodes
  {
    if nodes == [] then Ok([])
    else
      var v :- Visit(nodes[0]);
      var rest :- VisitAll(nodes[1..]);
      Ok([v] + rest)
  }

  /** `(self.visit(k), self.visit(v))`: the key first. */
  function VisitItem(item: (Node, Node)): Result<(Value, Value), Error>
    decreases item
  {
    var k :- Visit(item.0);
    var v :- Visit(item.1);
    Ok((k, v))
  }

  function VisitItems(items: seq<(Node, Node)>): Result<seq<(Value, Value)>, Error>
    decreases items
  {
    if items == [] then Ok([])
    else
      var p :- VisitItem(items[0]);
      var rest :- VisitItems(items[1..]);
      Ok([p] + rest)
  }
}

/** What the walker promises, stated against its definition in module SafeEval. */
module SafeEvalProperties {

  import opened Wrappers
  import opened Ast
  import opened Values
  import opened Errors
  import Dicts
  import opened SafeEval

  // ---------------------------------------------------------------------------
  // Bare names

  function UpperChar(c: char): char {
    if 'a' <= c <= 'z' then (c as int - 32) as char else c
  }

  /** `name` is the lower-case word `w` written in any mixture of letter cases. */
  predicate SpellsIgnoringCase(name: string, w: string) {
    |name| == |w| && forall i :: 0 <= i < |w| ==> name[i] == w[i] || name[i] == UpperChar(w[i])
  }

  predicate IsLowerWord(w: string) {
    forall i :: 0 <= i < |w| ==> 'a' <= w[i] <= 'z'
  }

  lemma LowerMatchesWord(name: string, w: string)
    requires IsLowerWord(w)
    ensures Lower(name) == w <==> SpellsIgnoringCase(name, w)
  {
    if SpellsIgnoringCase(name, w) {
      assert forall i :: 0 <= i < |w| ==> Lower(name)[i] == w[i];
    }
  }

  /**
   * A bare name is a value only when it spells `none`, `true` or `false` in
   * some letter case; every other bare name is rejected as an unquoted string.
   */
  lemma BareNames(name: string)
    ensures Visit(Name(name)).Ok? <==>
      SpellsIgnoringCase(name, "none") || SpellsIgnoringCase(name, "true") || SpellsIgnoringCase(name, "false")
    ensures SpellsIgnoringCase(name, "none") ==> Visit(Name(name)) == Ok(NoneVal)
    ensures SpellsIgnoringCase(name, "true") ==> Visit(Name(name)) == Ok(BoolVal(true))
    ensures SpellsIgnoringCase(name, "false") ==> Visit(Name(name)) == Ok(BoolVal(false))
    ensures Visit(Name(name)).Err? ==> Visit(Name(name)) == Err(UnsafeSourceError(StringsMustBeQuoted, name))
  {
    LowerMatchesWord(name, "none");
    LowerMatchesWord(name, "true");
    LowerMatchesWord(name, "false");
  }

  // ---------------------------------------------------------------------------
  // Negative numbers

  /** Unary minus succeeds exactly on a numeric constant and gives its negation. */
  lemma UnarySubMeaning(child: Node)
    ensures Visit(UnarySub(child)).Ok? <==> child.Const? && !child.value.StrLit?
    ensures child.Const? && child.value.IntLit? ==> Visit(UnarySub(child)) == Ok(IntVal(-child.value.i))
    ensures child.Const? && child.value.FloatLit? ==> Visit(UnarySub(child)) == Ok(FloatVal(-child.value.r))
    ensures !child.Const? ==> Visit(UnarySub(child)) == Err(HostException(AttributeError))
    ensures child.Const? && child.value.StrLit? ==> Visit(UnarySub(child)) == Err(HostException(TypeError))
  {
  }

  // ---------------------------------------------------------------------------
  // Sequences of children

  /** `PrefixOk(nodes, k)`: the first `k` children all evaluate. */
  predicate PrefixOk(nodes: seq<Node>, k: int)
    requires 0 <= k <= |nodes|
  {
    forall j :: 0 <= j < k ==> Visit(nodes[j]).Ok?
  }

  /**
   * The children are evaluated left to right: all succeed and give the result
   * element for element, or the error is that of the first child that fails.
   */
  lemma {:induction false} VisitAllMeaning(nodes: seq<Node>)
    ensures VisitAll(nodes).Ok? <==> forall i :: 0 <= i < |nodes| ==> Visit(nodes[i]).Ok?
    ensures VisitAll(nodes).Ok? ==>
      |VisitAll(nodes).value| == |nodes| &&
      forall i :: 0 <= i < |nodes| ==> VisitAll(nodes).value[i] == Visit(nodes[i]).value
    ensures VisitAll(nodes).Err? ==>
      exists k :: 0 <= k < |nodes| && PrefixOk(nodes, k) && Visit(nodes[k]).Err? &&
        VisitAll(nodes).error == Visit(nodes[k]).error
    decreases |nodes|
  {
    if nodes != [] {
      var rest := nodes[1..];
      VisitAllMeaning(rest);
      assert forall i :: 1 <= i < |nodes| ==> nodes[i] == rest[i - 1];
      if Visit(nodes[0]).Err? {
        assert PrefixOk(nodes, 0);
      } else if VisitAll(rest).Err? {
        var k :| 0 <= k < |rest| && PrefixOk(rest, k) && Visit(rest[k]).Err? && VisitAll(rest).error == Visit(rest[k]).error;
        assert PrefixOk(nodes, k + 1);
      }
    }
  }

  /** Both halves of a dict item evaluate; otherwise the key's error comes before the value's. */
  predicate ItemOk(item: (Node, Node)) {
    Visit(item.0).Ok? && Visit(item.1).Ok?
  }

  lemma VisitItemOrder(item: (Node, Node))
    ensures VisitItem(item).Ok? <==> ItemOk(item)
    ensures Visit(item.0).Err? ==> VisitItem(item) == Err(Visit(item.0).error)
    ensures Visit(item.0).Ok? && Visit(item.1).Err? ==> VisitItem(item) == Err(Visit(item.1).error)
  {
  }

  /** Each pair is evaluated key first, then value, and the pairs left to right. */
  lemma {:induction false} VisitItemsMeaning(items: seq<(Node, Node)>)
    ensures VisitItems(items).Ok? <==> forall i :: 0 <= i < |items| ==> ItemOk(items[i])
    ensures VisitItems(items).Ok? ==>
      |VisitItems(items).value| == |items| &&
      forall i :: 0 <= i < |items| ==>
        VisitItems(items).value[i] == (Visit(items[i].0).value, Visit(items[i].1).value)
    ensures VisitItems(items).Err? ==>
      exists k :: 0 <= k < |items| && (forall j :: 0 <= j < k ==> ItemOk(items[j])) && !ItemOk(items[k]) &&
        VisitItems(items).error == VisitItem(items[k]).error
    decreases |items|
  {
    if items != [] {
      var rest := items[1..];
      VisitItemsMeaning(rest);
      assert forall i :: 1 <= i < |items| ==> items[i] == rest[i - 1];
      if VisitItem(items[0]).Ok? && VisitItems(rest).Err? {
        var k :| 0 <= k < |rest| && (forall j :: 0 <= j < k ==> ItemOk(rest[j])) && !ItemOk(rest[k]) &&
          VisitItems(rest).error == VisitItem(rest[k]).error;
        assert forall j :: 0 <= j < k + 1 ==> ItemOk(items[j]);
      }
    }
  }

  /** A list or tuple has one element per child, in order; any failing child fails it. */
  lemma Containers(nodes: seq<Node>)
    ensures Visit(List(nodes)).Ok? <==> forall i :: 0 <= i < |nodes| ==> Visit(nodes[i]).Ok?
    ensures Visit(Tuple(nodes)).Ok? <==> forall i :: 0 <= i < |nodes| ==> Visit(nodes[i]).Ok?
    ensures Visit(List(nodes)).Ok? ==>
      && Visit(List(nodes)).value.ListVal?
      && |Visit(List(nodes)).value.items| == |nodes|
      && forall i :: 0 <= i < |nodes| ==> Visit(List(nodes)).value.items[i] == Visit(nodes[i]).value
    ensures Visit(Tuple(nodes)).Ok? ==>
      && Visit(Tuple(nodes)).value.TupleVal?
      && Visit(Tuple(nodes)).value.items == Visit(List(nodes)).value.items
    ensures Visit(List(nodes)).Err? ==> Visit(List(nodes)).error == Visit(Tuple(nodes)).error == VisitAll(nodes).error
  {
    VisitAllMeaning(nodes);
  }

  /**
   * A dict display succeeds exactly when every key and value evaluates and
   * every key is hashable; its entries have distinct keys, and looking up a
   * key gives the value of the last pair whose key equals it.
   */
  lemma DictMeaning(items: seq<(Node, Node)>)
    ensures Visit(Dict(items)).Ok? <==>
      (forall i :: 0 <= i < |items| ==> ItemOk(items[i])) &&
      (forall i :: 0 <= i < |items| ==> Hashable(Visit(items[i].0).value))
    ensures Visit(Dict(items)).Ok? ==>
      && Visit(Dict(items)).value.DictVal?
      && Dicts.DistinctKeys(Visit(Dict(items)).value.entries)
      && forall q :: Dicts.Lookup(Visit(Dict(items)).value.entries, q) == Dicts.LastValue(VisitItems(items).value, q)
    ensures VisitItems(items).Err? ==> Visit(Dict(items)) == Err(VisitItems(items).error)
  {
    VisitItemsMeaning(items);
    if VisitItems(items).Ok? {
      var pairs := VisitItems(items).value;
      Dicts.FromPairsSucceeds(pairs);
      assert (forall i :: 0 <= i < |pairs| ==> Hashable(pairs[i].0)) <==>
        (forall i :: 0 <= i < |items| ==> Hashable(Visit(items[i].0).value));
      if Dicts.FromPairs(pairs).Ok? {
        Dicts.FromPairsDistinct(pairs);
        forall q
          ensures Dicts.Lookup(Dicts.FromPairs(pairs).value, q) == Dicts.LastValue(pairs, q)
        {
          Dicts.FromPairsLookup(pairs, q);
        }
      }
    }
  }

  // ---------------------------------------------------------------------------
  // Callables

  /**
   * `expr.attrname` names a callable exactly when `attrname` is whitelisted,
   * and the object expression plays no part in the outcome.
   */
  lemma GetattrWhitelist(expr: Node, attrname: string, other: Node)
    ensures Visit(Getattr(expr, attrname)).Ok? <==> attrname == "datetime" || attrname == "timedelta"
    ensures Visit(Getattr(expr, attrname)).Ok? ==> Visit(Getattr(expr, attrname)) == Ok(CallableRef("datetime", attrname))
    ensures Visit(Getattr(expr, attrname)).Err? ==>
      Visit(Getattr(expr, attrname)) == Err(UnsafeSourceError(CallableNotAllowed, attrname))
    ensures Visit(Getattr(expr, attrname)) == Visit(Getattr(other, attrname))
  {
  }

  /**
   * A call evaluates its callee first, then its arguments left to right, and
   * only then calls; it succeeds exactly on a whitelisted callable with
   * arguments that all evaluate.
   */
  lemma CallFuncOrder(callee: Node, args: seq<Node>)
    ensures Visit(callee).Err? ==> Visit(CallFunc(callee, args)) == Err(Visit(callee).error)
    ensures Visit(callee).Ok? && VisitAll(args).Err? ==> Visit(CallFunc(callee, args)) == Err(VisitAll(args).error)
    ensures Visit(callee).Ok? && VisitAll(args).Ok? && !Visit(callee).value.CallableRef? ==>
      Visit(CallFunc(callee, args)) == Err(HostException(TypeError))
    ensures Visit(CallFunc(callee, args)).Ok? <==>
      Visit(callee).Ok? && Visit(callee).value.CallableRef? && forall i :: 0 <= i < |args| ==> Visit(args[i]).Ok?
    ensures Visit(CallFunc(callee, args)).Ok? ==>
      var r := Visit(CallFunc(callee, args)).value;
      && r.Constructed?
      && r.name in AllowedCallables && r.moduleName == AllowedCallables[r.name]
      && |r.args| == |args|
      && forall i :: 0 <= i < |args| ==> r.args[i] == Visit(args[i]).value
  {
    VisitAllMeaning(args);
    if Visit(callee).Ok? && Visit(callee).value.CallableRef? {
      CallableIsWhitelisted(callee);
    }
  }

  lemma CallableIsWhitelisted(n: Node)
    requires Visit(n).Ok? && Visit(n).value.CallableRef?
    ensures Visit(n).value.name in AllowedCallables
    ensures Visit(n).value.moduleName == AllowedCallables[Visit(n).value.name]
    decreases n
  {
    match n
    case Expression(node) => CallableIsWhitelisted(node);
    case Name(name) =>
    case UnarySub(expr) =>
    case CallFunc(f, args) =>
    case _ =>
  }
}
