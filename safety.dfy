/**
 * The safety guarantees of the walker, over whole trees: it succeeds only on
 * trees made of the node classes it supports, every callable in its result
 * is whitelisted, and every string in its result was written as a quoted
 * string constant.
 */
module Safety {

  import opened Wrappers
  import opened Ast
  import opened Values
  import opened Errors
  import Dicts
  import opened SafeEval
  import opened SafeEvalProperties

  /** Every node the walker visits has a `visit*` method; the object of a `Getattr` is never visited. */
  predicate Supported(n: Node)
    decreases n
  {
    match n
    case Expression(node) => Supported(node)
    case UnarySub(expr) => Supported(expr)
    case Dict(items) => forall i :: 0 <= i < |items| ==> Supported(items[i].0) && Supported(items[i].1)
    case Tuple(nodes) => forall i :: 0 <= i < |nodes| ==> Supported(nodes[i])
    case List(nodes) => forall i :: 0 <= i < |nodes| ==> Supported(nodes[i])
    case CallFunc(node, args) => Supported(node) && forall i :: 0 <= i < |args| ==> Supported(args[i])
    case Other(_) => false
    case _ => true
  }

  /** Every callable inside `v`, called or not, is one of `ALLOWED_CALLABLES` from its own module. */
  predicate Whitelisted(v: Value)
    decreases v
  {
    match v
    case ListVal(items) => forall i :: 0 <= i < |items| ==> Whitelisted(items[i])
    case TupleVal(items) => forall i :: 0 <= i < |items| ==> Whitelisted(items[i])
    case DictVal(entries) => forall i :: 0 <= i < |entries| ==> Whitelisted(entries[i].0) && Whitelisted(entries[i].1)
    case CallableRef(m, name) => name in AllowedCallables && AllowedCallables[name] == m
    case Constructed(m, name, args) =>
      name in AllowedCallables && AllowedCallables[name] == m && forall i :: 0 <= i < |args| ==> Whitelisted(args[i])
    case _ => true
  }

  /** The string `s` is a string value somewhere inside `v`. */
  predicate Occurs(s: string, v: Value)
    decreases v
  {
    match v
    case StrVal(t) => t == s
    case ListVal(items) => exists i :: 0 <= i < |items| && Occurs(s, items[i])
    case TupleVal(items) => exists i :: 0 <= i < |items| && Occurs(s, items[i])
    case DictVal(entries) => exists i :: 0 <= i < |entries| && (Occurs(s, entries[i].0) || Occurs(s, entries[i].1))
    case Constructed(_, _, args) => exists i :: 0 <= i < |args| && Occurs(s, args[i])
    case _ => false
  }

  /**
   * The string `s` is written as a quoted string constant in `n`, at a place
   * whose value can become part of the result: not under a minus, not as the
   * object of a `Getattr`, which is never evaluated, and not in a callee, which
   * yields a class.
   */
  predicate Quoted(s: string, n: Node)
    decreases n
  {
    match n
    case Const(c) => c.StrLit? && c.s == s
    case Expression(node) => Quoted(s, node)
    case Dict(items) => exists i :: 0 <= i < |items| && (Quoted(s, items[i].0) || Quoted(s, items[i].1))
    case Tuple(nodes) => exists i :: 0 <= i < |nodes| && Quoted(s, nodes[i])
    case List(nodes) => exists i :: 0 <= i < |nodes| && Quoted(s, nodes[i])
    case CallFunc(_, args) => exists i :: 0 <= i < |args| && Quoted(s, args[i])
    case _ => false
  }

  /** Every entry of an evaluated dict display is made of a key and a value that some item evaluated to. */
  lemma DictEntriesFromItems(items: seq<(Node, Node)>)
    requires Visit(Dict(items)).Ok?
    ensures Visit(Dict(items)).value.DictVal?
    ensures var d := Visit(Dict(items)).value.entries;
      forall i :: 0 <= i < |d| ==>
        && (exists j :: 0 <= j < |items| && Visit(items[j].0).Ok? && d[i].0 == Visit(items[j].0).value)
        && (exists j :: 0 <= j < |items| && Visit(items[j].1).Ok? && d[i].1 == Visit(items[j].1).value)
  {
    VisitItemsMeaning(items);
    var pairs := VisitItems(items).value;
    var d := Dicts.FromPairs(pairs).value;
    Dicts.FromPairsParts(pairs);
    forall i | 0 <= i < |d|
      ensures exists j :: 0 <= j < |items| && Visit(items[j].0).Ok? && d[i].0 == Visit(items[j].0).value
      ensures exists j :: 0 <= j < |items| && Visit(items[j].1).Ok? && d[i].1 == Visit(items[j].1).value
    {
      assert d[i] in d;
      assert d[i].0 in Dicts.KeysOf(pairs);
      var p :| p in pairs && p.0 == d[i].0;
      var j :| 0 <= j < |pairs| && pairs[j] == p;
      assert d[i].0 == Visit(items[j].0).value;
      assert d[i].1 in Dicts.ValuesOf(pairs);
      var p' :| p' in pairs && p'.1 == d[i].1;
      var j' :| 0 <= j' < |pairs| && pairs[j'] == p';
      assert d[i].1 == Visit(items[j'].1).value;
    }
  }

  /** Whatever the walker accepts, it accepted node class by node class. */
  lemma {:induction false} SuccessMeansSupported(n: Node)
    requires Visit(n).Ok?
    ensures Supported(n)
    decreases n
  {
    match n
    case Expression(node) => SuccessMeansSupported(node);
    case Dict(items) =>
      VisitItemsMeaning(items);
      forall i | 0 <= i < |items|
        ensures Supported(items[i].0) && Supported(items[i].1)
      {
        SuccessMeansSupported(items[i].0);
        SuccessMeansSupported(items[i].1);
      }
    case Tuple(nodes) =>
      VisitAllMeaning(nodes);
      forall i | 0 <= i < |nodes|
        ensures Supported(nodes[i])
      {
        SuccessMeansSupported(nodes[i]);
      }
    case List(nodes) =>
      VisitAllMeaning(nodes);
      forall i | 0 <= i < |nodes|
        ensures Supported(nodes[i])
      {
        SuccessMeansSupported(nodes[i]);
      }
    case CallFunc(node, args) =>
      CallFuncOrder(node, args);
      SuccessMeansSupported(node);
      forall i | 0 <= i < |args|
        ensures Supported(args[i])
      {
        SuccessMeansSupported(args[i]);
      }
    case UnarySub(expr) =>
    case _ =>
  }

  /** Only whitelisted callables ever reach the result. */
  lemma {:induction false} ResultIsWhitelisted(n: Node)
    requires Visit(n).Ok?
    ensures Whitelisted(Visit(n).value)
    decreases n
  {
    match n
    case Expression(node) => ResultIsWhitelisted(node);
    case Dict(items) =>
      DictEntriesFromItems(items);
      var d := Visit(n).value.entries;
      VisitItemsMeaning(items);
      forall i | 0 <= i < |d|
        ensures Whitelisted(d[i].0) && Whitelisted(d[i].1)
      {
        var j :| 0 <= j < |items| && Visit(items[j].0).Ok? && d[i].0 == Visit(items[j].0).value;
        var j' :| 0 <= j' < |items| && Visit(items[j'].1).Ok? && d[i].1 == Visit(items[j'].1).value;
        ResultIsWhitelisted(items[j].0);
        ResultIsWhitelisted(items[j'].1);
      }
    case Tuple(nodes) =>
      VisitAllMeaning(nodes);
      forall i | 0 <= i < |nodes|
        ensures Whitelisted(Visit(nodes[i]).value)
      {
        ResultIsWhitelisted(nodes[i]);
      }
    case List(nodes) =>
      VisitAllMeaning(nodes);
      forall i | 0 <= i < |nodes|
        ensures Whitelisted(Visit(nodes[i]).value)
      {
        ResultIsWhitelisted(nodes[i]);
      }
    case CallFunc(node, args) =>
      CallFuncOrder(node, args);
      forall i | 0 <= i < |args|
        ensures Whitelisted(Visit(args[i]).value)
      {
        ResultIsWhitelisted(args[i]);
      }
    case UnarySub(expr) =>
      assert Visit(n).value.IntVal? || Visit(n).value.FloatVal?;
    case _ =>
  }

  /** No string in the result comes from anything but a quoted string constant: a bare word never becomes a string. */
  lemma {:induction false} StringsAreQuoted(n: Node, s: string)
    requires Visit(n).Ok? && Occurs(s, Visit(n).value)
    ensures Quoted(s, n)
    decreases n, 1
  {
    match n
    case Expression(node) => StringsAreQuoted(node, s);
    case Name(name) =>
    case Dict(items) => DictStringsAreQuoted(items, s);
    case Tuple(nodes) =>
      VisitAllMeaning(nodes);
      var i :| 0 <= i < |nodes| && Occurs(s, Visit(n).value.items[i]);
      StringsAreQuoted(nodes[i], s);
    case List(nodes) =>
      VisitAllMeaning(nodes);
      var i :| 0 <= i < |nodes| && Occurs(s, Visit(n).value.items[i]);
      StringsAreQuoted(nodes[i], s);
    case CallFunc(node, args) =>
      CallFuncOrder(node, args);
      var i :| 0 <= i < |args| && Occurs(s, Visit(n).value.args[i]);
      StringsAreQuoted(args[i], s);
    case UnarySub(expr) =>
    case Const(c) =>
    case Getattr(_, _) =>
    case Other(_) =>
  }

  lemma {:induction false} DictStringsAreQuoted(items: seq<(Node, Node)>, s: string)
    requires Visit(Dict(items)).Ok? && Occurs(s, Visit(Dict(items)).value)
    ensures Quoted(s, Dict(items))
    decreases Dict(items), 0
  {
    DictEntriesFromItems(items);
    var d := Visit(Dict(items)).value.entries;
    VisitItemsMeaning(items);
    var i :| 0 <= i < |d| && (Occurs(s, d[i].0) || Occurs(s, d[i].1));
    if Occurs(s, d[i].0) {
      var j :| 0 <= j < |items| && Visit(items[j].0).Ok? && d[i].0 == Visit(items[j].0).value;
      StringsAreQuoted(items[j].0, s);
    } else {
      var j :| 0 <= j < |items| && Visit(items[j].1).Ok? && d[i].1 == Visit(items[j].1).value;
      StringsAreQuoted(items[j].1, s);
    }
  }

  /** The walker raises its own UnsafeSourceError or lets a host exception through, nothing else. */
  predicate WalkerError(e: Error) {
    e.UnsafeSourceError? || e.HostException?
  }

  lemma {:induction false} WalkerErrors(n: Node)
    requires Visit(n).Err?
    ensures WalkerError(Visit(n).error)
    decreases n
  {
    match n
    case Expression(node) => WalkerErrors(node);
    case Dict(items) =>
      if VisitItems(items).Err? {
        WalkerErrorsItems(items);
      } else {
        Dicts.FromPairsError(VisitItems(items).value);
      }
    case Tuple(nodes) => WalkerErrorsAll(nodes);
    case List(nodes) => WalkerErrorsAll(nodes);
    case CallFunc(node, args) =>
      if Visit(node).Err? {
        WalkerErrors(node);
      } else if VisitAll(args).Err? {
        WalkerErrorsAll(args);
      }
    case _ =>
  }

  lemma {:induction false} WalkerErrorsAll(nodes: seq<Node>)
    requires VisitAll(nodes).Err?
    ensures WalkerError(VisitAll(nodes).error)
    decreases nodes
  {
    if Visit(nodes[0]).Err? {
      WalkerErrors(nodes[0]);
    } else {
      WalkerErrorsAll(nodes[1..]);
    }
  }

  lemma {:induction false} WalkerErrorsItem(item: (Node, Node))
    requires VisitItem(item).Err?
    ensures WalkerError(VisitItem(item).error)
    decreases item
  {
    if Visit(item.0).Err? {
      WalkerErrors(item.0);
    } else {
      WalkerErrors(item.1);
    }
  }

  lemma {:induction false} WalkerErrorsItems(items: seq<(Node, Node)>)
    requires VisitItems(items).Err?
    ensures WalkerError(VisitItems(items).error)
    decreases items
  {
    if VisitItem(items[0]).Err? {
      WalkerErrorsItem(items[0]);
    } else {
      WalkerErrorsItems(items[1..]);
    }
  }
}
