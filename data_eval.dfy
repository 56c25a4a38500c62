/**
 * `data_eval(source)`: a dict is returned as it is, anything but a dict or a
 * string is refused, and a string has its line endings normalised, is parsed
 * as a single expression and is handed to the walker.
 */
module DataEval {

  import opened Wrappers
  import opened Ast
  import opened Values
  import opened Errors
  import Dicts
  import opened SafeEval
  import opened SafeEvalProperties
  import opened Safety
  import opened RoundTrip
  import opened LineEndings

  /** The argument of `data_eval`, by its Python type; `typeName` is what the error message shows. */
  datatype Source =
    | DictSource(entries: Dicts.Entries)
    | TextSource(text: string)
    | OtherSource(typeName: string)

  /** What `parse(source, "eval")` does: build an expression tree or raise SyntaxError. */
  datatype ParseOutcome = Parsed(tree: Node) | SyntaxFailure(message: string)

  type Parser = string -> ParseOutcome

  function DataEval(source: Source, parse: Parser): Result<Value, Error> {
    match source
    case DictSource(entries) => Ok(DictVal(entries))
    case OtherSource(typeName) => Err(DataEvalError(typeName))
    case TextSource(text) =>
      match parse(Normalize(text))
      case SyntaxFailure(message) => Err(EvalSyntaxError(message))
      case Parsed(tree) => Visit(tree)
  }

  /**
   * Where each error comes from: the type check raises the DataEvalError, the
   * parser the EvalSyntaxError, and the walker its UnsafeSourceError or a host
   * exception; all but the host exceptions are caught by `except DataEvalError`.
   */
  lemma RaisedErrors(source: Source, parse: Parser)
    ensures source.DictSource? ==> DataEval(source, parse) == Ok(DictVal(source.entries))
    ensures DataEval(source, parse).Err? && DataEval(source, parse).error.DataEvalError? <==> source.OtherSource?
    ensures DataEval(source, parse).Err? && DataEval(source, parse).error.EvalSyntaxError? <==>
      source.TextSource? && parse(Normalize(source.text)).SyntaxFailure?
    ensures DataEval(source, parse).Err? && source.TextSource? && parse(Normalize(source.text)).Parsed? ==>
      WalkerError(DataEval(source, parse).error)
    ensures DataEval(source, parse).Err? ==>
      (IsInstance(DataEval(source, parse).error, DataEvalErrorClass) <==> !DataEval(source, parse).error.HostException?)
  {
    var r := DataEval(source, parse);
    if source.TextSource? {
      var outcome := parse(Normalize(source.text));
      if outcome.Parsed? && r.Err? {
        WalkerErrors(outcome.tree);
      }
    }
    if r.Err? {
      DataEvalErrorFamily(r.error);
    }
  }

  /** The parser is only ever given text without a carriage return. */
  lemma ParserSeesNoCarriageReturn(source: Source, parse: Parser, other: Parser)
    requires forall s :: '\r' !in s ==> parse(s) == other(s)
    ensures DataEval(source, parse) == DataEval(source, other)
  {
    if source.TextSource? {
      NoCarriageReturn(source.text);
    }
  }

  /** Lines ended by `"\r\n"` or by `'\r'` evaluate as the same lines ended by `'\n'`. */
  lemma LineEndingsDoNotMatter(lines: seq<string>, sep: string, parse: Parser)
    requires forall i :: 0 <= i < |lines| ==> IsLine(lines[i])
    requires sep == "\r\n" || sep == "\r"
    ensures DataEval(TextSource(Joined(lines, sep)), parse) == DataEval(TextSource(Joined(lines, "\n")), parse)
  {
    LineEndingInsensitive(lines, sep);
    JoinedCrFree(lines, "\n");
    CrFreeUnchanged(Joined(lines, "\n"));
  }

  /**
   * What a successful evaluation of a string guarantees: the tree held only
   * supported nodes, every callable in the result is whitelisted and every
   * string in the result was quoted in the source.
   */
  lemma SuccessIsSafe(text: string, parse: Parser)
    requires DataEval(TextSource(text), parse).Ok?
    ensures parse(Normalize(text)).Parsed?
    ensures Supported(parse(Normalize(text)).tree)
    ensures Whitelisted(DataEval(TextSource(text), parse).value)
    ensures forall s :: Occurs(s, DataEval(TextSource(text), parse).value) ==> Quoted(s, parse(Normalize(text)).tree)
  {
    var tree := parse(Normalize(text)).tree;
    SuccessMeansSupported(tree);
    ResultIsWhitelisted(tree);
    forall s | Occurs(s, Visit(tree).value)
      ensures Quoted(s, tree)
    {
      StringsAreQuoted(tree, s);
    }
  }

  /** `assert_eval(data)`: when the text parses to the tree of `repr(data)`, it evaluates back to `data`. */
  lemma AssertEvalRoundTrip(v: Value, text: string, parse: Parser)
    requires Reproducible(v)
    requires parse(Normalize(text)) == Parsed(Expression(ReprTree(v)))
    ensures DataEval(TextSource(text), parse) == Ok(v)
  {
    AssertEval(v);
  }

  // ---------------------------------------------------------------------------
  // The module's unit tests, with the parser's answer for each text as a premise

  lemma TestNoString(parse: Parser)
    ensures DataEval(OtherSource("int"), parse).Err?
    ensures IsInstance(DataEval(OtherSource("int"), parse).error, DataEvalErrorClass)
  {
  }

  lemma TestBool(parse: Parser)
    requires parse("true") == Parsed(Expression(Name("true")))
    requires parse("TRUE") == Parsed(Expression(Name("TRUE")))
    ensures DataEval(TextSource("true"), parse) == Ok(BoolVal(true))
    ensures DataEval(TextSource("TRUE"), parse) == Ok(BoolVal(true))
  {
    CrFreeUnchanged("true");
    CrFreeUnchanged("TRUE");
    BareNames("true");
    BareNames("TRUE");
  }

  lemma TestQuoteErr(parse: Parser)
    requires parse("a") == Parsed(Expression(Name("a")))
    ensures DataEval(TextSource("a"), parse) == Err(UnsafeSourceError(StringsMustBeQuoted, "a"))
    ensures IsInstance(DataEval(TextSource("a"), parse).error, UnsafeSourceErrorClass)
    ensures IsInstance(DataEval(TextSource("a"), parse).error, DataEvalErrorClass)
  {
    CrFreeUnchanged("a");
    BareNames("a");
  }

  lemma TestUnsupportedErr(parse: Parser)
    requires parse("a+2") == Parsed(Expression(Other("Add")))
    ensures DataEval(TextSource("a+2"), parse) == Err(UnsafeSourceError(UnsupportedConstruct, "Add"))
    ensures IsInstance(DataEval(TextSource("a+2"), parse).error, UnsafeSourceErrorClass)
  {
    CrFreeUnchanged("a+2");
  }

  lemma TestUnknownCallable(parse: Parser)
    requires parse("eval()") == Parsed(Expression(CallFunc(Name("eval"), [])))
    ensures DataEval(TextSource("eval()"), parse) == Err(UnsafeSourceError(StringsMustBeQuoted, "eval"))
    ensures IsInstance(DataEval(TextSource("eval()"), parse).error, DataEvalErrorClass)
  {
    CrFreeUnchanged("eval()");
    BareNames("eval");
    CallFuncOrder(Name("eval"), []);
  }

  lemma TestSyntaxError(parse: Parser, colon: string, importOs: string)
    requires parse(":") == SyntaxFailure(colon)
    requires parse("import os") == SyntaxFailure(importOs)
    ensures DataEval(TextSource(":"), parse) == Err(EvalSyntaxError(colon))
    ensures DataEval(TextSource("import os"), parse) == Err(EvalSyntaxError(importOs))
    ensures IsInstance(DataEval(TextSource("import os"), parse).error, EvalSyntaxErrorClass)
    ensures IsInstance(DataEval(TextSource("import os"), parse).error, DataEvalErrorClass)
  {
    CrFreeUnchanged(":");
    CrFreeUnchanged("import os");
  }

  /** Both spellings of the unit test's dict evaluate to `{'foo': 1}`. */
  lemma TestLineEndings(parse: Parser)
    requires parse("\n{\n'foo'\n:\n1\n}\n") == Parsed(Expression(Dict([(Const(StrLit("foo")), Const(IntLit(1)))])))
    ensures DataEval(TextSource("\r\n{\r\n'foo'\r\n:\r\n1\r\n}\r\n"), parse) == Ok(DictVal([(StrVal("foo"), IntVal(1))]))
    ensures DataEval(TextSource("\r{\r'foo'\r:\r1\r}\r"), parse) == Ok(DictVal([(StrVal("foo"), IntVal(1))]))
  {
    LineEndings.TestLineEndings();
    var items := [(Const(StrLit("foo")), Const(IntLit(1)))];
    DictMeaning(items);
    Dicts.FromDistinctPairs([(StrVal("foo"), IntVal(1))]);
  }

  /** `-a`: the walker reads `.value` from a Name node, so Python's AttributeError escapes `except DataEvalError`. */
  lemma NegatedNameEscapes(parse: Parser)
    requires parse("-a") == Parsed(Expression(UnarySub(Name("a"))))
    ensures DataEval(TextSource("-a"), parse) == Err(HostException(AttributeError))
    ensures !IsInstance(DataEval(TextSource("-a"), parse).error, DataEvalErrorClass)
  {
    CrFreeUnchanged("-a");
  }
}
