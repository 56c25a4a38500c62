# data_eval: a safe evaluator for Python data literals

`dbpreferences.tools.data_eval` turns the text of a Python literal — `None`,
`True`/`False`, numbers, strings, lists, tuples, dicts and a couple of whitelisted
`datetime`-module calls — back into the value, without ever running code. It
parses the text into a `compiler.ast` expression tree and walks the tree with
`SafeEval`, which has one `visit*` method per accepted node class and raises an
`UnsafeSourceError` for every other class, for a bare word that is not
`none`/`true`/`false` (in any letter case) and for a call to anything outside
`ALLOWED_CALLABLES`.

This project models that evaluator in Dafny as pure functions and proves what
it promises:

- `ast.dfy`, `values.dfy`: the parsed tree (`Ast.Node`) and the Python values
  (`Values.Value`), with Python's unary minus, hashability and dict-key
  equality (`True == 1 == 1.0`).
- `errors.dfy`: the error classes `DataEvalError`, `EvalSyntaxError`,
  `UnsafeSourceError`, and the host exceptions `AttributeError` and
  `TypeError` the walker lets through; `IsInstance` is Python's `isinstance`.
- `dicts.dfy`: `dict([(k, v), ...])` as insertion into an entry sequence, with
  a reference meaning (the last pair with an equal key wins).
- `safe_eval.dfy`: `NAME_MAP`, `ALLOWED_CALLABLES` and the walker
  (`SafeEval.Visit`), then its node-by-node properties.
- `safety.dfy`: whole-tree guarantees: the walker succeeds only on supported
  trees, every callable in a result is whitelisted, every string in a result was
  a quoted constant, and it raises nothing but `UnsafeSourceError` and host
  exceptions.
- `round_trip.dfy`: the trees of `repr(v)` evaluate back to `v`, for every
  value whose `repr` is text the walker accepts. A class such as
  `datetime.datetime` is not one of them: its `repr`,
  `<type 'datetime.datetime'>`, does not parse.
- `line_endings.dfy`: the `"\r\n"`/`"\r"` to `"\n"` normalisation.
- `data_eval.dfy`: `data_eval` itself, with the parser as a parameter, and the
  module's unit tests stated as lemmas about the parser's answers.

Where the code and its design description disagree, the model follows the code:

- `-a` or `-"x"` does not raise `UnsafeSourceError`. `visitUnarySub` reads
  `.value` from the child, and a `Name` node has no such attribute
  (`AttributeError`). Negating a string raises `TypeError`. Both escape
  `except DataEvalError` (`DataEval.NegatedNameEscapes`).
- A bare `datetime(2024, 1, 1)` is rejected: its callee is a `Name`, and
  `visitName` refuses it as an unquoted string. Only `datetime.datetime(...)`,
  which is a `Getattr`, reaches the whitelist. That is also how `repr` writes
  instances of these classes, as in `datetime.timedelta(0, 2)`.
- Calling a non-callable value, as in `true()`, raises Python's `TypeError`.
- An unhashable dict key raises `TypeError`.
- Keys Python considers equal collapse: the first key object stays and the
  last value wins.

## Definitions

The walker and `data_eval` are defined as functions without contracts of
their own. Their meaning is given by the lemmas in the table below.

- `SafeEval.Visit` models the dispatch in `visit` and the `visit*` methods
  (data_eval.py:54-128). `SafeEvalProperties` and `Safety` give its meaning.
- The helpers model one method each:
  - `SafeEval.VisitName` is `visitName` (73-80), see `BareNames`;
  - `SafeEval.VisitConst` and `SafeEval.VisitUnarySub` are `visitConst` and
    `visitUnarySub` (85-92), see `UnarySubMeaning`;
  - `SafeEval.VisitGetattr` is `visitGetattr` (106-118), see
    `GetattrWhitelist`;
  - `SafeEval.Call` is the call at line 128, see `CallFuncOrder`;
  - `SafeEval.VisitAll` is the list comprehensions of lines 98, 101 and 127,
    see `VisitAllMeaning`;
  - `SafeEval.VisitItem` and `SafeEval.VisitItems` are the pair list of line
    95, see `VisitItemOrder` and `VisitItemsMeaning`.
- `Dicts.FromPairs` is the `dict(...)` call of line 95, with `Dicts.Insert`
  and `Dicts.Lookup` as Python's store and lookup. Rows `Dicts.*` give its
  meaning, measured against the reference `Dicts.LastValue`.
- `LineEndings.Normalize` is line 140, measured against the reference
  `LineEndings.OnePass`.
- `DataEval.DataEval` is `data_eval` (131-147), see the rows `DataEval.*`.

## Model

The table lists the members whose contracts state what the source promises.

| member | source | states |
|---|---|---|
| Values.Negate | dbpreferences/tools/data_eval.py:88-92 | on the int, float and string constants `visitConst` returns: an int or float is negated and keeps its type, and a string is refused (TypeError); on a bool, which no constant is, it gives the int 0 or -1 |
| Errors.DataEvalErrorFamily | dbpreferences/tools/data_eval.py:153-172 | an error is an instance of DataEvalError exactly when it is not a host exception; UnsafeSourceError and EvalSyntaxError instances are exactly those errors |
| Dicts.LookupMeaning | dbpreferences/tools/data_eval.py:94-95 | a dict lookup finds nothing exactly when no key equals the probe, and otherwise finds the value of an entry with an equal key |
| Dicts.InsertShape | dbpreferences/tools/data_eval.py:94-95 | storing under a present key keeps every key object in place; storing a new key appends the pair |
| Dicts.InsertParts | dbpreferences/tools/data_eval.py:94-95 | storing adds no key but the new one and no value but the new one |
| Dicts.InsertKeepsKeysDistinct | dbpreferences/tools/data_eval.py:94-95 | storing into a dict with distinct keys keeps its keys distinct |
| Dicts.LookupAfterInsert | dbpreferences/tools/data_eval.py:94-95 | a key just stored is found with the value just stored |
| Dicts.LookupInsert | dbpreferences/tools/data_eval.py:94-95 | after storing `v` under `k`, a lookup of a key equal to `k` gives `v` and any other lookup is unchanged |
| Dicts.FromPairsSucceeds | dbpreferences/tools/data_eval.py:94-95 | `dict(pairs)` succeeds exactly when every key is hashable |
| Dicts.FromPairsError | dbpreferences/tools/data_eval.py:94-95 | the only error `dict(pairs)` raises is TypeError |
| Dicts.FromPairsDistinct | dbpreferences/tools/data_eval.py:94-95 | the keys of `dict(pairs)` are pairwise distinct |
| Dicts.FromPairsLookup | dbpreferences/tools/data_eval.py:94-95 | a lookup in `dict(pairs)` gives the value of the last pair whose key equals the probe |
| Dicts.FromPairsParts | dbpreferences/tools/data_eval.py:94-95 | `dict(pairs)` holds only keys and values taken from the pairs |
| Dicts.FromDistinctPairs | dbpreferences/tools/data_eval.py:94-95 | pairs with distinct hashable keys come back entry for entry |
| SafeEval.Lower | dbpreferences/tools/data_eval.py:74 | lower-casing keeps the length and lower-cases each letter |
| SafeEvalProperties.LowerMatchesWord | dbpreferences/tools/data_eval.py:74-76 | a name lower-cases to a lower-case word exactly when it spells that word in some mixture of cases |
| SafeEvalProperties.BareNames | dbpreferences/tools/data_eval.py:73-80 | a bare name is a value exactly when it spells none, true or false in any case, with the NAME_MAP value; every other name raises "Strings must be quoted" carrying the name |
| SafeEvalProperties.UnarySubMeaning | dbpreferences/tools/data_eval.py:88-92 | unary minus succeeds exactly on a numeric constant and negates it; a non-constant child raises AttributeError and a string constant raises TypeError |
| SafeEvalProperties.VisitAllMeaning | dbpreferences/tools/data_eval.py:97-101 | a sequence of children evaluates exactly when each child does, element for element; otherwise the error is that of the first failing child |
| SafeEvalProperties.VisitItemOrder | dbpreferences/tools/data_eval.py:94-95 | a dict item evaluates exactly when key and value do, and the key's error comes before the value's |
| SafeEvalProperties.VisitItemsMeaning | dbpreferences/tools/data_eval.py:94-95 | the items evaluate exactly when each does, pair for pair; otherwise the error is that of the first failing item |
| SafeEvalProperties.Containers | dbpreferences/tools/data_eval.py:97-101 | a list or tuple succeeds exactly when every child does, with one element per child in order, and both fail with the same error |
| SafeEvalProperties.DictMeaning | dbpreferences/tools/data_eval.py:94-95 | a dict display succeeds exactly when every item evaluates and every key is hashable; its keys are distinct and each lookup gives the last value written for that key |
| SafeEvalProperties.GetattrWhitelist | dbpreferences/tools/data_eval.py:106-118 | `x.name` succeeds exactly for datetime and timedelta, giving that class of the datetime module, otherwise raises "Callable not allowed." with the name; `x` plays no part |
| SafeEvalProperties.CallFuncOrder | dbpreferences/tools/data_eval.py:121-128 | a call evaluates the callee, then the arguments, then calls; it succeeds exactly on a callable with evaluable arguments and builds an instance of a whitelisted class from exactly those arguments; a non-callable raises TypeError |
| SafeEvalProperties.CallableIsWhitelisted | dbpreferences/tools/data_eval.py:43-46 | any callable the walker produces is an ALLOWED_CALLABLES entry paired with its own module |
| Safety.DictEntriesFromItems | dbpreferences/tools/data_eval.py:94-95 | every key and value of an evaluated dict is the value of some item's key or value node |
| Safety.SuccessMeansSupported | dbpreferences/tools/data_eval.py:54-71 | whenever the walker succeeds, no node it visited lacks a `visit*` method |
| Safety.ResultIsWhitelisted | dbpreferences/tools/data_eval.py:43-46 | every callable anywhere in a result, called or not, is whitelisted and comes from its own module |
| Safety.StringsAreQuoted | dbpreferences/tools/data_eval.py:73-80 | every string in a result was written as a quoted string constant at a place whose value the walker puts in the result (not under a minus, not as the object of an attribute, not in a callee); a bare word never becomes a string |
| Safety.DictStringsAreQuoted | dbpreferences/tools/data_eval.py:94-95 | the same for a string inside an evaluated dict |
| Safety.WalkerErrors | dbpreferences/tools/data_eval.py:54-128 | the walker raises only UnsafeSourceError or a host exception |
| Safety.WalkerErrorsAll | dbpreferences/tools/data_eval.py:97-101 | the same for a sequence of children |
| Safety.WalkerErrorsItem | dbpreferences/tools/data_eval.py:94-95 | the same for one dict item |
| Safety.WalkerErrorsItems | dbpreferences/tools/data_eval.py:94-95 | the same for the items of a dict display |
| RoundTrip.ReprTreeRoundTrip | dbpreferences/tools/data_eval.py:184-187 | the tree of `repr(v)` evaluates back to `v` for every value whose `repr` the walker accepts: no class itself, only instances of whitelisted classes, only dicts with distinct hashable keys |
| RoundTrip.ScalarRoundTrip | dbpreferences/tools/data_eval.py:189-207 | None, booleans, numbers including negative ones and strings come back unchanged |
| RoundTrip.NameRoundTrip | dbpreferences/tools/data_eval.py:189-197 | `None`, `True` and `False` come back as themselves |
| RoundTrip.ListRoundTrip | dbpreferences/tools/data_eval.py:214-217 | a list of reproducible values comes back unchanged |
| RoundTrip.TupleRoundTrip | dbpreferences/tools/data_eval.py:209-212 | a tuple of reproducible values comes back unchanged |
| RoundTrip.DictRoundTrip | dbpreferences/tools/data_eval.py:219-222 | a dict with distinct hashable keys comes back entry for entry |
| RoundTrip.ConstructedRoundTrip | dbpreferences/tools/data_eval.py:224-228 | a whitelisted `datetime` or `timedelta` instance comes back with the same arguments |
| RoundTrip.ReprAllRoundTrip | dbpreferences/tools/data_eval.py:97-101 | a sequence of reproducible values comes back element for element |
| RoundTrip.ReprEntryRoundTrip | dbpreferences/tools/data_eval.py:94-95 | one dict entry comes back as the same pair |
| RoundTrip.ReprEntriesRoundTrip | dbpreferences/tools/data_eval.py:94-95 | the entries of a dict come back as the same pairs |
| RoundTrip.AssertEval | dbpreferences/tools/data_eval.py:184-187 | the `Expression` wrapping the tree of `repr(v)` evaluates to `v`, for every value whose `repr` the walker accepts |
| LineEndings.NormalizeIsOnePass | dbpreferences/tools/data_eval.py:140 | the two successive replacements equal one pass turning `"\r\n"` and each lone `"\r"` into `"\n"` |
| LineEndings.LineEndingCases | dbpreferences/tools/data_eval.py:140 | `"\r\n"` becomes one newline, a `"\r"` not followed by `"\n"` becomes one newline, and any other character stays |
| LineEndings.NoCarriageReturn | dbpreferences/tools/data_eval.py:140 | normalised text holds no carriage return |
| LineEndings.CrFreeUnchanged | dbpreferences/tools/data_eval.py:140 | text without a carriage return is left unchanged |
| LineEndings.Idempotent | dbpreferences/tools/data_eval.py:140 | normalising twice is normalising once |
| LineEndings.OnePassAppend | dbpreferences/tools/data_eval.py:140 | the pass distributes over concatenation when the first part does not end in `"\r"` |
| LineEndings.OnePassJoined | dbpreferences/tools/data_eval.py:140 | lines joined by `"\r\n"` or `"\r"` come out joined by `"\n"` |
| LineEndings.LineEndingInsensitive | dbpreferences/tools/data_eval.py:140 | the same for the normalisation itself |
| LineEndings.JoinedCrFree | dbpreferences/tools/data_eval.py:140 | lines joined by `"\n"` hold no carriage return |
| LineEndings.TestLineEndings | dbpreferences/tools/data_eval.py:230-232 | both texts of the line-ending test normalise to `"\n{\n'foo'\n:\n1\n}\n"` |
| DataEval.RaisedErrors | dbpreferences/tools/data_eval.py:131-147 | a dict comes back as it is; DataEvalError itself is raised exactly for a non-string source; EvalSyntaxError exactly when the parser fails; otherwise only walker errors; all except host exceptions are DataEvalErrors |
| DataEval.ParserSeesNoCarriageReturn | dbpreferences/tools/data_eval.py:140-143 | parsers that agree on text without carriage returns give the same result |
| DataEval.LineEndingsDoNotMatter | dbpreferences/tools/data_eval.py:140 | lines ended by `"\r\n"` or `"\r"` evaluate as the same lines ended by `"\n"` |
| DataEval.SuccessIsSafe | dbpreferences/tools/data_eval.py:131-147 | a successful evaluation of text came from a supported tree, holds only whitelisted callables, and holds only strings that were quoted |
| DataEval.AssertEvalRoundTrip | dbpreferences/tools/data_eval.py:184-187 | text that parses to the tree of `repr(v)` evaluates to `v`, for every value whose `repr` the walker accepts |
| DataEval.TestNoString | dbpreferences/tools/data_eval.py:234-235 | an int source raises a DataEvalError |
| DataEval.TestBool | dbpreferences/tools/data_eval.py:192-197 | `true` and `TRUE` evaluate to True |
| DataEval.TestQuoteErr | dbpreferences/tools/data_eval.py:237-239 | `a` raises "Strings must be quoted", an UnsafeSourceError and so a DataEvalError |
| DataEval.TestUnsupportedErr | dbpreferences/tools/data_eval.py:241-242 | `a+2` raises "Unsupported source construct", an UnsafeSourceError |
| DataEval.TestUnknownCallable | dbpreferences/tools/data_eval.py:243-244 | `eval()` raises "Strings must be quoted" for `eval`, a DataEvalError |
| DataEval.TestSyntaxError | dbpreferences/tools/data_eval.py:246-249 | `:` and `import os` raise EvalSyntaxError, which is a DataEvalError |
| DataEval.TestLineEndings | dbpreferences/tools/data_eval.py:230-232 | both spellings of the line-ending test evaluate to `{'foo': 1}` |
| DataEval.NegatedNameEscapes | dbpreferences/tools/data_eval.py:88-92 | `-a` raises AttributeError, which is not a DataEvalError |

## Left out

- Parsing: `compiler.parse` and the fallback `ast.parse` (lines 34-37) are not part of this model. `DataEval` takes the parser as a function, and the walker takes its output tree. The unit tests appear as lemmas whose premises are the parser's answers.
- The `ast.parse` fallback: its tree classes are not the `compiler.ast` classes the walker dispatches on, so nothing is modelled for it.
- `visitExpression` returns None for an `Expression` with no child. The parser never builds one, and `Ast.Node.Expression` always has exactly one child.
- `CallFunc`'s `*args` and `**kwargs` (`star_args`, `dstar_args`): `visitCallFunc` ignores them, and the tree omits them. A keyword argument is an `Other` node in the argument list, so it is rejected as unsupported.
- Constructing `datetime.datetime` and `datetime.timedelta` is symbolic (`Values.Constructed`). The calendar arithmetic, argument validation and the errors it raises are not modelled, and two instances are equal only when their arguments are.
- `__import__` and `getattr` in `visitGetattr` become the pair of module name and class name. Importing cannot fail here.
- Floats are exact reals, so rounding, `-0.0`, NaN and float `repr` are not modelled. Python's int/long and str/unicode distinctions are not modelled either.
- `SafeEval.Lower` lower-cases only ASCII letters, as Python 2's `str.lower` does. Unicode case mapping of `unicode` names is not modelled.
- Error text: the message strings are kept (`Errors.Message`). The `node` and `lineno` fields of UnsafeSourceError and its `__repr__` are not. The offending class of an unsupported node is kept as its name.
- Identity: a dict passed in comes back as an equal value. Returning the same object is not modelled.
- `LineEndings.Replace` requires a non-empty pattern. The source calls `str.replace` only with `"\r\n"` and `"\r"`.
- Complex constants: the parser builds `Const(1j)`, and the source accepts `1j` and `-1j`. `Ast.Literal` has no complex case, so the model covers no tree holding one.
- Recursion depth: on a deep enough tree the source's recursive `visit` raises RuntimeError. `SafeEval.Visit` is total and succeeds at any depth.
- `repr` of a dict writes its entries in hash order. The model takes the entry order of `Values.DictVal` to be that order.
- `testDatetime` uses `datetime.now()`. The clock is not modelled; `RoundTrip.ConstructedRoundTrip` covers any arguments.
