/** `ArgumentsParser` (script_args_parser/parser.py:69-130): the values
    argparse read from the command line are completed from the environment
    and the defaults, then converted according to each argument's type. */
module Parser {
  import opened Results
  import opened Values
  import opened Arguments

  /** argparse sets every declared `dest`, so every argument has an entry. */
  ghost predicate HasEntries(arguments: seq<Argument>, values: map<string, Value>) {
    forall a :: a in arguments ==> a.name in values
  }

  /** Argument names are keys of one TOML table, hence pairwise distinct. */
  ghost predicate DistinctNames(arguments: seq<Argument>) {
    forall i, j :: 0 <= i < j < |arguments| ==> arguments[i].name != arguments[j].name
  }

  lemma HasEntriesPrefix(arguments: seq<Argument>, n: nat, values: map<string, Value>)
    requires n <= |arguments| && HasEntries(arguments, values)
    ensures HasEntries(arguments[..n], values)
  {
    forall a | a in arguments[..n] ensures a.name in values {
      var j :| 0 <= j < n && arguments[..n][j] == a;
      assert a == arguments[j];
    }
  }

  /** `os.getenv(name)`: the variable's value, or None when it is unset. */
  function Getenv(env: map<string, string>, name: string): (r: Value)
    ensures r.PyNone? <==> name !in env
    ensures name in env ==> r == Str(env[name])
  {
    if name in env then Str(env[name]) else PyNone
  }

  // ---------------------------------------------------------------------
  // _fallback_values
  // ---------------------------------------------------------------------

  /** The loop body of `_fallback_values` for one argument whose current
      entry is `v`: a command-line value is kept; without one, a bound and
      present environment variable supplies the value, even an empty one;
      otherwise the default does, if any. */
  function Fallback(a: Argument, v: Value, env: map<string, string>): (r: Value)
    ensures !v.PyNone? ==> r == v
    ensures v.PyNone? && a.envVar.Some? && a.envVar.value in env ==> r == Str(env[a.envVar.value])
    ensures v.PyNone? && (a.envVar.None? || a.envVar.value !in env) ==>
      r == (if a.defaultValue.Some? then Str(a.defaultValue.value) else PyNone)
  {
    var v := if v.PyNone? && a.envVar.Some? then Getenv(env, a.envVar.value) else v;
    if v.PyNone? && a.defaultValue.Some? then Str(a.defaultValue.value) else v
  }

  /** The three sources of an argument in precedence order. */
  function Sources(a: Argument, cliValue: Value, env: map<string, string>): seq<Value> {
    [ cliValue,
      if a.envVar.Some? then Getenv(env, a.envVar.value) else PyNone,
      if a.defaultValue.Some? then Str(a.defaultValue.value) else PyNone ]
  }

  /** The first value that is not None, or None. */
  function FirstPresent(candidates: seq<Value>): (r: Value)
    ensures r.PyNone? <==> forall i :: 0 <= i < |candidates| ==> candidates[i].PyNone?
  {
    if candidates == [] then PyNone
    else if !candidates[0].PyNone? then candidates[0]
    else
      assert forall i :: 1 <= i < |candidates| ==> candidates[i] == candidates[1..][i - 1];
      FirstPresent(candidates[1..])
  }

  /** The precedence chain: the two sequential `if`s of `_fallback_values`
      pick the first present source among CLI, environment and default. */
  lemma FallbackIsFirstPresent(a: Argument, cliValue: Value, env: map<string, string>)
    ensures Fallback(a, cliValue, env) == FirstPresent(Sources(a, cliValue, env))
  {
    var s := Sources(a, cliValue, env);
    if s[0].PyNone? {
      assert FirstPresent(s) == FirstPresent(s[1..]);
      if s[1].PyNone? {
        assert FirstPresent(s[1..]) == FirstPresent(s[1..][1..]);
        assert s[1..][1..] == [s[2]];
        assert FirstPresent([s[2]]) == s[2] by {
          assert [s[2]][1..] == [];
        }
      }
    }
  }

  /** `_fallback_values` over the first arguments, in declaration order. */
  function FallbackAll(arguments: seq<Argument>, values: map<string, Value>, env: map<string, string>)
    : (r: map<string, Value>)
    requires HasEntries(arguments, values)
    ensures r.Keys == values.Keys
    decreases |arguments|
  {
    if arguments == [] then values
    else
      var n := |arguments| - 1;
      HasEntriesPrefix(arguments, n, values);
      var prev := FallbackAll(arguments[..n], values, env);
      var a := arguments[n];
      prev[a.name := Fallback(a, prev[a.name], env)]
  }

  /** `_fallback_values` never touches a key that no argument names. */
  lemma {:induction false} FallbackAllFrame(
    arguments: seq<Argument>, values: map<string, Value>, env: map<string, string>, k: string)
    requires HasEntries(arguments, values) && k in values
    requires forall i :: 0 <= i < |arguments| ==> arguments[i].name != k
    ensures FallbackAll(arguments, values, env)[k] == values[k]
    decreases |arguments|
  {
    if arguments != [] {
      var n := |arguments| - 1;
      HasEntriesPrefix(arguments, n, values);
      FallbackAllFrame(arguments[..n], values, env, k);
    }
  }

  /** With distinct names, `_fallback_values` gives each argument the
      fallback of its own command-line entry. */
  lemma {:induction false} FallbackAllAt(
    arguments: seq<Argument>, values: map<string, Value>, env: map<string, string>, i: nat)
    requires HasEntries(arguments, values) && DistinctNames(arguments)
    requires i < |arguments|
    ensures FallbackAll(arguments, values, env)[arguments[i].name]
      == Fallback(arguments[i], values[arguments[i].name], env)
    decreases |arguments|
  {
    var n := |arguments| - 1;
    var prefix := arguments[..n];
    HasEntriesPrefix(arguments, n, values);
    assert forall j :: 0 <= j < n ==> prefix[j] == arguments[j];
    if i == n {
      FallbackAllFrame(prefix, values, env, arguments[n].name);
    } else {
      assert DistinctNames(prefix);
      FallbackAllAt(prefix, values, env, i);
    }
  }

  // ---------------------------------------------------------------------
  // _convert_values
  // ---------------------------------------------------------------------

  /** `TYPES_MAPPING[name](v)`: the lookup raises KeyError before anything
      is converted. */
  function ConvertNamed(name: string, v: Value): (r: Result<Value, Error>)
    ensures Lookup(name).Failure? ==> r == Failure(KeyError(name))
    ensures Lookup(name).Success? ==> r == Convert(Lookup(name).value, v)
  {
    match Lookup(name)
    case Failure(e) => Failure(e)
    case Success(c) => Convert(c, v)
  }

  /** `[conv(value) for conv, value in zip(converters, v)]`: `zip` raises
      TypeError for a non-iterable `v` and stops at the shorter side. */
  function ConvertRecord(converters: seq<Converter>, v: Value): (r: Result<Value, Error>)
    ensures Iterate(v).Failure? ==> r == Failure(TypeError)
    ensures Iterate(v).Success? ==>
      var xs := Iterate(v).value;
      var n := if |converters| < |xs| then |converters| else |xs|;
      && (r.Success? <==> forall i :: 0 <= i < n ==> Convert(converters[i], xs[i]).Success?)
      && (r.Success? ==>
            (r.value.List? && |r.value.items| == n
             && forall i :: 0 <= i < n ==> r.value.items[i] == Convert(converters[i], xs[i]).value))
      && (r.Failure? ==>
            exists i :: (0 <= i < n && Convert(converters[i], xs[i]).Failure?
              && r.error == Convert(converters[i], xs[i]).error
              && forall j :: 0 <= j < i ==> Convert(converters[j], xs[j]).Success?))
  {
    match Iterate(v)
    case Failure(e) => Failure(e)
    case Success(xs) =>
      var n := if |converters| < |xs| then |converters| else |xs|;
      var pairs := seq(n, i requires 0 <= i < n => (converters[i], xs[i]));
      assert forall i :: 0 <= i < n ==> pairs[i] == (converters[i], xs[i]);
      match Traverse((p: (Converter, Value)) => Convert(p.0, p.1), pairs)
      case Failure(e) => Failure(e)
      case Success(ys) => Success(List(ys))
  }

  /** One argument's branch of `_convert_values`, on a value that is not
      None. Lists look the converter up per element, tuples look all of
      theirs up before iterating the value. */
  function ConvertArgument(a: Argument, v: Value): (r: Result<Value, Error>)
    ensures (Iterate(v).Failure?
             && ((a.info.isList && !a.info.isTuple)
                 || (a.info.isTuple && Traverse(Lookup, a.info.tupleTypes).Success?)))
      ==> r == Failure(TypeError)
    ensures a.info.isTuple && Traverse(Lookup, a.info.tupleTypes).Failure? ==>
      r == Failure(Traverse(Lookup, a.info.tupleTypes).error)
    ensures a.info.isList && r.Success? ==>
      Iterate(v).Success? && r.value.List? && |r.value.items| == |Iterate(v).value|
    ensures !a.info.isList && a.info.isTuple && r.Success? ==>
      r.value.List? && |r.value.items| <= |a.info.tupleTypes|
    ensures !a.info.isList && !a.info.isTuple ==> r == ConvertNamed(a.typeName, v)
  {
    var info := a.info;
    if info.isList && !info.isTuple then
      match Iterate(v)
      case Failure(e) => Failure(e)
      case Success(xs) =>
        match Traverse((x: Value) => ConvertNamed(info.listType, x), xs)
        case Failure(e) => Failure(e)
        case Success(ys) => Success(List(ys))
    else if info.isTuple then
      match Traverse(Lookup, info.tupleTypes)
      case Failure(e) => Failure(e)
      case Success(converters) =>
        if !info.isList then ConvertRecord(converters, v)
        else
          match Iterate(v)
          case Failure(e) => Failure(e)
          case Success(records) =>
            match Traverse((record: Value) => ConvertRecord(converters, record), records)
            case Failure(e) => Failure(e)
            case Success(ys) => Success(List(ys))
    else
      ConvertNamed(a.typeName, v)
  }

  /** What `_convert_values` leaves for one entry: None is skipped. */
  function ConvertEntry(a: Argument, v: Value): (r: Result<Value, Error>)
    ensures v.PyNone? ==> r == Success(PyNone)
  {
    if v.PyNone? then Success(PyNone) else ConvertArgument(a, v)
  }

  /** One iteration of `_convert_values` on the whole dictionary. */
  function ConvertStep(a: Argument, values: map<string, Value>): (r: Result<map<string, Value>, Error>)
    requires a.name in values
    ensures r.Success? <==> ConvertEntry(a, values[a.name]).Success?
    ensures r.Failure? ==> r.error == ConvertEntry(a, values[a.name]).error
    ensures r.Success? ==> r.value == values[a.name := ConvertEntry(a, values[a.name]).value]
    ensures r.Success? ==> forall k :: k in values && k != a.name ==> r.value[k] == values[k]
  {
    match ConvertEntry(a, values[a.name])
    case Failure(e) => Failure(e)
    case Success(v) => if values[a.name].PyNone? then Success(values) else Success(values[a.name := v])
  }

  /** `_convert_values` over the arguments in declaration order; the first
      exception aborts. */
  function ConvertAll(arguments: seq<Argument>, values: map<string, Value>): (r: Result<map<string, Value>, Error>)
    requires HasEntries(arguments, values)
    ensures r.Success? ==> r.value.Keys == values.Keys
    decreases |arguments|
  {
    if arguments == [] then Success(values)
    else
      var n := |arguments| - 1;
      HasEntriesPrefix(arguments, n, values);
      match ConvertAll(arguments[..n], values)
      case Failure(e) => Failure(e)
      case Success(prev) => ConvertStep(arguments[n], prev)
  }

  /** The whole `__init__` pipeline after argparse: fallback, then convert. */
  function Resolve(arguments: seq<Argument>, cliValues: map<string, Value>, env: map<string, string>)
    : (r: Result<map<string, Value>, Error>)
    requires HasEntries(arguments, cliValues)
    ensures r.Success? ==> r.value.Keys == cliValues.Keys
  {
    ConvertAll(arguments, FallbackAll(arguments, cliValues, env))
  }

  /** Once a prefix of the arguments fails, the whole pass fails with that
      same exception. */
  lemma {:induction false} ConvertAllFailureSticks(arguments: seq<Argument>, n: nat, values: map<string, Value>)
    requires n <= |arguments| && HasEntries(arguments, values)
    requires HasEntries(arguments[..n], values)
    requires ConvertAll(arguments[..n], values).Failure?
    ensures ConvertAll(arguments, values) == ConvertAll(arguments[..n], values)
    decreases |arguments| - n
  {
    if n < |arguments| {
      var m := |arguments| - 1;
      HasEntriesPrefix(arguments, m, values);
      assert arguments[..m][..n] == arguments[..n];
      ConvertAllFailureSticks(arguments[..m], n, values);
    } else {
      assert arguments[..n] == arguments;
    }
  }

  /** `_convert_values` never touches a key that no argument names. */
  lemma {:induction false} ConvertAllFrame(arguments: seq<Argument>, values: map<string, Value>, k: string)
    requires HasEntries(arguments, values) && k in values
    requires forall i :: 0 <= i < |arguments| ==> arguments[i].name != k
    requires ConvertAll(arguments, values).Success?
    ensures ConvertAll(arguments, values).value[k] == values[k]
    decreases |arguments|
  {
    if arguments != [] {
      var n := |arguments| - 1;
      HasEntriesPrefix(arguments, n, values);
      ConvertAllFrame(arguments[..n], values, k);
    }
  }

  /** `_convert_values` skips None: an entry that is None stays None. */
  lemma {:induction false} ConvertAllKeepsNone(arguments: seq<Argument>, values: map<string, Value>, k: string)
    requires HasEntries(arguments, values) && k in values && values[k].PyNone?
    requires ConvertAll(arguments, values).Success?
    ensures ConvertAll(arguments, values).value[k].PyNone?
    decreases |arguments|
  {
    if arguments != [] {
      var n := |arguments| - 1;
      HasEntriesPrefix(arguments, n, values);
      ConvertAllKeepsNone(arguments[..n], values, k);
    }
  }

  /** With distinct names, `_convert_values` succeeds exactly when every
      entry converts, and then holds each entry's conversion. */
  lemma {:induction false} ConvertAllAt(arguments: seq<Argument>, values: map<string, Value>)
    requires HasEntries(arguments, values) && DistinctNames(arguments)
    ensures ConvertAll(arguments, values).Success? <==>
      forall i :: 0 <= i < |arguments| ==> ConvertEntry(arguments[i], values[arguments[i].name]).Success?
    ensures ConvertAll(arguments, values).Success? ==>
      forall i :: 0 <= i < |arguments| ==>
        ConvertAll(arguments, values).value[arguments[i].name]
          == ConvertEntry(arguments[i], values[arguments[i].name]).value
    ensures ConvertAll(arguments, values).Failure? ==>
      exists i :: (0 <= i < |arguments| && ConvertEntry(arguments[i], values[arguments[i].name]).Failure?
        && ConvertAll(arguments, values).error == ConvertEntry(arguments[i], values[arguments[i].name]).error
        && forall j :: 0 <= j < i ==> ConvertEntry(arguments[j], values[arguments[j].name]).Success?)
    decreases |arguments|
  {
    if arguments != [] {
      var n := |arguments| - 1;
      var prefix := arguments[..n];
      var a := arguments[n];
      HasEntriesPrefix(arguments, n, values);
      assert DistinctNames(prefix);
      ConvertAllAt(prefix, values);
      assert forall i :: 0 <= i < n ==> prefix[i] == arguments[i];
      forall i | 0 <= i < n ensures prefix[i].name != a.name {
      }
      if ConvertAll(prefix, values).Success? {
        var prev := ConvertAll(prefix, values).value;
        ConvertAllFrame(prefix, values, a.name);
        assert prev[a.name] == values[a.name];
      } else {
        var i :| 0 <= i < n && ConvertEntry(prefix[i], values[prefix[i].name]).Failure?
          && ConvertAll(prefix, values).error == ConvertEntry(prefix[i], values[prefix[i].name]).error
          && forall j :: 0 <= j < i ==> ConvertEntry(prefix[j], values[prefix[j].name]).Success?;
        assert prefix[i] == arguments[i];
      }
    }
  }

  // ---------------------------------------------------------------------
  // Properties of one argument's conversion
  // ---------------------------------------------------------------------

  /** A plain list converts element by element with the converter of its
      `list_type`, keeping length and order; the first element that fails
      decides the exception. */
  lemma ListConvertsElementwise(a: Argument, v: Value)
    requires a.info.isList && !a.info.isTuple && (v.Str? || v.List?)
    ensures var xs := Iterate(v).value; var r := ConvertArgument(a, v);
      && (r.Success? <==> forall i :: 0 <= i < |xs| ==> ConvertNamed(a.info.listType, xs[i]).Success?)
      && (r.Success? ==>
            (r.value.List? && |r.value.items| == |xs|
             && forall i :: 0 <= i < |xs| ==> r.value.items[i] == ConvertNamed(a.info.listType, xs[i]).value))
      && (r.Failure? ==>
            exists i :: (0 <= i < |xs| && ConvertNamed(a.info.listType, xs[i]).Failure?
              && r.error == ConvertNamed(a.info.listType, xs[i]).error
              && forall j :: 0 <= j < i ==> ConvertNamed(a.info.listType, xs[j]).Success?))
  {
    var xs := Iterate(v).value;
    var f := (x: Value) => ConvertNamed(a.info.listType, x);
    assert forall i :: 0 <= i < |xs| ==> f(xs[i]) == ConvertNamed(a.info.listType, xs[i]);
  }

  /** A list whose value came from the environment or a default is a
      string, and the comprehension walks its characters: a `list[str]`
      becomes the list of its one-character strings. */
  lemma ListOfStringIteratesCharacters(a: Argument, s: string)
    requires a.info.isList && !a.info.isTuple && a.info.listType == "str"
    ensures ConvertArgument(a, Str(s)) == Success(List(seq(|s|, i requires 0 <= i < |s| => Str([s[i]]))))
  {
    ListConvertsElementwise(a, Str(s));
    var r := ConvertArgument(a, Str(s));
    assert r.Success?;
    assert r.value.items == seq(|s|, i requires 0 <= i < |s| => Str([s[i]]));
  }

  /** A list looks its converter up once per element, so an unregistered
      `list_type` raises KeyError only when there is an element to convert. */
  lemma ListLooksUpPerElement(a: Argument, v: Value)
    requires a.info.isList && !a.info.isTuple && Lookup(a.info.listType).Failure?
    requires v.Str? || v.List?
    ensures |Iterate(v).value| == 0 ==> ConvertArgument(a, v) == Success(List([]))
    ensures |Iterate(v).value| > 0 ==> ConvertArgument(a, v) == Failure(KeyError(a.info.listType))
  {
    ListConvertsElementwise(a, v);
    var xs := Iterate(v).value;
    if |xs| > 0 {
      assert ConvertNamed(a.info.listType, xs[0]).Failure?;
    }
  }

  /** A tuple type naming an unregistered element type raises KeyError for
      the first such name, whatever the value, before the value is looked
      at. */
  lemma TupleLooksUpFirst(a: Argument, v: Value, j: nat)
    requires a.info.isTuple && j < |a.info.tupleTypes| && Lookup(a.info.tupleTypes[j]).Failure?
    requires forall i :: 0 <= i < j ==> Lookup(a.info.tupleTypes[i]).Success?
    ensures ConvertArgument(a, v) == Failure(KeyError(a.info.tupleTypes[j]))
  {
    var r := Traverse(Lookup, a.info.tupleTypes);
    assert r.Failure?;
    var i :| 0 <= i < |a.info.tupleTypes| && Lookup(a.info.tupleTypes[i]).Failure?
      && r.error == Lookup(a.info.tupleTypes[i]).error
      && forall k :: 0 <= k < i ==> Lookup(a.info.tupleTypes[k]).Success?;
    assert i == j;
  }

  /** A tuple zips its converters with the values positionally: the result
      is as long as the shorter of the two, so surplus values are dropped
      and missing ones are not noticed. */
  lemma TupleZipsPositionally(a: Argument, v: Value)
    requires !a.info.isList && a.info.isTuple && (v.Str? || v.List?)
    requires forall j :: 0 <= j < |a.info.tupleTypes| ==> Lookup(a.info.tupleTypes[j]).Success?
    ensures var converters := Traverse(Lookup, a.info.tupleTypes).value;
      var xs := Iterate(v).value;
      var n := if |converters| < |xs| then |converters| else |xs|;
      var r := ConvertArgument(a, v);
      && (r.Success? <==> forall i :: 0 <= i < n ==> Convert(converters[i], xs[i]).Success?)
      && (r.Success? ==>
            (r.value.List? && |r.value.items| == n
             && forall i :: 0 <= i < n ==> r.value.items[i] == Convert(converters[i], xs[i]).value))
      && (r.Failure? ==>
            exists i :: (0 <= i < n && Convert(converters[i], xs[i]).Failure?
              && r.error == Convert(converters[i], xs[i]).error
              && forall j :: 0 <= j < i ==> Convert(converters[j], xs[j]).Success?))
  {
  }

  /** A list of tuples converts every record with the tuple rule, keeping
      the number and order of the records. */
  lemma ListOfTuplesConvertsRecords(a: Argument, v: Value)
    requires a.info.isList && a.info.isTuple && (v.Str? || v.List?)
    requires forall j :: 0 <= j < |a.info.tupleTypes| ==> Lookup(a.info.tupleTypes[j]).Success?
    ensures var converters := Traverse(Lookup, a.info.tupleTypes).value;
      var records := Iterate(v).value;
      var r := ConvertArgument(a, v);
      && (r.Success? <==> forall i :: 0 <= i < |records| ==> ConvertRecord(converters, records[i]).Success?)
      && (r.Success? ==>
            (r.value.List? && |r.value.items| == |records|
             && forall i :: 0 <= i < |records| ==>
                  r.value.items[i] == ConvertRecord(converters, records[i]).value))
      && (r.Failure? ==>
            exists i :: (0 <= i < |records| && ConvertRecord(converters, records[i]).Failure?
              && r.error == ConvertRecord(converters, records[i]).error
              && forall j :: 0 <= j < i ==> ConvertRecord(converters, records[j]).Success?))
  {
    var converters := Traverse(Lookup, a.info.tupleTypes).value;
    var records := Iterate(v).value;
    var f := (record: Value) => ConvertRecord(converters, record);
    assert forall i :: 0 <= i < |records| ==> f(records[i]) == ConvertRecord(converters, records[i]);
  }

  /** A scalar goes through `TYPES_MAPPING[type]`; an unregistered type
      fails only at conversion time, and only when there is a value. */
  lemma ScalarUsesTypeConverter(a: Argument, v: Value)
    requires !a.info.isList && !a.info.isTuple
    ensures Lookup(a.typeName).Success? && !v.PyNone? ==>
      ConvertEntry(a, v) == Convert(Lookup(a.typeName).value, v)
    ensures Lookup(a.typeName).Failure? ==>
      ConvertEntry(a, v) == if v.PyNone? then Success(PyNone) else Failure(KeyError(a.typeName))
  {
  }

  /** The values argparse delivers under an argument's own options are the
      shapes its conversion expects: converting them can only raise KeyError
      (an unregistered type name) or ValueError (`int` on a malformed
      string), and a tuple gets exactly one value per element type, so `zip`
      drops nothing. */
  lemma DeliveredValuesConvert(a: Argument, v: Value)
    requires Initialized(a) && !v.PyNone?
    requires Delivers(ArgparseOptions(a).1, v)
    ensures ConvertArgument(a, v).Failure? ==>
      ConvertArgument(a, v).error.KeyError? || ConvertArgument(a, v).error.ValueError?
    ensures ConvertArgument(a, v).Success? && !a.info.isList && a.info.isTuple ==>
      (ConvertArgument(a, v).value.List? && |ConvertArgument(a, v).value.items| == |a.info.tupleTypes|)
    ensures ConvertArgument(a, v).Success? && a.info.isList && a.info.isTuple ==>
      (ConvertArgument(a, v).value.List?
       && forall record :: record in ConvertArgument(a, v).value.items ==>
            record.List? && |record.items| == |a.info.tupleTypes|)
  {
    OptionsByKind(a);
    var kw := ArgparseOptions(a).1;
    if a.info.isList && !a.info.isTuple {
      forall x | x in v.items ensures x.Str? {
        assert DeliversOccurrence(kw, x);
      }
      DeliveredListConverts(a, v);
    } else if !a.info.isList && a.info.isTuple {
      assert DeliversOccurrence(kw, v);
      DeliveredTupleConverts(a, v);
    } else if a.info.isList && a.info.isTuple {
      forall record | record in v.items
        ensures record.List? && |record.items| == |a.info.tupleTypes|
        ensures forall x :: x in record.items ==> x.Str?
      {
        assert DeliversOccurrence(kw, record);
      }
      DeliveredRecordsConvert(a, v);
    } else {
      assert DeliversOccurrence(kw, v);
      DeliveredScalarConverts(a, v);
    }
  }

  /** A scalar receives one string, or the constant True of a switch. */
  lemma DeliveredScalarConverts(a: Argument, v: Value)
    requires !a.info.isList && !a.info.isTuple
    requires v.Str? || (a.typeName == "switch" && v == Bool(true))
    ensures ConvertArgument(a, v).Failure? ==>
      ConvertArgument(a, v).error.KeyError? || ConvertArgument(a, v).error.ValueError?
  {
    assert ConvertArgument(a, v) == ConvertNamed(a.typeName, v);
  }

  /** Every element argparse appended for a list is a string. */
  lemma DeliveredListConverts(a: Argument, v: Value)
    requires a.info.isList && !a.info.isTuple
    requires v.List? && forall x :: x in v.items ==> x.Str?
    ensures ConvertArgument(a, v).Failure? ==>
      ConvertArgument(a, v).error.KeyError? || ConvertArgument(a, v).error.ValueError?
  {
    ListConvertsElementwise(a, v);
    var r := ConvertArgument(a, v);
    if r.Failure? {
      var i :| 0 <= i < |v.items| && ConvertNamed(a.info.listType, v.items[i]).Failure?
        && r.error == ConvertNamed(a.info.listType, v.items[i]).error;
      assert v.items[i] in v.items;
    }
  }

  /** A tuple's `nargs` hands over exactly one string per element type. */
  lemma DeliveredTupleConverts(a: Argument, v: Value)
    requires !a.info.isList && a.info.isTuple
    requires v.List? && |v.items| == |a.info.tupleTypes| && forall x :: x in v.items ==> x.Str?
    ensures ConvertArgument(a, v).Failure? ==>
      ConvertArgument(a, v).error.KeyError? || ConvertArgument(a, v).error.ValueError?
    ensures ConvertArgument(a, v).Success? ==>
      (ConvertArgument(a, v).value.List? && |ConvertArgument(a, v).value.items| == |a.info.tupleTypes|)
  {
    var lookups := Traverse(Lookup, a.info.tupleTypes);
    if lookups.Failure? {
      LookupsFailWithKeyError(a.info.tupleTypes);
      assert ConvertArgument(a, v) == Failure(lookups.error);
    } else {
      assert ConvertArgument(a, v) == ConvertRecord(lookups.value, v);
      RecordOfStringsConverts(lookups.value, v);
    }
  }

  /** A list of tuples receives records that each hold exactly one string
      per element type. */
  lemma DeliveredRecordsConvert(a: Argument, v: Value)
    requires a.info.isList && a.info.isTuple
    requires v.List? && forall record :: record in v.items ==>
      record.List? && |record.items| == |a.info.tupleTypes| && forall x :: x in record.items ==> x.Str?
    ensures ConvertArgument(a, v).Failure? ==>
      ConvertArgument(a, v).error.KeyError? || ConvertArgument(a, v).error.ValueError?
    ensures ConvertArgument(a, v).Success? ==>
      (ConvertArgument(a, v).value.List?
       && forall record :: record in ConvertArgument(a, v).value.items ==>
            record.List? && |record.items| == |a.info.tupleTypes|)
  {
    var lookups := Traverse(Lookup, a.info.tupleTypes);
    if lookups.Failure? {
      LookupsFailWithKeyError(a.info.tupleTypes);
      assert ConvertArgument(a, v) == Failure(lookups.error);
    } else {
      var converters := lookups.value;
      var f := (record: Value) => ConvertRecord(converters, record);
      var records := Traverse(f, v.items);
      assert ConvertArgument(a, v) == if records.Success? then Success(List(records.value)) else Failure(records.error);
      if records.Failure? {
        var i :| 0 <= i < |v.items| && f(v.items[i]).Failure? && records.error == f(v.items[i]).error;
        assert v.items[i] in v.items;
        RecordOfStringsConverts(converters, v.items[i]);
      } else {
        forall record | record in records.value
          ensures record.List? && |record.items| == |a.info.tupleTypes|
        {
          var i :| 0 <= i < |records.value| && records.value[i] == record;
          assert v.items[i] in v.items;
          RecordOfStringsConverts(converters, v.items[i]);
        }
      }
    }
  }

  /** Looking up element type names can only raise KeyError. */
  lemma LookupsFailWithKeyError(names: seq<string>)
    ensures Traverse(Lookup, names).Failure? ==> Traverse(Lookup, names).error.KeyError?
  {
    var r := Traverse(Lookup, names);
    if r.Failure? {
      var i :| 0 <= i < |names| && Lookup(names[i]).Failure? && r.error == Lookup(names[i]).error;
    }
  }

  /** Zipping converters with a list of strings can only raise ValueError,
      and otherwise yields one value per pair. */
  lemma RecordOfStringsConverts(converters: seq<Converter>, v: Value)
    requires v.List? && forall x :: x in v.items ==> x.Str?
    ensures ConvertRecord(converters, v).Failure? ==> ConvertRecord(converters, v).error.ValueError?
    ensures ConvertRecord(converters, v).Success? ==>
      (ConvertRecord(converters, v).value.List?
       && |ConvertRecord(converters, v).value.items|
          == if |converters| < |v.items| then |converters| else |v.items|)
  {
    var xs := v.items;
    var n := if |converters| < |xs| then |converters| else |xs|;
    var pairs := seq(n, i requires 0 <= i < n => (converters[i], xs[i]));
    var f := (p: (Converter, Value)) => Convert(p.0, p.1);
    var r := Traverse(f, pairs);
    assert ConvertRecord(converters, v) == if r.Success? then Success(List(r.value)) else Failure(r.error);
    if r.Failure? {
      var i :| 0 <= i < n && f(pairs[i]).Failure? && r.error == f(pairs[i]).error;
      assert xs[i] in xs;
    }
  }

  // ---------------------------------------------------------------------
  // The whole pipeline
  // ---------------------------------------------------------------------

  /** End to end, for distinct argument names: resolution succeeds exactly
      when every argument's chosen value converts, and then every argument
      holds the conversion of the value the precedence chain chose. */
  lemma ResolveAt(arguments: seq<Argument>, cliValues: map<string, Value>, env: map<string, string>)
    requires HasEntries(arguments, cliValues) && DistinctNames(arguments)
    ensures var r := Resolve(arguments, cliValues, env);
      && (r.Success? <==> forall i :: 0 <= i < |arguments| ==>
            ConvertEntry(arguments[i], Fallback(arguments[i], cliValues[arguments[i].name], env)).Success?)
      && (r.Success? ==> r.value.Keys == cliValues.Keys)
      && (r.Success? ==> forall i :: 0 <= i < |arguments| ==>
            r.value[arguments[i].name]
              == ConvertEntry(arguments[i], Fallback(arguments[i], cliValues[arguments[i].name], env)).value)
      && (r.Failure? ==> exists i :: (0 <= i < |arguments|
            && ConvertEntry(arguments[i], Fallback(arguments[i], cliValues[arguments[i].name], env)).Failure?
            && r.error
               == ConvertEntry(arguments[i], Fallback(arguments[i], cliValues[arguments[i].name], env)).error
            && forall j :: 0 <= j < i ==>
                 ConvertEntry(arguments[j], Fallback(arguments[j], cliValues[arguments[j].name], env)).Success?))
  {
    var filled := FallbackAll(arguments, cliValues, env);
    forall i | 0 <= i < |arguments|
      ensures filled[arguments[i].name] == Fallback(arguments[i], cliValues[arguments[i].name], env)
    {
      FallbackAllAt(arguments, cliValues, env, i);
    }
    ConvertAllAt(arguments, filled);
  }

  /** A switch: the bare flag stores the constant True, which converts to
      True; a value after the flag goes through `str_to_bool`; a switch
      absent everywhere stays None rather than becoming False. */
  lemma SwitchResolves(a: Argument, env: map<string, string>, s: string)
    requires Initialized(a) && a.typeName == "switch"
    ensures ConvertEntry(a, Fallback(a, Bool(true), env)) == Success(Bool(true))
    ensures ConvertEntry(a, Fallback(a, Str(s), env)) == Success(Bool(StrToBool(s)))
    ensures a.envVar.None? && a.defaultValue.None? ==>
      ConvertEntry(a, Fallback(a, PyNone, env)) == Success(PyNone)
  {
    PlainTypeIsScalar("switch");
  }

  /** An `int` argument left unset on the command line takes its
      environment variable when that is set, even to "" and even with a
      parsable default: the empty value then fails with ValueError. */
  lemma EnvironmentBeatsDefault(a: Argument, env: map<string, string>)
    requires Initialized(a) && a.typeName == "int"
    requires a.envVar.Some? && a.envVar.value in env
    ensures ConvertEntry(a, Fallback(a, PyNone, env)) == Convert(IntConverter, Str(env[a.envVar.value]))
    ensures env[a.envVar.value] == "" ==> ConvertEntry(a, Fallback(a, PyNone, env)) == Failure(ValueError(""))
    ensures env[a.envVar.value] == "1410" ==> ConvertEntry(a, Fallback(a, PyNone, env)) == Success(Int(1410))
  {
    PlainTypeIsScalar("int");
    IntRejectsMalformed();
  }

  // ---------------------------------------------------------------------
  // The parser object
  // ---------------------------------------------------------------------

  class ArgumentsParser {
    /** The declared arguments, in declaration order. */
    const arguments: seq<Argument>
    /** Argument name to its current value. */
    var argumentsValues: map<string, Value>

    ghost predicate Valid()
      reads this
    {
      HasEntries(arguments, argumentsValues)
    }

    /** The state after `_parse_toml_definitions` and `_read_cli_arguments`:
        the schema, and argparse's values under every argument's name. */
    constructor (arguments: seq<Argument>, cliValues: map<string, Value>)
      requires HasEntries(arguments, cliValues)
      ensures Valid()
      ensures this.arguments == arguments && argumentsValues == cliValues
    {
      this.arguments := arguments;
      argumentsValues := cliValues;
    }

    /** `_fallback_values`: fills the entries the command line left None from
        the environment, then from the defaults. */
    method FallbackValues(env: map<string, string>)
      requires Valid()
      modifies this
      ensures Valid()
      ensures argumentsValues == FallbackAll(arguments, old(argumentsValues), env)
    {
      var i := 0;
      while i < |arguments|
        invariant 0 <= i <= |arguments|
        invariant HasEntries(arguments[..i], old(argumentsValues))
        invariant argumentsValues.Keys == old(argumentsValues).Keys
        invariant argumentsValues == FallbackAll(arguments[..i], old(argumentsValues), env)
      {
        HasEntriesPrefix(arguments, i + 1, old(argumentsValues));
        assert arguments[..i + 1][..i] == arguments[..i];
        var argument := arguments[i];
        ghost var before := argumentsValues;
        if argumentsValues[argument.name].PyNone? && argument.envVar.Some? {
          argumentsValues := argumentsValues[argument.name := Getenv(env, argument.envVar.value)];
        }
        if argumentsValues[argument.name].PyNone? && argument.defaultValue.Some? {
          argumentsValues := argumentsValues[argument.name := Str(argument.defaultValue.value)];
        }
        assert argumentsValues == before[argument.name := Fallback(argument, before[argument.name], env)];
        assert arguments[..i + 1][i] == argument;
        assert FallbackAll(arguments[..i + 1], old(argumentsValues), env)
          == before[argument.name := Fallback(argument, before[argument.name], env)];
        i := i + 1;
      }
      assert arguments[..i] == arguments;
    }

    /** `_convert_values`: rewrites every entry that is not None through the
        converters of its argument's type; the first exception aborts the
        pass and is reported. */
    method ConvertValues() returns (outcome: Outcome<Error>)
      requires Valid()
      modifies this
      ensures Valid()
      ensures ConvertAll(arguments, old(argumentsValues)).Success? ==>
        outcome == Pass && argumentsValues == ConvertAll(arguments, old(argumentsValues)).value
      ensures ConvertAll(arguments, old(argumentsValues)).Failure? ==>
        outcome == Fail(ConvertAll(arguments, old(argumentsValues)).error)
    {
      var i := 0;
      while i < |arguments|
        invariant 0 <= i <= |arguments|
        invariant HasEntries(arguments[..i], old(argumentsValues))
        invariant argumentsValues.Keys == old(argumentsValues).Keys
        invariant ConvertAll(arguments[..i], old(argumentsValues)) == Success(argumentsValues)
      {
        HasEntriesPrefix(arguments, i + 1, old(argumentsValues));
        assert arguments[..i + 1][..i] == arguments[..i];
        var argument := arguments[i];
        var argumentValue := argumentsValues[argument.name];
        if argumentValue.PyNone? {
          i := i + 1;
          continue;
        }
        var converted := ConvertArgument(argument, argumentValue);
        if converted.Failure? {
          ConvertAllFailureSticks(arguments, i + 1, old(argumentsValues));
          return Fail(converted.error);
        }
        argumentsValues := argumentsValues[argument.name := converted.value];
        i := i + 1;
      }
      assert arguments[..i] == arguments;
      return Pass;
    }
  }

  /** `ArgumentsParser(...)` after argparse: builds the parser, runs both
      passes, and yields `arguments_values` or the exception raised. */
  method Parse(arguments: seq<Argument>, cliValues: map<string, Value>, env: map<string, string>)
    returns (r: Result<map<string, Value>, Error>)
    requires HasEntries(arguments, cliValues)
    ensures r == Resolve(arguments, cliValues, env)
  {
    var parser := new ArgumentsParser(arguments, cliValues);
    parser.FallbackValues(env);
    var outcome := parser.ConvertValues();
    r := if outcome.Pass? then Success(parser.argumentsValues) else Failure(outcome.error);
  }
}
