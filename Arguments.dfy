/** The `Argument` record (script_args_parser/parser.py:10-51): the type
    classification `__post_init__` derives from the type string with two
    regular expressions, and the argparse options it yields. */
module Arguments {
  import opened Results
  import PyText
  import opened Values

  /** Index of the first '\n' at or after `from` in `t`, or `|t|`: how far
      the regex `.` (which does not match a newline) can reach. */
  function LineEnd(t: string, from: nat): (n: nat)
    requires from <= |t|
    ensures from <= n <= |t|
    ensures forall j :: from <= j < n ==> t[j] != '\n'
    ensures n < |t| ==> t[n] == '\n'
    decreases |t| - from
  {
    if from == |t| || t[from] == '\n' then from else LineEnd(t, from + 1)
  }

  /** A slice starting at `from` is free of newlines exactly when it stops
      at or before `LineEnd(t, from)`. */
  lemma NewlineFree(t: string, from: nat, k: nat)
    requires from <= k <= |t|
    ensures '\n' !in t[from..k] <==> k <= LineEnd(t, from)
  {
    var n := LineEnd(t, from);
    if k > n {
      assert t[from..k][n - from] == '\n';
    }
  }

  /** The last index in `[lo, hi)` holding `c`, if any. */
  function LastIndex(t: string, c: char, lo: nat, hi: nat): (r: Option<nat>)
    requires hi <= |t|
    ensures r.Some? ==> lo <= r.value < hi && t[r.value] == c
    ensures r.Some? ==> forall j :: r.value < j < hi ==> t[j] != c
    ensures r.None? ==> forall j :: lo <= j < hi ==> t[j] != c
    decreases hi
  {
    if hi <= lo then None
    else if t[hi - 1] == c then Some(hi - 1)
    else LastIndex(t, c, lo, hi - 1)
  }

  /** The first index in `[lo, hi)` holding `c`, if any. */
  function FirstIndex(t: string, c: char, lo: nat, hi: nat): (r: Option<nat>)
    requires hi <= |t|
    ensures r.Some? ==> lo <= r.value < hi && t[r.value] == c
    ensures r.Some? ==> forall j :: lo <= j < r.value ==> t[j] != c
    ensures r.None? ==> forall j :: lo <= j < hi ==> t[j] != c
    decreases hi - lo
  {
    if hi <= lo then None
    else if t[lo] == c then Some(lo)
    else FirstIndex(t, c, lo + 1, hi)
  }

  /** `re.match(r'list\[(.+)\]', t)` can succeed with its `]` at index `k`:
      the string starts with "list[", at least one character follows before
      `k`, and none of them is a newline. */
  ghost predicate ListGroupEndsAt(t: string, k: int) {
    |t| >= 5 && t[..5] == "list[" && 6 <= k < |t| && t[k] == ']' && '\n' !in t[5..k]
  }

  /** `re.match(r'list\[(.+)\]', t)[1]`: the greedy group runs to the last
      `]` that the match can reach. */
  function ListMatch(t: string): (r: Option<string>)
    ensures r.Some? <==> exists k :: ListGroupEndsAt(t, k)
    ensures r.Some? ==> ListGroupEndsAt(t, 5 + |r.value|) && r.value == t[5..5 + |r.value|]
    ensures r.Some? ==> forall k :: ListGroupEndsAt(t, k) ==> k <= 5 + |r.value|
  {
    if |t| < 5 || t[..5] != "list[" then None
    else
      var n := LineEnd(t, 5);
      match LastIndex(t, ']', 6, n)
      case None =>
        assert forall k :: ListGroupEndsAt(t, k) ==> false by {
          forall k | ListGroupEndsAt(t, k) ensures false {
            NewlineFree(t, 5, k);
          }
        }
        None
      case Some(k) =>
        NewlineFree(t, 5, k);
        assert ListGroupEndsAt(t, k);
        assert forall j :: ListGroupEndsAt(t, j) ==> j <= k by {
          forall j | ListGroupEndsAt(t, j) ensures j <= k {
            NewlineFree(t, 5, j);
          }
        }
        Some(t[5..k])
  }

  /** `re.search(r'tuple\[(.+?)\]', t)` can match starting at `i` with its
      `]` at index `k`. */
  ghost predicate TupleGroupAt(t: string, i: int, k: int) {
    && 0 <= i && i + 6 <= |t| && t[i..i + 6] == "tuple["
    && i + 7 <= k < |t| && t[k] == ']' && '\n' !in t[i + 6..k]
  }

  /** The match `re.search` reports: the leftmost start, and from there the
      shortest (lazy) group. */
  ghost predicate FirstTupleGroup(t: string, i: int, k: int) {
    && TupleGroupAt(t, i, k)
    && (forall k' :: TupleGroupAt(t, i, k') ==> k <= k')
    && (forall j, k' :: TupleGroupAt(t, j, k') ==> i <= j)
  }

  /** The regex search from start position `i` on. */
  function TupleSearchFrom(t: string, i: nat): (r: Option<(nat, nat)>)
    requires i <= |t|
    ensures r.Some? ==> i <= r.value.0 && TupleGroupAt(t, r.value.0, r.value.1)
    ensures r.Some? ==> forall k :: TupleGroupAt(t, r.value.0, k) ==> r.value.1 <= k
    ensures r.Some? ==> forall j, k :: i <= j < r.value.0 ==> !TupleGroupAt(t, j, k)
    ensures r.None? ==> forall j, k :: i <= j ==> !TupleGroupAt(t, j, k)
    decreases |t| - i
  {
    if i + 6 > |t| then None
    else if t[i..i + 6] != "tuple[" then TupleSearchFrom(t, i + 1)
    else
      var n := LineEnd(t, i + 6);
      match FirstIndex(t, ']', i + 7, n)
      case Some(k) =>
        NewlineFree(t, i + 6, k);
        assert forall k' :: TupleGroupAt(t, i, k') ==> k <= k' by {
          forall k' | TupleGroupAt(t, i, k') ensures k <= k' {
            NewlineFree(t, i + 6, k');
          }
        }
        Some((i, k))
      case None =>
        assert forall k' :: !TupleGroupAt(t, i, k') by {
          forall k' | TupleGroupAt(t, i, k') ensures false {
            NewlineFree(t, i + 6, k');
          }
        }
        TupleSearchFrom(t, i + 1)
  }

  /** `re.search(r'tuple\[(.+?)\]', t)`, as the start of the match and the
      index of its closing `]`; the group is `t[i + 6..k]`. */
  function TupleSearch(t: string): (r: Option<(nat, nat)>)
    ensures r.Some? ==> FirstTupleGroup(t, r.value.0, r.value.1)
    ensures r.None? ==> forall i, k :: !TupleGroupAt(t, i, k)
  {
    TupleSearchFrom(t, 0)
  }

  /** `[x.strip() for x in parts]`. */
  function StripAll(parts: seq<string>): (r: seq<string>)
    ensures |r| == |parts|
    ensures forall j :: 0 <= j < |parts| ==> r[j] == PyText.Strip(parts[j], PyText.IsSpace)
  {
    seq(|parts|, j requires 0 <= j < |parts| => PyText.Strip(parts[j], PyText.IsSpace))
  }

  /** The fields `__post_init__` derives from the type string. Python keeps
      `list_type` and `tuple_types` as None when the matching flag is false;
      here they are "" and [] then, and only read under their flag. */
  datatype TypeInfo = TypeInfo(isList: bool, listType: string, isTuple: bool, tupleTypes: seq<string>)

  /** `Argument.__post_init__`: a type string that starts with "list[" is a
      list of the text up to the last reachable `]`; one that contains
      "tuple[" anywhere is a tuple of the comma-separated, stripped names up
      to the first following `]`. Both can hold at once (a list of tuples). */
  function Classify(typeName: string): (info: TypeInfo)
    ensures !info.isList ==> info.listType == ""
    ensures info.isTuple ==> |info.tupleTypes| >= 1
    ensures !info.isTuple ==> info.tupleTypes == []
  {
    var listMatch := ListMatch(typeName);
    var tupleMatch := TupleSearch(typeName);
    TypeInfo(
      listMatch.Some?,
      if listMatch.Some? then listMatch.value else "",
      tupleMatch.Some?,
      match tupleMatch
      case Some((i, k)) => StripAll(PyText.Split(typeName[i + 6..k], ','))
      case None => [])
  }

  /** The classification is what the two regular expressions report: the
      list flag holds exactly when `re.match(r'list\[(.+)\]')` matches, with
      the greedy group as element type; the tuple flag holds exactly when
      `re.search(r'tuple\[(.+?)\]')` finds a match, and the element types
      are the stripped comma-separated pieces of its leftmost, shortest
      group. */
  lemma ClassifyMatchesRegexes(typeName: string)
    ensures var info := Classify(typeName);
      && (info.isList <==> exists k :: ListGroupEndsAt(typeName, k))
      && (info.isList ==>
            && ListGroupEndsAt(typeName, 5 + |info.listType|)
            && info.listType == typeName[5..5 + |info.listType|]
            && forall k :: ListGroupEndsAt(typeName, k) ==> k <= 5 + |info.listType|)
      && (info.isTuple <==> exists i, k :: TupleGroupAt(typeName, i, k))
      && (info.isTuple ==> exists i, k ::
            FirstTupleGroup(typeName, i, k)
            && info.tupleTypes == StripAll(PyText.Split(typeName[i + 6..k], ',')))
  {
    var tupleMatch := TupleSearch(typeName);
    if tupleMatch.Some? {
      var (i, k) := tupleMatch.value;
      assert FirstTupleGroup(typeName, i, k);
    }
  }

  /** A type name without any `[`, such as "int" or "switch", is a scalar:
      neither a list nor a tuple. */
  lemma PlainTypeIsScalar(typeName: string)
    requires '[' !in typeName
    ensures !Classify(typeName).isList && !Classify(typeName).isTuple
  {
    ClassifiedTypeHasBracket(typeName);
  }

  /** Both regexes need a `[`: a list type has it at index 4, a tuple type
      right after "tuple". */
  lemma ClassifiedTypeHasBracket(typeName: string)
    ensures Classify(typeName).isList ==> typeName[4] == '['
    ensures Classify(typeName).isTuple ==> exists i :: 5 <= i < |typeName| && typeName[i] == '['
  {
    ClassifyMatchesRegexes(typeName);
    if Classify(typeName).isList {
      var k :| ListGroupEndsAt(typeName, k);
      assert typeName[4] == typeName[..5][4];
    }
    if Classify(typeName).isTuple {
      var i, k :| TupleGroupAt(typeName, i, k);
      assert typeName[i + 5] == typeName[i..i + 6][5];
    }
  }

  /** The list regex matches up to the final character when that is a
      reachable `]`. */
  lemma ListMatchAtEnd(t: string)
    requires ListGroupEndsAt(t, |t| - 1)
    ensures ListMatch(t) == Some(t[5..|t| - 1])
    ensures Classify(t).isList && Classify(t).listType == t[5..|t| - 1]
  {
  }

  /** The tuple search reports the match at `i` and `k` when no match
      starts earlier and no `]` lies between the group's first character
      and `k`. */
  lemma TupleSearchAt(t: string, i: nat, k: nat)
    requires TupleGroupAt(t, i, k)
    requires forall j, k' :: 0 <= j < i ==> !TupleGroupAt(t, j, k')
    requires forall j :: i + 7 <= j < k ==> t[j] != ']'
    ensures TupleSearch(t) == Some((i, k))
    ensures Classify(t).isTuple && Classify(t).tupleTypes == StripAll(PyText.Split(t[i + 6..k], ','))
  {
    var r := TupleSearch(t);
    assert r.Some?;
    assert r.value.0 == i;
    assert r.value.1 <= k;
  }

  /** A type string that does not start with "list[" is not a list. */
  lemma NotListType(t: string)
    requires |t| < 5 || t[..5] != "list["
    ensures !Classify(t).isList
  {
  }

  /** A "tuple[" at `i`, followed by a group `x` free of `]` and of
      newlines and then a `]`, with no match starting earlier, makes the
      type a tuple of the pieces of `x`. */
  lemma TupleGroupIs(t: string, i: nat, x: string)
    requires |x| >= 1 && ']' !in x && '\n' !in x
    requires i + 7 + |x| <= |t| && t[i..i + 6] == "tuple[" && t[i + 6..i + 6 + |x|] == x
    requires t[i + 6 + |x|] == ']'
    requires forall j, k' :: 0 <= j < i ==> !TupleGroupAt(t, j, k')
    ensures Classify(t).isTuple && Classify(t).tupleTypes == StripAll(PyText.Split(x, ','))
  {
    var k := i + 6 + |x|;
    NoBracketInGroup(t, i + 6, x);
    TupleSearchAt(t, i, k);
    assert t[i + 6..k] == x;
  }

  /** A `]`-free group `x` sitting at `lo` puts no `]` at any of its
      positions. */
  lemma NoBracketInGroup(t: string, lo: nat, x: string)
    requires ']' !in x && lo + |x| <= |t| && t[lo..lo + |x|] == x
    ensures forall j :: lo <= j < lo + |x| ==> t[j] != ']'
  {
    forall j | lo <= j < lo + |x| ensures t[j] != ']' {
      assert t[j] == x[j - lo];
    }
  }

  /** "list[X]" with X free of `[` and of newlines is a list of X, even
      when X holds a `]` of its own (the group is greedy), and not a
      tuple. */
  lemma ListTypeClassified(x: string)
    requires |x| >= 1 && '[' !in x && '\n' !in x
    ensures var info := Classify("list[" + x + "]");
      info.isList && info.listType == x && !info.isTuple
  {
    var t := "list[" + x + "]";
    assert t[..5] == "list[" && t[5..|t| - 1] == x;
    ListMatchAtEnd(t);
    forall j | 5 <= j < |t| ensures t[j] != '[' {
      if j < |t| - 1 {
        assert t[j] == x[j - 5];
      }
    }
    ClassifiedTypeHasBracket(t);
  }

  /** "tuple[X]" with X free of `]` and of newlines is a tuple of the
      stripped comma-separated pieces of X, and not a list. */
  lemma TupleTypeClassified(x: string)
    requires |x| >= 1 && ']' !in x && '\n' !in x
    ensures !Classify("tuple[" + x + "]").isList
    ensures Classify("tuple[" + x + "]").isTuple
    ensures Classify("tuple[" + x + "]").tupleTypes == StripAll(PyText.Split(x, ','))
  {
    TupleTypeIsTuple(x);
    TupleTypeIsNotList(x);
  }

  lemma TupleTypeIsTuple(x: string)
    requires |x| >= 1 && ']' !in x && '\n' !in x
    ensures Classify("tuple[" + x + "]").isTuple
    ensures Classify("tuple[" + x + "]").tupleTypes == StripAll(PyText.Split(x, ','))
  {
    var t := "tuple[" + x + "]";
    assert t[0..6] == "tuple[" && t[6..6 + |x|] == x;
    TupleGroupIs(t, 0, x);
  }

  lemma TupleTypeIsNotList(x: string)
    ensures !Classify("tuple[" + x + "]").isList
  {
    var t := "tuple[" + x + "]";
    assert t[0] == 't';
    NotListType(t);
  }

  /** "list[tuple[X]]" with X free of `]` and of newlines is both: a list
      whose element type is "tuple[X]", and a tuple whose element types are
      the stripped comma-separated pieces of X (which sits at index 11). */
  lemma ListOfTuplesTypeClassified(x: string)
    requires |x| >= 1 && ']' !in x && '\n' !in x
    ensures Classify("list[tuple[" + x + "]]").isList
    ensures Classify("list[tuple[" + x + "]]").listType == "tuple[" + x + "]"
    ensures Classify("list[tuple[" + x + "]]").isTuple
    ensures ("list[tuple[" + x + "]]")[11..11 + |x|] == x
    ensures Classify("list[tuple[" + x + "]]").tupleTypes
      == StripAll(PyText.Split(("list[tuple[" + x + "]]")[11..11 + |x|], ','))
  {
    ListOfTuplesTypeIsList(x);
    ListOfTuplesTupleSearch(x);
    ClassifyFromTupleSearch("list[tuple[" + x + "]]", 5, 11 + |x|);
  }

  lemma ListOfTuplesTypeIsList(x: string)
    requires '\n' !in x
    ensures Classify("list[tuple[" + x + "]]").isList
    ensures Classify("list[tuple[" + x + "]]").listType == "tuple[" + x + "]"
  {
    var t := "list[tuple[" + x + "]]";
    assert t[..5] == "list[" && t[5..|t| - 1] == "tuple[" + x + "]";
    ListMatchAtEnd(t);
  }

  lemma ListOfTuplesTupleSearch(x: string)
    requires |x| >= 1 && ']' !in x && '\n' !in x
    ensures TupleSearch("list[tuple[" + x + "]]") == Some((5, 11 + |x|))
    ensures ("list[tuple[" + x + "]]")[11..11 + |x|] == x
  {
    var t := "list[tuple[" + x + "]]";
    var k := 11 + |x|;
    assert t[5..11] == "tuple[" && t[11..k] == x;
    NoTupleBefore(t, 5);
    forall j | 12 <= j < k ensures t[j] != ']' {
      assert t[j] == t[11..k][j - 11];
    }
    TupleSearchAt(t, 5, k);
  }

  /** A tuple match needs a `[` five characters after its start, so none
      starts before `i` when those positions hold none. */
  lemma NoTupleBefore(t: string, i: nat)
    requires i + 5 <= |t|
    requires forall j :: 5 <= j < i + 5 ==> t[j] != '['
    ensures forall j, k :: 0 <= j < i ==> !TupleGroupAt(t, j, k)
  {
    forall j, k | 0 <= j < i ensures !TupleGroupAt(t, j, k) {
      if j + 6 <= |t| {
        assert t[j..j + 6][5] == t[j + 5];
      }
    }
  }

  /** What the tuple search reports is what the classification keeps. */
  lemma ClassifyFromTupleSearch(t: string, i: nat, k: nat)
    requires TupleSearch(t) == Some((i, k))
    ensures i + 6 <= k <= |t|
    ensures Classify(t).isTuple && Classify(t).tupleTypes == StripAll(PyText.Split(t[i + 6..k], ','))
  {
  }

  /** One declared argument: the schema fields and the derived type fields. */
  datatype Argument = Argument(
    name: string,
    typeName: string,
    description: string,
    cliArg: string,
    envVar: Option<string>,
    defaultValue: Option<string>,
    info: TypeInfo)

  /** Building an `Argument` runs `__post_init__` on its type string. */
  function NewArgument(
    name: string, typeName: string, description: string, cliArg: string,
    envVar: Option<string>, defaultValue: Option<string>): (a: Argument)
    ensures Initialized(a)
    ensures a.name == name && a.typeName == typeName && a.description == description && a.cliArg == cliArg
    ensures a.envVar == envVar && a.defaultValue == defaultValue
    ensures '[' !in typeName ==> !a.info.isList && !a.info.isTuple
  {
    var a := Argument(name, typeName, description, cliArg, envVar, defaultValue, Classify(typeName));
    if '[' in typeName then a else PlainTypeIsScalar(typeName); a
  }

  /** The derived fields are those `__post_init__` computed. */
  ghost predicate Initialized(a: Argument) {
    a.info == Classify(a.typeName)
  }

  datatype Action = Store | Append

  /** argparse `nargs`: `'?'` or an exact count. */
  datatype Nargs = Optional | Exactly(count: nat)

  /** The keyword arguments given to `add_argument`; a missing key is None. */
  datatype Kwargs = Kwargs(dest: string, action: Option<Action>, nargs: Option<Nargs>, constValue: Option<bool>)

  /** `Argument.argparse_options`: the value is stored under the argument's
      name; a switch takes an optional value that defaults to True; a list
      appends one entry per occurrence; a tuple takes exactly as many values
      as it has element types. */
  function ArgparseOptions(a: Argument): (r: (seq<string>, Kwargs))
    ensures r.0 == [a.cliArg] && r.1.dest == a.name
    ensures r.1.action.Some? <==> a.info.isList || a.typeName == "switch"
    ensures r.1.action == Some(Append) <==> a.info.isList
    ensures r.1.nargs.Some? <==> a.info.isTuple || a.typeName == "switch"
    ensures a.info.isTuple ==> r.1.nargs == Some(Exactly(|a.info.tupleTypes|))
    ensures !a.info.isTuple && a.typeName == "switch" ==> r.1.nargs == Some(Optional)
    ensures r.1.constValue.Some? <==> a.typeName == "switch"
    ensures r.1.constValue.Some? ==> r.1.constValue.value
  {
    var kwargs := Kwargs(a.name, None, None, None);
    var kwargs :=
      if a.typeName == "switch"
      then kwargs.(action := Some(Store), nargs := Some(Optional), constValue := Some(true))
      else kwargs;
    var kwargs := if a.info.isList then kwargs.(action := Some(Append)) else kwargs;
    var kwargs := if a.info.isTuple then kwargs.(nargs := Some(Exactly(|a.info.tupleTypes|))) else kwargs;
    ([a.cliArg], kwargs)
  }

  /** What argparse stores for one occurrence of an option with these
      settings: a string, the `const` for a bare optional-value flag, or a
      list of exactly `n` strings. */
  ghost predicate DeliversOccurrence(kwargs: Kwargs, v: Value) {
    match kwargs.nargs
    case None => v.Str?
    case Some(Optional) => v.Str? || (kwargs.constValue.Some? && v == Bool(kwargs.constValue.value))
    case Some(Exactly(n)) => v.List? && |v.items| == n && forall x :: x in v.items ==> x.Str?
  }

  /** What `parse_args` leaves under an option's `dest`: None when the option
      never occurs, else the last occurrence, or with `append` every
      occurrence in order. */
  ghost predicate Delivers(kwargs: Kwargs, v: Value) {
    || v.PyNone?
    || (kwargs.action == Some(Append) && v.List? && |v.items| >= 1
        && forall x :: x in v.items ==> DeliversOccurrence(kwargs, x))
    || (kwargs.action != Some(Append) && DeliversOccurrence(kwargs, v))
  }

  /** The options of each kind of initialized argument: a switch never
      appends and takes an optional value defaulting to True; a list appends
      single strings; a tuple takes exactly its arity; a list of tuples
      appends records of exactly its arity; any other scalar takes one
      string. */
  lemma OptionsByKind(a: Argument)
    requires Initialized(a)
    ensures var kw := ArgparseOptions(a).1;
      && (a.typeName == "switch" ==> kw == Kwargs(a.name, Some(Store), Some(Optional), Some(true)))
      && (a.info.isList && !a.info.isTuple ==> kw == Kwargs(a.name, Some(Append), None, None))
      && (!a.info.isList && a.info.isTuple ==>
            kw == Kwargs(a.name, None, Some(Exactly(|a.info.tupleTypes|)), None))
      && (a.info.isList && a.info.isTuple ==>
            kw == Kwargs(a.name, Some(Append), Some(Exactly(|a.info.tupleTypes|)), None))
      && (!a.info.isList && !a.info.isTuple && a.typeName != "switch" ==>
            kw == Kwargs(a.name, None, None, None))
  {
    if a.typeName == "switch" {
      PlainTypeIsScalar(a.typeName);
    }
  }
}
