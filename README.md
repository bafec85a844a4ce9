# ScriptArgsParser value resolution, in Dafny

This project models the core of ScriptArgsParser, `script_args_parser/parser.py`. A program declares its
arguments once. Each declaration has a name, a type string, a CLI flag, an optional environment variable and
an optional default. `ArgumentsParser` resolves every argument to a typed value.

Resolution runs in four steps:

1. **Classify each type string.** `Argument.__post_init__` runs two regular expressions on the type string.
   - `list[...]` makes the argument a list.
   - `tuple[...]` anywhere makes it a tuple.
   - A string can be both at once, a list of tuples.
2. **Build the argparse options.** `argparse_options` derives them from the classification.
3. **Fill in missing values.** `_fallback_values` fills every entry the command line left `None`. It takes the
   environment variable when that is set, even to an empty string, and otherwise the default.
4. **Convert.** `_convert_values` rewrites every entry that is not `None` through `TYPES_MAPPING`.
   - A plain list maps element by element.
   - A tuple zips its converters with the value.
   - A list of tuples zips each record.
   - A scalar calls one converter.
   - The first exception aborts the whole pass.

Modules:

- `Results`: Option, Result and Outcome. Also `Traverse`, a list comprehension whose first failing element
  raises.
- `PyText`: the Python built-ins the code relies on. These are `str.isspace`, `str.strip`, `str.split`,
  `int(str)` and `str(int)`.
- `Values`: the values that `arguments_values` holds, the exceptions, `TYPES_MAPPING`, `str_to_bool`, and
  the three converters applied to every kind of value. It also has `iter()`, which walks a string character
  by character.
- `Arguments`: the regular-expression matches, `__post_init__`, `argparse_options`, and the shapes argparse
  delivers under those options.
- `Parser`:
  - the fallback and conversion passes, as functions over the dictionary;
  - the `ArgumentsParser` class, whose two loop methods are proved against those functions;
  - `Parse`, the sequence run by `__init__`.

The repository's tests (for example tests/test_list_of_tuples.py:84-147 and tests/test_tuple.py:122-170)
expect behaviour that `parser.py` does not have. Where they disagree, this model follows `parser.py`:

- **Strings from the environment or a default are not tokenized.** For list and tuple types, Python iterates
  such a string character by character. So a `list[str]` whose value comes from the environment as "abc"
  becomes `["a", "b", "c"]`.
- **Tuple arity is not checked.** `zip` silently truncates to the shorter side, so no arity error is raised.
- **Unknown type names fail late.** They raise a `KeyError` only at conversion time, and only when there is a
  value to convert. For lists, there must also be at least one element.
- **Some features are absent from `parser.py`**: required arguments, the `path` type, parent references,
  registered composite types and attribute access.

## Model

| member | source | states |
|---|---|---|
| Results.Traverse | script_args_parser/parser.py:115-117 | A comprehension succeeds exactly when every element's call succeeds. Its result has the same length and holds each call's value in order. A failure carries the exception of the first failing element, and every earlier element succeeded. |
| PyText.Strip | script_args_parser/parser.py:34 | Trimming a whitespace class (`str.isspace` for `x.strip()`, `int()`'s own class for `int`) gives the slice of `x` after its leading whitespace, with only whitespace after it. The slice is empty or starts and ends with a non-whitespace character. |
| PyText.StripUnchanged | script_args_parser/parser.py:34 | A string whose ends are not whitespace strips to itself. |
| PyText.SplitJoin | script_args_parser/parser.py:34 | Joining the pieces of `split(',')` with ',' gives back the string. |
| PyText.SplitCount | script_args_parser/parser.py:34 | `split(',')` yields one more piece than there are commas, keeping empty pieces. |
| PyText.Split | script_args_parser/parser.py:34 | There is at least one piece, and no piece contains the separator. |
| PyText.NatToDecimal | script_args_parser/parser.py:78 | `str(n)` is a non-empty string of digits that denotes `n`, with no leading zero unless `n` is 0. |
| PyText.IntToDecimal | script_args_parser/parser.py:78 | `str(i)` is non-empty and has no whitespace at its ends. It starts with '-' exactly when `i` is negative. The rest is digits that denote `abs(i)`, with no leading zero unless `i` is 0. |
| PyText.ParseInt | script_args_parser/parser.py:79 | `int(s)` reads a non-empty string of plain digits as the number they denote. It accepts nothing that lacks a digit. |
| PyText.ParseIntRoundTrip | script_args_parser/parser.py:79 | `int(str(i)) == i` for every integer `i`. |
| PyText.ParseIntRejectsEmpty | script_args_parser/parser.py:79 | `int("")` raises. |
| PyText.ParseIntRejectsTrailingText | script_args_parser/parser.py:79 | `int("123_not")` raises. |
| PyText.ParseIntReadsDigits | script_args_parser/parser.py:79 | `int("1410") == 1410`. |
| Values.Lookup | script_args_parser/parser.py:77-82 | `TYPES_MAPPING[name]` succeeds exactly for str, int, bool and switch. bool and switch share the boolean converter. Any other name raises `KeyError(name)`. |
| Values.StrToBool | script_args_parser/parser.py:54-66 | `str_to_bool(v)` is false exactly for "", "0" and "False". |
| Values.StrToBoolTable | script_args_parser/parser.py:62-66 | The table case by case: "0"/"False" give false, "1"/"True" give true, "" gives false, and every other string (e.g. "None", "123") gives true. |
| Values.Convert | script_args_parser/parser.py:77-82 | Each converter yields its own kind. `str` is the identity on strings. The boolean converter never raises and on a string is `str_to_bool`. On a string, only a `ValueError` with that string is possible. `int` on a string succeeds exactly when `int()` parses it, with the parsed number. |
| Values.BoolToStr | script_args_parser/parser.py:62-66 | `str(b)` is "True" or "False", and `str_to_bool` reads it back as `b`. |
| Values.IntConvertsText | script_args_parser/parser.py:79 | The `int` converter on a string gives the parsed integer, or `ValueError` naming the string. |
| Values.IntRoundTrip | script_args_parser/parser.py:78-79 | Converting an integer with `str` and then `int` gives it back. |
| Values.BoolRoundTrip | script_args_parser/parser.py:62-66 | Converting a bool with `str` and then `str_to_bool` gives it back. |
| Values.IntRejectsMalformed | script_args_parser/parser.py:79 | The `int` converter raises `ValueError` on "" and "123_not", and reads "1410" as 1410. |
| Values.Iterate | script_args_parser/parser.py:116 | `for x in v` walks a string as one-character strings and a list as its items. Anything else raises `TypeError`. |
| Arguments.ListMatch | script_args_parser/parser.py:27-30 | `re.match(r'list\[(.+)\]')` matches exactly when some `]` at index 6 or later can close a newline-free group after "list[". The group is the longest such text (greedy). |
| Arguments.TupleSearch | script_args_parser/parser.py:31 | `re.search(r'tuple\[(.+?)\]')` reports the leftmost start, and from there the shortest group. It reports nothing exactly when no match exists. |
| Arguments.StripAll | script_args_parser/parser.py:34 | `[x.strip() for x in parts]` keeps the length and strips each piece. |
| Arguments.Classify | script_args_parser/parser.py:22-34 | Without a list match, `list_type` is unset. Without a tuple match, `tuple_types` is unset. A tuple always has at least one element type. |
| Arguments.ClassifyMatchesRegexes | script_args_parser/parser.py:22-34 | `is_list` holds exactly when the list regex matches, and `list_type` is its greedy group. `is_tuple` holds exactly when the tuple regex matches somewhere, and `tuple_types` are the stripped comma pieces of the leftmost, shortest group. |
| Arguments.PlainTypeIsScalar | script_args_parser/parser.py:27-34 | A type string without `[`, such as "int" or "switch", is neither a list nor a tuple. |
| Arguments.ListTypeClassified | script_args_parser/parser.py:27-30 | "list[X]" is a list of X and not a tuple. This holds even when X contains `]`, because the group is greedy. |
| Arguments.TupleTypeClassified | script_args_parser/parser.py:31-34 | "tuple[X]" is a tuple of the stripped comma-separated pieces of X, and not a list. |
| Arguments.ListOfTuplesTypeClassified | script_args_parser/parser.py:27-34 | For X free of `]` and of newlines, "list[tuple[X]]" is a list with element type "tuple[X]". It is also a tuple whose element types are the stripped comma pieces of X. |
| Arguments.NewArgument | script_args_parser/parser.py:10-34 | Building an argument keeps its declared fields (name, type, description, flag, environment variable and default) and runs `__post_init__` on its type string. A type string without `[` gives a scalar. |
| Arguments.ArgparseOptions | script_args_parser/parser.py:36-51 | The options are `[cli_arg]` with `dest` = name. `action` is set exactly for lists (append) and switches. `nargs` is the tuple arity for tuples, and '?' for a switch that is not a tuple. `const` is True exactly for switches. |
| Arguments.OptionsByKind | script_args_parser/parser.py:41-50 | The exact options of each kind of argument: switch, list, tuple, list of tuples, and other scalars. |
| Parser.Getenv | script_args_parser/parser.py:105 | `os.getenv` gives the variable's value, or None exactly when the variable is unset. |
| Parser.Fallback | script_args_parser/parser.py:103-107 | A CLI value is kept. Without one, a bound and present environment variable wins, even when it is empty. Otherwise the default is used, or None. |
| Parser.FallbackIsFirstPresent | script_args_parser/parser.py:104-107 | The two sequential `if`s equal "the first present source among CLI, environment and default". |
| Parser.FallbackAll | script_args_parser/parser.py:102-107 | The fallback pass keeps the dictionary's keys. |
| Parser.FallbackAllFrame | script_args_parser/parser.py:102-107 | An entry that no argument names is untouched. |
| Parser.FallbackAllAt | script_args_parser/parser.py:102-107 | With distinct names, each argument's entry is the fallback of its own CLI value. |
| Parser.ArgumentsParser.constructor | script_args_parser/parser.py:84-87 | The parser holds the schema and argparse's value for every declared argument. |
| Parser.ArgumentsParser.FallbackValues | script_args_parser/parser.py:102-107 | The loop leaves exactly the fallback pass applied to the old dictionary. |
| Parser.ConvertNamed | script_args_parser/parser.py:130 | `TYPES_MAPPING[name](v)`: an unknown name raises `KeyError` before conversion; otherwise the converter's result. |
| Parser.ConvertRecord | script_args_parser/parser.py:121 | `zip` over a non-iterable raises `TypeError`. Otherwise the result has the length of the shorter side. It succeeds exactly when every zipped pair converts, and holds each pair's conversion. Otherwise it raises the exception of the first failing pair. |
| Parser.ConvertEntry | script_args_parser/parser.py:111-113 | A None entry is skipped and stays None. |
| Parser.ConvertArgument | script_args_parser/parser.py:114-130 | The per-argument branch. A tuple looks up all its converters before touching the value, so an unknown element type raises that lookup's `KeyError`. A non-iterable list or tuple value raises `TypeError`. A list keeps its length, and a tuple is at most as long as its arity. A scalar is `TYPES_MAPPING[type](v)`. |
| Parser.ConvertStep | script_args_parser/parser.py:110-130 | One iteration succeeds exactly when the current argument's entry converts, and raises its exception otherwise. It changes only that argument's entry, which becomes the converted value. |
| Parser.ConvertAll | script_args_parser/parser.py:109-130 | The conversion pass keeps the dictionary's keys. |
| Parser.ConvertAllFailureSticks | script_args_parser/parser.py:109-130 | Once an argument raises, the pass fails with that exception, whatever follows. |
| Parser.ConvertAllFrame | script_args_parser/parser.py:109-130 | An entry that no argument names is untouched. |
| Parser.ConvertAllKeepsNone | script_args_parser/parser.py:112-113 | A None entry is still None after the pass. |
| Parser.ConvertAllAt | script_args_parser/parser.py:109-130 | With distinct names, the pass succeeds exactly when every entry converts, and each entry then holds its own conversion. Otherwise it raises the exception of the first argument whose entry fails. |
| Parser.ArgumentsParser.ConvertValues | script_args_parser/parser.py:109-130 | On success, the loop reports Pass and leaves exactly the converted dictionary. Otherwise it reports the exception the conversion pass raises. |
| Parser.ListConvertsElementwise | script_args_parser/parser.py:114-117 | A plain list keeps length and order, and converts each element with the `list_type` converter. It succeeds exactly when every element converts, and otherwise raises the first element's exception. |
| Parser.ListOfStringIteratesCharacters | script_args_parser/parser.py:114-117 | A `list[str]` whose value is a string (from the environment or a default) becomes the list of its characters. |
| Parser.ListLooksUpPerElement | script_args_parser/parser.py:115-117 | An unknown `list_type` succeeds with [] on an empty iterable, and raises `KeyError` on a non-empty one. |
| Parser.TupleLooksUpFirst | script_args_parser/parser.py:119 | An unknown tuple element type raises `KeyError` for the first such name, whatever the value. |
| Parser.TupleZipsPositionally | script_args_parser/parser.py:118-122 | A tuple result is as long as the shorter of converters and values. Each position is converted with its own converter, and the conversion succeeds exactly when every position converts. Otherwise it raises the exception of the first failing position. |
| Parser.ListOfTuplesConvertsRecords | script_args_parser/parser.py:123-128 | A list of tuples keeps the number and order of records, and converts each record with the tuple rule. It succeeds exactly when every record converts. Otherwise it raises the exception of the first failing record. |
| Parser.ScalarUsesTypeConverter | script_args_parser/parser.py:129-130 | A scalar uses `TYPES_MAPPING[type]`. An unknown type raises `KeyError` only when the value is not None. |
| Parser.DeliveredValuesConvert | script_args_parser/parser.py:109-130 | For values in the shapes argparse delivers under `argparse_options`, conversion raises only `KeyError` or `ValueError`. A tuple, and every record of a list of tuples, keeps exactly its arity. |
| Parser.RecordOfStringsConverts | script_args_parser/parser.py:121 | Zipping converters with strings raises only `ValueError`. Otherwise it yields one value per zipped pair. |
| Parser.LookupsFailWithKeyError | script_args_parser/parser.py:119 | Looking up tuple element types can only raise `KeyError`. |
| Parser.Resolve | script_args_parser/parser.py:88-89 | The fallback pass and then the conversion pass; on success the keys are argparse's. |
| Parser.ResolveAt | script_args_parser/parser.py:84-89 | Taken end to end, the run succeeds exactly when every argument's chosen value converts. Then every argument holds the conversion of its chosen value, and the keys are argparse's. Otherwise the run raises the exception of the first argument whose chosen value fails. |
| Parser.SwitchResolves | script_args_parser/parser.py:43-46 | A bare switch flag resolves to True. A value after the flag goes through `str_to_bool`. A switch absent everywhere stays None. |
| Parser.EnvironmentBeatsDefault | script_args_parser/parser.py:104-107 | An unset `int` takes its environment value even when that value is empty: "" raises `ValueError` despite a default, and "1410" gives 1410. |
| Parser.Parse | script_args_parser/parser.py:84-89 | Running the constructor, the fallback pass and the conversion pass gives exactly the resolution function's result. |

## Left out

- TOML parsing (`_parse_toml_definitions`, lines 91-93): the schema is given as a sequence of `Argument`
  values built with `NewArgument`.
- argparse (`_read_cli_arguments`, lines 95-100): its output is an input map with an entry for every
  declared name. `Delivers` describes the value shapes argparse produces under each argument's options.
  argparse's own usage errors, such as a wrong number of tuple values on the command line, are not modelled.
- `os.getenv`: the environment is a map parameter.
- `Values.Convert`: `str()` of a list (its repr) is not modelled and yields the error `Unsupported`. Values
  delivered by argparse or taken from the environment or a default are never lists for a scalar type, so it
  does not arise there.
- PyText.ParseInt: only ASCII digits are accepted. Python's `int()` also accepts other Unicode decimal digits.
- PyText.ParseInt: the limit of 4300 digits that Python 3.11 and later (and the 3.9.14 and 3.10.7 security
  releases) apply in `int()` and `str()` is not modelled. `PyText.ParseIntRoundTrip` and `Values.IntRoundTrip`
  hold for every integer of the model, while such Pythons raise `ValueError` on longer numbers.
- `Arguments.Classify`: Python leaves `list_type` and `tuple_types` as None when the matching flag is false.
  Here they are "" and [] and are only read under their flag.
- `Arguments.ListOfTuplesTypeClassified`: the element types are stated through the slice that holds X at
  index 11, together with the fact that this slice equals X. They are not restated directly on X.
- `Parser.ArgumentsParser.ConvertValues`: after an exception, the partly converted dictionary is left
  unspecified. In Python the exception leaves `__init__`, and the object is never returned.
- `Argument` is a value (a datatype). The only mutation `parser.py` performs on it is `__post_init__`.
- Required arguments, the `path` type, parent references, registered composite types, the quote-aware
  tokenizer and attribute access are not part of this model.
- `logging_setup.py`, `example.py` and `__init__.py` are not part of this model.
