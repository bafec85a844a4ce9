/** The values the parser stores per argument, the errors its conversions
    raise, and the converters of `ArgumentsParser.TYPES_MAPPING`
    (script_args_parser/parser.py:54-82). */
module Values {
  import opened Results
  import PyText

  /** A Python value as it sits in `arguments_values`: what argparse
      delivered (strings, `True`, lists of them), a fallback string, or the
      result of a conversion. */
  datatype Value =
    | PyNone
    | Str(s: string)
    | Int(i: int)
    | Bool(b: bool)
    | List(items: seq<Value>)

  /** The exceptions a conversion raises. `Unsupported` stands for the one
      Python behaviour left out: `str()` of a list (its repr). */
  datatype Error =
    | KeyError(key: string)
    | ValueError(literal: string)
    | TypeError
    | Unsupported

  /** The three converter functions that `TYPES_MAPPING` refers to. */
  datatype Converter = StrConverter | IntConverter | BoolConverter

  /** `ArgumentsParser.TYPES_MAPPING`: type name to converter. */
  const TypesMapping: map<string, Converter> :=
    map["str" := StrConverter, "int" := IntConverter,
        "bool" := BoolConverter, "switch" := BoolConverter]

  /** `TYPES_MAPPING[name]`, raising KeyError for an unregistered name. */
  function Lookup(name: string): (r: Result<Converter, Error>)
    ensures r.Success? <==> name in {"str", "int", "bool", "switch"}
    ensures r.Failure? ==> r.error == KeyError(name)
    ensures name == "int" ==> r == Success(IntConverter)
    ensures name == "str" ==> r == Success(StrConverter)
    ensures name in {"bool", "switch"} ==> r == Success(BoolConverter)
  {
    if name in TypesMapping then Success(TypesMapping[name]) else Failure(KeyError(name))
  }

  /** `str_to_bool`: "0" and "False" are false, "1" and "True" are true,
      and any other string is true exactly when it is not empty. */
  function StrToBool(value: string): (r: bool)
    ensures r <==> value != "" && value != "0" && value != "False"
  {
    if value in ["0", "False"] then false
    else if value in ["1", "True"] then true
    else |value| > 0
  }

  /** The full table of `str_to_bool`, case by case. */
  lemma StrToBoolTable(value: string)
    ensures value == "0" || value == "False" ==> !StrToBool(value)
    ensures value == "1" || value == "True" ==> StrToBool(value)
    ensures value == "" ==> !StrToBool(value)
    ensures value !in {"0", "False", "1", "True", ""} ==> StrToBool(value)
    ensures StrToBool("None") && StrToBool("123") && StrToBool("some string")
  {
  }

  /** `str(b)` for a bool: "True" or "False", which `str_to_bool` reads
      back. */
  function BoolToStr(b: bool): (r: string)
    ensures r in {"True", "False"}
    ensures StrToBool(r) == b
  {
    if b then "True" else "False"
  }

  /** Calls one converter on a value, with the Python semantics of `str`,
      `int` and `str_to_bool` on every kind of value. */
  function Convert(c: Converter, v: Value): (r: Result<Value, Error>)
    ensures r.Success? ==> match c
      case StrConverter => r.value.Str?
      case IntConverter => r.value.Int?
      case BoolConverter => r.value.Bool?
    ensures r.Failure? ==> r.error in {TypeError, Unsupported} || r.error.ValueError?
    ensures c.StrConverter? && v.Str? ==> r == Success(v)
    ensures c.BoolConverter? ==> r.Success?
    ensures v.Str? && r.Failure? ==> r.error == ValueError(v.s)
    ensures c.IntConverter? && v.Str? ==>
      (r.Success? <==> PyText.ParseInt(v.s).Some?)
    ensures c.IntConverter? && v.Str? && PyText.ParseInt(v.s).Some? ==>
      r == Success(Int(PyText.ParseInt(v.s).value))
    ensures c.BoolConverter? && v.Str? ==> r == Success(Bool(StrToBool(v.s)))
  {
    match c
    case StrConverter =>
      (match v
       case PyNone => Success(Str("None"))
       case Str(s) => Success(Str(s))
       case Int(i) => Success(Str(PyText.IntToDecimal(i)))
       case Bool(b) => Success(Str(BoolToStr(b)))
       case List(_) => Failure(Unsupported))
    case IntConverter =>
      (match v
       case Str(s) =>
         (match PyText.ParseInt(s)
          case Some(i) => Success(Int(i))
          case None => Failure(ValueError(s)))
       case Int(i) => Success(Int(i))
       case Bool(b) => Success(Int(if b then 1 else 0))
       case _ => Failure(TypeError))
    case BoolConverter =>
      (match v
       case PyNone => Success(Bool(false))
       case Str(s) => Success(Bool(StrToBool(s)))
       case Int(i) => Success(Bool(i != 0))
       case Bool(b) => Success(Bool(b))
       case List(items) => Success(Bool(|items| > 0)))
  }

  /** `int` on a string is `int(str)` of the text. */
  lemma IntConvertsText(text: string)
    ensures PyText.ParseInt(text).Some? ==>
      Convert(IntConverter, Str(text)) == Success(Int(PyText.ParseInt(text).value))
    ensures PyText.ParseInt(text).None? ==>
      Convert(IntConverter, Str(text)) == Failure(ValueError(text))
  {
  }

  /** The textual form of an integer converts back to it: `int` after `str`
      is the identity on integers. */
  lemma IntRoundTrip(i: int)
    ensures Convert(StrConverter, Int(i)).Success?
    ensures Convert(IntConverter, Convert(StrConverter, Int(i)).value) == Success(Int(i))
  {
    var text := PyText.IntToDecimal(i);
    assert Convert(StrConverter, Int(i)) == Success(Str(text));
    PyText.ParseIntRoundTrip(i);
    IntConvertsText(text);
  }

  /** `str_to_bool` after `str` is the identity on bools. */
  lemma BoolRoundTrip(b: bool)
    ensures Convert(BoolConverter, Convert(StrConverter, Bool(b)).value) == Success(Bool(b))
  {
  }

  /** `int` rejects the empty string and "123_not" with a ValueError, and
      reads "1410" as 1410. */
  lemma IntRejectsMalformed()
    ensures Convert(IntConverter, Str("")) == Failure(ValueError(""))
    ensures Convert(IntConverter, Str("123_not")) == Failure(ValueError("123_not"))
    ensures Convert(IntConverter, Str("1410")) == Success(Int(1410))
  {
    PyText.ParseIntRejectsEmpty();
    IntConvertsText("");
    PyText.ParseIntRejectsTrailingText();
    IntConvertsText("123_not");
    PyText.ParseIntReadsDigits();
    IntConvertsText("1410");
  }

  /** `iter(v)`: a string yields its characters as one-character strings, a
      list yields its items, anything else raises TypeError. */
  function Iterate(v: Value): (r: Result<seq<Value>, Error>)
    ensures r.Success? <==> v.Str? || v.List?
    ensures v.Str? ==> |r.value| == |v.s| && forall i :: 0 <= i < |v.s| ==> r.value[i] == Str([v.s[i]])
    ensures v.List? ==> r.value == v.items
    ensures r.Failure? ==> r.error == TypeError
  {
    match v
    case Str(s) => Success(seq(|s|, i requires 0 <= i < |s| => Str([s[i]])))
    case List(items) => Success(items)
    case _ => Failure(TypeError)
  }
}
