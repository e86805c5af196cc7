/**
 * includes/CommandOption.hpp: a command-line option with a long and a short flag, an optional
 * value set by the parser, an optional default and an optional validator. The program uses the
 * three instantiations BoolOption, StringOption and ListOption; the model keeps one class and
 * records the instantiation in `kind`.
 */
module CommandOptions {
  import opened Wrappers
  import StreamUtil

  /** The template argument T: bool, std::string or std::vector<std::string>. */
  datatype Kind = BoolKind | StringKind | ListKind

  /** A value of one of the three option types. */
  datatype Value = Flag(flag: bool) | Text(text: string) | Items(items: seq<string>)

  predicate OfKind(v: Value, kind: Kind)
  {
    match kind
    case BoolKind => v.Flag?
    case StringKind => v.Text?
    case ListKind => v.Items?
  }

  predicate Fits(v: Option<Value>, kind: Kind)
  {
    v.Some? ==> OfKind(v.value, kind)
  }

  /** convert<bool>: only "1", "true" and "yes" read as true, case-sensitively. */
  predicate ConvertBool(arg: string)
  {
    arg == "1" || arg == "true" || arg == "yes"
  }

  lemma ConvertBoolExamples()
    ensures ConvertBool("1") && ConvertBool("true") && ConvertBool("yes")
    ensures !ConvertBool("") && !ConvertBool("0") && !ConvertBool("false") && !ConvertBool("TRUE")
  {
  }

  // ---------------------------------------------------------------------------------------------
  // convert<std::vector<std::string>>: repeated std::getline(stream, token, ',')
  // ---------------------------------------------------------------------------------------------

  /** Where the getline call that starts at from stops: the first ',' at or after from, or the end. */
  function TokenEnd(s: string, from: nat): (e: nat)
    requires from <= |s|
    ensures from <= e <= |s| && (e < |s| ==> s[e] == ',')
    ensures forall j :: from <= j < e ==> s[j] != ','
    decreases |s| - from
  {
    if from == |s| || s[from] == ',' then from else TokenEnd(s, from + 1)
  }

  /**
   * The tokens getline yields from position pos on: each call reads up to the next ',' and skips
   * it; a call at the end of the input fails without a token, so the empty text has no tokens and
   * a trailing comma adds none.
   */
  function TokensFrom(s: string, pos: nat): seq<string>
    requires pos <= |s|
    decreases |s| - pos
  {
    if pos == |s| then []
    else
      var e := TokenEnd(s, pos);
      [s[pos..e]] + (if e < |s| then TokensFrom(s, e + 1) else [])
  }

  function Tokens(s: string): seq<string>
  {
    TokensFrom(s, 0)
  }

  /** The loop step: the token read at pos moves from the unread tokens to the result. */
  lemma TokensAdvance(arg: string, result: seq<string>, pos: nat, next: nat)
    requires pos < |arg|
    requires next == if TokenEnd(arg, pos) < |arg| then TokenEnd(arg, pos) + 1 else |arg|
    ensures result + TokensFrom(arg, pos) == (result + [arg[pos..TokenEnd(arg, pos)]]) + TokensFrom(arg, next)
  {
    TokensFromStep(arg, pos);
    var token := arg[pos..TokenEnd(arg, pos)];
    if TokenEnd(arg, pos) == |arg| {
      assert TokensFrom(arg, next) == [];
    }
    assert result + ([token] + TokensFrom(arg, next)) == (result + [token]) + TokensFrom(arg, next);
  }

  /** The getline loop over a string stream: tokens are pushed in order until input runs out. */
  method ConvertList(arg: string) returns (result: seq<string>)
    ensures result == Tokens(arg)
  {
    result := [];
    var pos := 0;
    while pos < |arg|
      invariant 0 <= pos <= |arg|
      invariant Tokens(arg) == result + TokensFrom(arg, pos)
      decreases |arg| - pos
    {
      var end := pos;
      while end < |arg| && arg[end] != ','
        invariant pos <= end <= |arg|
        invariant TokenEnd(arg, pos) == TokenEnd(arg, end)
      {
        end := end + 1;
      }
      var next := if end < |arg| then end + 1 else end;
      TokensAdvance(arg, result, pos, next);
      result := result + [arg[pos..end]];
      pos := next;
    }
  }

  /** The pieces Split yields, less an empty last piece. */
  function DropEmptyLast(parts: seq<string>): seq<string>
  {
    if parts != [] && parts[|parts| - 1] == "" then parts[..|parts| - 1] else parts
  }

  /** The first occurrence is the only index before which d does not occur. */
  lemma IndexOfFirst(s: string, d: char, k: nat)
    requires k < |s| && s[k] == d && d !in s[..k]
    ensures d in s && StreamUtil.IndexOf(s, d) == k
  {
    assert s[k] in s;
    var j := StreamUtil.IndexOf(s, d);
    assert forall i :: 0 <= i < k ==> s[..k][i] == s[i];
    assert forall i :: 0 <= i < j ==> s[..j][i] == s[i];
  }

  /** One Split step on s[pos..] is one getline call from pos. */
  lemma SplitStep(s: string, pos: nat)
    requires pos < |s|
    ensures TokenEnd(s, pos) < |s| ==>
      StreamUtil.Split(s[pos..], ',') == [s[pos..TokenEnd(s, pos)]] + StreamUtil.Split(s[TokenEnd(s, pos) + 1..], ',')
    ensures TokenEnd(s, pos) == |s| ==> StreamUtil.Split(s[pos..], ',') == [s[pos..]]
  {
    if TokenEnd(s, pos) < |s| {
      SplitAtComma(s, pos);
    } else {
      SplitWithoutComma(s, pos);
    }
  }

  lemma SplitAtComma(s: string, pos: nat)
    requires pos < |s| && TokenEnd(s, pos) < |s|
    ensures StreamUtil.Split(s[pos..], ',') == [s[pos..TokenEnd(s, pos)]] + StreamUtil.Split(s[TokenEnd(s, pos) + 1..], ',')
  {
    var e := TokenEnd(s, pos);
    var t := s[pos..];
    assert forall i :: 0 <= i < e - pos ==> t[..e - pos][i] == t[i];
    IndexOfFirst(t, ',', e - pos);
    assert t[..e - pos] == s[pos..e];
    assert t[e - pos + 1..] == s[e + 1..];
  }

  lemma SplitWithoutComma(s: string, pos: nat)
    requires pos < |s| && TokenEnd(s, pos) == |s|
    ensures StreamUtil.Split(s[pos..], ',') == [s[pos..]]
  {
    var t := s[pos..];
    assert forall i :: 0 <= i < |t| ==> t[i] == s[pos + i];
    assert ',' !in t;
  }

  lemma DropEmptyLastCons(x: string, rest: seq<string>)
    requires rest != []
    ensures DropEmptyLast([x] + rest) == [x] + DropEmptyLast(rest)
  {
    if rest[|rest| - 1] == "" {
      assert ([x] + rest)[..|rest|] == [x] + rest[..|rest| - 1];
    }
  }

  /** One getline call from pos, as an equation on TokensFrom. */
  lemma TokensFromStep(s: string, pos: nat)
    requires pos < |s|
    ensures TokenEnd(s, pos) < |s| ==>
      TokensFrom(s, pos) == [s[pos..TokenEnd(s, pos)]] + TokensFrom(s, TokenEnd(s, pos) + 1)
    ensures TokenEnd(s, pos) == |s| ==> TokensFrom(s, pos) == [s[pos..]]
  {
    if TokenEnd(s, pos) == |s| {
      assert s[pos..TokenEnd(s, pos)] == s[pos..];
    }
  }

  /** The tokens are the Split pieces of the unread text, less an empty last piece. */
  lemma {:induction false} TokensFromSplit(s: string, pos: nat)
    requires pos <= |s|
    ensures TokensFrom(s, pos) == DropEmptyLast(StreamUtil.Split(s[pos..], ','))
    decreases |s| - pos
  {
    if pos == |s| {
      assert s[pos..] == "";
      assert StreamUtil.Split("", ',') == [""];
    } else {
      var e := TokenEnd(s, pos);
      SplitStep(s, pos);
      TokensFromStep(s, pos);
      if e < |s| {
        TokensFromSplit(s, e + 1);
        ConsBoth(s[pos..e], TokensFrom(s, e + 1), StreamUtil.Split(s[e + 1..], ','));
      } else {
        assert StreamUtil.Split(s[pos..], ',') == [s[pos..]];
        assert s[pos..] != "";
      }
    }
  }

  lemma ConsBoth(x: string, tokens: seq<string>, rest: seq<string>)
    requires rest != [] && tokens == DropEmptyLast(rest)
    ensures [x] + tokens == DropEmptyLast([x] + rest)
  {
    DropEmptyLastCons(x, rest);
  }

  /** std::getline's splitting agrees with StreamUtil's Split up to an empty last piece. */
  lemma TokensSplit(s: string)
    ensures Tokens(s) == DropEmptyLast(StreamUtil.Split(s, ','))
  {
    TokensFromSplit(s, 0);
    assert s[0..] == s;
  }

  /** No token contains the separator. */
  lemma {:induction false} TokensHaveNoComma(s: string, pos: nat)
    requires pos <= |s|
    ensures forall i :: 0 <= i < |TokensFrom(s, pos)| ==> ',' !in TokensFrom(s, pos)[i]
    decreases |s| - pos
  {
    if pos < |s| {
      var e := TokenEnd(s, pos);
      assert forall j :: 0 <= j < e - pos ==> s[pos..e][j] == s[pos + j];
      if e < |s| {
        TokensHaveNoComma(s, e + 1);
      }
    }
  }

  /**
   * Joining comma-free items with "," and converting gives the items back, provided the last
   * item is not empty (an empty last item would leave a trailing comma, which yields no token).
   */
  lemma TokensOfJoin(items: seq<string>)
    requires forall i :: 0 <= i < |items| ==> ',' !in items[i]
    requires items != [] ==> items[|items| - 1] != ""
    ensures Tokens(StreamUtil.JoinSpec(items, ",")) == items
  {
    if items == [] {
      NoTokensInEmpty();
    } else {
      TokensOfNonemptyJoin(items);
    }
  }

  lemma TokensOfNonemptyJoin(items: seq<string>)
    requires items != [] && forall i :: 0 <= i < |items| ==> ',' !in items[i]
    requires items[|items| - 1] != ""
    ensures Tokens(StreamUtil.JoinSpec(items, ",")) == items
  {
    TokensSplit(StreamUtil.JoinSpec(items, ","));
    JoinedSplits(items);
  }

  lemma NoTokensInEmpty()
    ensures Tokens(StreamUtil.JoinSpec([], ",")) == []
  {
    TokensSplit("");
    assert StreamUtil.Split("", ',') == [""];
  }

  lemma JoinedSplits(items: seq<string>)
    requires items != [] && forall i :: 0 <= i < |items| ==> ',' !in items[i]
    ensures StreamUtil.Split(StreamUtil.JoinSpec(items, ","), ',') == items
  {
    assert "," == [','];
    StreamUtil.SplitJoin(items, ',');
  }

  /** "a,b,c" converts to [a, b, c]; a trailing comma adds no token, a leading one an empty token. */
  lemma TokensExamples()
    ensures Tokens("a,b,c") == ["a", "b", "c"]
    ensures Tokens("") == [] && Tokens("a,") == ["a"] && Tokens(",a") == ["", "a"]
  {
    var items := ["a", "b", "c"];
    assert StreamUtil.JoinSpec(items, ",") == "a,b,c" by {
      assert items[1..] == ["b", "c"] && items[1..][1..] == ["c"];
    }
    TokensOfJoin(items);
    TokensOfJoin(["a"]);
    TokensOfJoin(["", "a"]);
    assert StreamUtil.JoinSpec(["", "a"], ",") == ",a" by {
      assert ["", "a"][1..] == ["a"];
    }
    TokensFromStep("a,", 0);
    assert TokenEnd("a,", 0) == 1;
    assert "a,"[0..1] == "a";
  }

  /** The text convertValue stores for an argument. */
  function Converted(kind: Kind, arg: string): (v: Value)
    ensures OfKind(v, kind)
  {
    match kind
    case BoolKind => Flag(true)
    case StringKind => Text(arg)
    case ListKind => Items(Tokens(arg))
  }

  // ---------------------------------------------------------------------------------------------
  // Validators (includes/CommandValidators.hpp)
  // ---------------------------------------------------------------------------------------------

  /** The validator slot: empty, or a ValuesInImpl<std::string> holding the allowed values. */
  datatype Validator = NoValidator | ValuesIn(allowed: seq<string>)

  /** What a validator decides about an option's current value. */
  predicate Admits(validator: Validator, value: Option<Value>)
  {
    match validator
    case NoValidator => true
    case ValuesIn(allowed) =>
      match value
      case None => true
      case Some(Text(s)) => s in allowed
      case Some(Items(xs)) => forall i :: 0 <= i < |xs| ==> xs[i] in allowed
      case Some(Flag(_)) => true
  }

  /** ValuesIn over C strings: each string is copied, in the given order. */
  method ValuesInChars(allowed: seq<string>) returns (v: Validator)
    ensures v.ValuesIn? && v.allowed == allowed
  {
    var values: seq<string> := [];
    for i := 0 to |allowed|
      invariant values == allowed[..i]
    {
      values := values + [allowed[i]];
    }
    assert allowed[..|allowed|] == allowed;
    return ValuesIn(values);
  }

  class CommandOption {
    const longFlag: string
    const shortFlag: string
    const kind: Kind
    const defaultValue: Option<Value>
    var value: Option<Value>
    var validator: Validator

    /** The stored values have the option's type; a value validator never sits on a flag. */
    ghost predicate Valid()
      reads this
    {
      Fits(value, kind) && Fits(defaultValue, kind) && (validator.ValuesIn? ==> kind != BoolKind)
    }

    /**
     * A new option has no value and no validator. The ListOption constructor without a default
     * passes Some(Items([])).
     */
    constructor(longFlag: string, shortFlag: string, kind: Kind, defaultValue: Option<Value>)
      requires Fits(defaultValue, kind)
      ensures Valid()
      ensures this.longFlag == longFlag && this.shortFlag == shortFlag && this.kind == kind
      ensures this.defaultValue == defaultValue && value == None && validator == NoValidator
    {
      this.longFlag := longFlag;
      this.shortFlag := shortFlag;
      this.kind := kind;
      this.defaultValue := defaultValue;
      value := None;
      validator := NoValidator;
    }

    /** setValidator: replaces the validator; the value stays. */
    method SetValidator(v: Validator)
      requires Valid() && (v.ValuesIn? ==> kind != BoolKind)
      modifies this
      ensures Valid() && validator == v && value == old(value)
    {
      validator := v;
    }

    predicate IsMatched(arg: string)
    {
      arg == longFlag || arg == shortFlag
    }

    predicate ExpectsValue()
    {
      kind != BoolKind
    }

    predicate IsSet()
      reads this
    {
      value.Some?
    }

    /** get(): the set value, else the default, else the "No value set" error. */
    function Get(): (r: Result<Value>)
      reads this
      ensures r.Ok? <==> value.Some? || defaultValue.Some?
      ensures value.Some? ==> r == Ok(value.value)
      ensures value.None? && defaultValue.Some? ==> r == Ok(defaultValue.value)
      ensures r.Err? ==> r.msg == "No value set for option " + longFlag
      ensures Valid() && r.Ok? ==> OfKind(r.value, kind)
    {
      if value.Some? then Ok(value.value)
      else if defaultValue.Some? then Ok(defaultValue.value)
      else Err("No value set for option " + longFlag)
    }

    /**
     * convertValue: a flag becomes true whatever the argument; a string is stored as given; a
     * list is split at commas. Any earlier value is overwritten.
     */
    method ConvertValue(arg: string)
      requires Valid()
      modifies this
      ensures Valid() && validator == old(validator)
      ensures value == Some(Converted(kind, arg))
      ensures IsSet() && Get() == Ok(Converted(kind, arg))
    {
      match kind {
        case BoolKind =>
          value := Some(Flag(true));
        case StringKind =>
          value := Some(Text(arg));
        case ListKind =>
          var items := ConvertList(arg);
          value := Some(Items(items));
      }
    }

    /** isValid: true without a validator, else the validator's verdict on the current value. */
    method IsValid() returns (ok: bool)
      requires Valid()
      ensures ok <==> Admits(validator, value)
    {
      match validator {
        case NoValidator =>
          ok := true;
        case ValuesIn(allowed) =>
          if kind == ListKind {
            ok := AcceptsList(allowed, this);
          } else {
            ok := AcceptsScalar(allowed, this);
          }
      }
    }
  }

  /**
   * The scalar ValuesInImpl operator: an unset option passes; a set one passes iff its value is
   * one of the allowed values. The option is only read.
   */
  method AcceptsScalar(allowed: seq<string>, option: CommandOption) returns (ok: bool)
    requires option.Valid() && option.kind == StringKind
    ensures !option.IsSet() ==> ok
    ensures option.IsSet() ==> (ok <==> option.value.value.text in allowed)
  {
    if !option.IsSet() {
      return true;
    }
    var value := option.Get().value.text;
    ok := value in allowed;
  }

  /**
   * The list ValuesInImpl operator: an unset option passes; a set one passes iff every item is
   * one of the allowed values, checked in order with an early exit at the first stranger.
   */
  method AcceptsList(allowed: seq<string>, option: CommandOption) returns (ok: bool)
    requires option.Valid() && option.kind == ListKind
    ensures !option.IsSet() ==> ok
    ensures option.IsSet() ==>
      (ok <==> forall i :: 0 <= i < |option.value.value.items| ==> option.value.value.items[i] in allowed)
  {
    if !option.IsSet() {
      return true;
    }
    var items := option.Get().value.items;
    for i := 0 to |items|
      invariant forall j :: 0 <= j < i ==> items[j] in allowed
    {
      if items[i] !in allowed {
        return false;
      }
    }
    return true;
  }
}
