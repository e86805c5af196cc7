/**
 * includes/Option.hpp: the earlier option class, used by the legacy parser of
 * includes/CommandLineParser.h. It has a long and a short flag, an optional value and an optional
 * default, but no validator; only the bool and std::string instantiations exist (there is no
 * list conversion).
 */
module LegacyOptions {
  import opened Wrappers
  import opened CommandOptions

  class Option {
    const longFlag: string
    const shortFlag: string
    const kind: Kind
    const defaultValue: Wrappers.Option<Value>
    var value: Wrappers.Option<Value>

    ghost predicate Valid()
      reads this
    {
      kind != ListKind && Fits(value, kind) && Fits(defaultValue, kind)
    }

    /** A new option has no value. */
    constructor(longFlag: string, shortFlag: string, kind: Kind, defaultValue: Wrappers.Option<Value>)
      requires kind != ListKind && Fits(defaultValue, kind)
      ensures Valid()
      ensures this.longFlag == longFlag && this.shortFlag == shortFlag && this.kind == kind
      ensures this.defaultValue == defaultValue && value == None
    {
      this.longFlag := longFlag;
      this.shortFlag := shortFlag;
      this.kind := kind;
      this.defaultValue := defaultValue;
      value := None;
    }

    predicate IsMatched(arg: string)
    {
      arg == longFlag || arg == shortFlag
    }

    predicate ExpectsValue()
    {
      kind != BoolKind
    }

    predicate IsSet()
      reads this
    {
      value.Some?
    }

    /** get(): the value, else the default, else the "No value set" error. */
    function Get(): (r: Result<Value>)
      reads this
      ensures r.Ok? <==> value.Some? || defaultValue.Some?
      ensures value.Some? ==> r == Ok(value.value)
      ensures value.None? && defaultValue.Some? ==> r == Ok(defaultValue.value)
      ensures r.Err? ==> r.msg == "No value set for option " + longFlag
      ensures Valid() && r.Ok? ==> OfKind(r.value, kind)
    {
      if value.Some? then Ok(value.value)
      else if defaultValue.Some? then Ok(defaultValue.value)
      else Err("No value set for option " + longFlag)
    }

    /** convertValue: a flag becomes true whatever the argument; a string is stored as given. */
    method ConvertValue(arg: string)
      requires Valid()
      modifies this
      ensures Valid()
      ensures value == Some(if kind == BoolKind then Flag(true) else Text(arg))
      ensures IsSet() && Get() == Ok(value.value)
    {
      if kind == BoolKind {
        value := Some(Flag(true));
      } else {
        value := Some(Text(arg));
      }
    }
  }
}
