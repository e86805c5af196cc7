/**
 * src/CommandLineParser.cpp with includes/CommandLineParser.hpp: the parser holds the registered
 * options in argument order and walks argv once, handing each recognised flag (and, for options
 * that take one, the argument after it) to the first option that matches.
 */
module CommandLine {
  import opened Wrappers
  import opened CommandOptions

  /** The first registered option that matches arg, or -1 when none does. */
  function MatchIndex(options: seq<CommandOption>, arg: string): (j: int)
    ensures -1 <= j < |options|
    ensures 0 <= j ==> options[j].IsMatched(arg) && forall k :: 0 <= k < j ==> !options[k].IsMatched(arg)
    ensures j == -1 <==> forall k :: 0 <= k < |options| ==> !options[k].IsMatched(arg)
    decreases |options|
  {
    if options == [] then -1
    else
      var j := MatchIndex(options[..|options| - 1], arg);
      if 0 <= j then j
      else if options[|options| - 1].IsMatched(arg) then |options| - 1
      else -1
  }

  /** One convertValue call made by the parser: on options[option], with text arg. */
  datatype Step = Step(option: nat, arg: string)

  /** The conversions a parse performs, in order, and the error that stops it, if any. */
  datatype Trace = Trace(steps: seq<Step>, failure: Option<string>)

  predicate StepsIn(options: seq<CommandOption>, steps: seq<Step>)
  {
    forall k :: 0 <= k < |steps| ==> steps[k].option < |options|
  }

  function Append(done: seq<Step>, t: Trace): Trace
  {
    Trace(done + t.steps, t.failure)
  }

  /**
   * What the parse loop does from argv[i] on: an unknown argument is skipped; a flag option is
   * converted with ""; an option that expects a value consumes the next argument, and when there
   * is none the parse stops with "Expected value after <arg>".
   */
  function Run(options: seq<CommandOption>, args: seq<string>, i: nat): (t: Trace)
    ensures StepsIn(options, t.steps)
    decreases |args| - i
  {
    if i >= |args| then Trace([], None)
    else
      var j := MatchIndex(options, args[i]);
      if j < 0 then Run(options, args, i + 1)
      else if options[j].ExpectsValue() then
        if i + 1 >= |args| then Trace([], Some("Expected value after " + args[i]))
        else Append([Step(j, args[i + 1])], Run(options, args, i + 2))
      else Append([Step(j, "")], Run(options, args, i + 1))
  }

  /** The value of option o after the steps: the last conversion of o, else its value before. */
  function ValueAfter(options: seq<CommandOption>, steps: seq<Step>, o: CommandOption, before: Option<Value>)
    : Option<Value>
    requires StepsIn(options, steps)
  {
    if steps == [] then before
    else
      var last := steps[|steps| - 1];
      if options[last.option] == o then Some(Converted(o.kind, last.arg))
      else ValueAfter(options, steps[..|steps| - 1], o, before)
  }

  function Objects(options: seq<CommandOption>): set<CommandOption>
  {
    set j | 0 <= j < |options| :: options[j]
  }

  /** Every conversion left its option valid, by that option's validator. */
  predicate AllAdmitted(options: seq<CommandOption>, steps: seq<Step>)
    requires StepsIn(options, steps)
    reads Objects(options)
  {
    forall k :: 0 <= k < |steps| ==>
      Admits(options[steps[k].option].validator, Some(Converted(options[steps[k].option].kind, steps[k].arg)))
  }

  /** The options keep their types and validators. */
  ghost predicate AllValid(options: seq<CommandOption>)
    reads Objects(options)
  {
    forall j :: 0 <= j < |options| ==> options[j].Valid()
  }

  /** The parse of a whole command line starts after the program name. */
  function CommandLineRun(options: seq<CommandOption>, argv: seq<string>): Trace
  {
    Run(options, argv, 1)
  }

  /** A run that matched nothing performs no conversion and cannot fail. */
  lemma {:induction false} RunUnknown(options: seq<CommandOption>, args: seq<string>, i: nat)
    requires forall k :: i <= k < |args| ==> MatchIndex(options, args[k]) < 0
    ensures Run(options, args, i) == Trace([], None)
    decreases |args| - i
  {
    if i < |args| {
      RunUnknown(options, args, i + 1);
    }
  }

  /** A run depends only on the arguments from its start on. */
  lemma {:induction false} RunShift(options: seq<CommandOption>, args: seq<string>, i: nat, k: nat)
    requires i <= |args|
    ensures Run(options, args, i + k) == Run(options, args[i..], k)
    decreases |args| - (i + k)
  {
    if i + k < |args| {
      assert args[i..][k] == args[i + k];
      RunShift(options, args, i, k + 1);
      RunShift(options, args, i, k + 2);
    }
  }

  /**
   * An unknown argument where parsing resumes is skipped without any effect: the conversions and
   * the outcome are those of the command line without it.
   */
  lemma RunSkipsUnknown(options: seq<CommandOption>, before: seq<string>, x: string, after: seq<string>)
    requires MatchIndex(options, x) < 0
    ensures Run(options, before + [x] + after, |before|) == Run(options, before + after, |before|)
  {
    var withX := before + [x] + after;
    var without := before + after;
    assert withX[|before|] == x;
    RunShift(options, withX, |before| + 1, 0);
    assert withX[|before| + 1..] == after;
    RunShift(options, without, |before|, 0);
    assert without[|before|..] == after;
  }

  /** Each argument is looked at once: a run performs at most one conversion per argument. */
  lemma {:induction false} RunLength(options: seq<CommandOption>, args: seq<string>, i: nat)
    ensures |Run(options, args, i).steps| <= if i < |args| then |args| - i else 0
    decreases |args| - i
  {
    if i < |args| {
      RunLength(options, args, i + 1);
      RunLength(options, args, i + 2);
    }
  }

  class CommandLineParser {
    const options: seq<CommandOption>

    /** The options are kept in the order they were given. */
    constructor(options: seq<CommandOption>)
      ensures this.options == options
    {
      this.options := options;
    }

    /** Finds the first registered option matching arg; -1 when none does. */
    method FindOption(arg: string) returns (matched: int)
      ensures matched == MatchIndex(options, arg)
    {
      matched := -1;
      var k := 0;
      while k < |options|
        invariant 0 <= k <= |options|
        invariant forall l :: 0 <= l < k ==> !options[l].IsMatched(arg)
      {
        if options[k].IsMatched(arg) {
          matched := k;
          break;
        }
        k := k + 1;
      }
    }

    /**
     * parse(argc, argv): performs the conversions of Run from index 1, leaving every option at
     * its last converted value; the result is Ok(true) iff every conversion left its option
     * valid, or the "Expected value after" error.
     */
    method Parse(argv: seq<string>) returns (r: Result<bool>)
      requires AllValid(options)
      modifies Objects(options)
      ensures AllValid(options)
      ensures forall j :: 0 <= j < |options| ==> options[j].validator == old(options[j].validator)
      ensures forall j :: 0 <= j < |options| ==>
        options[j].value == ValueAfter(options, CommandLineRun(options, argv).steps, options[j], old(options[j].value))
      ensures CommandLineRun(options, argv).failure.Some? ==> r == Err(CommandLineRun(options, argv).failure.value)
      ensures CommandLineRun(options, argv).failure.None? ==> r == Ok(AllAdmitted(options, CommandLineRun(options, argv).steps))
    {
      ghost var initial := map o | o in Objects(options) :: o.value;
      ghost var validators := map o | o in Objects(options) :: o.validator;
      var result := true;
      var i := 1;
      ghost var done: seq<Step> := [];
      while i < |argv|
        invariant 1 <= i <= |argv| + 1
        invariant StepsIn(options, done)
        invariant CommandLineRun(options, argv) == Append(done, Run(options, argv, i))
        invariant AllValid(options) && ValidatorsAre(options, validators)
        invariant ValuesAre(options, done, initial)
        invariant result == Admitted(options, validators, done)
        invariant forall j :: 0 <= j < |options| ==> initial[options[j]] == old(options[j].value)
        invariant forall j :: 0 <= j < |options| ==> validators[options[j]] == old(options[j].validator)
        decreases |argv| - i
      {
        var failure, next;
        failure, result, next, done := ParseArgument(argv, i, result, done, initial, validators);
        if failure.Some? {
          AppendNothing(done, Run(options, argv, i));
          return Err(failure.value);
        }
        i := next;
      }
      AppendNothing(done, Run(options, argv, i));
      AdmittedByMap(options, validators, done);
      r := Ok(result);
    }

    /**
     * One turn of the parse loop at argv[i]: skip an unknown argument, or convert the first
     * matching option (with the next argument when it takes a value) and fold its validity into
     * the result; fail when a value is missing.
     */
    method ParseArgument(argv: seq<string>, i: nat, result: bool, ghost done: seq<Step>,
                         ghost initial: map<CommandOption, Option<Value>>, ghost validators: map<CommandOption, Validator>)
      returns (failure: Option<string>, result': bool, next: nat, ghost done': seq<Step>)
      requires 1 <= i < |argv| && StepsIn(options, done)
      requires AllValid(options) && ValidatorsAre(options, validators)
      requires ValuesAre(options, done, initial) && result == Admitted(options, validators, done)
      modifies Objects(options)
      ensures AllValid(options) && ValidatorsAre(options, validators)
      ensures failure.Some? ==> Run(options, argv, i) == Trace([], failure) && done' == done && ValuesAre(options, done, initial)
      ensures failure.None? ==> i < next <= |argv| + 1 && StepsIn(options, done')
      ensures failure.None? ==> Append(done, Run(options, argv, i)) == Append(done', Run(options, argv, next))
      ensures failure.None? ==> ValuesAre(options, done', initial) && result' == Admitted(options, validators, done')
    {
      var arg := argv[i];
      var matched := FindOption(arg);
      RunAt(options, argv, i, matched);
      if matched < 0 {
        return None, result, i + 1, done;
      }
      var opt := options[matched];
      var value: string;
      if opt.ExpectsValue() {
        if i + 1 >= |argv| {
          return Some("Expected value after " + arg), result, i, done;
        }
        value, next := argv[i + 1], i + 2;
      } else {
        value, next := "", i + 1;
      }
      AppendAssoc(done, Step(matched, value), Run(options, argv, next));
      Convert(options, done, initial, validators, matched, value);
      var valid := opt.IsValid();
      AdmittedSnoc(options, validators, done, Step(matched, value));
      result' := result && valid;
      failure, done' := None, done + [Step(matched, value)];
    }
  }

  /** Each option's value is what the steps made of its initial value. */
  ghost predicate ValuesAre(options: seq<CommandOption>, steps: seq<Step>, initial: map<CommandOption, Option<Value>>)
    reads Objects(options)
  {
    StepsIn(options, steps) &&
    forall j :: 0 <= j < |options| ==>
      options[j] in initial && options[j].value == ValueAfter(options, steps, options[j], initial[options[j]])
  }

  ghost predicate ValidatorsAre(options: seq<CommandOption>, validators: map<CommandOption, Validator>)
    reads Objects(options)
  {
    forall j :: 0 <= j < |options| ==> options[j] in validators && options[j].validator == validators[options[j]]
  }

  /** One conversion by the parser: options[m].convertValue(arg). */
  method Convert(options: seq<CommandOption>, ghost done: seq<Step>, ghost initial: map<CommandOption, Option<Value>>,
                 ghost validators: map<CommandOption, Validator>, m: nat, arg: string)
    requires m < |options| && AllValid(options) && ValidatorsAre(options, validators)
    requires ValuesAre(options, done, initial)
    modifies options[m]
    ensures AllValid(options) && ValidatorsAre(options, validators)
    ensures ValuesAre(options, done + [Step(m, arg)], initial)
    ensures options[m].value == Some(Converted(options[m].kind, arg))
  {
    ConvertStep(options, done, m, arg);
    options[m].ConvertValue(arg);
  }

  /** Where the parse loop goes from argv[i], given the option that matched it. */
  lemma RunAt(options: seq<CommandOption>, args: seq<string>, i: nat, j: int)
    requires i < |args| && j == MatchIndex(options, args[i])
    ensures j < 0 ==> Run(options, args, i) == Run(options, args, i + 1)
    ensures 0 <= j && options[j].ExpectsValue() && i + 1 >= |args| ==>
      Run(options, args, i) == Trace([], Some("Expected value after " + args[i]))
    ensures 0 <= j && options[j].ExpectsValue() && i + 1 < |args| ==>
      Run(options, args, i) == Append([Step(j, args[i + 1])], Run(options, args, i + 2))
    ensures 0 <= j && !options[j].ExpectsValue() ==>
      Run(options, args, i) == Append([Step(j, "")], Run(options, args, i + 1))
  {
  }

  lemma AppendAssoc(done: seq<Step>, s: Step, t: Trace)
    ensures Append(done, Append([s], t)) == Append(done + [s], t)
  {
    assert done + ([s] + t.steps) == (done + [s]) + t.steps;
  }

  lemma AppendNothing(done: seq<Step>, t: Trace)
    ensures t.steps == [] ==> Append(done, t).steps == done
  {
    assert done + [] == done;
  }

  /** AllAdmitted with the validators taken from a map instead of the options. */
  predicate Admitted(options: seq<CommandOption>, validators: map<CommandOption, Validator>, steps: seq<Step>)
    requires StepsIn(options, steps)
  {
    forall k :: 0 <= k < |steps| ==>
      options[steps[k].option] in validators &&
      Admits(validators[options[steps[k].option]], Some(Converted(options[steps[k].option].kind, steps[k].arg)))
  }

  lemma AdmittedByMap(options: seq<CommandOption>, validators: map<CommandOption, Validator>, steps: seq<Step>)
    requires StepsIn(options, steps) && ValidatorsAre(options, validators)
    ensures AllAdmitted(options, steps) <==> Admitted(options, validators, steps)
  {
  }

  lemma AdmittedSnoc(options: seq<CommandOption>, validators: map<CommandOption, Validator>, done: seq<Step>, s: Step)
    requires StepsIn(options, done) && s.option < |options| && options[s.option] in validators
    ensures StepsIn(options, done + [s])
    ensures Admitted(options, validators, done + [s]) <==>
      Admitted(options, validators, done) &&
      Admits(validators[options[s.option]], Some(Converted(options[s.option].kind, s.arg)))
  {
    assert forall k :: 0 <= k < |done| ==> (done + [s])[k] == done[k];
    assert (done + [s])[|done|] == s;
  }

  /** What one more conversion does to ValueAfter and to AllAdmitted. */
  lemma ConvertStep(options: seq<CommandOption>, done: seq<Step>, m: nat, arg: string)
    requires StepsIn(options, done) && m < |options|
    ensures StepsIn(options, done + [Step(m, arg)])
    ensures forall o: CommandOption, before: Option<Value> ::
      ValueAfter(options, done + [Step(m, arg)], o, before) ==
        if options[m] == o then Some(Converted(o.kind, arg)) else ValueAfter(options, done, o, before)
  {
    assert (done + [Step(m, arg)])[..|done|] == done;
  }
}
