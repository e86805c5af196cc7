/**
 * src/Logger.cpp and includes/Logger.hpp: a log stream with a default level fixed at construction
 * and a current level. A level manipulator sets the current level for the rest of a line; values
 * are written only while the current level is within the default (and never by a Quiet logger);
 * a standard manipulator such as std::endl is written under the same rule and then resets the
 * current level to the default. The stream is modelled by the text written to it so far.
 */
module Logging {

  /** LogLevel, ordered Quiet < Normal < Verbose by its underlying value. */
  datatype LogLevel = Quiet | Normal | Verbose

  function Rank(level: LogLevel): (n: int)
    ensures 0 <= n <= 2
  {
    match level
    case Quiet => 0
    case Normal => 1
    case Verbose => 2
  }

  /** The levels are ordered by their values, and different levels have different values. */
  lemma RankOrder()
    ensures Rank(Quiet) < Rank(Normal) < Rank(Verbose)
    ensures forall a: LogLevel, b: LogLevel :: Rank(a) == Rank(b) ==> a == b
  {
  }

  /** LevelManipulator and the two predefined ones, Logger::normal and Logger::verbose. */
  datatype LevelManipulator = LevelManipulator(level: LogLevel)

  const NORMAL := LevelManipulator(Normal)
  const VERBOSE := LevelManipulator(Verbose)

  /** shouldPrint: never for a Quiet logger, else iff the current level is within the default. */
  predicate Prints(defaultLevel: LogLevel, currentLevel: LogLevel)
  {
    if defaultLevel == Quiet then false else Rank(currentLevel) <= Rank(defaultLevel)
  }

  /** What can be streamed into a logger. */
  datatype Item =
    | SetLevel(manip: LevelManipulator)   // Logger::normal, Logger::verbose
    | Value(text: string)                 // any value, as operator<< on the stream prints it
    | StdManip(text: string)              // std::endl and the like, as the text it writes

  /** The state a logger moves through: its current level and what it has written. */
  datatype State = State(current: LogLevel, out: string)

  /** One operator<< call on a logger with the given default level. */
  function Next(defaultLevel: LogLevel, s: State, item: Item): State
  {
    match item
    case SetLevel(m) => State(m.level, s.out)
    case Value(t) => State(s.current, s.out + (if Prints(defaultLevel, s.current) then t else ""))
    case StdManip(t) => State(defaultLevel, s.out + (if Prints(defaultLevel, s.current) then t else ""))
  }

  /** A chain of operator<< calls. */
  function Feed(defaultLevel: LogLevel, s: State, items: seq<Item>): State
    decreases |items|
  {
    if items == [] then s else Feed(defaultLevel, Next(defaultLevel, s, items[0]), items[1..])
  }

  /** A Quiet logger writes nothing, whatever is streamed into it. */
  lemma {:induction false} QuietWritesNothing(s: State, items: seq<Item>)
    ensures Feed(Quiet, s, items).out == s.out
    decreases |items|
  {
    if items != [] {
      QuietWritesNothing(Next(Quiet, s, items[0]), items[1..]);
    }
  }

  /** The values streamed between two standard manipulators, without any level manipulator. */
  predicate PlainValues(items: seq<Item>)
  {
    forall i :: 0 <= i < |items| ==> items[i].Value?
  }

  function Texts(items: seq<Item>): string
    requires PlainValues(items)
    decreases |items|
  {
    if items == [] then "" else items[0].text + Texts(items[1..])
  }

  /** Values keep the level: they are all written, or all dropped, by the level in force. */
  lemma {:induction false} ValuesUnderOneLevel(d: LogLevel, s: State, items: seq<Item>)
    requires PlainValues(items)
    ensures Feed(d, s, items) == State(s.current, s.out + (if Prints(d, s.current) then Texts(items) else ""))
    decreases |items|
  {
    if items != [] {
      var t := Next(d, s, items[0]);
      ValuesUnderOneLevel(d, t, items[1..]);
      if Prints(d, s.current) {
        assert s.out + items[0].text + Texts(items[1..]) == s.out + (items[0].text + Texts(items[1..]));
      }
    }
  }

  /**
   * A line `logger << verbose << values << endl` is written in full by a Verbose logger and not
   * at all by a Normal one; either way the level is back at the default afterwards.
   */
  lemma VerboseLine(d: LogLevel, s: State, values: seq<Item>, endl: string)
    requires PlainValues(values) && d != Quiet
    ensures var r := Feed(d, s, [SetLevel(VERBOSE)] + values + [StdManip(endl)]);
      r.current == d &&
      r.out == s.out + (if d == Verbose then Texts(values) + endl else "")
  {
    var items := [SetLevel(VERBOSE)] + values + [StdManip(endl)];
    var s1 := Next(d, s, items[0]);
    assert items[1..] == values + [StdManip(endl)];
    FeedAppend(d, s1, values, [StdManip(endl)]);
    ValuesUnderOneLevel(d, s1, values);
    var s2 := Feed(d, s1, values);
    assert Feed(d, s2, [StdManip(endl)]) == Next(d, s2, StdManip(endl));
    if d == Verbose {
      assert s.out + Texts(values) + endl == s.out + (Texts(values) + endl);
    }
  }

  lemma {:induction false} FeedAppend(d: LogLevel, s: State, a: seq<Item>, b: seq<Item>)
    ensures Feed(d, s, a + b) == Feed(d, Feed(d, s, a), b)
    decreases |a|
  {
    if a != [] {
      assert (a + b)[1..] == a[1..] + b;
      FeedAppend(d, Next(d, s, a[0]), a[1..], b);
    } else {
      assert a + b == b;
    }
  }

  class Logger {
    const defaultLevel: LogLevel
    var currentLevel: LogLevel
    var out: string

    function Snapshot(): State
      reads this
    {
      State(currentLevel, out)
    }

    /** A new logger is at its default level and has written nothing. */
    constructor(defaultLevel: LogLevel)
      ensures this.defaultLevel == defaultLevel && currentLevel == defaultLevel && out == ""
    {
      this.defaultLevel := defaultLevel;
      currentLevel := defaultLevel;
      out := "";
    }

    /** The default construction, Logger(): level Normal. */
    constructor Default()
      ensures defaultLevel == Normal && currentLevel == Normal && out == ""
    {
      defaultLevel := Normal;
      currentLevel := Normal;
      out := "";
    }

    /** isVerbose: the logger was made at level Verbose. */
    predicate IsVerbose()
    {
      defaultLevel == Verbose
    }

    predicate ShouldPrint()
      reads this
    {
      Prints(defaultLevel, currentLevel)
    }

    /** operator<<(LevelManipulator): sets the current level; writes nothing. */
    method PutLevel(manip: LevelManipulator)
      modifies this
      ensures Snapshot() == Next(defaultLevel, old(Snapshot()), SetLevel(manip))
      ensures currentLevel == manip.level && out == old(out)
    {
      currentLevel := manip.level;
    }

    /** operator<<(std manipulator): written if shouldPrint; the level then returns to the default. */
    method PutManipulator(text: string)
      modifies this
      ensures Snapshot() == Next(defaultLevel, old(Snapshot()), StdManip(text))
      ensures currentLevel == defaultLevel
    {
      if ShouldPrint() {
        out := out + text;
      }
      currentLevel := defaultLevel;
    }

    /** operator<<(value): written iff shouldPrint; the level is unchanged. */
    method Put(text: string)
      modifies this
      ensures Snapshot() == Next(defaultLevel, old(Snapshot()), Value(text))
      ensures currentLevel == old(currentLevel)
    {
      if ShouldPrint() {
        out := out + text;
      }
    }
  }
}
