/**
 * includes/CommandLineParser.h: the legacy parser over Option objects and its static checks,
 * which throw (here: Fail) when two options are combined that must not be, when an option is set
 * without the one it needs, or when an option's value is outside an allowed set.
 */
module LegacyCommandLine {
  import opened Wrappers
  import opened CommandOptions
  import opened LegacyOptions
  import StreamUtil

  /** std::string's operator<: lexicographic by character, a proper prefix first. */
  predicate Below(a: string, b: string)
    decreases |a|
  {
    if a == [] then b != []
    else b != [] && (a[0] < b[0] || (a[0] == b[0] && Below(a[1..], b[1..])))
  }

  /** A std::set<std::string> as it iterates: strictly increasing. */
  predicate SetOrder(xs: seq<string>)
  {
    forall i, j :: 0 <= i < j < |xs| ==> Below(xs[i], xs[j])
  }

  lemma {:induction false} BelowIrreflexive(a: string)
    ensures !Below(a, a)
    decreases |a|
  {
    if a != [] {
      BelowIrreflexive(a[1..]);
    }
  }

  /** A set holds each value once, so the message lists no value twice. */
  lemma SetOrderDistinct(xs: seq<string>)
    requires SetOrder(xs)
    ensures forall i, j :: 0 <= i < j < |xs| ==> xs[i] != xs[j]
  {
    forall i, j | 0 <= i < j < |xs|
      ensures xs[i] != xs[j]
    {
      BelowIrreflexive(xs[i]);
    }
  }

  /** Each allowed value between single quotes, as the message prints it. */
  function Quoted(xs: seq<string>): (q: seq<string>)
    ensures |q| == |xs| && forall i :: 0 <= i < |xs| ==> q[i] == "'" + xs[i] + "'"
  {
    if xs == [] then [] else Quoted(xs[..|xs| - 1]) + ["'" + xs[|xs| - 1] + "'"]
  }

  /** The message of assertValueIn. */
  function ValueInMessage(longFlag: string, value: string, allowed: seq<string>): string
  {
    "Invalid value for " + longFlag + ": '" + value + "'. Allowed values are: "
      + StreamUtil.JoinSpec(Quoted(allowed), ",")
  }

  /**
   * The allowed values can be read back from the message's list: split at the commas it puts
   * between them, it yields each value quoted, in set order (when no value holds a comma).
   */
  lemma AllowedListed(allowed: seq<string>)
    requires allowed != []
    requires forall i :: 0 <= i < |allowed| ==> ',' !in allowed[i]
    ensures StreamUtil.Split(StreamUtil.JoinSpec(Quoted(allowed), ","), ',') == Quoted(allowed)
  {
    var q := Quoted(allowed);
    forall i | 0 <= i < |q|
      ensures ',' !in q[i]
    {
      assert q[i] == "'" + allowed[i] + "'";
    }
    StreamUtil.SplitJoin(q, ',');
  }

  class CommandLineParser {
    const options: seq<LegacyOptions.Option>

    /** The options are registered in the order they are given. */
    constructor(options: seq<LegacyOptions.Option>)
      ensures this.options == options
    {
      this.options := options;
    }

    /** assertNotBoth: fails iff both options are set. */
    static function AssertNotBoth(lhs: LegacyOptions.Option, rhs: LegacyOptions.Option): (o: Outcome)
      reads lhs, rhs
      ensures o.Fail? <==> lhs.IsSet() && rhs.IsSet()
      ensures o.Fail? ==> o.msg == "Cannot combine " + lhs.longFlag + " and " + rhs.longFlag + "!"
    {
      if lhs.IsSet() && rhs.IsSet() then Fail("Cannot combine " + lhs.longFlag + " and " + rhs.longFlag + "!")
      else Pass
    }

    /** assertRequires: fails iff lhs is set and rhs is not. */
    static function AssertRequires(lhs: LegacyOptions.Option, rhs: LegacyOptions.Option): (o: Outcome)
      reads lhs, rhs
      ensures o.Fail? <==> lhs.IsSet() && !rhs.IsSet()
      ensures o.Fail? ==> o.msg == lhs.longFlag + " requires " + rhs.longFlag + " to be set."
    {
      if lhs.IsSet() && !rhs.IsSet() then Fail(lhs.longFlag + " requires " + rhs.longFlag + " to be set.")
      else Pass
    }

    /**
     * assertValueIn: fails iff the option is set to a value outside the allowed set; the message
     * names the option and the value and lists every allowed value quoted, comma-separated, in
     * set order.
     */
    static method AssertValueIn(opt: LegacyOptions.Option, allowed: seq<string>) returns (o: Outcome)
      requires opt.Valid() && opt.kind == StringKind && SetOrder(allowed)
      ensures o.Fail? <==> opt.IsSet() && opt.value.value.text !in allowed
      ensures o.Fail? ==> o.msg == ValueInMessage(opt.longFlag, opt.value.value.text, allowed)
    {
      if opt.IsSet() && opt.Get().value.text !in allowed {
        var value := opt.Get().value.text;
        var list := "";
        var count := 0;
        for k := 0 to |allowed|
          invariant count == k
          invariant list == StreamUtil.JoinSpec(Quoted(allowed[..k]), ",")
        {
          var separator := if count != 0 then "," else "";
          count := count + 1;
          assert allowed[..k + 1] == allowed[..k] + [allowed[k]];
          if k > 0 {
            StreamUtil.JoinSnoc(Quoted(allowed[..k]), "'" + allowed[k] + "'", ",");
          }
          list := list + separator + "'" + allowed[k] + "'";
        }
        assert allowed[..|allowed|] == allowed;
        return Fail("Invalid value for " + opt.longFlag + ": '" + value + "'. Allowed values are: " + list);
      }
      return Pass;
    }
  }
}
