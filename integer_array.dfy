// A DefCore value holding a comma-separated list of integers, such as
// `Offset=-5,+3`. It is read with `setInput` and written back with
// `toString`.

module IntegerArrays {
  import opened Common

  /** The decimal renderings of `ints`, one string per element. */
  function Renderings(ints: seq<int>): (r: seq<string>)
    ensures |r| == |ints|
    ensures forall i :: 0 <= i < |ints| ==> r[i] == IntToString(ints[i])
  {
    seq(|ints|, i requires 0 <= i < |ints| => IntToString(ints[i]))
  }

  /** What `toString` produces: the elements in decimal, separated by commas. */
  function Render(ints: seq<int>): string
  {
    Join(Renderings(ints), ",")
  }

  /**
   * One comma-separated part as `setInput` reads it: trimmed, one leading
   * '+' dropped, trimmed again, then parsed by `Integer.parseInt` (which
   * itself accepts one more sign).
   */
  function ParsePart(part: string): (r: Option<int>)
    ensures r.Some? ==> IsInt32(r.value)
  {
    var trimmed := Trim(part);
    var unsigned := if |trimmed| > 0 && trimmed[0] == '+' then trimmed[1..] else trimmed;
    ParseInt(Trim(unsigned))
  }

  /** All parts parsed in order by `parse`, or None as soon as one of them fails. */
  function ParseAll(parts: seq<string>, parse: string -> Option<int>): (r: Option<seq<int>>)
    ensures r.Some? ==> |r.value| == |parts|
  {
    if parts == [] then Some([])
    else
      var last := parse(parts[|parts| - 1]);
      match ParseAll(parts[..|parts| - 1], parse)
      case None => None
      case Some(prefix) =>
        if last.None? then None else Some(prefix + [last.value])
  }

  /** The parts parse as a whole exactly when each of them parses, and then to their values in order. */
  lemma {:induction false} ParseAllElements(parts: seq<string>, parse: string -> Option<int>)
    ensures ParseAll(parts, parse).Some? <==> forall i :: 0 <= i < |parts| ==> parse(parts[i]).Some?
    ensures ParseAll(parts, parse).Some? ==>
      forall i :: 0 <= i < |parts| ==> parse(parts[i]) == Some(ParseAll(parts, parse).value[i])
  {
    if parts != [] {
      var n := |parts|;
      var prefix := parts[..n - 1];
      ParseAllElements(prefix, parse);
      forall i | 0 <= i < n - 1
        ensures prefix[i] == parts[i]
      {
      }
    }
  }

  /** Every value `ParsePart` accepts fits in an `int`. */
  lemma ParseAllInt32(parts: seq<string>)
    requires ParseAll(parts, ParsePart).Some?
    ensures forall i :: 0 <= i < |parts| ==> IsInt32(ParseAll(parts, ParsePart).value[i])
  {
    ParseAllElements(parts, ParsePart);
  }

  /**
   * The outcome of `setInput(input)`: the integers, or the severity of the
   * exception it throws. An input with no parts (only commas) is a
   * warning; a part that is not a number is an error.
   */
  function ParseIntegerArray(input: string): (r: Result<seq<int>, Severity>)
    ensures r.Success? ==> |r.value| == |JavaSplit(input, {','})| > 0
    ensures r.Success? ==> forall i :: 0 <= i < |r.value| ==> IsInt32(r.value[i])
    ensures r.Failure? ==> r.error == SeverityWarning || r.error == SeverityError
  {
    var parts := JavaSplit(input, {','});
    if |parts| == 0 then Failure(SeverityWarning)
    else match ParseAll(parts, ParsePart)
      case Some(values) => ParseAllInt32(parts); Success(values)
      case None => Failure(SeverityError)
  }

  lemma ParsePartOfIntToString(n: int)
    requires IsInt32(n)
    ensures ParsePart(IntToString(n)) == Some(n)
  {
    var s := IntToString(n);
    IntToStringShape(n);
    TrimOfTrimmed(s);
    ParseIntOfIntToString(n);
  }

  /** Parts that each parse to the matching value parse as a whole to those values. */
  lemma {:induction false} ParseAllOfParsable(parts: seq<string>, parse: string -> Option<int>, values: seq<int>)
    requires |parts| == |values|
    requires forall i :: 0 <= i < |parts| ==> parse(parts[i]) == Some(values[i])
    ensures ParseAll(parts, parse) == Some(values)
  {
    if parts != [] {
      var n := |parts|;
      ParseAllOfParsable(parts[..n - 1], parse, values[..n - 1]);
      assert values == values[..n - 1] + [values[n - 1]];
    }
  }

  lemma ParseAllOfRenderings(ints: seq<int>)
    requires forall i :: 0 <= i < |ints| ==> IsInt32(ints[i])
    ensures ParseAll(Renderings(ints), ParsePart) == Some(ints)
  {
    var strs := Renderings(ints);
    forall i | 0 <= i < |ints|
      ensures ParsePart(strs[i]) == Some(ints[i])
    {
      ParsePartOfIntToString(ints[i]);
    }
    ParseAllOfParsable(strs, ParsePart, ints);
  }

  /** Reading back what `toString` wrote gives the same integers, for every non-empty array. */
  lemma RoundTrip(ints: seq<int>)
    requires |ints| > 0
    requires forall i :: 0 <= i < |ints| ==> IsInt32(ints[i])
    ensures ParseIntegerArray(Render(ints)) == Success(ints)
  {
    var strs := Renderings(ints);
    forall i | 0 <= i < |strs|
      ensures !HasDelimiter(strs[i], {','})
    {
      IntToStringShape(ints[i]);
    }
    SplitOfJoin(strs, ',');
    ParseAllOfRenderings(ints);
  }

  /** An empty array is written as "", which reads back as one empty part and fails. */
  lemma EmptyArrayDoesNotRoundTrip()
    ensures Render([]) == ""
    ensures ParseIntegerArray(Render([])) == Failure(SeverityError)
  {
    assert !HasDelimiter("", {','});
    assert JavaSplit("", {','}) == [""];
    assert ParseAll([""], ParsePart).None? by {
      assert Trim("") == "";
    }
  }

  /** The written form never ends in a separator. */
  lemma RenderHasNoTrailingSeparator(ints: seq<int>)
    requires |ints| > 0
    ensures |Render(ints)| > 0 && Render(ints)[|Render(ints)| - 1] != ','
  {
    var n := |ints|;
    var last := IntToString(ints[n - 1]);
    if n > 1 {
      assert Renderings(ints) == Renderings(ints[..n - 1]) + [last];
      JoinAppend(Renderings(ints[..n - 1]), last, ",");
    }
    IntToStringShape(ints[n - 1]);
  }

  /** The loop of `setInput`: parses the parts in order and stops at the first that `parse` rejects. */
  method ParseParts(parts: seq<string>, parse: string -> Option<int>) returns (r: Option<seq<int>>)
    ensures r == ParseAll(parts, parse)
  {
    var values: seq<int> := [];
    var i := 0;
    while i < |parts|
      invariant 0 <= i <= |parts|
      invariant ParseAll(parts[..i], parse) == Some(values)
    {
      ParseAllSnoc(parts, i, parse);
      var parsed := parse(parts[i]);
      if parsed.None? {
        ParseAllOfPrefix(parts, parse, i + 1);
        return None;
      }
      values := values + [parsed.value];
      i := i + 1;
    }
    assert parts[..i] == parts;
    return Some(values);
  }

  /** Parsing one more part: the prefix's values followed by that part's, or None if either fails. */
  lemma ParseAllSnoc(parts: seq<string>, i: nat, parse: string -> Option<int>)
    requires i < |parts|
    ensures ParseAll(parts[..i + 1], parse) ==
      if ParseAll(parts[..i], parse).None? || parse(parts[i]).None? then None
      else Some(ParseAll(parts[..i], parse).value + [parse(parts[i]).value])
  {
    var next := parts[..i + 1];
    assert next[..i] == parts[..i] && next[i] == parts[i];
  }

  class IntegerArray {
    /** The integers; None before the first successful `setInput`. */
    var integers: Option<seq<int>>

    /** `new IntegerArray()`: no integers yet. */
    constructor Empty()
      ensures integers.None?
    {
      integers := None;
    }

    /**
     * `setInput(input)`: on success the integers are replaced; on failure
     * the severity of the exception is returned and the integers are kept.
     */
    method SetInput(input: string) returns (error: Option<Severity>)
      modifies this
      ensures ParseIntegerArray(input).Success? ==> integers == Some(ParseIntegerArray(input).value) && error.None?
      ensures ParseIntegerArray(input).Failure? ==> integers == old(integers) && error == Some(ParseIntegerArray(input).error)
    {
      var parts := JavaSplit(input, {','});
      if |parts| == 0 {
        return Some(SeverityWarning);
      }
      var values := ParseParts(parts, ParsePart);
      if values.None? {
        return Some(SeverityError);
      }
      integers := Some(values.value);
      error := None;
    }

    /**
     * `toString()`: each integer in decimal, a comma after all but the last;
     * None where the source dereferences the missing array.
     */
    method ToString() returns (r: Option<string>)
      ensures integers.None? ==> r.None?
      ensures integers.Some? ==> r == Some(Render(integers.value))
    {
      if integers.None? {
        return None;
      }
      var ints := integers.value;
      var strs := Renderings(ints);
      var builder := "";
      var i := 0;
      while i < |ints|
        invariant 0 <= i <= |ints|
        invariant i == 0 ==> builder == ""
        invariant 0 < i ==> builder == Join(strs[..i], ",") + (if i < |ints| then "," else "")
      {
        if i > 0 {
          assert strs[..i + 1] == strs[..i] + [strs[i]];
          JoinAppend(strs[..i], strs[i], ",");
        } else {
          assert strs[..1] == [strs[0]];
        }
        builder := builder + IntToString(ints[i]);
        if i < |ints| - 1 {
          builder := builder + ",";
        }
        i := i + 1;
      }
      assert strs[..i] == strs;
      assert builder == Render(ints);
      return Some(builder);
    }

    /**
     * `get(i)`: the integer at position `i`; None where the source throws
     * (no integers yet, or `i` out of bounds).
     */
    function Get(i: int): (r: Option<int>)
      reads this
      ensures r.Some? <==> integers.Some? && 0 <= i < |integers.value|
      ensures r.Some? ==> r.value == integers.value[i]
    {
      if integers.Some? && 0 <= i < |integers.value| then Some(integers.value[i]) else None
    }
  }

  /** If a prefix of the parts fails to parse, so do all parts. */
  lemma {:induction false} ParseAllOfPrefix(parts: seq<string>, parse: string -> Option<int>, k: nat)
    requires k <= |parts|
    requires ParseAll(parts[..k], parse).None?
    ensures ParseAll(parts, parse).None?
    decreases |parts| - k
  {
    if k < |parts| {
      assert parts[..k + 1][..k] == parts[..k];
      ParseAllOfPrefix(parts, parse, k + 1);
    } else {
      assert parts[..k] == parts;
    }
  }

  /** After a successful `setInput`, element `i` is the parsed part `i` of the input. */
  lemma ParsedElements(input: string, i: int)
    requires ParseIntegerArray(input).Success?
    requires 0 <= i < |ParseIntegerArray(input).value|
    ensures ParsePart(JavaSplit(input, {','})[i]) == Some(ParseIntegerArray(input).value[i])
  {
    ParseAllElements(JavaSplit(input, {','}), ParsePart);
  }
}
