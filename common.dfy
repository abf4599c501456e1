/**
 * Shared vocabulary of the model: optional values, results with an error
 * side, Java's 32-bit `int`, and the handful of `java.lang.String` and
 * `java.lang.Integer` operations that the modelled classes rely on
 * (`split` with a one-character pattern, `trim`, `Integer.parseInt`,
 * `Integer.toString`, ASCII case mapping, `compareTo`).
 */
module Common {

  datatype Option<T> = None | Some(value: T)

  datatype Result<T, E> = Success(value: T) | Failure(error: E)

  /** Severity of a problem reported while reading configuration text. */
  datatype Severity = SeverityInfo | SeverityWarning | SeverityError

  // ---------------------------------------------------------------------
  // Java `int`
  // ---------------------------------------------------------------------

  const INT_MIN: int := -0x8000_0000
  const INT_MAX: int := 0x7FFF_FFFF
  const TWO_TO_32: int := 0x1_0000_0000

  predicate IsInt32(x: int) { INT_MIN <= x <= INT_MAX }

  /** The values of a Java `int`. */
  type Int32 = x: int | INT_MIN <= x <= INT_MAX

  /** The value a Java `int` holds after an arithmetic result `x` wraps around. */
  function Wrap32(x: int): (r: int)
    ensures IsInt32(r)
    ensures (x - r) % TWO_TO_32 == 0
    ensures IsInt32(x) ==> r == x
  {
    (x - INT_MIN) % TWO_TO_32 + INT_MIN
  }

  // ---------------------------------------------------------------------
  // Characters
  // ---------------------------------------------------------------------

  predicate IsDigit(c: char) { '0' <= c <= '9' }

  predicate IsAllDigits(s: string) { forall k :: 0 <= k < |s| ==> IsDigit(s[k]) }

  /** `String.trim` removes every leading and trailing character up to U+0020. */
  predicate IsTrimmable(c: char) { c <= ' ' }

  function ToLowerChar(c: char): char
  {
    if 'A' <= c <= 'Z' then (c as int + 32) as char else c
  }

  function ToUpperChar(c: char): char
  {
    if 'a' <= c <= 'z' then (c as int - 32) as char else c
  }

  function ToLower(s: string): (r: string)
    ensures |r| == |s|
    ensures forall k :: 0 <= k < |s| ==> r[k] == ToLowerChar(s[k])
  {
    if s == [] then [] else [ToLowerChar(s[0])] + ToLower(s[1..])
  }

  function ToUpper(s: string): (r: string)
    ensures |r| == |s|
    ensures forall k :: 0 <= k < |s| ==> r[k] == ToUpperChar(s[k])
  {
    if s == [] then [] else [ToUpperChar(s[0])] + ToUpper(s[1..])
  }

  // ---------------------------------------------------------------------
  // String.trim
  // ---------------------------------------------------------------------

  function TrimStart(s: string): (r: string)
    ensures |r| <= |s| && r == s[|s| - |r|..]
    ensures r == [] || !IsTrimmable(r[0])
    ensures forall k :: 0 <= k < |s| - |r| ==> IsTrimmable(s[k])
  {
    if s != [] && IsTrimmable(s[0]) then TrimStart(s[1..]) else s
  }

  function TrimEnd(s: string): (r: string)
    ensures |r| <= |s| && r == s[..|r|]
    ensures r == [] || !IsTrimmable(r[|r| - 1])
    ensures forall k :: |r| <= k < |s| ==> IsTrimmable(s[k])
  {
    if s != [] && IsTrimmable(s[|s| - 1]) then TrimEnd(s[..|s| - 1]) else s
  }

  function Trim(s: string): (r: string)
    ensures IsTrimmed(r)
  {
    var t := TrimStart(s);
    var r := TrimEnd(t);
    assert r != [] ==> r[0] == t[0];
    r
  }

  /** A string that starts and ends with a visible character is its own trim. */
  predicate IsTrimmed(s: string)
  {
    s == [] || (!IsTrimmable(s[0]) && !IsTrimmable(s[|s| - 1]))
  }

  lemma TrimOfTrimmed(s: string)
    requires IsTrimmed(s)
    ensures Trim(s) == s
  {
  }

  /** Trimming strips padding made of trimmable characters (such as NUL bytes). */
  lemma {:induction false} TrimPadded(s: string, pad: string)
    requires IsTrimmed(s)
    requires forall k :: 0 <= k < |pad| ==> IsTrimmable(pad[k])
    ensures Trim(s + pad) == s
  {
    if s == [] {
      TrimAllTrimmable(pad);
      assert s + pad == pad;
    } else {
      assert TrimStart(s + pad) == s + pad;
      TrimEndPadded(s, pad);
    }
  }

  lemma {:induction false} TrimAllTrimmable(pad: string)
    requires forall k :: 0 <= k < |pad| ==> IsTrimmable(pad[k])
    ensures TrimStart(pad) == []
  {
    if pad != [] {
      TrimAllTrimmable(pad[1..]);
    }
  }

  lemma {:induction false} TrimEndPadded(s: string, pad: string)
    requires s != [] && !IsTrimmable(s[|s| - 1])
    requires forall k :: 0 <= k < |pad| ==> IsTrimmable(pad[k])
    ensures TrimEnd(s + pad) == s
    decreases |pad|
  {
    if pad == [] {
      assert s + pad == s;
    } else {
      var shorter := pad[..|pad| - 1];
      assert (s + pad)[..|s + pad| - 1] == s + shorter;
      TrimEndPadded(s, shorter);
    }
  }

  // ---------------------------------------------------------------------
  // String.split with a pattern that matches single characters
  // ---------------------------------------------------------------------

  predicate HasDelimiter(s: string, delims: set<char>)
  {
    exists k :: 0 <= k < |s| && s[k] in delims
  }

  /** The pieces between delimiter characters, before Java drops trailing empty pieces. */
  function SplitPieces(s: string, delims: set<char>): (r: seq<string>)
    ensures |r| >= 1
    ensures forall i :: 0 <= i < |r| ==> !HasDelimiter(r[i], delims)
  {
    if s == [] then [""]
    else if s[0] in delims then [""] + SplitPieces(s[1..], delims)
    else
      var rest := SplitPieces(s[1..], delims);
      assert !HasDelimiter(rest[0], delims);
      [[s[0]] + rest[0]] + rest[1..]
  }

  function DropTrailingEmpty(parts: seq<string>): (r: seq<string>)
    ensures |r| <= |parts| && r == parts[..|r|]
    ensures r == [] || r[|r| - 1] != ""
    ensures forall i :: |r| <= i < |parts| ==> parts[i] == ""
  {
    if parts != [] && parts[|parts| - 1] == "" then DropTrailingEmpty(parts[..|parts| - 1]) else parts
  }

  /**
   * `s.split(regex)` for a regex that matches exactly one character out of
   * `delims` (",", "-", ";|,"): no match gives `[s]`, otherwise the pieces
   * with trailing empty pieces removed.
   */
  function JavaSplit(s: string, delims: set<char>): (r: seq<string>)
    ensures forall i :: 0 <= i < |r| ==> !HasDelimiter(r[i], delims)
  {
    if !HasDelimiter(s, delims) then [s] else DropTrailingEmpty(SplitPieces(s, delims))
  }

  /** Concatenation of `parts` with `sep` between neighbours. */
  function Join(parts: seq<string>, sep: string): string
  {
    if |parts| == 0 then ""
    else if |parts| == 1 then parts[0]
    else parts[0] + sep + Join(parts[1..], sep)
  }

  /** Appending a part to a non-empty list appends the separator and the part to its join. */
  lemma {:induction false} JoinAppend(parts: seq<string>, x: string, sep: string)
    requires |parts| >= 1
    ensures Join(parts + [x], sep) == Join(parts, sep) + sep + x
  {
    if |parts| == 1 {
      assert (parts + [x])[1..] == [x];
    } else {
      assert (parts + [x])[1..] == parts[1..] + [x];
      JoinAppend(parts[1..], x, sep);
    }
  }

  lemma {:induction false} SplitPiecesOfPrefix(w: string, rest: string, delims: set<char>)
    requires !HasDelimiter(w, delims)
    ensures SplitPieces(w + rest, delims)
         == [w + SplitPieces(rest, delims)[0]] + SplitPieces(rest, delims)[1..]
  {
    if w == [] {
      var pieces := SplitPieces(rest, delims);
      assert w + rest == rest;
      assert pieces == [pieces[0]] + pieces[1..];
      assert w + pieces[0] == pieces[0];
    } else {
      assert (w + rest)[1..] == w[1..] + rest;
      assert !HasDelimiter(w[1..], delims) by {
        forall k | 0 <= k < |w[1..]| ensures w[1..][k] !in delims { assert w[1..][k] == w[k + 1]; }
      }
      assert w[0] !in delims;
      SplitPiecesOfPrefix(w[1..], rest, delims);
      assert [w[0]] + (w[1..] + SplitPieces(rest, delims)[0]) == w + SplitPieces(rest, delims)[0];
    }
  }

  /** Splitting a joined list at its separator gives the list back (before trailing pieces are dropped). */
  lemma {:induction false} SplitPiecesOfJoin(parts: seq<string>, sep: char)
    requires |parts| >= 1
    requires forall i :: 0 <= i < |parts| ==> !HasDelimiter(parts[i], {sep})
    ensures SplitPieces(Join(parts, [sep]), {sep}) == parts
  {
    if |parts| == 1 {
      SplitPiecesOfPrefix(parts[0], "", {sep});
      assert parts[0] + "" == parts[0];
    } else {
      var tail := Join(parts[1..], [sep]);
      assert Join(parts, [sep]) == parts[0] + ([sep] + tail);
      SplitPiecesOfPrefix(parts[0], [sep] + tail, {sep});
      assert ([sep] + tail)[1..] == tail;
      SplitPiecesOfJoin(parts[1..], sep);
      assert SplitPieces([sep] + tail, {sep}) == [""] + parts[1..];
      assert parts[0] + "" == parts[0];
    }
  }

  lemma {:induction false} JoinHasDelimiter(parts: seq<string>, sep: char)
    requires |parts| >= 2
    ensures HasDelimiter(Join(parts, [sep]), {sep})
  {
    var j := Join(parts, [sep]);
    assert j == parts[0] + [sep] + Join(parts[1..], [sep]);
    assert j[|parts[0]|] == sep;
  }

  /**
   * `Join` and `JavaSplit` are inverse on lists whose pieces avoid the
   * separator and whose last piece is not empty.
   */
  lemma SplitOfJoin(parts: seq<string>, sep: char)
    requires |parts| >= 1 && parts[|parts| - 1] != ""
    requires forall i :: 0 <= i < |parts| ==> !HasDelimiter(parts[i], {sep})
    ensures JavaSplit(Join(parts, [sep]), {sep}) == parts
  {
    SplitPiecesOfJoin(parts, sep);
    if |parts| >= 2 {
      JoinHasDelimiter(parts, sep);
    }
  }

  // ---------------------------------------------------------------------
  // Decimal numbers: Integer.toString and Integer.parseInt
  // ---------------------------------------------------------------------

  function DigitChar(d: nat): char
    requires d < 10
  {
    ('0' as int + d) as char
  }

  function DigitValue(c: char): nat
    requires IsDigit(c)
  {
    c as int - '0' as int
  }

  /** Decimal digits of `n`, most significant first, without leading zeros. */
  function NatToDigits(n: nat): (r: string)
    ensures |r| >= 1 && IsAllDigits(r)
    ensures |r| > 1 ==> r[0] != '0'
  {
    if n < 10 then [DigitChar(n)] else NatToDigits(n / 10) + [DigitChar(n % 10)]
  }

  /** The value of a string of decimal digits. */
  function DigitsValue(s: string): nat
    requires IsAllDigits(s)
  {
    if s == [] then 0 else DigitsValue(s[..|s| - 1]) * 10 + DigitValue(s[|s| - 1])
  }

  /** `Integer.toString(n)`. */
  function IntToString(n: int): (r: string)
    ensures |r| >= 1
  {
    if n < 0 then "-" + NatToDigits(-n) else NatToDigits(n)
  }

  /**
   * `Integer.parseInt(s)`: an optional sign followed by at least one
   * digit, within the range of `int`; `None` where Java throws
   * `NumberFormatException`.
   */
  function ParseInt(s: string): (r: Option<int>)
    ensures r.Some? ==> IsInt32(r.value)
    ensures r.Some? ==> s != [] && (IsDigit(s[0]) || s[0] == '-' || s[0] == '+')
  {
    if s == [] then None
    else
      var negative := s[0] == '-';
      var digits := if s[0] == '-' || s[0] == '+' then s[1..] else s;
      if digits == [] || !IsAllDigits(digits) then None
      else
        var magnitude: int := DigitsValue(digits);
        var v := if negative then -magnitude else magnitude;
        if IsInt32(v) then Some(v) else None
  }

  lemma {:induction false} DigitsRoundTrip(n: nat)
    ensures DigitsValue(NatToDigits(n)) == n
  {
    var r := NatToDigits(n);
    if n >= 10 {
      DigitsRoundTrip(n / 10);
      assert r[..|r| - 1] == NatToDigits(n / 10);
    }
  }

  /** Every `int` printed by `Integer.toString` parses back to itself. */
  lemma ParseIntOfIntToString(n: int)
    requires IsInt32(n)
    ensures ParseInt(IntToString(n)) == Some(n)
  {
    var s := IntToString(n);
    if n < 0 {
      DigitsRoundTrip(-n);
      assert s[1..] == NatToDigits(-n);
    } else {
      DigitsRoundTrip(n);
    }
  }

  lemma IntToStringShape(n: int)
    ensures IsTrimmed(IntToString(n))
    ensures IntToString(n)[0] != '+'
    ensures forall k :: 0 <= k < |IntToString(n)| ==> IntToString(n)[k] != ',' && IntToString(n)[k] != ';'
  {
    var s := IntToString(n);
    if n < 0 {
      assert s[1..] == NatToDigits(-n);
      assert forall k :: 1 <= k < |s| ==> s[k] == s[1..][k - 1];
    }
  }

  // ---------------------------------------------------------------------
  // String.indexOf and String.lastIndexOf for one character
  // ---------------------------------------------------------------------

  /** `s.indexOf(c, from)`: the first position at or after `from` holding `c`, or -1. */
  function IndexOfFrom(s: string, c: char, from: int): (r: int)
    ensures -1 <= r < |s|
    ensures r >= 0 ==> r >= from && s[r] == c
    ensures forall k :: from <= k < |s| && 0 <= k && (r == -1 || k < r) ==> s[k] != c
    decreases |s| - from
  {
    if from < 0 then IndexOfFrom(s, c, 0)
    else if from >= |s| then -1
    else if s[from] == c then from
    else IndexOfFrom(s, c, from + 1)
  }

  /** `s.lastIndexOf(c, from)`: the last position at or before `from` holding `c`, or -1. */
  function LastIndexOfFrom(s: string, c: char, from: int): (r: int)
    ensures -1 <= r < |s| && (r >= 0 ==> r <= from)
    ensures r >= 0 ==> s[r] == c
    ensures forall k :: r < k <= from && 0 <= k < |s| ==> s[k] != c
    decreases if from < 0 then 0 else from + 1
  {
    if from >= |s| then LastIndexOfFrom(s, c, |s| - 1)
    else if from < 0 then -1
    else if s[from] == c then from
    else LastIndexOfFrom(s, c, from - 1)
  }

  // ---------------------------------------------------------------------
  // String.compareTo
  // ---------------------------------------------------------------------

  /**
   * `a.compareTo(b)`: the difference of the first differing characters, or
   * of the lengths when one string is a prefix of the other.
   */
  function CompareTo(a: string, b: string): (r: int)
    ensures r == 0 <==> a == b
  {
    if a == [] || b == [] then |a| - |b|
    else if a[0] != b[0] then a[0] as int - b[0] as int
    else CompareTo(a[1..], b[1..])
  }
}
