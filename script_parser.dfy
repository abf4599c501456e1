/**
 * The token-level helpers of the C4Script parser (C4ScriptParser.java):
 * numbers, the `...` ellipsis, operators, four-letter definition IDs,
 * comments and the whitespace/comment skipper, plus the bookkeeping of
 * how many unnamed parameters (`Par(n)`) a function uses.
 *
 * Each helper positions the scanner at an offset, tries to read its token
 * and either leaves the scanner after it or puts it back.
 */
module ScriptParser {
  import opened Common
  import opened Scanner

  /** `MAX_PAR`: the highest parameter index of `Par(n)`. */
  const MAX_PAR: int := 10
  /** `UNKNOWN_PARAMETERNUM`: the count used once `Par` was given something other than a literal. */
  const UNKNOWN_PARAMETERNUM: int := MAX_PAR + 1

  const LONG_MAX: int := 0x7FFF_FFFF_FFFF_FFFF

  /** Operators that are words and must therefore not run into a following identifier. */
  const WORD_OPERATORS: set<string> := {"ne", "eq"}

  /** The argument of a `Par(...)` call: a number literal (a Java `long`) or any other expression. */
  datatype ParIndex = NumberLiteral(value: int) | OtherExpression

  /** `Long.parseLong` failing on a digit string beyond the range of `long`. */
  datatype NumberFormatException = NumberFormatException

  /** Length of the run of ASCII digits starting at `from`. */
  function DigitRunLength(s: string, from: int): (n: nat)
    requires 0 <= from
    ensures n > 0 ==> from + n <= |s|
    ensures forall k :: from <= k < from + n ==> IsDigit(s[k])
    ensures from + n < |s| ==> !IsDigit(s[from + n])
    decreases |s| - from
  {
    if from < |s| && IsDigit(s[from]) then 1 + DigitRunLength(s, from + 1) else 0
  }

  /** Whether `s` holds the opener of a line comment or of a block comment at `i`. */
  predicate CommentOpensAt(s: string, i: int)
    requires 0 <= i
  {
    i + 2 <= |s| && (s[i..i + 2] == "//" || s[i..i + 2] == "/*")
  }

  /** Where a line comment whose text starts at `from` ends: past its line break and any further ones. */
  function LineCommentEnd(s: string, from: int): int
    requires 0 <= from
  {
    var lineEnd := match FindDelimiter(s, from, NEWLINE_DELIMITERS)
                   case Some(k) => k + 1
                   case None => PastEnd(s, from);
    if lineEnd >= |s| then lineEnd else lineEnd + RunLength(s, lineEnd, NEWLINE_DELIMITERS)
  }

  /** Where a block comment whose text starts at `from` ends: past its closing star and slash, or at the end of input. */
  function BlockCommentEnd(s: string, from: int): int
    requires 0 <= from
  {
    match FindPair(s, from, '*', '/')
    case Some(j) => j + 2
    case None => if from < |s| then |s| else from
  }

  /** Where a comment opening at `i` ends: a line comment or a block comment, as `ParseComment` skips them. */
  function CommentEnd(s: string, i: int): (r: int)
    requires 0 <= i && CommentOpensAt(s, i)
    ensures r >= i + 2
  {
    if s[i..i + 2] == "//" then LineCommentEnd(s, i + 2) else BlockCommentEnd(s, i + 2)
  }

  /** A blank or a line break, the characters of `WHITESPACE_DELIMITERS`. */
  predicate IsSpace(c: char)
  {
    c == ' ' || c == '\n' || c == '\r' || c == '\t'
  }

  /** Where the run of blanks and line breaks starting at `i` ends. */
  function SpaceEnd(s: string, i: int): (r: int)
    requires 0 <= i
    ensures r >= i
    decreases |s| - i
  {
    if i < |s| && IsSpace(s[i]) then SpaceEnd(s, i + 1) else i
  }

  /**
   * Where skipping whitespace and comments from `i` stops: past the run of
   * blanks and line breaks at `i`, then past the comments that follow, each
   * with the whitespace after it.
   */
  function SkipSpaceAndComments(s: string, i: int): (r: int)
    requires 0 <= i
    ensures r >= i
    ensures SpaceEnd(s, r) == r && !CommentOpensAt(s, r)
  {
    SpaceEndIdempotent(s, i);
    SkipComments(s, SpaceEnd(s, i))
  }

  /**
   * Where skipping stops from `j`, a position no whitespace follows: past a
   * comment opening at `j` and the whitespace after it, and on from there;
   * at `j` when no comment opens.
   */
  function SkipComments(s: string, j: int): (r: int)
    requires 0 <= j
    ensures r >= j && (r == j <==> !CommentOpensAt(s, j))
    ensures r != j ==> SpaceEnd(s, r) == r && !CommentOpensAt(s, r)
    decreases |s| - j
  {
    if CommentOpensAt(s, j) then
      var end := CommentEnd(s, j);
      SpaceEndIdempotent(s, end);
      SkipComments(s, SpaceEnd(s, end))
    else j
  }

  /** The run `SpaceEnd` finds is the one `eat(WHITESPACE_DELIMITERS)` counts. */
  lemma {:induction false} SpaceEndIsRun(s: string, i: int)
    requires 0 <= i
    ensures SpaceEnd(s, i) == i + RunLength(s, i, WHITESPACE_DELIMITERS)
    decreases |s| - i
  {
    if i < |s| {
      SpaceIsDelimiter(s[i]);
      if IsSpace(s[i]) {
        SpaceEndIsRun(s, i + 1);
      }
    }
  }

  /** `IsSpace` is membership in `WHITESPACE_DELIMITERS`. */
  lemma SpaceIsDelimiter(c: char)
    ensures IsSpace(c) <==> IsDelimiter(c as int, WHITESPACE_DELIMITERS)
  {
    if IsSpace(c) {
      assert c in WHITESPACE_DELIMITERS;
    }
  }

  /** No run of whitespace starts where one ends. */
  lemma {:induction false} SpaceEndIdempotent(s: string, i: int)
    requires 0 <= i
    ensures SpaceEnd(s, SpaceEnd(s, i)) == SpaceEnd(s, i)
    decreases |s| - i
  {
    if i < |s| && IsSpace(s[i]) {
      SpaceEndIdempotent(s, i + 1);
    }
  }

  /** Past a comment opening at `j`, skipping goes on after the comment and the whitespace that follows it. */
  lemma SkipCommentStep(s: string, j: int)
    requires 0 <= j && CommentOpensAt(s, j)
    ensures SkipComments(s, j) == SkipComments(s, SpaceEnd(s, CommentEnd(s, j)))
  {
  }

  /** Where neither whitespace nor a comment opener is, skipping stays put. */
  lemma SkipFromStop(s: string, j: int)
    requires 0 <= j
    requires SpaceEnd(s, j) == j && !CommentOpensAt(s, j)
    ensures SkipSpaceAndComments(s, j) == j
  {
  }

  /** Skipping again from where skipping stopped moves nowhere. */
  lemma SkipSpaceAndCommentsIdempotent(s: string, i: int)
    requires 0 <= i
    ensures SkipSpaceAndComments(s, SkipSpaceAndComments(s, i)) == SkipSpaceAndComments(s, i)
  {
    SkipFromStop(s, SkipSpaceAndComments(s, i));
  }

  class C4ScriptParser {
    const reader: BufferedScanner
    /** The value of the last number `ParseNumber` read (a Java `long`). */
    var parsedNumber: int
    /** The definition ID `ParseID` read last. */
    var parsedID: Option<string>
    /** Number of unnamed parameters used in the active function (`Par(5)` means 6). */
    var numUnnamedParameters: int

    constructor (reader: BufferedScanner)
      ensures this.reader == reader
      ensures parsedNumber == 0 && parsedID == None && numUnnamedParameters == 0
    {
      this.reader := reader;
      parsedNumber := 0;
      parsedID := None;
      numUnnamedParameters := 0;
    }

    /**
     * Records that `Par(index)` occurs: a literal index raises the count to
     * `index + 1` (in `int` arithmetic), anything else makes the count
     * unknown; once unknown or beyond `MAX_PAR`, the count stays.
     */
    method UnnamedParameterUsed(index: ParIndex)
      modifies this
      ensures old(numUnnamedParameters) < UNKNOWN_PARAMETERNUM && index.NumberLiteral? ==>
                var number := Wrap32(index.value);
                numUnnamedParameters == if Wrap32(number + 1) > old(numUnnamedParameters)
                                        then Wrap32(number + 1) else old(numUnnamedParameters)
      ensures old(numUnnamedParameters) < UNKNOWN_PARAMETERNUM && index.OtherExpression? ==>
                numUnnamedParameters == UNKNOWN_PARAMETERNUM
      ensures old(numUnnamedParameters) >= UNKNOWN_PARAMETERNUM ==>
                numUnnamedParameters == old(numUnnamedParameters)
      ensures numUnnamedParameters >= old(numUnnamedParameters)
      ensures index.NumberLiteral? && 0 <= index.value <= MAX_PAR ==> numUnnamedParameters > index.value
      ensures parsedNumber == old(parsedNumber) && parsedID == old(parsedID)
    {
      if numUnnamedParameters < UNKNOWN_PARAMETERNUM {
        if index.NumberLiteral? {
          var number := Wrap32(index.value);  // ExprNumber.intValue()
          var next := Wrap32(number + 1);
          numUnnamedParameters := if next > numUnnamedParameters then next else numUnnamedParameters;
        } else {
          numUnnamedParameters := UNKNOWN_PARAMETERNUM;
        }
      }
    }

    /**
     * Reads a decimal number at `start` as the source does: when the digits
     * run up to the end of the input it reports a number without storing
     * its value.
     */
    method ParseNumberAsWritten(start: int) returns (r: Result<bool, NumberFormatException>)
      requires 0 <= start
      modifies this, reader
      ensures parsedID == old(parsedID) && numUnnamedParameters == old(numUnnamedParameters)
      ensures var s := reader.buffer; var n := DigitRunLength(s, start);
              if n == 0 then
                r == Success(false) && parsedNumber == -1 && reader.offset == start
              else if start + n == |s| then
                r == Success(true) && parsedNumber == old(parsedNumber) && reader.offset == |s|
              else
                reader.offset == start + n
                && (DigitsValue(s[start..start + n]) <= LONG_MAX ==>
                      r == Success(true) && parsedNumber == DigitsValue(s[start..start + n]))
                && (DigitsValue(s[start..start + n]) > LONG_MAX ==>
                      r.Failure? && parsedNumber == old(parsedNumber))
    {
      reader.Seek(start);
      var count := 0;
      while true
        invariant reader.offset == start + count
        invariant count == 0 || reader.offset < |reader.buffer|
        invariant forall k :: start <= k < start + count ==> IsDigit(reader.buffer[k])
        invariant parsedNumber == old(parsedNumber) && parsedID == old(parsedID)
        invariant numUnnamedParameters == old(numUnnamedParameters)
        decreases |reader.buffer| - reader.offset
      {
        var readByte := reader.Read();
        if '0' as int <= readByte <= '9' as int {
          count := count + 1;
        } else {
          reader.Unread();
          DigitRunLengthAt(reader.buffer, start, count);
          if count > 0 {
            reader.Seek(start);
            var digits := reader.ReadString(count);
            var value := DigitsValue(digits.value);
            if value > LONG_MAX {
              return Failure(NumberFormatException);
            }
            parsedNumber := value;
            reader.Seek(start + count);
          } else {
            parsedNumber := -1;  // not a number at all
            return Success(false);
          }
          return Success(true);
        }
        if reader.ReachedEOF() {
          break;
        }
      }
      DigitRunLengthAt(reader.buffer, start, count);
      return Success(true);
    }

    /**
     * Reads a decimal number at `start`; a number that ends the input is
     * stored like any other.
     */
    method ParseNumber(start: int) returns (r: Result<bool, NumberFormatException>)
      requires 0 <= start
      modifies this, reader
      ensures parsedID == old(parsedID) && numUnnamedParameters == old(numUnnamedParameters)
      ensures var s := reader.buffer; var n := DigitRunLength(s, start);
              if n == 0 then
                r == Success(false) && parsedNumber == -1 && reader.offset == start
              else
                reader.offset == start + n
                && (DigitsValue(s[start..start + n]) <= LONG_MAX ==>
                      r == Success(true) && parsedNumber == DigitsValue(s[start..start + n]))
                && (DigitsValue(s[start..start + n]) > LONG_MAX ==>
                      r.Failure? && parsedNumber == old(parsedNumber))
    {
      reader.Seek(start);
      var count := 0;
      while true
        invariant reader.offset == start + count
        invariant count == 0 || reader.offset < |reader.buffer|
        invariant forall k :: start <= k < start + count ==> IsDigit(reader.buffer[k])
        invariant parsedNumber == old(parsedNumber) && parsedID == old(parsedID)
        invariant numUnnamedParameters == old(numUnnamedParameters)
        decreases |reader.buffer| - reader.offset
      {
        var readByte := reader.Read();
        if '0' as int <= readByte <= '9' as int {
          count := count + 1;
        } else {
          reader.Unread();
          break;
        }
        if reader.ReachedEOF() {
          break;
        }
      }
      DigitRunLengthAt(reader.buffer, start, count);
      if count == 0 {
        parsedNumber := -1;
        return Success(false);
      }
      reader.Seek(start);
      var digits := reader.ReadString(count);
      var value := DigitsValue(digits.value);
      if value > LONG_MAX {
        return Failure(NumberFormatException);
      }
      parsedNumber := value;
      reader.Seek(start + count);
      return Success(true);
    }

    /** Reads `...` at `start`; otherwise leaves the scanner at `start`. */
    method ParseEllipsis(start: int) returns (found: bool)
      requires 0 <= start
      modifies reader
      ensures var s := reader.buffer;
              found == (start + 3 <= |s| && s[start..start + 3] == "...")
      ensures reader.offset == if found then start + 3 else start
    {
      reader.Seek(start);
      var e := reader.ReadString(3);
      if e == Some("...") {
        return true;
      }
      reader.Seek(start);
      return false;
    }

    /**
     * Reads an operator at `start`, trying two characters before one;
     * `operators` is the spelling table of the language's operators.
     * `->` is never an operator, and a word operator (`ne`, `eq`) must
     * not run into a following word character.
     */
    method ParseOperator(start: int, operators: set<string>) returns (r: Option<string>)
      requires 0 <= start
      modifies reader
      ensures r != Some("->")
      ensures r.Some? ==> r.value in operators
      ensures var s := reader.buffer;
              var two := [CharAt(s, start), CharAt(s, start + 1)];
              if two == "->" then
                r == None && reader.offset == start
              else if two in operators then
                if two in WORD_OPERATORS && IsWordPart(CodeAt(s, start + 2))
                then r == None && reader.offset == start
                else r == Some(two) && reader.offset == start + 2
              else if two[..1] in operators then
                r == Some(two[..1]) && reader.offset == start + 1
              else
                r == None && reader.offset == start
    {
      reader.Seek(start);
      var c1 := reader.Read();
      var c2 := reader.Read();
      var s := [CharAt(reader.buffer, start), CharAt(reader.buffer, start + 1)];
      if s == "->" {
        reader.Seek(start);
        return None;
      }
      if s in operators {
        if s in WORD_OPERATORS {
          var followingChar := reader.Read();
          if IsWordPart(followingChar) {
            reader.Seek(start);
            return None;
          } else {
            reader.Unread();
          }
        }
        return Some(s);
      }
      s := s[..1];
      if s in operators {
        reader.Unread();
        return Some(s);
      }
      reader.Seek(start);
      return None;
    }

    /**
     * Reads a four-character definition ID at `start`; `looksLikeID` is
     * the check of its spelling. On failure the scanner is back at
     * `start` and no ID is recorded.
     */
    method ParseID(start: int, looksLikeID: string -> bool) returns (found: bool)
      requires 0 <= start
      modifies this, reader
      ensures parsedNumber == old(parsedNumber) && numUnnamedParameters == old(numUnnamedParameters)
      ensures var s := reader.buffer;
              var word := if start <= |s| then Some(WordAt(s, start)) else None;
              found == (word.Some? && |word.value| == 4 && looksLikeID(word.value))
      ensures found ==> reader.offset == start + 4 && parsedID == Some(reader.buffer[start..start + 4])
      ensures found ==> forall k :: start <= k < start + 4 ==> IsWordPart(CodeAt(reader.buffer, k))
      ensures !found ==> reader.offset == start && parsedID == None
    {
      parsedID := None;
      reader.Seek(start);
      var word := reader.ReadWord();
      if word.Some? && |word.value| != 4 {
        reader.Seek(start);
        return false;
      }
      if word.None? || !looksLikeID(word.value) {
        reader.Seek(start);
        return false;
      }
      parsedID := word;
      return true;
    }

    /**
     * Skips a comment at `start`: a line comment up to and including its
     * line breaks, or a block comment up to its closing star and slash (or
     * to the end of the input). Anything else leaves the scanner at `start`.
     */
    method ParseComment(start: int) returns (found: bool)
      requires 0 <= start
      modifies reader
      ensures var s := reader.buffer;
              if start + 2 <= |s| && s[start..start + 2] == "//" then
                found && reader.offset == LineCommentEnd(s, start + 2)
              else if start + 2 <= |s| && s[start..start + 2] == "/*" then
                found && reader.offset == BlockCommentEnd(s, start + 2)
              else
                !found && reader.offset == start
      ensures found == CommentOpensAt(reader.buffer, start)
      ensures found ==> reader.offset >= start + 2
    {
      reader.Seek(start);
      var sequence := reader.ReadString(2);
      if sequence.None? {
        return false;
      } else if sequence.value == "//" {
        reader.MoveUntil(NEWLINE_DELIMITERS);
        var _ := reader.Eat(NEWLINE_DELIMITERS);
        return true;
      } else if sequence.value == "/*" {
        ghost var s := reader.buffer;
        while !reader.ReachedEOF()
          invariant start + 2 <= reader.offset <= |s|
          invariant forall k :: start + 2 <= k < reader.offset && k + 1 < |s| ==> !(s[k] == '*' && s[k + 1] == '/')
          decreases |s| - reader.offset
        {
          var c := reader.Read();
          if c == '*' as int {
            var d := reader.Read();
            if d == '/' as int {
              return true;
            } else {
              reader.Unread();
            }
          }
        }
        return true;
      } else {
        reader.Move(-2);
        return false;
      }
    }

    /**
     * The condition of the skipping loop, `eat(WHITESPACE) > 0 || parseComment()`:
     * skips the whitespace at the offset, or else a comment there, and says
     * whether it skipped anything. Where skipping stops stays the same.
     */
    method EatWhitespaceOrComment() returns (more: bool)
      requires 0 <= reader.offset
      modifies reader
      ensures reader.offset >= old(reader.offset)
      ensures more ==> old(reader.offset) < |reader.buffer| && reader.offset > old(reader.offset)
      ensures SkipComments(reader.buffer, SpaceEnd(reader.buffer, reader.offset))
              == SkipComments(reader.buffer, SpaceEnd(reader.buffer, old(reader.offset)))
      ensures !more ==> SpaceEnd(reader.buffer, reader.offset) == reader.offset
                        && !CommentOpensAt(reader.buffer, reader.offset)
    {
      ghost var s := reader.buffer;
      var before := reader.GetPosition();
      assert before == reader.offset;
      var eaten := reader.EatWhitespace();
      SpaceEndIsRun(s, before);
      SpaceEndIdempotent(s, before);
      ghost var skipped := SkipComments(s, SpaceEnd(s, before));
      if eaten > 0 {
        assert reader.offset == before + RunLength(s, before, WHITESPACE_DELIMITERS);
        assert reader.offset == SpaceEnd(s, before);
        assert SkipComments(s, SpaceEnd(s, reader.offset)) == skipped;
        return true;
      }
      var at := reader.GetPosition();
      assert at == reader.offset == SpaceEnd(s, before);
      assert SkipComments(s, at) == skipped;
      more := ParseComment(at);
      if more {
        assert reader.offset == CommentEnd(s, at);
        SkipCommentStep(s, at);
      } else {
        assert reader.offset == at;
      }
    }

    /** Skips whitespace and comments from `start` on. */
    method EatWhitespace(start: int)
      requires 0 <= start
      modifies reader
      ensures reader.offset == SkipSpaceAndComments(reader.buffer, start)
      ensures reader.offset >= start
      ensures reader.offset < |reader.buffer| ==>
                !IsDelimiter(reader.buffer[reader.offset] as int, WHITESPACE_DELIMITERS)
                && !CommentOpensAt(reader.buffer, reader.offset)
    {
      ghost var s := reader.buffer;
      ghost var target := SkipSpaceAndComments(s, start);
      reader.Seek(start);
      while true
        invariant reader.offset >= start
        invariant SkipComments(s, SpaceEnd(s, reader.offset)) == target
        decreases |s| - reader.offset
      {
        var more := EatWhitespaceOrComment();
        if !more {
          break;
        }
      }
      assert reader.offset == target;
      if reader.offset < |s| {
        SpaceIsDelimiter(s[reader.offset]);
      }
    }
  }

  lemma {:induction false} DigitRunLengthAt(s: string, start: int, length: nat)
    requires 0 <= start
    requires length > 0 ==> start + length <= |s|
    requires forall k :: start <= k < start + length ==> IsDigit(s[k])
    requires start + length < |s| ==> !IsDigit(s[start + length])
    ensures DigitRunLength(s, start) == length
    decreases length
  {
    if length > 0 {
      DigitRunLengthAt(s, start + 1, length - 1);
    }
  }

  /**
   * The digits "42" ending the input: the parser reports a number but keeps
   * the value it held before (0 for a fresh parser).
   */
  method StaleNumberAtEndOfInput() returns (found: bool, number: int)
    ensures found && number == 0
  {
    var scanner := new BufferedScanner("42");
    var parser := new C4ScriptParser(scanner);
    assert DigitRunLength("42", 2) == 0;
    assert DigitRunLength("42", 0) == 2;
    var r := parser.ParseNumberAsWritten(0);
    found := r == Success(true);
    number := parser.parsedNumber;
  }

  /** The corrected parser stores the 42 that ends the input. */
  method NumberAtEndOfInput() returns (found: bool, number: int)
    ensures found && number == 42
  {
    var scanner := new BufferedScanner("42");
    var parser := new C4ScriptParser(scanner);
    assert DigitRunLength("42", 2) == 0;
    assert DigitRunLength("42", 0) == 2;
    assert DigitsValue("42") == 42 by {
      assert "42"[..1] == "4";
      assert "4"[..0] == "";
    }
    assert "42"[0..2] == "42";
    var r := parser.ParseNumber(0);
    found := r == Success(true);
    number := parser.parsedNumber;
  }
}
