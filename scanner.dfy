/**
 * The character scanner the script, string-table and ini parsers read
 * their input with (`BufferedScanner`, nested in C4ScriptParser.java).
 *
 * The scanner holds the whole input as one string and a cursor `offset`.
 * Reading past the end still moves the cursor, so that a following
 * `Unread` puts it back; the cursor may therefore lie beyond the end of
 * the buffer. The functions at the top of the module say, of a buffer and
 * a start position, where each scanning loop stops; the methods of the
 * class are proved to stop exactly there.
 */
module Scanner {
  import opened Common

  /** What `read` returns at the end of the input. */
  const EOF: int := -1

  const WHITESPACE_DELIMITERS: seq<char> := [' ', '\n', '\r', '\t']
  const NEWLINE_DELIMITERS: seq<char> := ['\n', '\r']

  /** The character code `read` returns at position `i`: a character, or `EOF` beyond the end. */
  function CodeAt(s: string, i: int): int
    requires 0 <= i
  {
    if i < |s| then s[i] as int else EOF
  }

  /** `(char) read()`: Java turns the `-1` of the end of input into U+FFFF. */
  function CharAt(s: string, i: int): char
    requires 0 <= i
  {
    if i < |s| then s[i] else '\U{FFFF}'
  }

  /** A code-word character: the regular-expression class `[0-9a-zA-Z_]`. */
  predicate IsWordPart(c: int)
  {
    ('A' as int <= c <= 'Z' as int) || ('a' as int <= c <= 'z' as int) || c == '_' as int
    || ('0' as int <= c <= '9' as int)
  }

  /** Whether a code read from the input equals one of `delims` (`EOF` never does). */
  predicate IsDelimiter(c: int, delims: seq<char>)
  {
    exists d :: d in delims && d as int == c
  }

  /** Length of the run of code-word characters that starts at `from`. */
  function WordLength(s: string, from: int): (n: nat)
    requires 0 <= from
    ensures n > 0 ==> from + n <= |s|
    ensures forall k :: from <= k < from + n ==> IsWordPart(CodeAt(s, k))
    ensures !IsWordPart(CodeAt(s, from + n))
    decreases |s| - from
  {
    if from < |s| && IsWordPart(s[from] as int) then 1 + WordLength(s, from + 1) else 0
  }

  /** The code-word that starts at `from`, possibly empty. */
  function WordAt(s: string, from: int): (r: string)
    requires 0 <= from <= |s|
    ensures |r| == WordLength(s, from) && from + |r| <= |s|
    ensures forall k :: 0 <= k < |r| ==> r[k] == s[from + k]
  {
    s[from..from + WordLength(s, from)]
  }

  /** Length of the run of characters out of `delims` that starts at `from`. */
  function RunLength(s: string, from: int, delims: seq<char>): (n: nat)
    requires 0 <= from
    ensures n > 0 ==> from + n <= |s|
    ensures forall k :: from <= k < from + n ==> IsDelimiter(CodeAt(s, k), delims)
    ensures !IsDelimiter(CodeAt(s, from + n), delims)
    decreases |s| - from
  {
    if from < |s| && IsDelimiter(s[from] as int, delims) then 1 + RunLength(s, from + 1, delims) else 0
  }

  /** Position of the first character out of `delims` at or after `from`. */
  function FindDelimiter(s: string, from: int, delims: seq<char>): (r: Option<nat>)
    requires 0 <= from
    ensures r.Some? ==> from <= r.value < |s| && IsDelimiter(s[r.value] as int, delims)
    ensures r.Some? ==> forall k :: from <= k < r.value ==> !IsDelimiter(s[k] as int, delims)
    ensures r.None? ==> forall k :: from <= k < |s| ==> !IsDelimiter(s[k] as int, delims)
    decreases |s| - from
  {
    if from >= |s| then None
    else if IsDelimiter(s[from] as int, delims) then Some(from)
    else FindDelimiter(s, from + 1, delims)
  }

  /** Where a scan that reads up to a delimiter and finds none leaves the cursor. */
  function PastEnd(s: string, from: int): int
  {
    if from < |s| then |s| else from + 1
  }

  /** Position of the first two-character sequence `[a, b]` at or after `from`. */
  function FindPair(s: string, from: int, a: char, b: char): (r: Option<nat>)
    requires 0 <= from
    ensures r.Some? ==> from <= r.value && r.value + 1 < |s| && s[r.value] == a && s[r.value + 1] == b
    ensures r.Some? ==> forall k :: from <= k < r.value ==> !(s[k] == a && s[k + 1] == b)
    ensures r.None? ==> forall k :: from <= k && k + 1 < |s| ==> !(s[k] == a && s[k + 1] == b)
    decreases |s| - from
  {
    if from + 1 >= |s| then None
    else if s[from] == a && s[from + 1] == b then Some(from)
    else FindPair(s, from + 1, a, b)
  }

  class BufferedScanner {
    const buffer: string
    var offset: int

    constructor (withString: string)
      ensures buffer == withString && offset == 0
    {
      buffer := withString;
      offset := 0;
    }

    function Size(): nat { |buffer| }

    function GetPosition(): int
      reads this
    {
      offset
    }

    predicate ReachedEOF()
      reads this
    {
      offset >= |buffer|
    }

    method Read() returns (c: int)
      requires 0 <= offset
      modifies this
      ensures offset == old(offset) + 1
      ensures c == CodeAt(buffer, old(offset))
    {
      if offset >= |buffer| {
        offset := offset + 1;  // moved anyway so that Unread restores the cursor
        return EOF;
      }
      c := buffer[offset] as int;
      offset := offset + 1;
    }

    method Unread()
      modifies this
      ensures offset == old(offset) - 1
    {
      offset := offset - 1;
    }

    method ReadString(length: int) returns (r: Option<string>)
      requires 0 <= offset && 0 <= length
      modifies this
      ensures old(offset) + length > |buffer| ==> r == None && offset == old(offset)
      ensures old(offset) + length <= |buffer| ==>
                r == Some(buffer[old(offset)..old(offset) + length]) && offset == old(offset) + length
    {
      if offset + length > |buffer| {
        return None;
      }
      r := Some(buffer[offset..offset + length]);
      offset := offset + length;
    }

    /** Reads a code-word; `None` only when the cursor already lies beyond the end. */
    method ReadWord() returns (r: Option<string>)
      requires 0 <= offset
      modifies this
      ensures old(offset) <= |buffer| ==>
                r == Some(WordAt(buffer, old(offset))) && offset == old(offset) + WordLength(buffer, old(offset))
      ensures old(offset) > |buffer| ==> r == None && offset == old(offset)
    {
      var start := offset;
      var length := 0;
      while true
        invariant offset == start + length
        invariant length == 0 || offset < |buffer|
        invariant forall k :: start <= k < offset ==> IsWordPart(CodeAt(buffer, k))
        decreases |buffer| - offset
      {
        var readByte := Read();
        if IsWordPart(readByte) {
          length := length + 1;
        } else {
          WordLengthAt(buffer, start, length);
          Seek(start);
          r := ReadString(length);
          return;
        }
        if ReachedEOF() {
          break;
        }
      }
      WordLengthAt(buffer, start, length);
      r := ReadStringAt(start, start + length);
    }

    /**
     * Reads up to (not including) the first character out of `delims`
     * and leaves the cursor on it; `None` when there is none.
     */
    method ReadStringUntil(delims: seq<char>) returns (r: Option<string>)
      requires 0 <= offset
      modifies this
      ensures match FindDelimiter(buffer, old(offset), delims)
                case Some(k) => r == Some(buffer[old(offset)..k]) && offset == k
                case None => r == None && offset == PastEnd(buffer, old(offset))
    {
      var start := offset;
      while true
        invariant start <= offset
        invariant offset == start || offset < |buffer|
        invariant forall k :: start <= k < offset ==> !IsDelimiter(buffer[k] as int, delims)
        decreases |buffer| - offset
      {
        var readByte := Read();
        if IsDelimiter(readByte, delims) {
          var i := offset - start - 1;
          Seek(start);
          r := ReadString(i);
          return;
        }
        if ReachedEOF() {
          assert forall k :: start <= k < |buffer| ==> !IsDelimiter(buffer[k] as int, delims);
          break;
        }
      }
      r := None;
    }

    /** Moves the cursor just past the first character out of `delims`, or to the end. */
    method MoveUntil(delims: seq<char>)
      requires 0 <= offset
      modifies this
      ensures offset == match FindDelimiter(buffer, old(offset), delims)
                        case Some(k) => k + 1
                        case None => PastEnd(buffer, old(offset))
    {
      ghost var start := offset;
      while true
        invariant start <= offset
        invariant offset == start || offset < |buffer|
        invariant forall k :: start <= k < offset ==> !IsDelimiter(buffer[k] as int, delims)
        decreases |buffer| - offset
      {
        var readByte := Read();
        if IsDelimiter(readByte, delims) {
          return;
        }
        if ReachedEOF() {
          assert forall k :: start <= k < |buffer| ==> !IsDelimiter(buffer[k] as int, delims);
          break;
        }
      }
    }

    /**
     * Skips the run of characters out of `delims` and returns its length.
     * An empty `delims` counts every character as a delimiter without
     * counting it, so the cursor moves to the end and the result is 0.
     */
    method Eat(delims: seq<char>) returns (n: int)
      requires 0 <= offset
      modifies this
      ensures old(offset) >= |buffer| ==> n == 0 && offset == old(offset)
      ensures old(offset) < |buffer| && |delims| == 0 ==> n == 0 && offset == |buffer|
      ensures old(offset) < |buffer| && |delims| > 0 ==>
                n == RunLength(buffer, old(offset), delims) && offset == old(offset) + n
    {
      if ReachedEOF() {
        return 0;  // no unread at the end of the input
      }
      var start := offset;
      var result := 0;
      while true
        invariant start <= offset < |buffer|
        invariant |delims| > 0 ==> result == offset - start
        invariant |delims| == 0 ==> result == 0
        invariant forall k :: start <= k < offset ==> |delims| == 0 || IsDelimiter(buffer[k] as int, delims)
        decreases |buffer| - offset
      {
        var readByte := Read();
        var isDelimiter := |delims| == 0 || IsDelimiter(readByte, delims);
        if isDelimiter && |delims| > 0 {
          result := result + 1;
        }
        if !isDelimiter {
          Unread();
          RunLengthAt(buffer, start, offset - start, delims);
          return result;
        }
        if ReachedEOF() {
          break;
        }
      }
      if |delims| > 0 {
        RunLengthAt(buffer, start, offset - start, delims);
      }
      n := result;
    }

    method EatWhitespace() returns (n: int)
      requires 0 <= offset
      modifies this
      ensures old(offset) >= |buffer| ==> n == 0 && offset == old(offset)
      ensures old(offset) < |buffer| ==>
                n == RunLength(buffer, old(offset), WHITESPACE_DELIMITERS) && offset == old(offset) + n
    {
      n := Eat(WHITESPACE_DELIMITERS);
    }

    method Seek(newPos: int)
      modifies this
      ensures offset == newPos
    {
      offset := newPos;
    }

    /** Moves the cursor by `distance`, but never onto or past the end. */
    method Move(distance: int)
      modifies this
      ensures offset == if old(offset) + distance >= |buffer| then |buffer| - 1 else old(offset) + distance
    {
      offset := offset + distance;
      if offset >= |buffer| {
        offset := |buffer| - 1;
      }
    }

    /** Reads `buffer[start..end]` without moving the cursor. */
    method ReadStringAt(start: int, end: int) returns (r: Option<string>)
      requires 0 <= start <= end
      modifies this
      ensures offset == old(offset)
      ensures r == if end > |buffer| then None else Some(buffer[start..end])
    {
      var p := GetPosition();
      Seek(start);
      r := ReadString(end - start);
      Seek(p);
    }
  }

  /** A run of `length` code-word characters followed by a non-word code is the word at `start`. */
  lemma {:induction false} WordLengthAt(s: string, start: int, length: nat)
    requires 0 <= start
    requires forall k :: start <= k < start + length ==> IsWordPart(CodeAt(s, k))
    requires !IsWordPart(CodeAt(s, start + length))
    ensures WordLength(s, start) == length
    decreases length
  {
    if length > 0 {
      WordLengthAt(s, start + 1, length - 1);
    }
  }

  lemma {:induction false} RunLengthAt(s: string, start: int, length: nat, delims: seq<char>)
    requires 0 <= start
    requires forall k :: start <= k < start + length ==> IsDelimiter(CodeAt(s, k), delims)
    requires !IsDelimiter(CodeAt(s, start + length), delims)
    ensures RunLength(s, start, delims) == length
    decreases length
  {
    if length > 0 {
      RunLengthAt(s, start + 1, length - 1, delims);
    }
  }
}
