// The input cursor of the parser (include/neujson/string_read_stream.h):
// a fixed character sequence and a position into it that only moves forward.

module ReadStream {

  /** The character at position p, or '\0' once p has reached the end. */
  function At(s: seq<char>, p: nat): (c: char)
    ensures p < |s| ==> c == s[p]
    ensures p >= |s| ==> c == '\0'
  {
    if p < |s| then s[p] else '\0'
  }

  /** The position reached by skipping up to n characters from p without passing the end. */
  function Advance(s: seq<char>, p: nat, n: nat): (q: nat)
    requires p <= |s|
    ensures p <= q <= |s|
    ensures q - p == if n <= |s| - p then n else |s| - p
  {
    if p + n <= |s| then p + n else |s|
  }

  class StringReadStream {
    const json: seq<char>
    var pos: nat

    /** The cursor never leaves the text. */
    ghost predicate Valid()
      reads this
    {
      pos <= |json|
    }

    constructor(text: seq<char>)
      ensures Valid()
      ensures json == text && pos == 0
    {
      json := text;
      pos := 0;
    }

    /** hasNext: true exactly while the cursor is strictly before the end. */
    function HasNext(): (b: bool)
      requires Valid()
      reads this
      ensures b <==> pos < |json|
    {
      pos != |json|
    }

    /** peek: the current character, '\0' at the end; a read-only query. */
    function Peek(): (c: char)
      requires Valid()
      reads this
      ensures pos < |json| ==> c == json[pos]
      ensures pos >= |json| ==> c == '\0'
    {
      if HasNext() then json[pos] else '\0'
    }

    /** next(): the current character, advancing by one; '\0' and no move at the end. */
    method Next() returns (c: char)
      requires Valid()
      modifies this
      ensures Valid()
      ensures c == At(json, old(pos))
      ensures pos == if old(pos) < |json| then old(pos) + 1 else old(pos)
    {
      if HasNext() {
        c := json[pos];
        pos := pos + 1;
      } else {
        c := '\0';
      }
    }

    /** next(n): n steps, each moving one character unless the end is reached. */
    method Skip(n: int)
      requires Valid()
      requires n >= 0
      modifies this
      ensures Valid()
      ensures pos == Advance(json, old(pos), n)
    {
      var i := 0;
      while i < n
        invariant 0 <= i <= n
        invariant Valid()
        invariant pos == Advance(json, old(pos), i)
      {
        if HasNext() {
          pos := pos + 1;
        }
        i := i + 1;
      }
    }

    /** assertNext(ch): the caller guarantees the current character is ch; it is consumed. */
    method AssertNext(ch: char)
      requires Valid()
      requires Peek() == ch
      modifies this
      ensures Valid()
      ensures pos == if old(pos) < |json| then old(pos) + 1 else old(pos)
    {
      var _ := Next();
    }
  }
}
