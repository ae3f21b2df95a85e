// The in-memory output buffer of the writers (include/neujson/string_write_stream.h).

module WriteStream {

  class StringWriteStream {
    var buffer: seq<char>

    constructor()
      ensures buffer == []
    {
      buffer := [];
    }

    /** put(c): appends exactly the one character. */
    method Put(c: char)
      modifies this
      ensures buffer == old(buffer) + [c]
    {
      buffer := buffer + [c];
    }

    /** puts(s, n): appends the first n characters of s; s must hold at least n of them. */
    method Puts(s: seq<char>, n: nat)
      requires n <= |s|
      modifies this
      ensures buffer == old(buffer) + s[..n]
    {
      buffer := buffer + s[..n];
    }

    /** put_sv(v): appends the whole view, in order. */
    method PutSv(v: seq<char>)
      modifies this
      ensures buffer == old(buffer) + v
    {
      buffer := buffer + v;
    }

    /** get(): everything appended so far. */
    function Get(): (s: seq<char>)
      reads this
      ensures |s| == |buffer| && forall i :: 0 <= i < |s| ==> s[i] == buffer[i]
    {
      buffer
    }

    /** flush(): a no-op for the in-memory buffer. */
    method Flush()
      modifies this
      ensures buffer == old(buffer)
    {
    }
  }
}
