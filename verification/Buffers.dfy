/** Writing text and bytes into a buffer through a moving pointer. */
module Buffers {
  /** buffer with s written at an index. */
  function Written<T>(buffer: seq<T>, at: nat, s: seq<T>): seq<T>
    requires at + |s| <= |buffer|
  {
    buffer[..at] + s + buffer[at + |s|..]
  }

  lemma WrittenNothing<T>(buffer: seq<T>, at: nat)
    requires at <= |buffer|
    ensures Written(buffer, at, []) == buffer
  {
  }

  lemma WriteNext<T>(buffer: seq<T>, at: nat, s: seq<T>, c: T)
    requires at + |s| < |buffer|
    ensures |Written(buffer, at, s)| == |buffer|
    ensures Written(buffer, at, s)[at + |s| := c] == Written(buffer, at, s + [c])
  {
  }

  lemma WriteMore<T>(buffer: seq<T>, at: nat, s: seq<T>, more: seq<T>)
    requires at + |s| + |more| <= |buffer|
    ensures |Written(buffer, at, s)| == |buffer|
    ensures Written(Written(buffer, at, s), at + |s|, more) == Written(buffer, at, s + more)
  {
    var w := Written(buffer, at, s);
    assert w[..at + |s|] == buffer[..at] + s && w[at + |s| + |more|..] == buffer[at + |s| + |more|..];
  }

  /** *bp++ = c. */
  method Put<T>(buffer: array<T>, ghost was: seq<T>, at: nat, ghost out: seq<T>, bp: nat, c: T) returns (bp': nat)
    requires |was| == buffer.Length && at + |out| == bp < buffer.Length && buffer[..] == Written(was, at, out)
    modifies buffer
    ensures bp' == bp + 1 && buffer[..] == Written(was, at, out + [c])
  {
    WriteNext(was, at, out, c);
    buffer[bp] := c;
    bp' := bp + 1;
    assert buffer[..] == Written(was, at, out)[bp := c];
  }

  lemma Regroup<T>(a: seq<T>, b: seq<T>, c: seq<T>)
    ensures a + b + c == a + (b + c)
  {
  }
}
