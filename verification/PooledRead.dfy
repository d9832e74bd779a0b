/** Reading one WebSocket message into a pooled buffer that grows when it is full. */
module PooledRead {
  datatype ReadError = NoError | EndOfMessage | Failure

  /**
   * The rest of one message; a broken connection fails before the message ends. `stalls` bounds the reads that
   * bring nothing.
   */
  class MessageReader {
    const data: string
    const broken: bool
    var pos: nat
    var stalls: nat

    ghost predicate Valid()
      reads this
    {
      pos <= |data|
    }

    constructor (data: string, broken: bool, stalls: nat)
      ensures Valid() && this.data == data && this.broken == broken && pos == 0 && this.stalls == stalls
    {
      this.data, this.broken, pos, this.stalls := data, broken, 0, stalls;
    }

    /** Fills some of `dst[from..]`; now and then it returns no bytes and no error. */
    method Read(dst: array<char>, from: nat) returns (n: nat, err: ReadError)
      requires Valid() && from < dst.Length
      modifies this, dst
      ensures Valid() && pos == old(pos) + n && from + n <= dst.Length && stalls <= old(stalls)
      ensures dst[..from + n] == old(dst[..from]) + data[old(pos)..pos]
      ensures err.NoError? && n == 0 ==> stalls < old(stalls)
      ensures err.EndOfMessage? ==> pos == |data| && !broken
      ensures err.Failure? ==> broken
    {
      var idle: bool :| idle ==> stalls > 0;
      if idle {
        stalls := stalls - 1;
        assert data[pos..pos] == [] && dst[..from] + [] == dst[..from];
        return 0, NoError;
      }
      var room := if dst.Length - from < |data| - pos then dst.Length - from else |data| - pos;
      n :| 0 <= n <= room && (n == 0 ==> room == 0 || broken);
      var i := 0;
      while i < n
        invariant i <= n && Valid() && pos == old(pos) && stalls == old(stalls) && from + n <= dst.Length
        invariant dst[..from + i] == old(dst[..from]) + data[pos..pos + i]
      {
        dst[from + i] := data[pos + i];
        i := i + 1;
        assert data[pos..pos + i] == data[pos..pos + i - 1] + [data[pos + i - 1]];
        assert dst[..from + i] == dst[..from + i - 1] + [data[pos + i - 1]];
      }
      pos := pos + n;
      if n > 0 && pos < |data| {
        err := NoError;
      } else if broken {
        err := Failure;
      } else {
        // The end may be reported with the last bytes or by a call of its own.
        var late: bool :| late ==> n > 0;
        err := if late then NoError else EndOfMessage;
      }
    }
  }

  /** A buffer of twice the capacity plus 4096 with the same content. */
  method Grow(buf: array<char>) returns (grown: array<char>)
    ensures grown.Length == buf.Length * 2 + 4096 && grown[..buf.Length] == buf[..] && fresh(grown)
  {
    grown := new char[buf.Length * 2 + 4096](_ => '\0');
    var i := 0;
    while i < buf.Length
      invariant i <= buf.Length && grown[..i] == buf[..i]
    {
      grown[i] := buf[i];
      i := i + 1;
      assert grown[..i] == grown[..i - 1] + [buf[i - 1]];
      assert buf[..i] == buf[..i - 1] + [buf[i - 1]];
    }
  }

  /**
   * Reads until the end or a failure; a message shorter than the buffer's capacity stays in the buffer it was
   * given.
   */
  method ReadAllPooled(r: MessageReader, buf: array<char>) returns (out: array<char>, len: nat, ok: bool)
    requires r.Valid()
    modifies r, buf
    ensures r.Valid() && old(r.pos) <= r.pos
    ensures len <= out.Length && out[..len] == r.data[old(r.pos)..r.pos]
    ensures ok <==> !r.broken
    ensures ok ==> r.pos == |r.data|
    ensures |r.data| - old(r.pos) < buf.Length ==> out == buf
    ensures out == buf || fresh(out)
  {
    out, len := buf, 0;
    while true
      invariant r.Valid() && old(r.pos) <= r.pos
      invariant out == buf || fresh(out)
      invariant len <= out.Length && out[..len] == r.data[old(r.pos)..r.pos]
      invariant out != buf ==> buf.Length <= len
      decreases |r.data| - r.pos, r.stalls
    {
      if len == out.Length {
        out := Grow(out);
      }
      ghost var before := r.pos;
      var n, err := r.Read(out, len);
      assert r.data[old(r.pos)..r.pos] == r.data[old(r.pos)..before] + r.data[before..r.pos];
      len := len + n;
      if !err.NoError? {
        ok := err.EndOfMessage?;
        return;
      }
    }
  }
}
