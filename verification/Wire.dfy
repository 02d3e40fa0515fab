/**
 The socket stream and the byte-level readers: both forms of `read_line`,
 `read_data`, and the writers `send_line` and `send_data`.

 Each reader is a method on `Socket`, proved against a closed form on stream
 states (`LineRead`, `BufferedLineRead`, `DataRead`).
 */
module Wire {
  import opened Octets

  /** What a reader sees: the octets not read yet, and whether `good()` still holds. */
  datatype In = In(rest: string, good: bool)

  /** `read_line` stops at index `k`: an octet that is not positive, or the end of a CRLF pair. */
  predicate StopsAt(t: string, k: nat)
    requires k < |t|
  {
    !Positive(t[k]) || EndsCrlf(t, k)
  }

  /** The first index at or after `from` where `read_line` stops, or |t|. */
  function LineEnd(t: string, from: nat): (k: nat)
    requires from <= |t|
    ensures from <= k <= |t|
    ensures k < |t| ==> StopsAt(t, k)
    ensures forall i :: from <= i < k ==> !StopsAt(t, i)
    decreases |t| - from
  {
    if from == |t| || StopsAt(t, from) then from else LineEnd(t, from + 1)
  }

  /** The text `read_line` yields when it stops at `k`. */
  function LineAt(t: string, k: nat, inclEndl: bool): string
    requires k <= |t|
  {
    if k == |t| || !EndsCrlf(t, k) then t[..k]
    else if inclEndl then t[..k + 1]
    else t[..k - 1]
  }

  /** Result and new stream state of the string form of `read_line`. */
  function LineRead(s: In, inclEndl: bool): (string, In) {
    if !s.good then ("", s)
    else
      var k := LineEnd(s.rest, 0);
      (LineAt(s.rest, k, inclEndl), if k == |s.rest| then In("", false) else In(s.rest[k + 1..], true))
  }

  /** Result and new stream state of the fixed-buffer form, for a buffer of `size` octets. */
  function BufferedLineRead(s: In, size: int, inclEndl: bool): (string, In) {
    if size <= 1 then ("", s)
    else if s.good && size - 1 <= LineEnd(s.rest, 0) then (s.rest[..size - 1], In(s.rest[size - 1..], true))
    else LineRead(s, inclEndl)
  }

  /**
   Result and new stream state of `read_data`.  When fewer octets than asked
   for are left, they are all consumed, and only whole transfer buffers of them
   are returned.
   */
  function DataRead(s: In, size: int): (string, In) {
    if size <= 0 || !s.good then ("", s)
    else if size <= |s.rest| then (s.rest[..size], In(s.rest[size..], true))
    else (s.rest[..|s.rest| / BUFFER_SIZE * BUFFER_SIZE], In("", false))
  }

  class Socket {
    /** Octets received and not read yet. */
    var unread: string
    /** The stream's `good()`. */
    var good: bool
    /** Octets written. */
    var output: string
    /** Whether writes succeed; a failing write raises the library's exception. */
    const writable: bool
    /** What an uninitialised `unsigned int` holds, by the number of octets unread at that point. */
    const stale: nat -> Word

    constructor (received: string, writable: bool, stale: nat -> Word)
      ensures Incoming() == In(received, true) && output == ""
      ensures this.writable == writable && this.stale == stale
    {
      unread, good, output := received, true, "";
      this.writable, this.stale := writable, stale;
    }

    function Incoming(): In
      reads this`unread, this`good
    {
      In(unread, good)
    }

    /** `get`: the next octet, or -1. */
    method Get() returns (c: int)
      modifies this`unread, this`good
      ensures old(good) && old(unread) != "" ==>
        c == old(unread)[0] as int && Incoming() == In(old(unread)[1..], true)
      ensures !(old(good) && old(unread) != "") ==>
        c == -1 && Incoming() == In(old(unread), false)
    {
      if good && unread != "" {
        c := unread[0] as int;
        unread := unread[1..];
      } else {
        c := -1;
        good := false;
      }
    }

    /** `read`: a short read takes what is left and clears `good()`. */
    method Read(n: nat) returns (block: string)
      requires n > 0
      modifies this`unread, this`good
      ensures old(good) && n <= |old(unread)| ==>
        block == old(unread)[..n] && Incoming() == In(old(unread)[n..], true)
      ensures old(good) && n > |old(unread)| ==>
        block == old(unread) && Incoming() == In("", false)
      ensures !old(good) ==> block == "" && Incoming() == old(Incoming())
    {
      if !good {
        block := "";
      } else if n <= |unread| {
        block := unread[..n];
        unread := unread[n..];
      } else {
        block := unread;
        unread, good := "", false;
      }
    }

    /** `read_line`, string form. */
    method ReadLine(inclEndl: bool) returns (line: string)
      modifies this`unread, this`good
      ensures (line, Incoming()) == LineRead(old(Incoming()), inclEndl)
    {
      hide LineEnd;
      ghost var t := unread;
      line := "";
      var last := '\0';
      while true
        invariant |line| <= |t| && line == t[..|line|]
        invariant |line| == 0 ==> Incoming() == old(Incoming())
        invariant |line| > 0 ==> Incoming() == In(t[|line|..], true) && old(good)
        invariant last == if |line| == 0 then '\0' else t[|line| - 1]
        invariant forall i :: 0 <= i < |line| ==> !StopsAt(t, i)
        decreases |unread|
      {
        ghost var k := |line|;
        var c := Get();
        if old(good) {
          assert k < |t| ==> c == t[k] as int && unread == t[k + 1..];
        }
        if !(0 < c < 128) {
          if old(good) {
            LineEndIs(t, 0, k);
            assert k == |t| ==> unread == "";
          }
          break;
        }
        if last == '\r' && c as char == '\n' {
          LineEndIs(t, 0, k);
          if inclEndl {
            line := line + [c as char];
            assert line == t[..k + 1];
          } else {
            line := line[..|line| - 1];
            assert line == t[..k - 1];
          }
          break;
        }
        line := line + [c as char];
        last := c as char;
      }
    }

    /** `read_line`, fixed-buffer form: fills `buf`, ends it with NUL and returns the length. */
    method ReadLineInto(buf: array<char>, bufLength: int, inclEndl: bool) returns (n: nat)
      requires 1 <= buf.Length && bufLength <= buf.Length
      modifies this`unread, this`good, buf
      ensures n < buf.Length && buf[n] == '\0'
      ensures buf[..n] == BufferedLineRead(old(Incoming()), bufLength, inclEndl).0
      ensures Incoming() == BufferedLineRead(old(Incoming()), bufLength, inclEndl).1
      ensures forall i :: 0 <= i < n ==> buf[i] != '\0'
    {
      hide LineEnd;
      ghost var t := unread;
      n := 0;
      var last := '\0';
      while n < bufLength - 1
        invariant n == 0 || n <= bufLength - 1
        invariant n <= |t| && n < buf.Length && buf[..n] == t[..n]
        invariant if n == 0 then Incoming() == old(Incoming()) else Incoming() == In(t[n..], true) && old(good)
        invariant last == if n == 0 then '\0' else t[n - 1]
        invariant forall i :: 0 <= i < n ==> !StopsAt(t, i) && buf[i] != '\0'
        decreases |unread|
      {
        var c := Get();
        if old(good) {
          assert n < |t| ==> c == t[n] as int && unread == t[n + 1..];
        }
        if 0 < c < 128 {
          if last == '\r' && c as char == '\n' {
            LineEndIs(t, 0, n);
            if inclEndl {
              buf[n] := c as char;
              n := n + 1;
              assert buf[..n] == t[..n];
            } else {
              n := n - 1;
              assert buf[..n] == t[..n];
            }
            break;
          }
          buf[n] := c as char;
          n := n + 1;
          last := c as char;
        } else {
          if old(good) {
            LineEndIs(t, 0, n);
            assert n == |t| ==> unread == "";
          }
          break;
        }
      }
      assert t[0..] == t;
      ghost var text := buf[..n];
      buf[n] := '\0';
      assert buf[..n] == text;
    }

    /** `read_data`. */
    method ReadData(size: int) returns (data: string)
      modifies this`unread, this`good
      ensures (data, Incoming()) == DataRead(old(Incoming()), size)
    {
      ghost var t := unread;
      data := "";
      var left := size;
      while left > 0
        invariant |data| <= |t| && data == t[..|data|] && left == size - |data|
        invariant |data| == 0 ==> Incoming() == old(Incoming())
        invariant |data| > 0 ==> Incoming() == In(t[|data|..], true) && old(good)
        invariant left > 0 ==> |data| % BUFFER_SIZE == 0
        invariant if size > 0 then left >= 0 else data == ""
        decreases left
      {
        var block := Read(if left < BUFFER_SIZE then left else BUFFER_SIZE);
        if !good {
          assert old(good) ==> |t| < size && |data| == |t| / BUFFER_SIZE * BUFFER_SIZE;
          break;
        }
        data := data + block;
        left := left - |block|;
      }
    }

    /** `send_data`. */
    method SendData(data: string) returns (ok: bool)
      modifies this`output
      ensures ok == writable
      ensures output == if ok then old(output) + data else old(output)
    {
      ok := writable;
      if ok {
        output := output + data;
      }
    }

    /** `send_line`. */
    method SendLine(line: string) returns (ok: bool)
      modifies this`output
      ensures ok == writable
      ensures output == if ok then old(output) + (line + CRLF) else old(output)
    {
      ok := SendData(line);
      if ok {
        ok := SendData(CRLF);
        assert old(output) + line + CRLF == old(output) + (line + CRLF);
      }
    }
  }

  lemma {:induction false} LineEndIs(t: string, from: nat, k: nat)
    requires from <= k <= |t|
    requires k < |t| ==> StopsAt(t, k)
    requires forall i :: from <= i < k ==> !StopsAt(t, i)
    ensures LineEnd(t, from) == k
  {
  }

  lemma LineEndExact(line: string, tail: string)
    requires LineText(line)
    ensures LineEnd(line + CRLF + tail, 0) == |line| + 1
  {
    var t := line + CRLF + tail;
    forall i | 0 <= i < |line| + 1
      ensures !StopsAt(t, i)
    {
      assert i < |line| ==> t[i] == line[i] && !EndsCrlf(line, i);
    }
    LineEndIs(t, 0, |line| + 1);
  }

  /** A line ended by CRLF is read exactly, and the stream is left right behind it. */
  lemma LineReadExact(line: string, tail: string, inclEndl: bool)
    requires LineText(line)
    ensures LineRead(In(line + CRLF + tail, true), inclEndl) ==
            (if inclEndl then line + CRLF else line, In(tail, true))
  {
    var t := line + CRLF + tail;
    LineEndExact(line, tail);
    assert t[..|line| + 2] == line + CRLF && t[..|line|] == line && t[|line| + 2..] == tail;
  }

  /**
   Otherwise a line ends before an octet that is zero or above 127, which is dropped, or with the
   stream.  Nothing is read from a stream that has failed.
   */
  lemma LineReadCut(line: string, c: char, tail: string, inclEndl: bool)
    requires LineText(line)
    ensures c as int == 0 || c as int > 127 ==>
      LineRead(In(line + [c] + tail, true), inclEndl) == (line, In(tail, true))
    ensures LineRead(In(line, true), inclEndl) == (line, In("", false))
    ensures LineRead(In(tail, false), inclEndl) == ("", In(tail, false))
  {
    LineEndIs(line, 0, |line|);
    assert line[..|line|] == line;
    if c as int == 0 || c as int > 127 {
      var t := line + [c] + tail;
      forall i | 0 <= i < |line|
        ensures !StopsAt(t, i)
      {
        assert t[i] == line[i] && !EndsCrlf(line, i);
      }
      LineEndIs(t, 0, |line|);
      assert t[..|line|] == line && t[|line| + 1..] == tail;
    }
  }

  /** A line that does not fit is cut where the buffer, with its NUL, is full; a buffer of one octet takes nothing. */
  lemma BufferFull(piece: string, rest: string, size: int, inclEndl: bool)
    requires LineText(piece)
    ensures piece != "" ==>
      BufferedLineRead(In(piece + rest, true), |piece| + 1, inclEndl) == (piece, In(rest, true))
    ensures size <= 1 ==> BufferedLineRead(In(rest, true), size, inclEndl) == ("", In(rest, true))
  {
    var t := piece + rest;
    forall i | 0 <= i < |piece|
      ensures !StopsAt(t, i)
    {
      assert t[i] == piece[i] && !EndsCrlf(piece, i);
    }
    assert t[..|piece|] == piece && t[|piece|..] == rest;
  }

  /**
   When fewer octets are left than asked for, all of them are consumed, but only whole buffers of
   1024 are returned; the stream fails.  From a failed stream nothing is read, nor for a size that
   is not positive.
   */
  lemma DataReadShort(s: string, size: int, stream: In)
    ensures size > |s| ==>
      var (data, left) := DataRead(In(s, true), size);
      data <= s && |data| % 1024 == 0 && |s| < |data| + 1024 && left == In("", false)
    ensures size <= 0 || !stream.good ==> DataRead(stream, size) == ("", stream)
  {
  }

  /** Exactly `data` is read when it is asked for by its length. */
  lemma DataReadExact(data: string, tail: string)
    ensures DataRead(In(data + tail, true), |data|) == (data, In(tail, true))
  {
    assert (data + tail)[..|data|] == data && (data + tail)[|data|..] == tail;
  }

  /**
   On a line ended by CRLF both forms of `read_line` return the line and leave the stream right
   behind it, exactly when the line, its CRLF and a NUL fit the buffer.
   */
  lemma BufferedAgrees(line: string, tail: string, size: int, inclEndl: bool)
    requires LineText(line)
    ensures
      var s := In(line + CRLF + tail, true);
      var read := (if inclEndl then line + CRLF else line, In(tail, true));
      && LineRead(s, inclEndl) == read
      && (BufferedLineRead(s, size, inclEndl) == read <==> |line| + |CRLF| < size)
  {
    LineEndExact(line, tail);
    LineReadExact(line, tail, inclEndl);
    hide LineRead, LineEnd;
    var s := In(line + CRLF + tail, true);
    if 1 < size <= |line| + |CRLF| {
      assert |s.rest[size - 1..]| > |tail|;
    }
  }

  /** Readers only ever move forward, and yield no more than they consume. */
  lemma ReadersShrink(s: In, inclEndl: bool, size: int)
    ensures var (line, s') := LineRead(s, inclEndl); |line| + |s'.rest| <= |s.rest|
    ensures var (data, s') := DataRead(s, size); |data| + |s'.rest| <= |s.rest|
  {
  }

  lemma ReadersSuffix(s: In, inclEndl: bool, size: int)
    ensures SuffixOf(LineRead(s, inclEndl).1.rest, s.rest)
    ensures SuffixOf(DataRead(s, size).1.rest, s.rest)
  {
  }
}
