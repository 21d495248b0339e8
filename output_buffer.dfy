/**
 * The terminal output ring of the pico_os web terminal: a 16384-character
 * circular buffer with a write and a read position. Writing past a full
 * ring drops the oldest character and sets the overflow flag, so the ring
 * holds at most 16383 unread characters; the web page drains it with
 * output_read_all.
 */
module TerminalOutput {
  import opened CText

  const OUTPUT_BUFFER_SIZE: int := 16384
  /** Capacity of output_printf's temporary buffer, NUL included. */
  const PRINTF_BUFFER_SIZE: int := 512

  /** The last n elements of s (all of s when it is shorter). */
  function LastN(s: seq<char>, n: nat): (r: seq<char>)
    ensures |r| == Min(|s|, n)
    ensures r == s[|s| - |r|..]
  {
    if |s| <= n then s else s[|s| - n..]
  }

  /** The p characters of a ring snapshot that follow position r. */
  function RingView(buf: seq<char>, r: int, p: nat): (v: seq<char>)
    requires |buf| == OUTPUT_BUFFER_SIZE && 0 <= r < OUTPUT_BUFFER_SIZE && p <= OUTPUT_BUFFER_SIZE
    ensures |v| == p
  {
    seq(p, k requires 0 <= k < p => buf[(r + k) % OUTPUT_BUFFER_SIZE])
  }

  /** Storing at the slot just past the unread run appends to the run. */
  lemma RingPush(buf: seq<char>, r: int, p: nat, c: char)
    requires |buf| == OUTPUT_BUFFER_SIZE && 0 <= r < OUTPUT_BUFFER_SIZE && p < OUTPUT_BUFFER_SIZE
    ensures RingView(buf[(r + p) % OUTPUT_BUFFER_SIZE := c], r, p + 1) == RingView(buf, r, p) + [c]
  {
    var w := (r + p) % OUTPUT_BUFFER_SIZE;
    var a := RingView(buf[w := c], r, p + 1);
    var b := RingView(buf, r, p) + [c];
    forall k | 0 <= k < p
      ensures a[k] == b[k]
    {
      assert (r + k) % OUTPUT_BUFFER_SIZE != w;
    }
    assert a == b;
  }

  /** Advancing the read position drops the oldest unread character. */
  lemma RingDrop(buf: seq<char>, r: int, p: nat)
    requires |buf| == OUTPUT_BUFFER_SIZE && 0 <= r < OUTPUT_BUFFER_SIZE && 0 < p <= OUTPUT_BUFFER_SIZE
    ensures RingView(buf, (r + 1) % OUTPUT_BUFFER_SIZE, p - 1) == RingView(buf, r, p)[1..]
  {
    var a := RingView(buf, (r + 1) % OUTPUT_BUFFER_SIZE, p - 1);
    var b := RingView(buf, r, p)[1..];
    forall k | 0 <= k < p - 1
      ensures a[k] == b[k]
    {
      assert ((r + 1) % OUTPUT_BUFFER_SIZE + k) % OUTPUT_BUFFER_SIZE == (r + (k + 1)) % OUTPUT_BUFFER_SIZE;
    }
    assert a == b;
  }

  /** The unread count of a ring with write position w and read position r. */
  function Unread(w: int, r: int): (p: nat)
    requires 0 <= w < OUTPUT_BUFFER_SIZE && 0 <= r < OUTPUT_BUFFER_SIZE
    ensures p < OUTPUT_BUFFER_SIZE
    ensures w == (r + p) % OUTPUT_BUFFER_SIZE
  {
    if r <= w then w - r else w - r + OUTPUT_BUFFER_SIZE
  }

  /** Position arithmetic of a write: the run grows by one, or the ring comes round to the read position. */
  lemma PushArith(r: int, p: nat)
    requires 0 <= r < OUTPUT_BUFFER_SIZE && p < OUTPUT_BUFFER_SIZE
    ensures var w := ((r + p) % OUTPUT_BUFFER_SIZE + 1) % OUTPUT_BUFFER_SIZE;
      0 <= w < OUTPUT_BUFFER_SIZE
      && (w == r <==> p == OUTPUT_BUFFER_SIZE - 1)
      && (w != r ==> Unread(w, r) == p + 1)
      && (w == r ==> Unread(w, (r + 1) % OUTPUT_BUFFER_SIZE) == p)
  {
    if r + p + 1 < OUTPUT_BUFFER_SIZE {
      assert (r + p) % OUTPUT_BUFFER_SIZE == r + p;
    } else if r + p < OUTPUT_BUFFER_SIZE {
      assert (r + p) % OUTPUT_BUFFER_SIZE == r + p;
    } else {
      assert (r + p) % OUTPUT_BUFFER_SIZE == r + p - OUTPUT_BUFFER_SIZE;
    }
  }

  /**
   * The effect of one write on the unread run: c is appended, and when the
   * write position comes round to the read position the read position
   * moves on, dropping the oldest character.
   */
  lemma PushEffect(snap: seq<char>, r: int, w: int, c: char)
    requires |snap| == OUTPUT_BUFFER_SIZE && 0 <= r < OUTPUT_BUFFER_SIZE && 0 <= w < OUTPUT_BUFFER_SIZE
    ensures var w1 := (w + 1) % OUTPUT_BUFFER_SIZE;
      var r1 := (r + 1) % OUTPUT_BUFFER_SIZE;
      var grown := LastN(RingView(snap, r, Unread(w, r)) + [c], OUTPUT_BUFFER_SIZE - 1);
      (w1 == r <==> Unread(w, r) == OUTPUT_BUFFER_SIZE - 1)
      && (w1 == r ==> RingView(snap[w := c], r1, Unread(w1, r1)) == grown)
      && (w1 != r ==> RingView(snap[w := c], r, Unread(w1, r)) == grown)
  {
    var p := Unread(w, r);
    PushArith(r, p);
    RingPush(snap, r, p, c);
    var after := snap[w := c];
    var grown := RingView(after, r, p + 1);
    assert grown == RingView(snap, r, p) + [c];
    if (w + 1) % OUTPUT_BUFFER_SIZE == r {
      RingDrop(after, r, p + 1);
      assert LastN(grown, OUTPUT_BUFFER_SIZE - 1) == grown[1..];
    } else {
      assert LastN(grown, OUTPUT_BUFFER_SIZE - 1) == grown;
    }
  }

  /** Position arithmetic of a read: the run shrinks by one. */
  lemma PopArith(w: int, r: int)
    requires 0 <= w < OUTPUT_BUFFER_SIZE && 0 <= r < OUTPUT_BUFFER_SIZE && w != r
    ensures Unread(w, (r + 1) % OUTPUT_BUFFER_SIZE) == Unread(w, r) - 1
  {
    if r + 1 < OUTPUT_BUFFER_SIZE {
      assert (r + 1) % OUTPUT_BUFFER_SIZE == r + 1;
    } else {
      assert (r + 1) % OUTPUT_BUFFER_SIZE == 0;
    }
  }

  /** Keeping the last n of a sequence first and then appending loses nothing further. */
  lemma LastNAppend(s: seq<char>, c: char, n: nat)
    requires n > 0
    ensures LastN(LastN(s, n) + [c], n) == LastN(s + [c], n)
  {
    if |s| >= n {
      var t := s[|s| - n..] + [c];
      assert LastN(t, n) == t[1..] == s[|s| - n + 1..] + [c];
      assert LastN(s + [c], n) == (s + [c])[|s| + 1 - n..] == s[|s| - n + 1..] + [c];
    }
  }

  /** Writing text[i] after text[..i] is writing text[..i + 1]. */
  lemma LastNStep(c0: seq<char>, text: seq<char>, i: nat, n: nat)
    requires i < |text| && n > 0
    ensures LastN(LastN(c0 + text[..i], n) + [text[i]], n) == LastN(c0 + text[..i + 1], n)
  {
    LastNAppend(c0 + text[..i], text[i], n);
    assert (c0 + text[..i]) + [text[i]] == c0 + text[..i + 1];
  }

  class OutputBuffer {
    var buffer: array<char>
    var writePos: int
    var readPos: int
    var overflow: bool

    ghost predicate Valid()
      reads this
    {
      && buffer.Length == OUTPUT_BUFFER_SIZE
      && 0 <= writePos < OUTPUT_BUFFER_SIZE
      && 0 <= readPos < OUTPUT_BUFFER_SIZE
    }

    /** Number of unread characters. */
    function Pending(): (p: nat)
      reads this
      requires Valid()
      ensures p < OUTPUT_BUFFER_SIZE
    {
      Unread(writePos, readPos)
    }

    /** The unread characters, oldest first. */
    ghost function Contents(): (s: seq<char>)
      reads this, buffer
      requires Valid()
      ensures |s| == Pending()
    {
      RingView(buffer[..], readPos, Pending())
    }

    constructor ()
      ensures Valid() && fresh(buffer)
      ensures Contents() == [] && !overflow
    {
      buffer := new char[OUTPUT_BUFFER_SIZE](_ => '\0');
      writePos, readPos, overflow := 0, 0, false;
    }

    /** output_clear: forget every unread character and the overflow flag. */
    method Clear()
      requires Valid()
      modifies this
      ensures Valid() && buffer == old(buffer) && unchanged(buffer)
      ensures Contents() == [] && !overflow
    {
      writePos, readPos, overflow := 0, 0, false;
    }

    /**
     * output_write: append the C string in `str`. The ring keeps the newest
     * 16383 unread characters, and the overflow flag records that some
     * were dropped.
     */
    method Write(str: seq<char>)
      requires Valid()
      modifies this, buffer
      ensures Valid() && buffer == old(buffer)
      ensures Contents() == LastN(old(Contents()) + CString(str), OUTPUT_BUFFER_SIZE - 1)
      ensures overflow == (old(overflow) || |old(Contents())| + |CString(str)| > OUTPUT_BUFFER_SIZE - 1)
    {
      var text := CString(str);
      ghost var c0 := Contents();
      var i := 0;
      while i < |text|
        invariant 0 <= i <= |text|
        invariant Valid() && buffer == old(buffer)
        invariant Contents() == LastN(c0 + text[..i], OUTPUT_BUFFER_SIZE - 1)
        invariant overflow == (old(overflow) || |c0| + i > OUTPUT_BUFFER_SIZE - 1)
      {
        assert Pending() == Min(|c0| + i, OUTPUT_BUFFER_SIZE - 1);
        PutChar(text[i]);
        LastNStep(c0, text, i, OUTPUT_BUFFER_SIZE - 1);
        i := i + 1;
      }
      assert text[..i] == text;
    }

    /** One step of output_write: store one character, dropping the oldest when full. */
    method PutChar(c: char)
      requires Valid()
      modifies this, buffer
      ensures Valid() && buffer == old(buffer)
      ensures Contents() == LastN(old(Contents()) + [c], OUTPUT_BUFFER_SIZE - 1)
      ensures overflow == (old(overflow) || old(Pending()) == OUTPUT_BUFFER_SIZE - 1)
    {
      ghost var snap, w0, r0 := buffer[..], writePos, readPos;
      assert Contents() == RingView(snap, r0, Unread(w0, r0));
      PushEffect(snap, r0, w0, c);
      buffer[writePos] := c;
      assert buffer[..] == snap[w0 := c];
      writePos := (writePos + 1) % OUTPUT_BUFFER_SIZE;
      if writePos == readPos {
        overflow := true;
        readPos := (readPos + 1) % OUTPUT_BUFFER_SIZE;
      }
      assert Contents() == RingView(snap[w0 := c], readPos, Unread(writePos, readPos));
    }

    /**
     * output_printf: the formatted text goes through a 512-byte buffer, so at
     * most 511 characters of it reach the ring. Formatting itself is done by
     * the caller.
     */
    method Printf(formatted: string)
      requires Valid()
      modifies this, buffer
      ensures Valid() && buffer == old(buffer)
      ensures Contents() == LastN(old(Contents()) + CString(Take(formatted, PRINTF_BUFFER_SIZE - 1)), OUTPUT_BUFFER_SIZE - 1)
      ensures overflow == (old(overflow) || |old(Contents())| + |CString(Take(formatted, PRINTF_BUFFER_SIZE - 1))| > OUTPUT_BUFFER_SIZE - 1)
    {
      Write(Take(formatted, PRINTF_BUFFER_SIZE - 1));
    }

    /**
     * output_read_all: move unread characters into dest until the ring is
     * empty or max_len - 1 have been moved, then NUL-terminate. The
     * overflow flag is not cleared.
     */
    method ReadAll(dest: array<char>, maxLen: int) returns (count: int)
      requires Valid() && dest != buffer
      requires 1 <= maxLen <= dest.Length
      modifies this, dest
      ensures Valid() && buffer == old(buffer) && unchanged(buffer)
      ensures count == Min(|old(Contents())|, maxLen - 1)
      ensures dest[..count] == old(Contents())[..count] && dest[count] == '\0'
      ensures Contents() == old(Contents())[count..]
      ensures overflow == old(overflow) && writePos == old(writePos)
    {
      ghost var c0 := Contents();
      count := 0;
      while readPos != writePos && count < maxLen - 1
        invariant Valid() && buffer == old(buffer) && unchanged(buffer)
        invariant writePos == old(writePos) && overflow == old(overflow)
        invariant 0 <= count <= maxLen - 1 && count <= |c0|
        invariant Contents() == c0[count..]
        invariant dest[..count] == c0[..count]
        decreases Pending()
      {
        var c := PopChar();
        dest[count] := c;
        assert dest[..count + 1] == dest[..count] + [c];
        assert c0[..count + 1] == c0[..count] + [c0[count]];
        count := count + 1;
      }
      dest[count] := '\0';
    }

    /** One step of output_read_all: take the oldest unread character. */
    method PopChar() returns (c: char)
      requires Valid() && Pending() > 0
      modifies this
      ensures Valid() && buffer == old(buffer) && unchanged(buffer)
      ensures writePos == old(writePos) && overflow == old(overflow)
      ensures c == old(Contents())[0] && Contents() == old(Contents())[1..]
      ensures Pending() == old(Pending()) - 1
    {
      c := buffer[readPos];
      RingDrop(buffer[..], readPos, Pending());
      PopArith(writePos, readPos);
      readPos := (readPos + 1) % OUTPUT_BUFFER_SIZE;
    }
  }

  /**
   * A message written into an empty ring that fits is read back whole, and
   * the ring is empty again afterwards.
   */
  lemma WriteThenDrain(msg: string)
    requires '\0' !in msg && |msg| <= OUTPUT_BUFFER_SIZE - 1
    ensures LastN([] + CString(msg), OUTPUT_BUFFER_SIZE - 1) == msg
  {
    CStringOfPlain(msg);
  }
}
