/** The ring buffer of praxis2/src/util.c: one slot of the array always stays free. */
module RingBuffers {
  import opened Words

  /** size_t arithmetic wraps around at 2^64. */
  const SIZE_T := 0x1_0000_0000_0000_0000

  /** The bytes between the read and the write position, going round the end of the array. */
  function Window(s: Bytes, r: nat, w: nat): (c: Bytes)
    requires r < |s| && w < |s|
    ensures |c| < |s|
  {
    if r <= w then s[r..w] else s[r..] + s[..w]
  }

  /** `(pos + 1) % bufsize` steps to the next slot. */
  function Next(pos: nat, n: nat): (p: nat)
    requires pos < n
    ensures p == if pos + 1 == n then 0 else pos + 1
  {
    (pos + 1) % n
  }

  lemma EmptyWindow(s: Bytes, r: nat, w: nat)
    requires r < |s| && w < |s|
    ensures Window(s, r, w) == [] <==> r == w
  {
  }

  lemma WindowPut(s: Bytes, r: nat, w: nat, b: byte)
    requires r < |s| && w < |s| && |Window(s, r, w)| < |s| - 1
    ensures Window(s[w := b], r, Next(w, |s|)) == Window(s, r, w) + [b]
  {
    hide Next;
    var t := s[w := b];
    if w < r {
      assert t[r..] == s[r..] && t[..w + 1] == s[..w] + [b];
    } else if w + 1 == |s| {
      assert t[r..] == s[r..w] + [b];
      assert Window(t, r, 0) == t[r..];
    } else {
      assert t[r..w + 1] == s[r..w] + [b];
    }
  }

  lemma WindowIs(s: Bytes, r: nat, w: nat)
    requires r < |s| && w < |s|
    ensures Window(s, r, w) == if r <= w then s[r..w] else s[r..] + s[..w]
  {
  }

  lemma WindowGet(s: Bytes, r: nat, w: nat)
    requires r < |s| && w < |s| && r != w
    ensures Window(s, r, w) == [s[r]] + Window(s, Next(r, |s|), w)
  {
    hide Next, Window;
    if r < w {
      WindowIs(s, r, w);
      WindowIs(s, r + 1, w);
      assert s[r..w] == [s[r]] + s[r + 1..w];
    } else if r + 1 == |s| {
      WindowIs(s, r, w);
      WindowIs(s, 0, w);
      assert s[r..] == [s[r]] && s[0..w] == s[..w];
    } else {
      WindowIs(s, r, w);
      WindowIs(s, r + 1, w);
      assert s[r..] + s[..w] == [s[r]] + (s[r + 1..] + s[..w]);
    }
  }

  class RingBuffer {
    var buffer: array<byte>
    var wpos: nat
    var rpos: nat

    ghost predicate Valid()
      reads this
    {
      0 < buffer.Length < SIZE_T && wpos < buffer.Length && rpos < buffer.Length
    }

    /** The queued bytes, oldest first. */
    ghost function Contents(): Bytes
      requires Valid()
      reads this, buffer
    {
      Window(buffer[..], rpos, wpos)
    }

    ghost function Capacity(): nat
      requires Valid()
      reads this
    {
      buffer.Length - 1
    }

    constructor (size: nat)
      requires size + 1 < SIZE_T
      ensures Valid() && fresh(buffer) && Capacity() == size && Contents() == []
    {
      buffer := new byte[size + 1];
      wpos := 0;
      rpos := 0;
    }

    function CanRead(): (n: nat)
      requires Valid()
      reads this, buffer
      ensures n == |Contents()|
    {
      if rpos <= wpos then wpos - rpos else buffer.Length - rpos + wpos
    }

    /** With `rpos == 0` the term `rpos - 1` underflows; the sum wraps back into range. */
    function CanWrite(): (n: nat)
      requires Valid()
      reads this, buffer
      ensures n == Capacity() - |Contents()|
    {
      if wpos < rpos then rpos - wpos - 1
      else (buffer.Length - wpos + (rpos - 1) % SIZE_T) % SIZE_T
    }

    /** Appends what fits and returns the space there was, not the number of bytes written. */
    method Write(src: Bytes) returns (avail: nat)
      requires Valid()
      modifies this`wpos, buffer
      ensures Valid() && Capacity() == old(Capacity())
      ensures avail == old(Capacity() - |Contents()|)
      ensures Contents() == old(Contents()) + src[..Min(avail, |src|)]
    {
      avail := CanWrite();
      var i := 0;
      while i < avail && i < |src|
        invariant Valid() && i <= Min(avail, |src|)
        invariant Contents() == old(Contents()) + src[..i]
      {
        WindowPut(buffer[..], rpos, wpos, src[i]);
        assert src[..i + 1] == src[..i] + [src[i]];
        ghost var was := buffer[..];
        buffer[wpos] := src[i];
        assert buffer[..] == was[wpos := src[i]];
        wpos := Next(wpos, buffer.Length);
        i := i + 1;
      }
    }

    /** One round of the reading loop: the oldest byte leaves. */
    method Take() returns (b: byte)
      requires Valid() && Contents() != []
      modifies this`rpos
      ensures Valid() && old(Contents()) == [b] + Contents()
    {
      EmptyWindow(buffer[..], rpos, wpos);
      WindowGet(buffer[..], rpos, wpos);
      b := buffer[rpos];
      rpos := Next(rpos, buffer.Length);
    }

    /** Moves the oldest bytes to `dst` and returns how many there were, not how many moved. */
    method Read(dst: array<byte>) returns (avail: nat)
      requires Valid() && dst != buffer
      modifies this`rpos, dst
      ensures Valid() && Capacity() == old(Capacity())
      ensures avail == |old(Contents())|
      ensures var n := Min(avail, dst.Length);
        && dst[..n] == old(Contents())[..n] && Contents() == old(Contents())[n..]
        && forall k :: n <= k < dst.Length ==> dst[k] == old(dst[k])
    {
      hide Window;
      avail := CanRead();
      ghost var all := Contents();
      var i := 0;
      while i < avail && i < dst.Length
        invariant Valid() && i <= Min(avail, dst.Length)
        invariant dst[..i] == all[..i] && Contents() == all[i..]
        invariant forall k :: i <= k < dst.Length ==> dst[k] == old(dst[k])
      {
        assert all[i..] == [all[i]] + all[i + 1..];
        dst[i] := Take();
        assert dst[..i + 1] == all[..i] + [all[i]];
        i := i + 1;
      }
    }
  }
}
