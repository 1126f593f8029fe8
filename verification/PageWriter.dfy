/** The page writer: bytes reach the file in whole pages, or when the buffer is flushed. */
module PageWriterImpl {
  import opened Arithmetic
  import opened Bytes

  const DEFAULT_BUFFER_BYTES: int := 128 * 1024

  /** a and b differ by whole pages. */
  ghost predicate Congruent(a: int, b: int, page: nat)
    requires page > 0
  {
    (a - b) % page == 0
  }

  class PageWriter {
    var sink: bytes                 // what has been written to the file, from offset `start` on
    ghost const start: nat
    const pageBytes: nat
    const bufWatermarkBytes: nat
    var pageOffset: nat
    var bufferedBytes: nat
    const buf: array<byte>

    ghost predicate Sized()
      reads this, buf
    {
      0 < pageBytes <= bufWatermarkBytes && buf.Length == bufWatermarkBytes + pageBytes && bufferedBytes <= buf.Length
    }

    /** pageOffset is the offset of the end of the file, up to whole pages. */
    ghost predicate InStep()
      reads this`sink, this`pageOffset
    {
      pageBytes > 0 && Congruent(pageOffset, start + |sink|, pageBytes)
    }

    /** Between calls: the buffer is within its watermark, or inside the page that crosses it. */
    ghost predicate Valid()
      reads this, buf
    {
      Sized() && InStep() && (bufferedBytes <= bufWatermarkBytes || PageEnd() <= buf.Length)
    }

    /** Where in the buffer the current page ends. */
    ghost function PageEnd(): int
      requires pageBytes > 0
      reads this`pageOffset, this`bufferedBytes
    {
      bufferedBytes + pageBytes - (pageOffset + bufferedBytes) % pageBytes
    }

    /** Everything that was accepted: written or still buffered. */
    ghost function Accepted(): bytes
      requires bufferedBytes <= buf.Length
      reads this, buf
    {
      sink + buf[..bufferedBytes]
    }

    /** The file ends at a page boundary. */
    ghost predicate Aligned()
      requires pageBytes > 0
      reads this
    {
      (start + |sink|) % pageBytes == 0
    }

    constructor (pageBytes: nat, pageOffset: nat)
      requires 0 < pageBytes <= DEFAULT_BUFFER_BYTES
      ensures Valid() && fresh(buf) && sink == [] && bufferedBytes == 0 && start == pageOffset &&
              this.pageBytes == pageBytes
    {
      hide Congruent;
      sink, start, this.pageBytes, this.pageOffset, bufferedBytes := [], pageOffset, pageBytes, pageOffset, 0;
      bufWatermarkBytes := DEFAULT_BUFFER_BYTES;
      buf := new byte[DEFAULT_BUFFER_BYTES + pageBytes];
      new;
      CongruentSelf(pageOffset, pageBytes);
    }

    /** copy(buf[bufferedBytes:], p), after which the bytes count as buffered. */
    method Buffer(p: bytes)
      requires Sized() && bufferedBytes + |p| <= buf.Length
      modifies this`bufferedBytes, buf
      ensures Sized() && bufferedBytes == old(bufferedBytes) + |p| && Accepted() == old(Accepted()) + p
    {
      ghost var was := buf[..bufferedBytes];
      for i := 0 to |p|
        modifies buf
        invariant buf[..bufferedBytes] == was
        invariant buf[bufferedBytes..bufferedBytes + i] == p[..i]
      {
        buf[bufferedBytes + i] := p[i];
      }
      assert buf[..bufferedBytes + |p|] == buf[..bufferedBytes] + buf[bufferedBytes..bufferedBytes + |p|];
      bufferedBytes := bufferedBytes + |p|;
    }

    method Flush()
      requires Sized() && InStep()
      modifies this
      ensures Sized() && InStep() && bufferedBytes == 0 && sink == old(Accepted()) && Accepted() == old(Accepted())
    {
      if bufferedBytes == 0 {
        return;
      }
      hide Congruent;
      OffsetStep(pageOffset, bufferedBytes, start + |sink|, pageBytes);
      sink := sink + buf[..bufferedBytes];
      pageOffset := (pageOffset + bufferedBytes) % pageBytes;
      bufferedBytes := 0;
    }

    /** Flush when the buffer ends at a page boundary. */
    method FlushAligned()
      requires Sized() && InStep() && (pageOffset + bufferedBytes) % pageBytes == 0
      modifies this
      ensures Sized() && InStep() && bufferedBytes == 0 && sink == old(Accepted()) && Aligned()
    {
      AlignedEnd(pageOffset, bufferedBytes, start + |sink|, pageBytes);
      Flush();
    }

    /** Whole pages go to the file without being copied. */
    method WritePages(p: bytes) returns (rest: bytes)
      requires Sized() && InStep() && bufferedBytes == 0 && Aligned()
      modifies this`sink
      ensures Sized() && InStep() && Aligned() && |rest| <= pageBytes && |rest| <= |p| && sink + rest == old(sink) + p
    {
      rest := p;
      if |p| > pageBytes {
        var pages := |p| / pageBytes;
        WholePages(|p|, pageBytes, start + |sink|, pageOffset - (start + |sink|));
        sink := sink + p[..pages * pageBytes];
        rest := p[pages * pageBytes..];
      }
    }

    /** Completes the page in the buffer, or takes all of p if that is too short. */
    method FillPage(p: bytes) returns (rest: bytes, partial: bool)
      requires Valid() && bufWatermarkBytes < bufferedBytes + |p|
      modifies this`bufferedBytes, buf
      ensures Sized() && sink == old(sink) && pageOffset == old(pageOffset) && |rest| <= |p| &&
              Accepted() + rest == old(Accepted()) + p
      ensures partial ==> rest == [] && PageEnd() <= buf.Length
      ensures !partial ==> (pageOffset + bufferedBytes) % pageBytes == 0
    {
      rest, partial := p, false;
      var slack := pageBytes - (pageOffset + bufferedBytes) % pageBytes;
      if slack != pageBytes {
        partial := slack > |p|;
        if partial {
          SamePage(pageOffset + bufferedBytes, |p|, pageBytes);
          slack := |p|;
        } else {
          SlackAligns(pageOffset + bufferedBytes, pageBytes);
        }
        assert p == p[..slack] + p[slack..];
        Buffer(p[..slack]);
        rest := p[slack..];
      }
    }

    /**
     Write. The bytes are accepted, the file only grows to a page boundary, and the recursion for the
     last bytes is at most one deep.
     */
    method Write(p: bytes) returns (n: nat, ghost depth: nat)
      requires Valid()
      modifies this, buf
      ensures Valid() && Accepted() == old(Accepted()) + p && n == |p|
      ensures sink == old(sink) || Aligned()
      ensures depth <= 1 && (|p| + old(bufferedBytes) <= bufWatermarkBytes ==> depth == 0)
      decreases if |p| + bufferedBytes <= bufWatermarkBytes then 0 else 1
    {
      if |p| + bufferedBytes <= bufWatermarkBytes {
        Buffer(p);
        return |p|, 0;
      }
      var tail, partial := FillPage(p);
      n := |p| - |tail|;
      if partial {
        return n, 0;
      }
      FlushAligned();
      var rest := WritePages(tail);
      n := n + (|tail| - |rest|);
      var more;
      more, depth := Write(rest);
      n, depth := n + more, depth + 1;
    }
  }

  lemma CongruentSelf(a: int, page: nat)
    requires page > 0
    ensures Congruent(a, a, page)
  {
  }

  lemma OffsetStep(pageOffset: nat, buffered: nat, end: nat, page: nat)
    requires page > 0 && Congruent(pageOffset, end, page)
    ensures Congruent((pageOffset + buffered) % page, end + buffered, page)
  {
    var q := (pageOffset + buffered) / page;
    assert (pageOffset + buffered) % page == pageOffset + buffered - q * page;
    assert ((pageOffset + buffered) % page - (end + buffered)) == (pageOffset - end) - q * page;
    ModSub(pageOffset - end, q, page);
  }

  lemma ModSub(a: int, q: int, m: nat)
    requires m > 0 && a % m == 0
    ensures (a - q * m) % m == 0
  {
    var k := a / m;
    assert a - q * m == (k - q) * m;
    MulMod(k - q, m);
  }

  lemma ModAdd(a: int, q: int, m: nat)
    requires m > 0 && a % m == 0
    ensures (a + q * m) % m == 0
  {
    Distribute(0, q, m);
    ModSub(a, -q, m);
  }

  lemma MulMod(k: int, m: nat)
    requires m > 0
    ensures k * m % m == 0
  {
    var d, r := k * m / m, k * m % m;
    assert k * m == d * m + r;
    Distribute(k, d, m);
    SmallMultiple(k - d, m);
  }

  /** Less than the slack does not change the page. */
  lemma SamePage(x: nat, n: nat, page: nat)
    requires page > 0 && n < page - x % page
    ensures (x + n) % page == x % page + n
  {
    var q, r := x / page, x % page;
    assert x + n == q * page + (r + n);
    ModOfSum(q, r + n, page);
  }

  lemma AlignedEnd(pageOffset: nat, buffered: nat, end: nat, page: nat)
    requires page > 0 && (pageOffset - end) % page == 0 && (pageOffset + buffered) % page == 0
    ensures (end + buffered) % page == 0
  {
    var q := (pageOffset - end) / page;
    assert end + buffered == (pageOffset + buffered) - q * page;
    ModSub(pageOffset + buffered, q, page);
  }

  lemma WholePages(n: nat, page: nat, end: int, gap: int)
    requires page > 0 && end % page == 0 && gap % page == 0
    ensures var k := n / page * page; k <= n && n - k < page && (end + k) % page == 0 && (gap - k) % page == 0
  {
    var q := n / page;
    assert n == q * page + n % page;
    ModAdd(end, q, page);
    ModSub(gap, q, page);
  }

  lemma SlackAligns(x: nat, page: nat)
    requires page > 0
    ensures (x + (page - x % page)) % page == 0
  {
    var q := x / page;
    assert x + (page - x % page) == (q + 1) * page;
    MulMod(q + 1, page);
  }
}
