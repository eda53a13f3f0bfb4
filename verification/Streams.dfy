/** Two bounded streams: a writer that remembers both ends, and a reader that enforces an upload limit. */
module Streams {
  import opened Basics

  type Bytes = seq<int>

  function First(all: Bytes, size: nat): Bytes {
    all[..Min(|all|, size)]
  }

  function Last(all: Bytes, size: nat): Bytes {
    all[|all| - Min(|all|, size)..]
  }

  class StreamWindow {
    const size: nat
    var head: Bytes
    var tail: Bytes
    var total: int
    /** Everything written. */
    ghost var all: Bytes

    ghost predicate Valid()
      reads this
    {
      head == First(all, size) && tail == Last(all, size) && total == |all|
    }

    constructor (size: nat)
      ensures Valid() && this.size == size && all == []
    {
      this.size := size;
      head, tail, total, all := [], [], 0, [];
    }

    /** However a stream is cut into writes, the window holds its first and its last bytes. */
    method Write(p: Bytes) returns (written: int)
      requires Valid()
      modifies this
      ensures Valid() && all == old(all) + p && written == |p|
    {
      FirstOfConcat(all, p, size);
      LastOfConcat(all, p, size);
      if |head| < size {
        var need := Min(size - |head|, |p|);
        head := head + p[..need];
      }
      if |p| >= size {
        tail := p[|p| - size..];
      } else {
        tail := tail + p;
        if |tail| > size {
          tail := tail[|tail| - size..];
        }
      }
      total := total + |p|;
      all := all + p;
      written := |p|;
    }
  }

  lemma FirstOfConcat(a: Bytes, b: Bytes, size: nat)
    ensures First(a + b, size) ==
            if |First(a, size)| < size then First(a, size) + b[..Min(size - |First(a, size)|, |b|)] else First(a, size)
  {
  }

  lemma LastOfConcat(a: Bytes, b: Bytes, size: nat)
    ensures Last(a + b, size) ==
            if |b| >= size then b[|b| - size..]
            else
              var joined := Last(a, size) + b;
              if |joined| > size then joined[|joined| - size..] else joined
  {
  }

  /** What a limit lets through: the whole stream, or its first limit bytes and then an error. */
  function Limited(src: Bytes, limit: int): (Bytes, bool)
    requires limit >= 0
  {
    if |src| <= limit then (src, true) else (src[..limit], false)
  }

  datatype Status = More | Eof | Exceeded

  class LimitingReader {
    /** How much the wrapped reader hands out at its n-th call. */
    const pieces: nat -> nat
    var calls: nat
    var src: Bytes
    var remaining: int

    constructor (src: Bytes, limit: int, pieces: nat -> nat)
      requires limit >= 0
      ensures this.src == src && remaining == limit && this.pieces == pieces
    {
      this.src, this.remaining, this.pieces, calls := src, limit, pieces, 0;
    }

    /** The wrapped reader: some bytes, at least one unless it is at its end. */
    method ReadWrapped(n: int) returns (data: Bytes)
      requires n > 0
      modifies this`src, this`calls
      ensures old(src) == data + src && |data| <= n && (data == [] <==> old(src) == [])
    {
      var k := Min(Min(n, |src|), Max(1, pieces(calls)));
      calls := calls + 1;
      data := src[..k];
      src := src[k..];
    }

    method Read(n: int) returns (data: Bytes, status: Status)
      requires remaining >= 0 && n > 0
      modifies this
      ensures remaining >= 0 && |data| <= n
      ensures status.More? ==>
                data != [] && old(src) == data + src && remaining == old(remaining) - |data|
      ensures status.Eof? ==> data == [] && old(src) == []
      ensures status.Exceeded? ==> data == [] && old(src) != [] && old(remaining) == 0
    {
      if remaining <= 0 {
        // one more byte tells a stream that just fits from one that does not
        var probe := ReadWrapped(1);
        if probe != [] {
          return [], Exceeded;
        }
        return [], Eof;
      }
      data := ReadWrapped(Min(n, remaining));
      remaining := remaining - |data|;
      status := if data == [] then Eof else More;
    }

    /** Reading to the end delivers exactly what the limit lets through. */
    method ReadAll(sizes: nat -> nat) returns (data: Bytes, complete: bool)
      requires remaining >= 0 && forall k :: sizes(k) > 0
      modifies this
      ensures (data, complete) == Limited(old(src), old(remaining))
    {
      data := [];
      var k := 0;
      ghost var whole, limit := src, remaining;
      while true
        invariant remaining >= 0 && whole == data + src && limit == |data| + remaining
        decreases |src|
      {
        var more, status := Read(sizes(k));
        if status.Eof? {
          assert data + [] == data;
          return data, true;
        }
        if status.Exceeded? {
          assert whole[..limit] == data;
          return data, false;
        }
        data := data + more;
        k := k + 1;
      }
    }
  }
}
