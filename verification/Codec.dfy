/**
 * The backup stream: a header, then either the bytes as they are or a sequence of authenticated frames that
 * ends with an empty one.
 *
 * The cipher is ideal: sealing is some function that adds a tag, and opening succeeds on exactly the
 * (index, nonce, ciphertext) triples that were sealed for this stream.
 */
module Codec {
  import opened Basics

  type Byte = x: int | 0 <= x < 256

  type Bytes = seq<Byte>

  const CHUNK_SIZE := 65536
  const NONCE_SIZE := 12
  const TAG_SIZE := 16

  // ---- Frames ----

  datatype Frame = Frame(nonce: Bytes, sealed: Bytes, plain: Bytes)

  function U16(n: int): (b: Bytes)
    requires 0 <= n < 0x1_0000
    ensures |b| == 2
  {
    [n / 0x100, n % 0x100]
  }

  /** Big-endian, as on the wire. */
  function U32(n: int): (b: Bytes)
    requires 0 <= n < 0x1_0000_0000
    ensures |b| == 4
  {
    U16(n / 0x1_0000) + U16(n % 0x1_0000)
  }

  function U16Value(high: int, low: int): int {
    0x100 * high + low
  }

  function U32Value(b: Bytes): (n: int)
    requires |b| == 4
    ensures 0 <= n < 0x1_0000_0000
  {
    0x1_0000 * U16Value(b[0], b[1]) + U16Value(b[2], b[3])
  }

  lemma U32RoundTrip(n: int)
    requires 0 <= n < 0x1_0000_0000
    ensures U32Value(U32(n)) == n
  {
  }

  lemma U32ValueIsInjective(b: Bytes)
    requires |b| == 4
    ensures U32(U32Value(b)) == b
  {
    var high, low := U16Value(b[0], b[1]), U16Value(b[2], b[3]);
    assert 0 <= low < 0x1_0000 && 0 <= high < 0x1_0000;
    assert U32Value(b) / 0x1_0000 == high && U32Value(b) % 0x1_0000 == low;
    assert U16(high) == b[..2] && U16(low) == b[2..];
  }

  ghost predicate FrameOk(f: Frame) {
    |f.nonce| == NONCE_SIZE && |f.sealed| == |f.plain| + TAG_SIZE < 0x1_0000_0000
  }

  function FrameBytes(f: Frame): Bytes
    requires FrameOk(f)
  {
    f.nonce + U32(|f.sealed|) + f.sealed
  }

  ghost predicate FramesOk(frames: seq<Frame>) {
    forall i | 0 <= i < |frames| :: FrameOk(frames[i])
  }

  function Encoded(frames: seq<Frame>): Bytes
    requires FramesOk(frames)
  {
    if frames == [] then [] else FrameBytes(frames[0]) + Encoded(frames[1..])
  }

  function Plain(frames: seq<Frame>): Bytes {
    if frames == [] then [] else frames[0].plain + Plain(frames[1..])
  }

  /** A finished stream: only its last frame is empty. */
  ghost predicate Stream(frames: seq<Frame>) {
    && frames != [] && FramesOk(frames)
    && forall i | 0 <= i < |frames| :: frames[i].plain == [] <==> i == |frames| - 1
  }

  // ---- Reading ----

  datatype End = Clean | Truncated | VerifyFailed | BadMagic | EncryptedMismatch

  function Open(frames: seq<Frame>, index: nat, nonce: Bytes, sealed: Bytes): Option<Bytes> {
    if index < |frames| && frames[index].nonce == nonce && frames[index].sealed == sealed
    then Some(frames[index].plain) else None
  }

  datatype Next = Data(plain: Bytes, rest: Bytes) | Finished | Bad(end: End)

  function NextFrame(frames: seq<Frame>, index: nat, src: Bytes): (r: Next)
    ensures r.Data? ==> |r.rest| < |src|
    ensures r.Bad? ==> !r.end.Clean?
  {
    if |src| < NONCE_SIZE + 4 then Bad(Truncated)
    else
      var size := U32Value(src[NONCE_SIZE..NONCE_SIZE + 4]);
      var body := src[NONCE_SIZE + 4..];
      if size < TAG_SIZE || |body| < size then Bad(Truncated)
      else
        match Open(frames, index, src[..NONCE_SIZE], body[..size])
        case None => Bad(VerifyFailed)
        case Some(plain) =>
          if plain != [] then Data(plain, body[size..])
          else if body[size..] != [] then Bad(VerifyFailed)
          else Finished
  }

  /** Everything a reader delivers from src on, and how the stream ends. */
  function Decoded(frames: seq<Frame>, index: nat, src: Bytes): (Bytes, End)
    decreases |src|
  {
    match NextFrame(frames, index, src)
    case Bad(end) => ([], end)
    case Finished => ([], Clean)
    case Data(plain, rest) =>
      var (more, end) := Decoded(frames, index + 1, rest);
      (plain + more, end)
  }

  lemma NextFrameOf(frames: seq<Frame>, index: nat, nonce: Bytes, length: Bytes, sealed: Bytes, rest: Bytes)
    requires |nonce| == NONCE_SIZE && |length| == 4 && U32Value(length) == |sealed| >= TAG_SIZE
    ensures NextFrame(frames, index, nonce + length + sealed + rest) ==
            match Open(frames, index, nonce, sealed)
            case None => Bad(VerifyFailed)
            case Some(plain) =>
              if plain != [] then Data(plain, rest) else if rest != [] then Bad(VerifyFailed) else Finished
  {
    FrameParts(nonce, length, sealed, rest);
  }

  lemma FrameParts(nonce: Bytes, length: Bytes, sealed: Bytes, rest: Bytes)
    requires |nonce| == NONCE_SIZE && |length| == 4
    ensures var src := nonce + length + sealed + rest;
            && |src| >= NONCE_SIZE + 4
            && src[..NONCE_SIZE] == nonce
            && src[NONCE_SIZE..NONCE_SIZE + 4] == length
            && src[NONCE_SIZE + 4..] == sealed + rest
    ensures (sealed + rest)[..|sealed|] == sealed && (sealed + rest)[|sealed|..] == rest
  {
    var src := nonce + length + sealed + rest;
    assert src == nonce + (length + (sealed + rest));
    Split(nonce, length + (sealed + rest));
    Split(nonce + length, sealed + rest);
    Split(sealed, rest);
    Split(length, sealed + rest);
    assert src == (nonce + length) + (sealed + rest);
  }

  lemma Split(a: Bytes, b: Bytes)
    ensures (a + b)[..|a|] == a && (a + b)[|a|..] == b
  {
  }

  lemma FrameIsRead(frames: seq<Frame>, index: nat, rest: Bytes)
    requires FramesOk(frames) && index < |frames|
    ensures NextFrame(frames, index, FrameBytes(frames[index]) + rest) ==
            if frames[index].plain != [] then Data(frames[index].plain, rest)
            else if rest != [] then Bad(VerifyFailed) else Finished
  {
    var f := frames[index];
    U32RoundTrip(|f.sealed|);
    NextFrameOf(frames, index, f.nonce, U32(|f.sealed|), f.sealed, rest);
  }

  /** What opens as frame index is frame index, byte for byte. */
  lemma OnlyTheFrameOpens(frames: seq<Frame>, index: nat, src: Bytes)
    requires FramesOk(frames) && NextFrame(frames, index, src) != Bad(Truncated)
    requires NextFrame(frames, index, src) != Bad(VerifyFailed)
    ensures index < |frames|
    ensures var rest := if NextFrame(frames, index, src).Data? then NextFrame(frames, index, src).rest else [];
            src == FrameBytes(frames[index]) + rest
  {
    var size := U32Value(src[NONCE_SIZE..NONCE_SIZE + 4]);
    var body := src[NONCE_SIZE + 4..];
    U32ValueIsInjective(src[NONCE_SIZE..NONCE_SIZE + 4]);
    assert frames[index].sealed == body[..size];
    assert src == src[..NONCE_SIZE] + src[NONCE_SIZE..NONCE_SIZE + 4] + body[..size] + body[size..];
  }

  lemma PrefixOfAppend(a: Bytes, b: Bytes, c: Bytes)
    requires b <= c
    ensures a + b <= a + c
  {
  }

  /**
   * Main theorem: from frame index on, whatever the bytes are, the reader ends cleanly exactly on the encoding
   * of the remaining frames, and what it delivers before any error is a prefix of the plaintext. So a stream
   * that was cut short, extended, or had frames dropped, repeated or reordered never ends cleanly.
   */
  lemma {:induction false} CleanExactlyOnTheEncoding(frames: seq<Frame>, index: nat, src: Bytes)
    requires Stream(frames) && index < |frames|
    ensures Decoded(frames, index, src).1.Clean? <==> src == Encoded(frames[index..])
    ensures Decoded(frames, index, src).0 <= Plain(frames[index..])
    ensures Decoded(frames, index, src).1.Clean? ==> Decoded(frames, index, src).0 == Plain(frames[index..])
    decreases |frames| - index
  {
    var f := frames[index];
    var left := frames[index..];
    var after := frames[index + 1..];
    assert left[0] == f && left[1..] == after;
    assert Encoded(left) == FrameBytes(f) + Encoded(after);
    assert Plain(left) == f.plain + Plain(after);
    FrameIsRead(frames, index, Encoded(after));
    assert f.plain == [] ==> after == [];
    var next := NextFrame(frames, index, src);
    match next
    case Bad(_) =>
    case Finished =>
      OnlyTheFrameOpens(frames, index, src);
      FrameIsRead(frames, index, []);
      assert after == [];
    case Data(plain, rest) =>
      OnlyTheFrameOpens(frames, index, src);
      FrameIsRead(frames, index, rest);
      assert index + 1 < |frames|;
      CleanExactlyOnTheEncoding(frames, index + 1, rest);
      PrefixOfAppend(plain, Decoded(frames, index + 1, rest).0, Plain(after));
      if src == Encoded(left) {
        SameTail(FrameBytes(f), rest, Encoded(after));
      }
  }

  lemma SameTail(a: Bytes, b: Bytes, c: Bytes)
    requires a + b == a + c
    ensures b == c
  {
    assert (a + b)[|a|..] == b;
    assert (a + c)[|a|..] == c;
  }

  // ---- Writing ----

  /** The plaintext in blocks of CHUNK_SIZE, the last one possibly shorter; nothing for nothing. */
  function Chunks(plain: Bytes): seq<Bytes> {
    if plain == [] then []
    else if |plain| <= CHUNK_SIZE then [plain]
    else [plain[..CHUNK_SIZE]] + Chunks(plain[CHUNK_SIZE..])
  }

  /** The cipher and the random nonces of one stream. */
  datatype Sealer = Sealer(seal: (nat, Bytes, Bytes) -> Bytes, nonces: nat -> Bytes)

  ghost predicate SealerOk(s: Sealer) {
    && (forall i :: |s.nonces(i)| == NONCE_SIZE)
    && (forall i, nonce, plain :: |s.seal(i, nonce, plain)| == |plain| + TAG_SIZE)
  }

  function SealFrame(s: Sealer, index: nat, plain: Bytes): Frame {
    Frame(s.nonces(index), s.seal(index, s.nonces(index), plain), plain)
  }

  function SealAll(s: Sealer, first: nat, chunks: seq<Bytes>): seq<Frame>
    decreases |chunks|
  {
    if chunks == [] then [] else [SealFrame(s, first, chunks[0])] + SealAll(s, first + 1, chunks[1..])
  }

  /** The frames of a whole plaintext: its chunks, then the empty one. */
  function Frames(s: Sealer, plain: Bytes): seq<Frame> {
    SealAll(s, 0, Chunks(plain) + [[]])
  }

  lemma {:induction false} SealAllAt(s: Sealer, first: nat, chunks: seq<Bytes>)
    ensures |SealAll(s, first, chunks)| == |chunks|
    ensures forall i | 0 <= i < |chunks| :: SealAll(s, first, chunks)[i] == SealFrame(s, first + i, chunks[i])
    decreases |chunks|
  {
    if chunks != [] {
      SealAllAt(s, first + 1, chunks[1..]);
    }
  }

  lemma {:induction false} SealAllAppend(s: Sealer, first: nat, chunks: seq<Bytes>, last: Bytes)
    ensures SealAll(s, first, chunks + [last]) == SealAll(s, first, chunks) + [SealFrame(s, first + |chunks|, last)]
  {
    SealAllAt(s, first, chunks);
    SealAllAt(s, first, chunks + [last]);
  }

  lemma {:induction false} ChunksAre(plain: Bytes)
    ensures Joined(Chunks(plain)) == plain
    ensures forall i | 0 <= i < |Chunks(plain)| :: 0 < |Chunks(plain)[i]| <= CHUNK_SIZE
    ensures forall i | 0 <= i < |Chunks(plain)| - 1 :: |Chunks(plain)[i]| == CHUNK_SIZE
    decreases |plain|
  {
    if |plain| > CHUNK_SIZE {
      ChunksAre(plain[CHUNK_SIZE..]);
    }
  }

  function Joined(chunks: seq<Bytes>): Bytes {
    if chunks == [] then [] else chunks[0] + Joined(chunks[1..])
  }

  lemma {:induction false} PlainOfSealed(s: Sealer, first: nat, chunks: seq<Bytes>)
    ensures Plain(SealAll(s, first, chunks)) == Joined(chunks)
    decreases |chunks|
  {
    if chunks != [] {
      PlainOfSealed(s, first + 1, chunks[1..]);
    }
  }

  lemma {:induction false} JoinedAppend(chunks: seq<Bytes>, last: Bytes)
    ensures Joined(chunks + [last]) == Joined(chunks) + last
  {
    if chunks != [] {
      assert (chunks + [last])[1..] == chunks[1..] + [last];
      JoinedAppend(chunks[1..], last);
    }
  }

  /** What the writer makes of any plaintext is a stream of exactly that plaintext. */
  lemma FramesAreAStream(s: Sealer, plain: Bytes)
    requires SealerOk(s)
    ensures Stream(Frames(s, plain)) && Plain(Frames(s, plain)) == plain
  {
    var all := Chunks(plain) + [[]];
    ChunksAre(plain);
    SealAllAt(s, 0, all);
    PlainOfSealed(s, 0, all);
    JoinedAppend(Chunks(plain), []);
  }

  lemma {:induction false} EncodedAppend(frames: seq<Frame>, last: Frame)
    requires FramesOk(frames) && FrameOk(last)
    ensures FramesOk(frames + [last])
    ensures Encoded(frames + [last]) == Encoded(frames) + FrameBytes(last)
  {
    if frames != [] {
      assert (frames + [last])[1..] == frames[1..] + [last];
      EncodedAppend(frames[1..], last);
    }
  }

  /** Full blocks followed by a rest: cutting the whole gives the blocks and then the rest. */
  lemma {:induction false} ChunksOfBlocks(blocks: seq<Bytes>, rest: Bytes)
    requires forall i | 0 <= i < |blocks| :: |blocks[i]| == CHUNK_SIZE
    requires 0 < |rest| <= CHUNK_SIZE
    ensures Chunks(Joined(blocks) + rest) == blocks + [rest]
  {
    if blocks == [] {
      assert Joined(blocks) + rest == rest;
    } else {
      var plain := Joined(blocks) + rest;
      assert plain == blocks[0] + (Joined(blocks[1..]) + rest);
      assert plain[..CHUNK_SIZE] == blocks[0] && plain[CHUNK_SIZE..] == Joined(blocks[1..]) + rest;
      ChunksOfBlocks(blocks[1..], rest);
      assert blocks + [rest] == [blocks[0]] + (blocks[1..] + [rest]);
    }
  }

  /** The frames and the plaintext when one more block has been written out behind some frames. */
  lemma OneMoreBlock(s: Sealer, before: seq<Frame>, blocks: seq<Bytes>, block: Bytes)
    requires SealerOk(s) && |block| <= CHUNK_SIZE && FramesOk(before + SealAll(s, |before|, blocks))
    ensures FramesOk(before + SealAll(s, |before|, blocks + [block]))
    ensures Encoded(before + SealAll(s, |before|, blocks + [block])) ==
            Encoded(before + SealAll(s, |before|, blocks)) + FrameBytes(SealFrame(s, |before| + |blocks|, block))
    ensures Joined(blocks + [block]) + [] == Joined(blocks) + block
  {
    var frame := SealFrame(s, |before| + |blocks|, block);
    SealAllAppend(s, |before|, blocks, block);
    OneMoreFrame(before, SealAll(s, |before|, blocks), frame, SealAll(s, |before|, blocks + [block]));
    JoinedAppend(blocks, block);
    AppendNothing(Joined(blocks + [block]));
  }

  lemma OneMoreFrame(before: seq<Frame>, sealed: seq<Frame>, frame: Frame, after: seq<Frame>)
    requires FramesOk(before + sealed) && FrameOk(frame) && after == sealed + [frame]
    ensures FramesOk(before + after) && Encoded(before + after) == Encoded(before + sealed) + FrameBytes(frame)
  {
    EncodedAppend(before + sealed, frame);
    assert before + after == before + sealed + [frame];
  }

  lemma AppendNothing(b: Bytes)
    ensures b + [] == b
  {
  }

  /** Nothing refuses a Write after Close. What it hands over comes behind the stream, once a whole buffer is full. */
  class FrameWriter {
    const sealer: Sealer
    var dst: Bytes
    var buf: Bytes
    var index: nat
    var closed: bool
    /** Everything handed to Write before Close, and after it. */
    ghost var plain: Bytes
    ghost var late: Bytes
    /** The full blocks written out so far of the current one of the two. */
    ghost var blocks: seq<Bytes>

    /** The frames before those of the blocks. */
    ghost function Before(): seq<Frame>
      reads this
    {
      if closed then Frames(sealer, plain) else []
    }

    ghost function Written(): seq<Frame>
      reads this
    {
      Before() + SealAll(sealer, |Before()|, blocks)
    }

    ghost predicate Valid()
      reads this
    {
      Consistent() && (buf == [] ==> blocks == [])
    }

    ghost predicate Consistent()
      reads this
    {
      && SealerOk(sealer)
      && Joined(blocks) + buf == (if closed then late else plain)
      && (forall i | 0 <= i < |blocks| :: |blocks[i]| == CHUNK_SIZE)
      && |buf| <= CHUNK_SIZE
      && index == |Before()| + |blocks|
      && (!closed ==> late == [])
      && FramesOk(Written()) && dst == Encoded(Written())
    }

    constructor (sealer: Sealer)
      requires SealerOk(sealer)
      ensures Valid() && !closed && plain == [] && this.sealer == sealer
    {
      this.sealer := sealer;
      dst, buf, index, closed, blocks, plain, late := [], [], 0, false, [], [], [];
    }

    /** Seals one frame and appends it to the destination. */
    method WriteChunk(chunk: Bytes)
      requires SealerOk(sealer) && |chunk| <= CHUNK_SIZE
      modifies this`dst, this`index
      ensures index == old(index) + 1
      ensures FrameOk(SealFrame(sealer, old(index), chunk))
      ensures dst == old(dst) + FrameBytes(SealFrame(sealer, old(index), chunk))
    {
      var nonce := sealer.nonces(index);
      var sealed := sealer.seal(index, nonce, chunk);
      index := index + 1;
      dst := dst + nonce;
      dst := dst + U32(|sealed|);
      dst := dst + sealed;
      assert dst == old(dst) + (nonce + U32(|sealed|) + sealed);
    }

    /** Writes out a full buffer. */
    method Flush()
      requires Valid() && |buf| == CHUNK_SIZE
      modifies this`dst, this`index, this`buf, this`blocks
      ensures Consistent() && buf == []
    {
      ghost var before := Before();
      ghost var longer := blocks + [buf];
      OneMoreBlock(sealer, before, blocks, buf);
      WriteChunk(buf);
      blocks, buf := longer, [];
      assert Before() == before && Written() == before + SealAll(sealer, |before|, longer);
    }

    /** Copies into the buffer, which must have been written out if it was full. */
    method Fill(more: Bytes)
      requires Consistent() && 0 < |more| && |buf| + |more| <= CHUNK_SIZE
      modifies this`buf, this`plain, this`late
      ensures Valid() && Handed(more, old(plain), old(late))
    {
      ghost var written := Written();
      assert Joined(blocks) + (buf + more) == Joined(blocks) + buf + more;
      buf := buf + more;
      if closed {
        late := late + more;
      } else {
        plain := plain + more;
      }
      assert Written() == written;
    }

    /** These bytes have been handed over. */
    ghost predicate Handed(p: Bytes, plainBefore: Bytes, lateBefore: Bytes)
      reads this
    {
      if closed then plain == plainBefore && late == lateBefore + p else plain == plainBefore + p && late == lateBefore
    }

    /** The buffer is written out only when it is full and more comes. */
    method Write(p: Bytes) returns (written: nat)
      requires Valid()
      modifies this`dst, this`index, this`buf, this`blocks, this`plain, this`late
      ensures Valid() && written == |p| && Handed(p, old(plain), old(late))
    {
      written := 0;
      assert p[..0] == [] && forall b: Bytes :: b + [] == b;
      while written < |p|
        invariant written <= |p| && Valid() && Handed(p[..written], old(plain), old(late))
      {
        ghost var plainBefore, lateBefore := plain, late;
        var n := Min(if |buf| == CHUNK_SIZE then CHUNK_SIZE else CHUNK_SIZE - |buf|, |p| - written);
        var more := p[written..written + n];
        Step(more);
        HandedThen(p, written, n, old(plain), old(late), plainBefore, lateBefore);
        written := written + n;
      }
      assert p[..written] == p;
    }

    /** One turn of the loop of Write. */
    method Step(more: Bytes)
      requires Valid() && 0 < |more| && |more| <= if |buf| == CHUNK_SIZE then CHUNK_SIZE else CHUNK_SIZE - |buf|
      modifies this`dst, this`index, this`buf, this`blocks, this`plain, this`late
      ensures Valid() && Handed(more, old(plain), old(late))
    {
      if |buf| == CHUNK_SIZE {
        Flush();
      }
      Fill(more);
    }

    lemma HandedThen(p: Bytes, k: nat, n: nat, plainFirst: Bytes, lateFirst: Bytes, plainBefore: Bytes, lateBefore: Bytes)
      requires k + n <= |p| && Handed(p[k..k + n], plainBefore, lateBefore)
      requires if closed then plainBefore == plainFirst && lateBefore == lateFirst + p[..k]
               else plainBefore == plainFirst + p[..k] && lateBefore == lateFirst
      ensures Handed(p[..k + n], plainFirst, lateFirst)
    {
      assert p[..k + n] == p[..k] + p[k..k + n];
      assert lateFirst + (p[..k] + p[k..k + n]) == lateFirst + p[..k] + p[k..k + n];
      assert plainFirst + (p[..k] + p[k..k + n]) == plainFirst + p[..k] + p[k..k + n];
    }

    /** The empty frame that ends the stream. */
    method WriteLast(ghost chunks: seq<Bytes>)
      requires SealerOk(sealer) && index == |chunks| && Chunks(plain) == chunks
      requires FramesOk(SealAll(sealer, 0, chunks)) && dst == Encoded(SealAll(sealer, 0, chunks))
      modifies this`dst, this`index
      ensures index == |Frames(sealer, plain)| && FramesOk(Frames(sealer, plain)) && dst == Encoded(Frames(sealer, plain))
    {
      SealAllAppend(sealer, 0, chunks, []);
      SealAllAt(sealer, 0, chunks + [[]]);
      WriteChunk([]);
      EncodedAppend(SealAll(sealer, 0, chunks), SealFrame(sealer, |chunks|, []));
    }

    /** The rest of the buffer, then the empty frame; a second Close does nothing. */
    method Close()
      requires Valid()
      modifies this`dst, this`index, this`buf, this`closed, this`blocks
      ensures Valid() && closed
      ensures old(closed) ==> dst == old(dst) && buf == old(buf) && blocks == old(blocks)
      ensures !old(closed) ==> FramesOk(Frames(sealer, plain)) && dst == Encoded(Frames(sealer, plain)) && late == [] && blocks == []
    {
      if closed {
        return;
      }
      WriteRest();
      WriteLast(Chunks(plain));
      buf, blocks, closed := [], [], true;
      assert Frames(sealer, plain) + [] == Frames(sealer, plain);
    }

    /** What is left in the buffer goes into a last frame of its own. */
    method WriteRest()
      requires Valid() && !closed
      modifies this`dst, this`index
      ensures index == |Chunks(plain)|
      ensures FramesOk(SealAll(sealer, 0, Chunks(plain))) && dst == Encoded(SealAll(sealer, 0, Chunks(plain)))
    {
      assert [] + SealAll(sealer, 0, blocks) == SealAll(sealer, 0, blocks);
      if |buf| > 0 {
        ChunksOfBlocks(blocks, buf);
        OneMoreBlock(sealer, [], blocks, buf);
        assert [] + SealAll(sealer, 0, blocks + [buf]) == SealAll(sealer, 0, blocks + [buf]);
        WriteChunk(buf);
      }
    }

    /**
     * What is at the destination reads back cleanly as what was handed over before Close, if and only if no more than
     * one buffer was handed over after it: then none of that has been written out.
     */
    lemma ReadsBackUnlessWrittenLate()
      requires Valid() && closed
      ensures Stream(Frames(sealer, plain)) && Frames(sealer, plain)[0..] == Frames(sealer, plain)
      ensures Decoded(Frames(sealer, plain), 0, dst).1.Clean? <==> |late| <= CHUNK_SIZE
      ensures |late| <= CHUNK_SIZE ==> Decoded(Frames(sealer, plain), 0, dst).0 == plain
    {
      var frames := Frames(sealer, plain);
      FramesAreAStream(sealer, plain);
      assert frames[0..] == frames;
      CleanExactlyOnTheEncoding(frames, 0, dst);
      if blocks == [] {
        assert Joined(blocks) + buf == buf && Written() == frames;
      } else {
        assert Joined(blocks) == blocks[0] + Joined(blocks[1..]);
        SealAllAt(sealer, |frames|, blocks);
        EncodedIsLonger(frames, SealAll(sealer, |frames|, blocks));
      }
    }
  }

  lemma {:induction false} EncodedIsLonger(frames: seq<Frame>, more: seq<Frame>)
    requires FramesOk(frames + more) && FramesOk(frames) && more != []
    ensures |Encoded(frames + more)| > |Encoded(frames)|
  {
    if frames == [] {
      assert frames + more == more;
      assert |FrameBytes(more[0])| > 0;
    } else {
      assert (frames + more)[1..] == frames[1..] + more;
      EncodedIsLonger(frames[1..], more);
    }
  }

  // ---- The reader ----

  datatype Status = More | Eof | Failed(end: End)

  function Prepend(first: Bytes, rest: (Bytes, End)): (Bytes, End) {
    if first == [] then rest else (first + rest.0, rest.1)
  }

  lemma PrependSplit(first: Bytes, k: nat, rest: (Bytes, End))
    requires k <= |first|
    ensures Prepend(first, rest).0 == first[..k] + Prepend(first[k..], rest).0
    ensures Prepend(first, rest).1 == Prepend(first[k..], rest).1
  {
    assert first == first[..k] + first[k..];
  }

  function After(first: Bytes, rest: (Bytes, End)): (Bytes, End) {
    (first + rest.0, rest.1)
  }

  lemma AfterIsAssociative(a: Bytes, b: Bytes, rest: (Bytes, End))
    ensures After(a, After(b, rest)) == After(a + b, rest)
    ensures forall end :: After(a, ([], end)) == (a, end)
  {
    assert a + (b + rest.0) == a + b + rest.0;
    assert a + [] == a;
  }

  class FrameReader {
    const frames: seq<Frame>
    var src: Bytes
    var pending: Bytes
    var index: nat
    var done: bool

    constructor (frames: seq<Frame>, src: Bytes)
      ensures Ahead() == Decoded(frames, 0, src)
    {
      this.frames, this.src := frames, src;
      pending, index, done := [], 0, false;
    }

    /** Everything still to be delivered, and how the stream ends. */
    ghost function Ahead(): (Bytes, End)
      reads this
    {
      Prepend(pending, if done then ([], Clean) else Decoded(frames, index, src))
    }

    ghost function Unread(): nat
      reads this
    {
      if done then 0 else |src| + 1
    }

    /** Reads one frame. Any failure is final; a frame that opens to nothing must be the end. */
    method NextChunk() returns (status: Status)
      requires pending == [] && !done
      modifies this
      ensures status.More? ==> Ahead() == old(Ahead()) && Unread() < old(Unread())
      ensures status.Failed? ==> old(Ahead()) == ([], status.end) && !status.end.Clean?
      ensures !status.Eof?
    {
      if |src| < NONCE_SIZE + 4 {
        return Failed(Truncated);
      }
      var nonce := src[..NONCE_SIZE];
      var size := U32Value(src[NONCE_SIZE..NONCE_SIZE + 4]);
      if size < TAG_SIZE {
        return Failed(Truncated);
      }
      var body := src[NONCE_SIZE + 4..];
      if |body| < size {
        return Failed(Truncated);
      }
      var sealed := body[..size];
      var plain := Open(frames, index, nonce, sealed);
      if plain.None? {
        return Failed(VerifyFailed);
      }
      if plain.value == [] {
        if body[size..] != [] {
          return Failed(VerifyFailed);
        }
        done := true;
        return More;
      }
      src := body[size..];
      index := index + 1;
      pending := plain.value;
      return More;
    }

    /** Delivers up to n bytes. */
    method Read(n: nat) returns (data: Bytes, status: Status)
      modifies this
      ensures |data| <= n
      ensures status.More? ==> old(Ahead()) == After(data, Ahead())
      ensures status.More? && n > 0 ==>
                Unread() < old(Unread()) || (Unread() == old(Unread()) && |pending| < |old(pending)|)
      ensures status.Eof? ==> data == [] && old(Ahead()) == ([], Clean)
      ensures status.Failed? ==> data == [] && old(Ahead()) == ([], status.end) && !status.end.Clean?
    {
      if pending == [] {
        if done {
          return [], Eof;
        }
        status := NextChunk();
        if status.Failed? {
          return [], status;
        }
      }
      var k := Min(n, |pending|);
      data := pending[..k];
      PrependSplit(pending, k, if done then ([], Clean) else Decoded(frames, index, src));
      pending := pending[k..];
      return data, More;
    }

    /** Reading to the end with any sequence of positive buffer sizes gives what the stream decodes to. */
    method ReadAll(sizes: nat -> nat) returns (data: Bytes, end: End)
      requires forall k :: sizes(k) > 0
      modifies this
      ensures (data, end) == old(Ahead())
    {
      data := [];
      var k := 0;
      ghost var whole := Ahead();
      assert data + whole.0 == whole.0 && whole == (whole.0, whole.1);
      while true
        invariant whole == After(data, Ahead())
        decreases Unread(), |pending|
      {
        var more, status := Read(sizes(k));
        AfterIsAssociative(data, more, Ahead());
        if status.Eof? {
          return data, Clean;
        }
        if status.Failed? {
          return data, status.end;
        }
        data := data + more;
        k := k + 1;
      }
    }
  }

  // ---- The whole stream ----

  /** FRZBC001 */
  const MAGIC: Bytes := [70, 82, 90, 66, 67, 48, 48, 49]

  function WithHeader(flags: Byte, body: Bytes): Bytes {
    MAGIC + ([flags] + body)
  }

  /** The bytes of a finished stream of frames. */
  function EncryptedStream(frames: seq<Frame>): Bytes
    requires FramesOk(frames)
  {
    WithHeader(1, Encoded(frames))
  }

  function PlainStream(plain: Bytes): Bytes {
    WithHeader(0, plain)
  }

  /** The stream says itself whether it is encrypted; only bit 0 of the flags is looked at. */
  function DecodedStream(frames: seq<Frame>, hasKey: bool, stream: Bytes): (Bytes, End) {
    if |stream| < |MAGIC| + 1 then ([], Truncated)
    else if stream[..|MAGIC|] != MAGIC then ([], BadMagic)
    else if stream[|MAGIC|] % 2 == 0 then (stream[|MAGIC| + 1..], Clean)
    else if !hasKey then ([], EncryptedMismatch)
    else Decoded(frames, 0, stream[|MAGIC| + 1..])
  }

  lemma HeaderParts(magic: Bytes, flags: Byte, body: Bytes)
    ensures var stream := magic + ([flags] + body);
            && |stream| > |magic| && stream[..|magic|] == magic
            && stream[|magic|] == flags && stream[|magic| + 1..] == body
  {
    Split(magic, [flags] + body);
    assert magic + ([flags] + body) == (magic + [flags]) + body;
    Split(magic + [flags], body);
  }

  lemma HeaderThenBody(frames: seq<Frame>, hasKey: bool, flags: Byte, body: Bytes)
    requires hasKey || flags % 2 == 0
    ensures DecodedStream(frames, hasKey, WithHeader(flags, body)) ==
            if flags % 2 == 0 then (body, Clean) else Decoded(frames, 0, body)
  {
    HeaderParts(MAGIC, flags, body);
  }

  lemma EncodedIsRead(frames: seq<Frame>)
    requires Stream(frames)
    ensures Decoded(frames, 0, Encoded(frames)) == (Plain(frames), Clean)
  {
    assert frames[0..] == frames;
    CleanExactlyOnTheEncoding(frames, 0, Encoded(frames));
  }

  /** Decoding an encrypted stream with its key gives the plaintext. */
  lemma EncryptedRoundTrip(frames: seq<Frame>)
    requires Stream(frames)
    ensures DecodedStream(frames, true, EncryptedStream(frames)) == (Plain(frames), Clean)
  {
    EncodedIsRead(frames);
    HeaderThenBody(frames, true, 1, Encoded(frames));
  }

  /** Decoding a stream that is not encrypted gives its bytes, with or without a key. */
  lemma PlainRoundTrip(frames: seq<Frame>, hasKey: bool, plain: Bytes)
    ensures DecodedStream(frames, hasKey, PlainStream(plain)) == (plain, Clean)
  {
    HeaderThenBody(frames, hasKey, 0, plain);
  }

  /**
   * Of all streams marked as encrypted only the one that was written ends cleanly, and none delivers a byte
   * that was not written at that place. Without the key nothing is delivered at all.
   */
  lemma OnlyTheStreamIsClean(frames: seq<Frame>, stream: Bytes)
    requires Stream(frames)
    requires |stream| > |MAGIC| ==> stream[|MAGIC|] % 2 == 1
    ensures DecodedStream(frames, true, stream).1.Clean? <==>
              |stream| > |MAGIC| && stream[..|MAGIC|] == MAGIC && stream[|MAGIC| + 1..] == Encoded(frames)
    ensures DecodedStream(frames, true, stream).0 <= Plain(frames)
    ensures DecodedStream(frames, true, stream).1.Clean? ==> DecodedStream(frames, true, stream).0 == Plain(frames)
    ensures DecodedStream(frames, false, stream).0 == [] && !DecodedStream(frames, false, stream).1.Clean?
  {
    if |stream| > |MAGIC| {
      assert frames[0..] == frames;
      CleanExactlyOnTheEncoding(frames, 0, stream[|MAGIC| + 1..]);
    }
  }

  // ---- Writer and reader together ----

  function Concat(pieces: seq<Bytes>): Bytes {
    if pieces == [] then [] else Concat(pieces[..|pieces| - 1]) + pieces[|pieces| - 1]
  }

  /** Written in any pieces and read with any buffers, a body comes back whole. */
  method WriteThenRead(sealer: Sealer, pieces: seq<Bytes>, sizes: nat -> nat) returns (data: Bytes, end: End)
    requires SealerOk(sealer) && forall k :: sizes(k) > 0
    ensures data == Concat(pieces) && end == Clean
  {
    var writer := new FrameWriter(sealer);
    for k := 0 to |pieces|
      invariant fresh(writer) && writer.sealer == sealer && writer.Valid() && !writer.closed && writer.plain == Concat(pieces[..k])
    {
      var _ := writer.Write(pieces[k]);
      assert pieces[..k + 1][..k] == pieces[..k];
    }
    assert pieces[..|pieces|] == pieces;
    writer.Close();
    writer.ReadsBackUnlessWrittenLate();
    var frames := Frames(sealer, Concat(pieces));
    var reader := new FrameReader(frames, writer.dst);
    data, end := reader.ReadAll(sizes);
  }
}
