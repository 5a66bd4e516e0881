/** The archive format of the dead-letter tool: records with a big-endian length in front, and what
    reading it back through a buffered reader gives. */
module DlqFrames {

  type Byte = x: int | 0 <= x < 256

  const TWO32: int := 0x1_0000_0000

  function Be32(n: int): (b: seq<Byte>)
    requires 0 <= n < TWO32
    ensures |b| == 4
  {
    [n / 256 / 256 / 256, n / 256 / 256 % 256, n / 256 % 256, n % 256]
  }

  function FromBe32(b: seq<Byte>): (n: nat)
    requires |b| == 4
    ensures n < TWO32
  {
    var b0: int, b1: int, b2: int, b3: int := b[0], b[1], b[2], b[3];
    ((b0 * 256 + b1) * 256 + b2) * 256 + b3
  }

  lemma Be32RoundTrip(n: int)
    requires 0 <= n < TWO32
    ensures FromBe32(Be32(n)) == n
  {
    var q1 := n / 256;
    var q2 := q1 / 256;
    assert q2 / 256 * 256 + q2 % 256 == q2;
    assert q2 * 256 + q1 % 256 == q1;
  }

  /** A record as archived; the length is cut to 32 bits. */
  function Frame(data: seq<Byte>): seq<Byte> {
    Be32(|data| % TWO32) + data
  }

  function Frames(rs: seq<seq<Byte>>): seq<Byte> {
    if rs == [] then [] else Frame(rs[0]) + Frames(rs[1..])
  }

  /** Archives appended to one another are the archive of all their records. */
  lemma {:induction false} FramesAppend(a: seq<seq<Byte>>, b: seq<seq<Byte>>)
    ensures Frames(a + b) == Frames(a) + Frames(b)
  {
    if a == [] {
      assert a + b == b;
    } else {
      FramesAppend(a[1..], b);
      assert (a + b)[1..] == a[1..] + b;
    }
  }

  function Total(rs: seq<seq<Byte>>): nat {
    if rs == [] then 0 else |rs[0]| + Total(rs[1..])
  }

  lemma {:induction false} FramesLength(rs: seq<seq<Byte>>)
    ensures |Frames(rs)| == 4 * |rs| + Total(rs)
  {
    if rs != [] {
      FramesLength(rs[1..]);
    }
  }

  // ------------------------------------------------------------------ the buffered reader

  const BUFFER := 4096

  /** How far the file has been read, and how many bytes beyond are in the buffer. */
  datatype Reader = Reader(pos: nat, buffered: nat)

  predicate Sane(file: seq<Byte>, r: Reader) {
    r.pos + r.buffered <= |file|
  }

  function Min(a: int, b: int): int {
    if a <= b then a else b
  }

  /** An empty buffer is filled once, with what the file still has. */
  function Filled(file: seq<Byte>, r: Reader): (f: Reader)
    requires Sane(file, r)
    ensures Sane(file, f) && f.pos == r.pos && (f.buffered == 0 <==> r.pos == |file|)
  {
    if r.buffered > 0 then r else r.(buffered := Min(BUFFER, |file| - r.pos))
  }

  /** A plain read of four bytes returns what is in the buffer, if that is less. */
  function PrefixRead(file: seq<Byte>, r: Reader): (n: nat)
    requires Sane(file, r)
    ensures n <= 4 && r.pos + n <= |file| && (n == 0 <==> r.pos == |file|)
  {
    Min(4, Filled(file, r).buffered)
  }

  function Advance(r: Reader, n: nat): Reader
    requires n <= r.buffered
  {
    Reader(r.pos + n, r.buffered - n)
  }

  /** A full read takes the buffer first. What is missing is read directly if it is at least a
      buffer's worth, and through a newly filled buffer otherwise. */
  function FullRead(file: seq<Byte>, r: Reader, length: nat): (r': Reader)
    requires Sane(file, r) && r.pos + length <= |file|
    ensures Sane(file, r') && r'.pos == r.pos + length
  {
    if length <= r.buffered then Advance(r, length)
    else
      var at, need := r.pos + r.buffered, length - r.buffered;
      if need >= BUFFER then Reader(r.pos + length, 0)
      else Advance(Filled(file, Reader(at, 0)), need)
  }

  // ------------------------------------------------------------------ reading records back

  /** One round of the restore loop: the length bytes not read keep their old value. */
  datatype Round = End | Broken | Next(data: seq<Byte>, r: Reader, lengthBuf: seq<Byte>)

  function ReadRecord(file: seq<Byte>, r: Reader, lengthBuf: seq<Byte>): (round: Round)
    requires Sane(file, r) && |lengthBuf| == 4
    ensures round.End? <==> r.pos == |file|
    ensures round.Next? ==> Sane(file, round.r) && |round.lengthBuf| == 4
    ensures round.Next? ==> round.r.pos == r.pos + PrefixRead(file, r) + |round.data|
  {
    var n := PrefixRead(file, r);
    if n == 0 then End
    else
      var buf := file[r.pos..r.pos + n] + lengthBuf[n..];
      var start, length := r.pos + n, FromBe32(buf);
      if start + length > |file| then Broken
      else Next(file[start..start + length], FullRead(file, Advance(Filled(file, r), n), length), buf)
  }

  /** The records read before the end, or before the archive turned out broken. */
  datatype Result = Result(records: seq<seq<Byte>>, ok: bool)

  function Decode(file: seq<Byte>, r: Reader, lengthBuf: seq<Byte>): Result
    requires Sane(file, r) && |lengthBuf| == 4
    decreases |file| - r.pos
  {
    match ReadRecord(file, r, lengthBuf)
    case End => Result([], true)
    case Broken => Result([], false)
    case Next(data, r', buf) =>
      var rest := Decode(file, r', buf);
      Result([data] + rest.records, rest.ok)
  }

  const START := Reader(0, 0)

  predicate ShortEnough(rs: seq<seq<Byte>>) {
    forall k :: 0 <= k < |rs| ==> |rs[k]| < TWO32
  }

  /** Every length prefix on the way is read in one piece. */
  predicate PrefixesWhole(file: seq<Byte>, r: Reader, rs: seq<seq<Byte>>)
    requires Sane(file, r)
    decreases |rs|
  {
    rs != [] ==>
    && PrefixRead(file, r) == 4
    && r.pos + 4 + |rs[0]| <= |file|
    && PrefixesWhole(file, FullRead(file, Advance(Filled(file, r), 4), |rs[0]|), rs[1..])
  }

  lemma {:induction false} WholeDecodes(file: seq<Byte>, r: Reader, lengthBuf: seq<Byte>, rs: seq<seq<Byte>>)
    requires Sane(file, r) && |lengthBuf| == 4 && file[r.pos..] == Frames(rs)
    requires ShortEnough(rs) && PrefixesWhole(file, r, rs)
    ensures Decode(file, r, lengthBuf) == Result(rs, true)
    decreases |rs|
  {
    if rs != [] {
      var data := rs[0];
      WholeRecord(file, r, lengthBuf, rs);
      FirstFrame(file, r.pos, rs);
      WholeDecodes(file, FullRead(file, Advance(Filled(file, r), 4), |data|), Be32(|data|), rs[1..]);
      assert [data] + rs[1..] == rs;
    }
  }

  lemma WholeRecord(file: seq<Byte>, r: Reader, lengthBuf: seq<Byte>, rs: seq<seq<Byte>>)
    requires Sane(file, r) && |lengthBuf| == 4 && file[r.pos..] == Frames(rs)
    requires rs != [] && |rs[0]| < TWO32 && PrefixRead(file, r) == 4
    ensures r.pos + 4 + |rs[0]| <= |file|
    ensures ReadRecord(file, r, lengthBuf)
         == Next(rs[0], FullRead(file, Advance(Filled(file, r), 4), |rs[0]|), Be32(|rs[0]|))
  {
    FirstFrame(file, r.pos, rs);
    Be32RoundTrip(|rs[0]|);
    assert file[r.pos..r.pos + 4] + lengthBuf[4..] == Be32(|rs[0]|);
  }

  lemma FirstFrame(file: seq<Byte>, pos: nat, rs: seq<seq<Byte>>)
    requires pos <= |file| && rs != [] && file[pos..] == Frames(rs)
    ensures pos + 4 + |rs[0]| <= |file|
    ensures file[pos..pos + 4] == Be32(|rs[0]| % TWO32)
    ensures file[pos + 4..pos + 4 + |rs[0]|] == rs[0]
    ensures file[pos + 4 + |rs[0]|..] == Frames(rs[1..])
  {
    var tail, n := file[pos..], |rs[0]|;
    assert tail == Frame(rs[0]) + Frames(rs[1..]);
    assert tail[..4] == Be32(n % TWO32) && tail[4..4 + n] == rs[0] && tail[4 + n..] == Frames(rs[1..]);
    TailSlice(file, pos, 0, 4);
    TailSlice(file, pos, 4, 4 + n);
    TailSlice(file, pos, 4 + n, |tail|);
  }

  lemma TailSlice(file: seq<Byte>, pos: nat, i: nat, j: nat)
    requires pos <= |file| && i <= j <= |file| - pos
    ensures file[pos..][i..j] == file[pos + i..pos + j]
  {
  }

  /** What was decoded accounts for at most four bytes more per record. */
  lemma {:induction false} DecodeConsumes(file: seq<Byte>, r: Reader, lengthBuf: seq<Byte>)
    requires Sane(file, r) && |lengthBuf| == 4 && Decode(file, r, lengthBuf).ok
    ensures var out := Decode(file, r, lengthBuf).records; |file| - r.pos <= 4 * |out| + Total(out)
    decreases |file| - r.pos
  {
    var round := ReadRecord(file, r, lengthBuf);
    if round.Next? {
      DecodeConsumes(file, round.r, round.lengthBuf);
      var rest := Decode(file, round.r, round.lengthBuf).records;
      assert ([round.data] + rest)[1..] == rest;
    }
  }

  /** If it accounts for exactly that, no prefix was cut short. */
  lemma {:induction false} DecodedWhole(file: seq<Byte>, r: Reader, lengthBuf: seq<Byte>, rs: seq<seq<Byte>>)
    requires Sane(file, r) && |lengthBuf| == 4
    requires Decode(file, r, lengthBuf) == Result(rs, true) && |file| - r.pos == 4 * |rs| + Total(rs)
    ensures ShortEnough(rs) && PrefixesWhole(file, r, rs)
    decreases |file| - r.pos
  {
    var round := ReadRecord(file, r, lengthBuf);
    if round.Next? {
      var rest := Decode(file, round.r, round.lengthBuf).records;
      assert rs[1..] == rest;
      DecodeConsumes(file, round.r, round.lengthBuf);
      assert PrefixRead(file, r) == 4;
      DecodedWhole(file, round.r, round.lengthBuf, rest);
      assert forall k :: 1 <= k < |rs| ==> rs[k] == rest[k - 1];
    }
  }

  /** Reading an archive gives back its records exactly when every length fits 32 bits and every
      length prefix lies in the buffer whole when it is read, whatever was in the length bytes. */
  lemma RestoreIff(rs: seq<seq<Byte>>, lengthBuf: seq<Byte>)
    requires |lengthBuf| == 4
    ensures Decode(Frames(rs), START, lengthBuf) == Result(rs, true)
            <==> ShortEnough(rs) && PrefixesWhole(Frames(rs), START, rs)
  {
    var file := Frames(rs);
    assert file[0..] == file;
    if Decode(file, START, lengthBuf) == Result(rs, true) {
      FramesLength(rs);
      DecodedWhole(file, START, lengthBuf, rs);
    }
    if ShortEnough(rs) && PrefixesWhole(file, START, rs) {
      WholeDecodes(file, START, lengthBuf, rs);
    }
  }

  // ------------------------------------------------------------------ records smaller than the buffer

  predicate Small(rs: seq<seq<Byte>>) {
    forall k :: 0 <= k < |rs| ==> |rs[k]| < BUFFER
  }

  /** No prefix begins in the last three bytes of a 4096-byte block; `pos` is where the first begins. */
  predicate NoStraddle(rs: seq<seq<Byte>>, pos: nat) {
    rs == [] || (pos % BUFFER <= BUFFER - 4 && NoStraddle(rs[1..], pos + 4 + |rs[0]|))
  }

  function BlockEnd(pos: nat): nat {
    pos - pos % BUFFER + BUFFER
  }

  /** The buffer reaches to the end of the block or of the file. At a block's start it may be empty. */
  predicate Aligned(file: seq<Byte>, r: Reader) {
    Sane(file, r) && (r.buffered == Min(|file|, BlockEnd(r.pos)) - r.pos || (r.buffered == 0 && r.pos % BUFFER == 0))
  }

  lemma AlignedFilled(file: seq<Byte>, r: Reader)
    requires Aligned(file, r)
    ensures Filled(file, r).buffered == Min(|file|, BlockEnd(r.pos)) - r.pos
    ensures Aligned(file, Filled(file, r))
  {
  }

  lemma AlignedAdvance(file: seq<Byte>, r: Reader, n: nat)
    requires Aligned(file, r) && n <= r.buffered
    ensures Aligned(file, Advance(r, n))
  {
  }

  lemma AlignedFullRead(file: seq<Byte>, r: Reader, length: nat)
    requires Aligned(file, r) && length < BUFFER && r.pos + length <= |file|
    ensures Aligned(file, FullRead(file, r, length))
  {
    if length <= r.buffered {
      AlignedAdvance(file, r, length);
    } else {
      var next := Reader(r.pos + r.buffered, 0);
      assert next.pos % BUFFER == 0;
      AlignedFilled(file, next);
      AlignedAdvance(file, Filled(file, next), length - r.buffered);
    }
  }

  lemma {:induction false} WholeIffNoStraddle(file: seq<Byte>, r: Reader, rs: seq<seq<Byte>>)
    requires Aligned(file, r) && Small(rs) && file[r.pos..] == Frames(rs)
    ensures PrefixesWhole(file, r, rs) <==> NoStraddle(rs, r.pos)
    decreases |rs|
  {
    if rs != [] {
      FirstFrame(file, r.pos, rs);
      AlignedFilled(file, r);
      assert PrefixRead(file, r) == 4 <==> r.pos % BUFFER <= BUFFER - 4;
      if PrefixRead(file, r) == 4 {
        AlignedAdvance(file, Filled(file, r), 4);
        AlignedFullRead(file, Advance(Filled(file, r), 4), |rs[0]|);
        WholeIffNoStraddle(file, FullRead(file, Advance(Filled(file, r), 4), |rs[0]|), rs[1..]);
      }
    }
  }

  /** For records smaller than the buffer: restored exactly when no prefix straddles a block. */
  lemma SmallRestoreIff(rs: seq<seq<Byte>>, lengthBuf: seq<Byte>)
    requires |lengthBuf| == 4 && Small(rs)
    ensures Decode(Frames(rs), START, lengthBuf) == Result(rs, true) <==> NoStraddle(rs, 0)
  {
    RestoreIff(rs, lengthBuf);
    assert Frames(rs)[0..] == Frames(rs);
    WholeIffNoStraddle(Frames(rs), START, rs);
  }

  /** Two records that do not come back: the first leaves three bytes of its block. */
  lemma StraddlingArchiveIsNotRestored(first: seq<Byte>, second: seq<Byte>, lengthBuf: seq<Byte>)
    requires |first| == 4089 && |second| < BUFFER && |lengthBuf| == 4
    ensures Decode(Frames([first, second]), START, lengthBuf) != Result([first, second], true)
  {
    SmallRestoreIff([first, second], lengthBuf);
    assert [first, second][1..] == [second];
    assert !NoStraddle([second], 4093);
  }
}
