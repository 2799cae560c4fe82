/**
 The streaming MD5 interface (src/md5.c): MD5_Init, MD5_Update and MD5_Final over a context
 that keeps a 61-bit byte count split over two words and the bytes of an unfinished block.

 The specification is RFC 1321: pad the whole message (sections 3.1 and 3.2), run the
 transform over its 64-byte blocks (3.3 and 3.4) and output the registers (3.5).
 */
module Md5 {
  import opened Arithmetic
  import opened Md5Transform

  const IV := Regs(0x67452301, 0xefcdab89, 0x98badcfe, 0x10325476)

  // ---------- RFC 1321, sections 3.1 to 3.5 ----------

  lemma BytesOfWord(w: Word)
    ensures w == w % 0x100 + 0x100 * (w / 0x100 % 0x100)
                 + 0x1_0000 * (w / 0x1_0000 % 0x100) + 0x100_0000 * (w / 0x100_0000)
    ensures w / 0x100_0000 < 0x100
  {
    var q, r: int := w / 0x100, w / 0x1_0000;
    RemainderIsUnique(w, 0x1_0000, q / 0x100, 0x100 * (q % 0x100) + w % 0x100);
    RemainderIsUnique(w, 0x100_0000, r / 0x100, 0x1_0000 * (r % 0x100) + w % 0x1_0000);
  }

  function LittleEndianBytes(w: Word): (bytes: seq<Byte>)
    ensures |bytes| == 4 && LittleEndian(bytes, 0) == w
  {
    BytesOfWord(w);
    [w % 0x100, w / 0x100 % 0x100, w / 0x1_0000 % 0x100, w / 0x100_0000]
  }

  /** Four bytes are the bytes of the word that they stand for. */
  lemma BytesAreWord(bytes: seq<Byte>, w: Word)
    requires |bytes| == 4 && LittleEndian(bytes, 0) == w
    ensures LittleEndianBytes(w) == bytes
  {
    var b0, b1, b2, b3: int := bytes[0], bytes[1], bytes[2], bytes[3];
    RemainderIsUnique(w, 0x100, b1 + 0x100 * b2 + 0x1_0000 * b3, b0);
    RemainderIsUnique(w, 0x1_0000, b2 + 0x100 * b3, b0 + 0x100 * b1);
    RemainderIsUnique(w, 0x100_0000, b3, b0 + 0x100 * b1 + 0x1_0000 * b2);
    RemainderIsUnique(w / 0x100, 0x100, b2 + 0x100 * b3, b1);
    RemainderIsUnique(w / 0x1_0000, 0x100, b3, b2);
  }

  function Zeros(n: nat): (zeros: seq<Byte>)
    ensures |zeros| == n
  {
    seq(n, _ => 0)
  }

  lemma ZerosJoin(n: nat, k: nat)
    ensures Zeros(n) + Zeros(k) == Zeros(n + k)
  {}

  /** The 64-bit bit count, low-order word first; only the low 64 bits are used. */
  function LengthBytes(byteCount: nat): (bytes: seq<Byte>)
    ensures |bytes| == 8
  {
    var bits := 8 * byteCount % 0x1_0000_0000_0000_0000;
    LittleEndianBytes(bits % 0x1_0000_0000) + LittleEndianBytes(bits / 0x1_0000_0000)
  }

  /** A one bit, then the fewest zero bits that leave room for the length, then the length. */
  function Padding(byteCount: nat): (bytes: seq<Byte>)
    ensures |bytes| == 9 + (55 - byteCount) % 64
  {
    [0x80] + Zeros((55 - byteCount) % 64) + LengthBytes(byteCount)
  }

  function Output(r: Regs): (bytes: seq<Byte>)
    ensures |bytes| == 16
  {
    LittleEndianBytes(r.a) + LittleEndianBytes(r.b) + LittleEndianBytes(r.c) + LittleEndianBytes(r.d)
  }

  function Digest(message: seq<Byte>): seq<Byte> {
    PaddedIsWhole(|message|);
    Output(Fold(IV, message + Padding(|message|)))
  }

  // ---------- Properties of the specification ----------

  /** The digest is the registers a, b, c and d in this order, each low-order byte first. */
  lemma OutputIsRegisters(r: Regs)
    ensures LittleEndian(Output(r), 0) == r.a && LittleEndian(Output(r), 1) == r.b
    ensures LittleEndian(Output(r), 2) == r.c && LittleEndian(Output(r), 3) == r.d
  {
    hide LittleEndianBytes;
    WordAt(r.a, [], LittleEndianBytes(r.b) + LittleEndianBytes(r.c) + LittleEndianBytes(r.d), 0);
    WordAt(r.b, LittleEndianBytes(r.a), LittleEndianBytes(r.c) + LittleEndianBytes(r.d), 1);
    WordAt(r.c, LittleEndianBytes(r.a) + LittleEndianBytes(r.b), LittleEndianBytes(r.d), 2);
    WordAt(r.d, LittleEndianBytes(r.a) + LittleEndianBytes(r.b) + LittleEndianBytes(r.c), [], 3);
  }

  lemma WordAt(w: Word, before: seq<Byte>, after: seq<Byte>, n: nat)
    requires |before| == 4 * n
    ensures LittleEndian(before + LittleEndianBytes(w) + after, n) == w
  {
    hide LittleEndianBytes;
    var all, bytes := before + LittleEndianBytes(w) + after, LittleEndianBytes(w);
    assert forall i :: 0 <= i < 4 ==> all[4 * n + i] == bytes[i];
  }

  /** The eight bytes of the length, low-order byte first, are the number of bits modulo 2^64. */
  lemma LengthIsBitCount(byteCount: nat)
    ensures var bytes := LengthBytes(byteCount);
            LittleEndian(bytes, 0) + 0x1_0000_0000 * LittleEndian(bytes, 1)
              == 8 * byteCount % 0x1_0000_0000_0000_0000
  {
    hide LittleEndianBytes;
    var bits := 8 * byteCount % 0x1_0000_0000_0000_0000;
    LengthBytesOf(byteCount, bits);
    WordAt(bits % 0x1_0000_0000, [], LittleEndianBytes(bits / 0x1_0000_0000), 0);
    WordAt(bits / 0x1_0000_0000, LittleEndianBytes(bits % 0x1_0000_0000), [], 1);
  }

  lemma PaddedIsWhole(n: nat)
    ensures (n + 9 + (55 - n) % 64) % 64 == 0
  {
    var q := (55 - n) / 64;
    assert n + 9 + (55 - n) % 64 == 64 * (1 - q);
  }

  lemma ZeroCount(count: nat, whole: nat)
    requires whole % 64 == 0 && whole <= count < whole + 64
    ensures (55 - count) % 64 == if count - whole <= 55 then 55 - (count - whole) else 119 - (count - whole)
  {
    var q := whole / 64;
    assert 55 - count == 64 * -q + (55 - (count - whole));
  }

  lemma PaddingEnds(whole: seq<Byte>, front: seq<Byte>, message: seq<Byte>)
    requires whole + front == message + [0x80] + Zeros((55 - |message|) % 64)
    ensures whole + (front + LengthBytes(|message|)) == message + Padding(|message|)
  {
    hide LengthBytes;
    assert whole + (front + LengthBytes(|message|)) == (whole + front) + LengthBytes(|message|);
  }

  lemma UsedIsLow(lo: nat, hi: nat, count: nat, whole: nat)
    requires hi * 0x2000_0000 + lo == count % 0x2000_0000_0000_0000
    requires whole % 64 == 0 && whole <= count < whole + 64
    ensures lo % 64 == count - whole
  {
    var j := count / 0x2000_0000_0000_0000;
    assert count == j * 0x2000_0000_0000_0000 + hi * 0x2000_0000 + lo;
    RemainderIsUnique(count, 64, j * 0x80_0000_0000_0000 + hi * 0x80_0000 + lo / 64, lo % 64);
    RemainderIsUnique(count, 64, whole / 64, count - whole);
  }

  /** The carry out of the low word is detected by the sum being smaller than the addend. */
  lemma CounterAdvances(lo: nat, hi: nat, count: nat, size: nat, lo': nat, hi': nat)
    requires lo < 0x2000_0000
    requires hi * 0x2000_0000 + lo == count % 0x2000_0000_0000_0000
    requires lo' == (lo + size) % 0x2000_0000
    requires hi' == (hi + (if lo' < lo then 1 else 0) + size / 0x2000_0000) % 0x1_0000_0000
    ensures hi' * 0x2000_0000 + lo' == (count + size) % 0x2000_0000_0000_0000
  {
    var q, s := size / 0x2000_0000, size % 0x2000_0000;
    var carry := if lo' < lo then 1 else 0;
    assert lo' == lo + s - carry * 0x2000_0000 by {
      RemainderIsUnique(lo + size, 0x2000_0000, q + (if lo + s < 0x2000_0000 then 0 else 1),
                        if lo + s < 0x2000_0000 then lo + s else lo + s - 0x2000_0000);
    }
    var total := hi + carry + q;
    var k, j := total / 0x1_0000_0000, count / 0x2000_0000_0000_0000;
    RemainderIsUnique(count + size, 0x2000_0000_0000_0000, j + k, hi' * 0x2000_0000 + lo');
  }

  lemma BitsOfCount(lo: nat, hi: nat, count: nat)
    requires lo < 0x2000_0000 && hi < 0x1_0000_0000
    requires hi * 0x2000_0000 + lo == count % 0x2000_0000_0000_0000
    ensures var bits := 8 * count % 0x1_0000_0000_0000_0000;
            bits % 0x1_0000_0000 == lo * 8 % 0x1_0000_0000 && bits / 0x1_0000_0000 == hi
  {
    var j, bits := count / 0x2000_0000_0000_0000, hi * 0x1_0000_0000 + lo * 8;
    assert count == j * 0x2000_0000_0000_0000 + hi * 0x2000_0000 + lo;
    RemainderIsUnique(8 * count, 0x1_0000_0000_0000_0000, j, bits);
    RemainderIsUnique(bits, 0x1_0000_0000, hi, lo * 8);
  }

  lemma CounterIsBitLength(lo: Word, hi: Word, count: nat)
    requires lo < 0x2000_0000
    requires hi * 0x2000_0000 + lo == count % 0x2000_0000_0000_0000
    ensures LittleEndianBytes(lo * 8 % 0x1_0000_0000) + LittleEndianBytes(hi) == LengthBytes(count)
  {
    hide LittleEndianBytes, LengthBytes;
    BitsOfCount(lo, hi, count);
    LengthBytesOf(count, 8 * count % 0x1_0000_0000_0000_0000);
  }

  lemma LengthBytesOf(count: nat, bits: nat)
    requires bits == 8 * count % 0x1_0000_0000_0000_0000
    ensures 0 <= bits / 0x1_0000_0000 < 0x1_0000_0000
    ensures LengthBytes(count) == LittleEndianBytes(bits % 0x1_0000_0000) + LittleEndianBytes(bits / 0x1_0000_0000)
  {
    hide LittleEndianBytes;
  }

  lemma SliceGrows(before: seq<Byte>, data: seq<Byte>, ptr: nat)
    requires ptr + 64 <= |data|
    ensures before + data[..ptr] + data[ptr..ptr + 64] == before + data[..ptr + 64]
  {}

  // ---------- The streaming implementation ----------

  class Context {
    var lo: Word
    var hi: Word
    var a: Word
    var b: Word
    var c: Word
    var d: Word
    const buffer: array<Byte>

    /** Every byte given to Update since Init, and those of them already compressed. */
    ghost var message: seq<Byte>
    ghost var compressed: seq<Byte>

    function Registers(): Regs
      reads this
    {
      Regs(a, b, c, d)
    }

    /** The bytes in the buffer are those of the message that are not compressed yet. */
    ghost predicate Buffered()
      reads this, buffer
    {
      && buffer.Length == 64
      && |compressed| % 64 == 0
      && |compressed| <= |message| < |compressed| + 64
      && message == compressed + buffer[..|message| - |compressed|]
      && Registers() == Fold(IV, compressed)
    }

    /** lo and hi count the bytes of the message modulo 2^61. */
    ghost predicate Counted()
      reads this
    {
      lo < 0x2000_0000 && hi * 0x2000_0000 + lo == |message| % 0x2000_0000_0000_0000
    }

    ghost predicate Valid()
      reads this, buffer
    {
      Buffered() && Counted()
    }

    constructor Init()
      ensures Valid() && message == [] && fresh(buffer)
    {
      a, b, c, d := 0x67452301, 0xefcdab89, 0x98badcfe, 0x10325476;
      lo, hi := 0, 0;
      buffer := new Byte[64];
      message, compressed := [], [];
    }

    /** One pass of the loop of body. */
    method CompressBlock(block: seq<Byte>)
      requires |block| == 64 && |compressed| % 64 == 0 && Registers() == Fold(IV, compressed)
      modifies this`a, this`b, this`c, this`d, this`compressed
      ensures compressed == old(compressed) + block
      ensures |compressed| % 64 == 0 && Registers() == Fold(IV, compressed)
    {
      hide Fold, RfcTransform;
      var r := Compress(Registers(), block);
      a, b, c, d := r.a, r.b, r.c, r.d;
      FoldGrows(IV, compressed, block);
      compressed := compressed + block;
    }

    /** Compresses the 64-byte blocks of data[..size] and returns the bytes after them. */
    method Body(data: seq<Byte>, size: nat) returns (rest: seq<Byte>)
      requires 0 < size <= |data| && size % 64 == 0
      requires |compressed| % 64 == 0 && Registers() == Fold(IV, compressed)
      modifies this`a, this`b, this`c, this`d, this`compressed
      ensures rest == data[size..] && compressed == old(compressed) + data[..size]
      ensures |compressed| % 64 == 0 && Registers() == Fold(IV, compressed)
    {
      hide Fold, RfcTransform, RfcSteps, AddRegs;
      var ptr, left := 0, size;
      while true
        invariant ptr + left == size && 0 < left && left % 64 == 0
        invariant compressed == old(compressed) + data[..ptr]
        invariant |compressed| % 64 == 0 && Registers() == Fold(IV, compressed)
        decreases left
      {
        var block := data[ptr..ptr + 64];
        SliceGrows(old(compressed), data, ptr);
        CompressBlock(block);
        ptr, left := ptr + 64, left - 64;
        if left == 0 {
          break;
        }
      }
      return data[ptr..];
    }

    method Update(data: seq<Byte>)
      requires Valid()
      modifies this, buffer
      ensures Valid() && message == old(message) + data
    {
      hide Fold, RfcTransform;
      UsedIsLow(lo, hi, |message|, |compressed|);
      var savedLo := lo;
      Count(|data|);
      var rest, done := TopUp(data, savedLo % 64);
      if !done {
        Absorb(rest);
      }
    }

    /** The part of Update that advances the byte count. */
    method Count(size: nat)
      requires Counted()
      modifies this`lo, this`hi
      ensures lo < 0x2000_0000
      ensures hi * 0x2000_0000 + lo == (|message| + size) % 0x2000_0000_0000_0000
    {
      var savedLo := lo;
      lo := (savedLo + size) % 0x2000_0000;
      if lo < savedLo {
        hi := (hi + 1) % 0x1_0000_0000;
      }
      hi := (hi + size / 0x2000_0000) % 0x1_0000_0000;
      CounterAdvances(savedLo, old(hi), |message|, size, lo, hi);
    }

    /** Every byte not yet compressed is in rest, which the buffer does not hold yet. */
    ghost predicate Pending(rest: seq<Byte>)
      reads this
    {
      && |compressed| % 64 == 0
      && message == compressed + rest
      && Registers() == Fold(IV, compressed)
    }

    /** The first part of Update: top up an unfinished block, and compress it if it is full. */
    method TopUp(data: seq<Byte>, used: nat) returns (rest: seq<Byte>, done: bool)
      requires Buffered() && used == |message| - |compressed|
      modifies this`a, this`b, this`c, this`d, this`message, this`compressed, buffer
      ensures message == old(message) + data
      ensures if done then Buffered() else Pending(rest)
    {
      hide Fold, RfcTransform;
      message := message + data;
      if used == 0 {
        return data, false;
      }
      var available := 64 - used;
      if |data| < available {
        Copy(used, data);
        return data, true;
      }
      Copy(used, data[..available]);
      assert buffer[..] == buffer[..64];
      var _ := Body(buffer[..], 64);
      return data[available..], false;
    }

    /** The second part: compress whole blocks straight from the data, and keep what is left. */
    method Absorb(data: seq<Byte>)
      requires buffer.Length == 64 && Pending(data)
      modifies this`a, this`b, this`c, this`d, this`compressed, buffer
      ensures Buffered()
    {
      hide Fold, RfcTransform;
      var rest := data;
      if |data| >= 64 {
        rest := Body(data, |data| / 64 * 64);
      }
      Copy(0, rest);
    }

    /** memcpy, or memset, into the buffer. */
    method Copy(at: nat, bytes: seq<Byte>)
      requires buffer.Length == 64 && at + |bytes| <= 64
      modifies buffer
      ensures buffer[..at + |bytes|] == old(buffer[..at]) + bytes
    {
      forall i | 0 <= i < |bytes| {
        buffer[at + i] := bytes[i];
      }
    }

    /** The byte after the message; returns how much of the buffer is used. */
    method Mark() returns (used: nat)
      requires Valid()
      modifies buffer
      ensures 0 < used <= 64 && used - 1 == |message| - |compressed|
      ensures compressed + buffer[..used] == message + [0x80]
    {
      hide Fold, RfcTransform;
      UsedIsLow(lo, hi, |message|, |compressed|);
      used := lo % 64;
      Copy(used, [0x80]);
      used := used + 1;
    }

    /** Zeros up to the end of the block, which is compressed. */
    method FillBlock(used: nat)
      requires buffer.Length == 64 && used <= 64 && |compressed| % 64 == 0 && Registers() == Fold(IV, compressed)
      modifies this`a, this`b, this`c, this`d, this`compressed, buffer
      ensures |compressed| % 64 == 0 && Registers() == Fold(IV, compressed)
      ensures compressed == old(compressed + buffer[..used]) + Zeros(64 - used)
    {
      hide Fold, RfcTransform;
      Copy(used, Zeros(64 - used));
      assert buffer[..] == buffer[..64];
      var _ := Body(buffer[..], 64);
    }

    /** The first part of Final: everything of the padding except the length. */
    method PadToLength()
      requires Valid()
      modifies this`a, this`b, this`c, this`d, this`compressed, buffer
      ensures |compressed| % 64 == 0 && Registers() == Fold(IV, compressed)
      ensures compressed + buffer[..56] == message + [0x80] + Zeros((55 - |message|) % 64)
    {
      hide Fold, RfcTransform, Zeros;
      ZeroCount(|message|, |compressed|);
      var used := Mark();
      var available := 64 - used;
      if available < 8 {
        FillBlock(used);
        used, available := 0, 64;
        ZerosJoin(64 - old(|message| - |compressed|) - 1, 56);
      }
      Copy(used, Zeros(available - 8));
    }

    method Final() returns (result: seq<Byte>)
      requires Valid()
      modifies this, buffer
      ensures result == Digest(old(message))
    {
      hide Fold, RfcTransform, LittleEndian, LittleEndianBytes, LengthBytes;
      CounterIsBitLength(lo, hi, |message|);
      PadToLength();
      lo := lo * 8 % 0x1_0000_0000;
      ghost var front := buffer[..56];
      Copy(56, LittleEndianBytes(lo));
      Copy(60, LittleEndianBytes(hi));
      assert buffer[..] == buffer[..64] == front + LengthBytes(|message|);
      PaddingEnds(compressed, front, message);
      var _ := Body(buffer[..], 64);
      assert compressed == message + Padding(|message|);
      result := Output(Registers());
      lo, hi, a, b, c, d := 0, 0, 0, 0, 0, 0;
      Copy(0, Zeros(64));
    }
  }

  /** The unrolled rounds on one block. */
  method Compress(r: Regs, block: seq<Byte>) returns (r': Regs)
    requires |block| == 64
    ensures r' == RfcTransform(r, block)
  {
    hide RfcSteps;
    var x := Words(block);
    var s := Round1(r, x);
    s := Round2(s, x);
    s := Round3(s, x);
    s := Round4(s, x);
    StepsCompose(0, 16, 32, r, x);
    StepsCompose(0, 32, 48, r, x);
    StepsCompose(0, 48, 64, r, x);
    r' := AddRegs(s, r);
  }

  /** A message splits in one way into whole blocks and less than a block. */
  lemma SplitIsUnique(message: seq<Byte>, whole: seq<Byte>, rest: seq<Byte>)
    requires message == whole + rest && |whole| % 64 == 0 && |rest| < 64
    ensures |rest| == |message| % 64 && whole == message[..|message| - |message| % 64]
    ensures rest == message[|message| - |message| % 64..]
  {
    RemainderIsUnique(|message|, 64, |whole| / 64, |rest|);
  }

  lemma CounterIsUnique(lo: nat, hi: nat, lo': nat, hi': nat)
    requires lo < 0x2000_0000 && lo' < 0x2000_0000 && hi * 0x2000_0000 + lo == hi' * 0x2000_0000 + lo'
    ensures lo == lo' && hi == hi'
  {}

  /** Contexts that have seen the same bytes, however they were cut up, are in the same state. */
  lemma StateDependsOnMessageOnly(x: Context, y: Context)
    requires x.Valid() && y.Valid() && x.message == y.message
    ensures x.Registers() == y.Registers() && x.lo == y.lo && x.hi == y.hi
    ensures var used := |x.message| % 64; x.buffer[..used] == y.buffer[..used]
  {
    hide Fold;
    var n := |x.message|;
    CounterIsUnique(x.lo, x.hi, y.lo, y.hi);
    SplitIsUnique(x.message, x.compressed, x.buffer[..n - |x.compressed|]);
    SplitIsUnique(y.message, y.compressed, y.buffer[..n - |y.compressed|]);
  }

  function Concat(chunks: seq<seq<Byte>>): seq<Byte> {
    if chunks == [] then [] else Concat(chunks[..|chunks| - 1]) + chunks[|chunks| - 1]
  }

  /** Init, one Update per chunk, Final: the digest of the concatenation. */
  method DigestOfChunks(chunks: seq<seq<Byte>>) returns (result: seq<Byte>)
    ensures result == Digest(Concat(chunks))
  {
    hide Digest, Fold;
    var ctx := new Context.Init();
    for i := 0 to |chunks|
      invariant ctx.Valid() && fresh(ctx) && fresh(ctx.buffer)
      invariant ctx.message == Concat(chunks[..i])
    {
      assert chunks[..i + 1][..i] == chunks[..i];
      ctx.Update(chunks[i]);
    }
    assert chunks[..|chunks|] == chunks;
    result := ctx.Final();
  }
}
