/**
 * SkipjackRandom: a random byte stream made from the Skipjack block cipher.
 *
 * The reader keeps an eight-byte output block, an index into it, a byte counter
 * and an open flag. When the index reaches eight it encrypts the input block,
 * copies the result back into the input block and starts again at index 0, so
 * the bytes it hands out are the OFB keystream of SkipjackOfb. In PRNG mode
 * (no file name) each byte is a keystream byte and the reader closes itself once
 * its counter passes the limit; in file mode each byte is a keystream byte
 * XOR-ed with the next byte of the underlying file stream.
 *
 * The first half states the reader's behaviour on an abstract state (Stream)
 * and proves what it promises; the class at the end is the reader itself, each
 * of whose methods is proved to follow that specification.
 */
module SkipjackRandomStream {
  import opened SkipjackOfb
  import opened BytePacking

  /** Java's `(byte) -1`, what `readByte` returns on a closed or exhausted stream. */
  const EndOfStream: bv8 := 0xFF

  /**
   * What stays fixed while the reader runs: the cipher under the key `setup`
   * installs, the parent's byte limit, whether a file name is set, and the bytes
   * `super.readByte()` yields from that file, by position.
   */
  datatype Setting = Setting(cipher: Cipher, maxCount: int, fileMode: bool, source: nat -> bv8)

  /**
   * The reader's state: the open flag, the byte counter, how many blocks have
   * been encrypted since construction, the index into the output block, and how
   * many bytes have been taken from the underlying file stream.
   */
  datatype Stream = Stream(open: bool, count: int, blocks: nat, ix: int, fed: nat)

  /**
   * Between calls the index lies in 1..8; it is 8 (block used up) until the
   * first block has been encrypted.
   */
  predicate Wf(s: Stream)
  {
    1 <= s.ix <= 8 && (s.blocks == 0 ==> s.ix == 8)
  }

  /** Position in the keystream of the next byte the reader will hand out. */
  function Offset(s: Stream): nat
    requires Wf(s)
  {
    s.blocks * 8 + s.ix - 8
  }

  /** The byte a successful read hands out at keystream position `k`, with file byte `f`. */
  function Delivered(t: Setting, k: nat, f: nat): bv8
  {
    if t.fileMode then Keystream(t.cipher, k) ^ t.source(f) else Keystream(t.cipher, k)
  }

  /** The `n` bytes successful reads hand out from state `s`. */
  function Expected(t: Setting, s: Stream, n: nat): (r: seq<bv8>)
    requires Wf(s)
    ensures |r| == n
  {
    seq(n, i requires 0 <= i < n => Delivered(t, Offset(s) + i, s.fed + i))
  }

  /** One `readByte`: the new state and the byte returned. */
  function ReadByteSpec(t: Setting, s: Stream): (r: (Stream, bv8))
    requires Wf(s)
    ensures Wf(r.0)
  {
    if !s.open then (s, EndOfStream)
    else if !t.fileMode && s.count > t.maxCount then (s.(open := false), EndOfStream)
    else
      var refilled := if s.ix == 8 then s.(blocks := s.blocks + 1, ix := 0) else s;
      var prng := Chain(t.cipher, refilled.blocks)[refilled.ix];
      if !t.fileMode then
        (refilled.(ix := refilled.ix + 1, count := s.count + 1), prng)
      else
        (refilled.(ix := refilled.ix + 1, fed := s.fed + 1), prng ^ t.source(s.fed))
  }

  /** `n` successive `readByte` calls: the final state and the bytes returned, in order. */
  function ReadBytes(t: Setting, s: Stream, n: nat): (r: (Stream, seq<bv8>))
    requires Wf(s)
    ensures Wf(r.0) && |r.1| == n
  {
    if n == 0 then (s, [])
    else
      var (s1, bs) := ReadBytes(t, s, n - 1);
      var (s2, b) := ReadByteSpec(t, s1);
      (s2, bs + [b])
  }

  /** Reading one more byte extends a run of reads by that byte. */
  lemma ReadBytesNext(t: Setting, s0: Stream, k: nat, s: Stream, bytes: seq<bv8>, s1: Stream, b: bv8)
    requires Wf(s0) && Wf(s) && ReadBytes(t, s0, k) == (s, bytes) && ReadByteSpec(t, s) == (s1, b)
    ensures ReadBytes(t, s0, k + 1) == (s1, bytes + [b])
  {
  }

  /** One `readInt`: the new state and the Java `int` returned. */
  function ReadIntSpec(t: Setting, s: Stream): (r: (Stream, int))
    requires Wf(s)
    ensures Wf(r.0)
  {
    if !s.open then (s, -1)
    else if !t.fileMode && s.count > t.maxCount then (s.(open := false), -1)
    else
      var (s1, bs) := ReadBytes(t, s, 4);
      BigEndianBound(bs);
      (s1, ToJavaInt(BigEndian(bs)))
  }

  /** One `readLong`: the new state and the Java `long` returned. */
  function ReadLongSpec(t: Setting, s: Stream): (r: (Stream, int))
    requires Wf(s)
    ensures Wf(r.0)
  {
    if !s.open then (s, -1)
    else if !t.fileMode && s.count > t.maxCount then (s.(open := false), -1)
    else
      var (s1, bs) := ReadBytes(t, s, 8);
      BigEndianBound(bs);
      (s1, ToJavaLong(BigEndian(bs)))
  }

  /** An in-limit `readInt` is its four byte reads, packed. */
  lemma ReadIntFromBytes(t: Setting, s: Stream, s1: Stream, bs: seq<bv8>)
    requires Wf(s) && s.open && (t.fileMode || s.count <= t.maxCount)
    requires ReadBytes(t, s, 4) == (s1, bs)
    ensures BigEndian(bs) < TwoTo32
    ensures ReadIntSpec(t, s) == (s1, ToJavaInt(BigEndian(bs)))
  {
    BigEndianBound(bs);
  }

  /** An in-limit `readLong` is its eight byte reads, packed. */
  lemma ReadLongFromBytes(t: Setting, s: Stream, s1: Stream, bs: seq<bv8>)
    requires Wf(s) && s.open && (t.fileMode || s.count <= t.maxCount)
    requires ReadBytes(t, s, 8) == (s1, bs)
    ensures BigEndian(bs) < TwoTo64
    ensures ReadLongSpec(t, s) == (s1, ToJavaLong(BigEndian(bs)))
  {
    BigEndianBound(bs);
  }

  /** A read on a closed stream returns -1 and changes nothing. */
  lemma ReadClosed(t: Setting, s: Stream)
    requires Wf(s) && !s.open
    ensures ReadByteSpec(t, s) == (s, EndOfStream)
    ensures ReadIntSpec(t, s) == (s, -1)
    ensures ReadLongSpec(t, s) == (s, -1)
  {
  }

  /** In PRNG mode, once the counter has passed the limit a read closes the stream and returns -1. */
  lemma ReadExhausted(t: Setting, s: Stream)
    requires Wf(s) && s.open && !t.fileMode && s.count > t.maxCount
    ensures ReadByteSpec(t, s) == (s.(open := false), EndOfStream)
    ensures ReadIntSpec(t, s) == (s.(open := false), -1)
    ensures ReadLongSpec(t, s) == (s.(open := false), -1)
  {
  }

  /** Splitting `8 * q + r` with `0 <= r < 8` into quotient and remainder. */
  lemma DivMod8(q: nat, r: nat)
    requires r < 8
    ensures (q * 8 + r) / 8 == q && (q * 8 + r) % 8 == r
  {
  }

  /**
   * A successful read hands out the keystream byte at the current offset (XOR-ed
   * with the next file byte in file mode), moves the offset on by one, encrypts a
   * block exactly when the index was 8, and counts the byte in PRNG mode only.
   */
  lemma ReadByteDelivers(t: Setting, s: Stream)
    requires Wf(s) && s.open && (t.fileMode || s.count <= t.maxCount)
    ensures var (s1, b) := ReadByteSpec(t, s);
      && b == Delivered(t, Offset(s), s.fed)
      && s1.open
      && Offset(s1) == Offset(s) + 1
      && s1.blocks == s.blocks + (if s.ix == 8 then 1 else 0)
      && s1.count == s.count + (if t.fileMode then 0 else 1)
      && s1.fed == s.fed + (if t.fileMode then 1 else 0)
  {
    if s.ix == 8 {
      DivMod8(s.blocks, 0);
    } else {
      DivMod8(s.blocks - 1, s.ix);
    }
  }

  /**
   * From an open stream, `n` reads that stay within the PRNG limit hand out the
   * next `n` bytes of the keystream (XOR-ed with the next `n` file bytes in file
   * mode), in order, and leave the stream open `n` positions further on.
   */
  lemma {:induction false} ReadBytesDeliver(t: Setting, s: Stream, n: nat)
    requires Wf(s) && s.open && (t.fileMode || s.count + n <= t.maxCount + 1)
    ensures var (s1, bs) := ReadBytes(t, s, n);
      && bs == Expected(t, s, n)
      && s1.open
      && Offset(s1) == Offset(s) + n
      && s1.count == s.count + (if t.fileMode then 0 else n)
      && s1.fed == s.fed + (if t.fileMode then n else 0)
  {
    if n > 0 {
      ReadBytesDeliver(t, s, n - 1);
      var (s1, bs) := ReadBytes(t, s, n - 1);
      ReadByteDelivers(t, s1);
      var (s2, b) := ReadByteSpec(t, s1);
      assert ReadBytes(t, s, n) == (s2, bs + [b]);
      ExpectedSnoc(t, s, n);
    }
  }

  /** The bytes expected from `n` reads extend those from `n - 1` reads by one. */
  lemma ExpectedSnoc(t: Setting, s: Stream, n: nat)
    requires Wf(s) && n > 0
    ensures Expected(t, s, n) == Expected(t, s, n - 1) + [Delivered(t, Offset(s) + n - 1, s.fed + n - 1)]
  {
  }

  /**
   * One encryption per eight bytes: reading `n` bytes from a stream whose block
   * is used up (as `openInputStream` leaves it) encrypts exactly `n / 8` blocks,
   * rounded up.
   */
  lemma EncryptionsPerBlock(t: Setting, s: Stream, n: nat)
    requires Wf(s) && s.open && s.ix == 8 && (t.fileMode || s.count + n <= t.maxCount + 1)
    ensures ReadBytes(t, s, n).0.blocks == s.blocks + (n + 7) / 8
  {
    ReadBytesDeliver(t, s, n);
    var s1 := ReadBytes(t, s, n).0;
    if n > 0 {
      var d := s1.blocks - s.blocks;
      assert n + 7 == d * 8 + (s1.ix - 1);
      DivMod8(d, s1.ix - 1);
    }
  }

  /**
   * Re-opening does not restart the keystream: it abandons the rest of the
   * current block, so the next byte is the first byte of the next block.
   */
  lemma ReopenSkipsToBlockBoundary(s: Stream)
    requires Wf(s)
    ensures Wf(s.(ix := 8))
    ensures Offset(s.(ix := 8)) == (Offset(s) + 7) / 8 * 8
  {
    if s.blocks > 0 {
      DivMod8(s.blocks - 1, s.ix - 1);
    }
  }

  /**
   * Within the limit, `readInt` returns the next four stream bytes packed
   * big-endian into an `int`, and the four bytes can be recovered from it.
   */
  lemma ReadIntPacks(t: Setting, s: Stream)
    requires Wf(s) && s.open && (t.fileMode || s.count + 4 <= t.maxCount + 1)
    ensures BigEndian(Expected(t, s, 4)) < TwoTo32
    ensures var (s1, v) := ReadIntSpec(t, s);
      && v == ToJavaInt(BigEndian(Expected(t, s, 4)))
      && ToBigEndian(v % TwoTo32, 4) == Expected(t, s, 4)
      && s1.open && Offset(s1) == Offset(s) + 4
  {
    ReadBytesDeliver(t, s, 4);
    IntBytesRecoverable(Expected(t, s, 4));
  }

  /**
   * Within the limit, `readLong` returns the next eight stream bytes packed
   * big-endian into a `long`, and the eight bytes can be recovered from it.
   */
  lemma ReadLongPacks(t: Setting, s: Stream)
    requires Wf(s) && s.open && (t.fileMode || s.count + 8 <= t.maxCount + 1)
    ensures BigEndian(Expected(t, s, 8)) < TwoTo64
    ensures var (s1, v) := ReadLongSpec(t, s);
      && v == ToJavaLong(BigEndian(Expected(t, s, 8)))
      && ToBigEndian(v % TwoTo64, 8) == Expected(t, s, 8)
      && s1.open && Offset(s1) == Offset(s) + 8
  {
    ReadBytesDeliver(t, s, 8);
    LongBytesRecoverable(Expected(t, s, 8));
  }

  /**
   * `readInt` checks the limit only once: started with the counter exactly at
   * the limit, its first byte is a keystream byte, the second read closes the
   * stream, and the last three bytes are -1, so the low 24 bits are all ones.
   */
  lemma ReadIntAtLimit(t: Setting, s: Stream)
    requires Wf(s) && s.open && !t.fileMode && s.count == t.maxCount
    ensures var (s1, v) := ReadIntSpec(t, s);
      && !s1.open
      && v == ToJavaInt(Keystream(t.cipher, Offset(s)) as int * 0x100_0000 + 0xFF_FFFF)
  {
    ReadByteDelivers(t, s);
    var (s1, b1) := ReadByteSpec(t, s);
    var (s2, b2) := ReadByteSpec(t, s1);
    var (s3, b3) := ReadByteSpec(t, s2);
    var (s4, b4) := ReadByteSpec(t, s3);
    var none: seq<bv8> := [];
    var bs1 := none + [b1];
    var bs2 := bs1 + [b2];
    var bs3 := bs2 + [b3];
    ReadBytesNext(t, s, 0, s, none, s1, b1);
    ReadBytesNext(t, s, 1, s1, bs1, s2, b2);
    ReadBytesNext(t, s, 2, s2, bs2, s3, b3);
    ReadBytesNext(t, s, 3, s3, bs3, s4, b4);
    assert b1 == Keystream(t.cipher, Offset(s));
    assert b2 == EndOfStream && !s2.open;
    BigEndianSnoc(none, b1);
    BigEndianSnoc(bs1, b2);
    BigEndianSnoc(bs2, b3);
    BigEndianSnoc(bs3, b4);
  }

  /** The reader. The cipher, the limit, the mode and the file bytes are fixed at construction. */
  class SkipjackRandom {
    const cipher: Cipher
    const maxCount: int
    const fileMode: bool
    const source: nat -> bv8

    /** Input to the cipher; starts as zeros, then holds the previous output block. */
    const inputAlgoBuffer: array<bv8>
    /** Output of the cipher, handed out one byte at a time. */
    const outAlgoBuffer: array<bv8>
    var outAlgoBufferIx: int
    var count: int
    var open: bool
    /** Number of bytes taken so far from the underlying file stream. */
    var fed: nat
    /** Number of blocks encrypted since construction. */
    ghost var blocks: nat

    function Config(): Setting
    {
      Setting(cipher, maxCount, fileMode, source)
    }

    ghost function State(): Stream
      reads this
    {
      Stream(open, count, blocks, outAlgoBufferIx, fed)
    }

    /** Both buffers hold the register after `blocks` encryptions. */
    ghost predicate Valid()
      reads this, inputAlgoBuffer, outAlgoBuffer
    {
      && inputAlgoBuffer.Length == 8
      && outAlgoBuffer.Length == 8
      && inputAlgoBuffer != outAlgoBuffer
      && Wf(State())
      && inputAlgoBuffer[..] == Chain(cipher, blocks)
      && outAlgoBuffer[..] == Chain(cipher, blocks)
    }

    constructor (cipher: Cipher, maxCount: int, fileMode: bool, source: nat -> bv8)
      ensures Valid() && fresh(inputAlgoBuffer) && fresh(outAlgoBuffer)
      ensures Config() == Setting(cipher, maxCount, fileMode, source)
      ensures State() == Stream(false, 0, 0, 8, 0)
    {
      this.cipher := cipher;
      this.maxCount := maxCount;
      this.fileMode := fileMode;
      this.source := source;
      inputAlgoBuffer := new bv8[8](_ => 0);
      outAlgoBuffer := new bv8[8](_ => 0);
      outAlgoBufferIx := 8;
      count := 0;
      open := false;
      fed := 0;
      blocks := 0;
      new;
      assert inputAlgoBuffer[..] == ZeroBlock;
      assert outAlgoBuffer[..] == ZeroBlock;
    }

    /**
     * Resets the counter, marks the block as used up and opens the stream; in
     * file mode the parent re-opens the file, so its bytes start again. The
     * feedback register is not reset.
     */
    method OpenInputStream() returns (r: bool)
      requires Valid()
      modifies this
      ensures Valid() && r
      ensures State() == old(State()).(open := true, count := 0, ix := 8,
                                       fed := if fileMode then 0 else old(fed))
      ensures Offset(State()) == (Offset(old(State())) + 7) / 8 * 8
    {
      if fileMode {
        fed := 0;
      }
      ReopenSkipsToBlockBoundary(State());
      count := 0;
      outAlgoBufferIx := outAlgoBuffer.Length;
      open := true;
      r := open;
    }

    /** `algo.encrypt_block(inputAlgoBuffer, outAlgoBuffer)`. */
    method EncryptBlock()
      requires inputAlgoBuffer.Length == 8 && outAlgoBuffer.Length == 8
      requires inputAlgoBuffer != outAlgoBuffer
      modifies outAlgoBuffer
      ensures outAlgoBuffer[..] == cipher(inputAlgoBuffer[..])
    {
      var e := cipher(inputAlgoBuffer[..]);
      forall i | 0 <= i < 8 {
        outAlgoBuffer[i] := e[i];
      }
      assert outAlgoBuffer[..] == e;
      assert inputAlgoBuffer[..] == old(inputAlgoBuffer[..]);
    }

    /**
     * The refill step of `readByte`: encrypt the input block into the output
     * block, copy the output back into the input (reusing the index field as the
     * loop counter) and restart at index 0.
     */
    method NextBlock()
      requires Valid() && outAlgoBufferIx == 8
      modifies this`outAlgoBufferIx, this`blocks, inputAlgoBuffer, outAlgoBuffer
      ensures blocks == old(blocks) + 1 && outAlgoBufferIx == 0
      ensures inputAlgoBuffer[..] == Chain(cipher, blocks)
      ensures outAlgoBuffer[..] == Chain(cipher, blocks)
    {
      EncryptBlock();
      outAlgoBufferIx := 0;
      while outAlgoBufferIx < inputAlgoBuffer.Length
        modifies this`outAlgoBufferIx, inputAlgoBuffer
        invariant 0 <= outAlgoBufferIx <= 8
        invariant outAlgoBuffer[..] == Chain(cipher, blocks + 1)
        invariant forall k :: 0 <= k < outAlgoBufferIx ==> inputAlgoBuffer[k] == outAlgoBuffer[k]
      {
        inputAlgoBuffer[outAlgoBufferIx] := outAlgoBuffer[outAlgoBufferIx];
        outAlgoBufferIx := outAlgoBufferIx + 1;
      }
      outAlgoBufferIx := 0;
      blocks := blocks + 1;
      assert inputAlgoBuffer[..] == outAlgoBuffer[..];
    }

    /** `readByte`'s check of the index: a new block is made exactly when the current one is used up. */
    method RefillIfUsedUp()
      requires Valid()
      modifies this`outAlgoBufferIx, this`blocks, inputAlgoBuffer, outAlgoBuffer
      ensures old(outAlgoBufferIx) == 8 ==> blocks == old(blocks) + 1 && outAlgoBufferIx == 0
      ensures old(outAlgoBufferIx) < 8 ==> blocks == old(blocks) && outAlgoBufferIx == old(outAlgoBufferIx)
      ensures inputAlgoBuffer[..] == Chain(cipher, blocks)
      ensures outAlgoBuffer[..] == Chain(cipher, blocks)
    {
      if outAlgoBufferIx == outAlgoBuffer.Length {
        NextBlock();
      }
    }

    method ReadByte() returns (b: bv8)
      requires Valid()
      modifies this, inputAlgoBuffer, outAlgoBuffer
      ensures Valid()
      ensures (State(), b) == ReadByteSpec(Config(), old(State()))
    {
      if !open {
        return EndOfStream;
      }
      if !fileMode && count > maxCount {
        open := false;
        return EndOfStream;
      }
      b := NextByte();
    }

    /** The part of `readByte` past the two checks: hand out the next byte, refilling the block first when it is used up. */
    method NextByte() returns (b: bv8)
      requires Valid() && open && (fileMode || count <= maxCount)
      modifies this, inputAlgoBuffer, outAlgoBuffer
      ensures Valid()
      ensures (State(), b) == ReadByteSpec(Config(), old(State()))
    {
      RefillIfUsedUp();
      b := outAlgoBuffer[outAlgoBufferIx];
      outAlgoBufferIx := outAlgoBufferIx + 1;
      if !fileMode {
        count := count + 1;
        return;
      }
      // super.readByte(): the next byte of the file being encrypted
      var data := source(fed);
      fed := fed + 1;
      b := b ^ data;
    }

    /**
     * `0xff & readByte()`, as `readInt` and `readLong` use it: the next byte as
     * an unsigned value. `bytes` are the bytes read so far from `s0`.
     */
    method ReadUnsignedByte(ghost s0: Stream, ghost k: nat, ghost bytes: seq<bv8>)
      returns (u: int, ghost bytes': seq<bv8>)
      requires Valid() && Wf(s0) && ReadBytes(Config(), s0, k) == (State(), bytes)
      modifies this, inputAlgoBuffer, outAlgoBuffer
      ensures Valid() && ReadBytes(Config(), s0, k + 1) == (State(), bytes')
      ensures |bytes'| == |bytes| + 1 && bytes'[..|bytes|] == bytes
      ensures u == bytes'[|bytes|] as int
      ensures BigEndian(bytes') == BigEndian(bytes) * 256 + u
    {
      ghost var before := State();
      var b := ReadByte();
      u := b as int;
      ReadBytesNext(Config(), s0, k, before, bytes, State(), b);
      BigEndianSnoc(bytes, b);
      bytes' := bytes + [b];
    }

    method ReadInt() returns (r: int)
      requires Valid()
      modifies this, inputAlgoBuffer, outAlgoBuffer
      ensures Valid()
      ensures (State(), r) == ReadIntSpec(Config(), old(State()))
    {
      if !open {
        return -1;
      }
      if !fileMode && count > maxCount {
        open := false;
        return -1;
      }
      ghost var s0 := State();
      ghost var bytes: seq<bv8> := [];
      // Each step is `prng = (prng << 8) | (0xff & readByte())`: the shift leaves
      // the low byte zero, so the `|` adds the unsigned byte.
      var u;
      u, bytes := ReadUnsignedByte(s0, 0, bytes);
      var prng := u;
      assert prng == BigEndian(bytes);
      u, bytes := ReadUnsignedByte(s0, 1, bytes);
      prng := prng * 256 + u;
      assert prng == BigEndian(bytes);
      u, bytes := ReadUnsignedByte(s0, 2, bytes);
      prng := prng * 256 + u;
      assert prng == BigEndian(bytes);
      u, bytes := ReadUnsignedByte(s0, 3, bytes);
      prng := prng * 256 + u;
      assert prng == BigEndian(bytes);
      ReadIntFromBytes(Config(), s0, State(), bytes);
      r := ToJavaInt(prng);
    }

    method ReadLong() returns (r: int)
      requires Valid()
      modifies this, inputAlgoBuffer, outAlgoBuffer
      ensures Valid()
      ensures (State(), r) == ReadLongSpec(Config(), old(State()))
    {
      if !open {
        return -1;
      }
      if !fileMode && count > maxCount {
        open := false;
        return -1;
      }
      ghost var s0 := State();
      ghost var bytes: seq<bv8> := [];
      var u;
      u, bytes := ReadUnsignedByte(s0, 0, bytes);
      var prng := u;
      for i := 0 to 7
        invariant Valid()
        invariant ReadBytes(Config(), s0, i + 1) == (State(), bytes)
        invariant prng == BigEndian(bytes)
      {
        u, bytes := ReadUnsignedByte(s0, i + 1, bytes);
        prng := prng * 256 + u;
      }
      ReadLongFromBytes(Config(), s0, State(), bytes);
      r := ToJavaLong(prng);
    }
  }
}
