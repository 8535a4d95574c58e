/**
 * The keystream the Skipjack reader hands out, and the output-feedback (OFB)
 * construction of section 6.4 of NIST SP 800-38A it follows, with an all-zero
 * initialisation vector, over the Skipjack block cipher of FIPS 185.
 *
 * The cipher itself (Skipjack.encrypt_block under the key installed by setup)
 * is not part of this model: it is any function from blocks to blocks.
 */
module SkipjackOfb {

  /** A 64-bit Skipjack block, as eight bytes. */
  type Block = s: seq<bv8> | |s| == 8 witness [0, 0, 0, 0, 0, 0, 0, 0]

  /** Encryption of one block under a fixed key. */
  type Cipher = Block -> Block

  /** A fresh Java `byte[8]`: all zeros. */
  const ZeroBlock: Block := [0, 0, 0, 0, 0, 0, 0, 0]

  /** The feedback register after `n` encryptions, starting from all zeros. */
  function Chain(e: Cipher, n: nat): Block
  {
    if n == 0 then ZeroBlock else e(Chain(e, n - 1))
  }

  /** Keystream byte `j`: byte `j % 8` of the block produced by encryption number `j / 8 + 1`. */
  function Keystream(e: Cipher, j: nat): bv8
  {
    Chain(e, j / 8 + 1)[j % 8]
  }

  /**
   * The output blocks O_1 .. O_n of OFB under `e` from `iv`, as SP 800-38A
   * defines them: the first input block is the IV, and every later input block
   * is the previous output block.
   */
  function OfbOutputBlocks(e: Cipher, iv: Block, n: nat): (r: seq<Block>)
    ensures |r| == n
  {
    if n == 0 then []
    else
      var earlier := OfbOutputBlocks(e, iv, n - 1);
      var input := if n == 1 then iv else earlier[n - 2];
      earlier + [e(input)]
  }

  /** Blocks laid end to end. */
  function Flatten(bs: seq<Block>): (r: seq<bv8>)
    ensures |r| == 8 * |bs|
  {
    if bs == [] then [] else Flatten(bs[..|bs| - 1]) + bs[|bs| - 1]
  }

  /** The first `8 * n` keystream bytes of OFB under `e` from `iv`. */
  function OfbKeystream(e: Cipher, iv: Block, n: nat): (r: seq<bv8>)
    ensures |r| == 8 * n
  {
    Flatten(OfbOutputBlocks(e, iv, n))
  }

  /** Byte `j` of a flattened block sequence is byte `j % 8` of block `j / 8`. */
  lemma {:induction false} FlattenAt(bs: seq<Block>, j: nat)
    requires j < 8 * |bs|
    ensures Flatten(bs)[j] == bs[j / 8][j % 8]
  {
    var last := |bs| - 1;
    if j < 8 * last {
      FlattenAt(bs[..last], j);
    } else {
      assert Flatten(bs) == Flatten(bs[..last]) + bs[last];
      assert j / 8 == last;
    }
  }

  /** With a zero IV, output block O_(k+1) is the register after k + 1 encryptions. */
  lemma {:induction false} OutputBlockIsChain(e: Cipher, n: nat, k: nat)
    requires k < n
    ensures OfbOutputBlocks(e, ZeroBlock, n)[k] == Chain(e, k + 1)
  {
    if k < n - 1 {
      OutputBlockIsChain(e, n - 1, k);
    } else if n > 1 {
      OutputBlockIsChain(e, n - 1, n - 2);
    }
  }

  /** The reader's keystream is the OFB keystream of SP 800-38A with a zero IV. */
  lemma KeystreamIsOfb(e: Cipher, n: nat, j: nat)
    requires j < 8 * n
    ensures Keystream(e, j) == OfbKeystream(e, ZeroBlock, n)[j]
  {
    FlattenAt(OfbOutputBlocks(e, ZeroBlock, n), j);
    OutputBlockIsChain(e, n, j / 8);
  }
}
