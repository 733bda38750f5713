/**
 * The boundary to the cryptographic library (mbedtls): AES-128 as a keyed
 * permutation of 16-byte blocks, HKDF-SHA256 as a length-respecting key
 * derivation, and AES-CTR (NIST SP 800-38A, section 6.5) built from the
 * block cipher: the data XORed with E(c) ++ E(c + 1) ++ ..., where the
 * counter block c is incremented as a 128-bit big-endian number.
 *
 * The primitives themselves are parameters: every property proved about the
 * key schedule holds for any block cipher satisfying IsBlockCipher and any
 * key derivation satisfying IsKdf.
 */
module Primitives {
  import opened Common

  const BlockLength := 16

  datatype BlockCipher = BlockCipher(
    encrypt: (seq<byte>, seq<byte>) -> seq<byte>,  // (key, block) -> block
    decrypt: (seq<byte>, seq<byte>) -> seq<byte>)  // (key, block) -> block

  /** AES-128 is a permutation of 16-byte blocks for every 16-byte key. */
  ghost predicate IsBlockCipher(aes: BlockCipher)
  {
    && (forall k: seq<byte>, b: seq<byte> | |k| == BlockLength && |b| == BlockLength ::
          |aes.encrypt(k, b)| == BlockLength && aes.decrypt(k, aes.encrypt(k, b)) == b)
    && (forall k: seq<byte>, b: seq<byte> | |k| == BlockLength && |b| == BlockLength ::
          |aes.decrypt(k, b)| == BlockLength && aes.encrypt(k, aes.decrypt(k, b)) == b)
  }

  /** The trivial permutation shows that IsBlockCipher can be met. */
  lemma IdentityIsBlockCipher()
    ensures IsBlockCipher(BlockCipher((k, b) => b, (k, b) => b))
  {
  }

  /** ECB encryption of one block is injective under a fixed key. */
  lemma {:induction false} EncryptInjective(aes: BlockCipher, key: seq<byte>, b1: seq<byte>, b2: seq<byte>)
    requires IsBlockCipher(aes)
    requires |key| == BlockLength && |b1| == BlockLength && |b2| == BlockLength
    requires aes.encrypt(key, b1) == aes.encrypt(key, b2)
    ensures b1 == b2
  {
    calc {
      b1;
      aes.decrypt(key, aes.encrypt(key, b1));
      aes.decrypt(key, aes.encrypt(key, b2));
      b2;
    }
  }

  /** HKDF (RFC 5869, section 2): (salt, input key, info, length) -> output key. */
  datatype Kdf = Kdf(derive: (seq<byte>, seq<byte>, seq<byte>, nat) -> seq<byte>)

  ghost predicate IsKdf(kdf: Kdf)
  {
    forall salt: seq<byte>, ikm: seq<byte>, info: seq<byte>, len: nat ::
      |kdf.derive(salt, ikm, info, len)| == len
  }

  /** Adds one to a big-endian counter block, wrapping to all zeros. */
  function Increment(counter: seq<byte>): (r: seq<byte>)
    ensures |r| == |counter|
    decreases |counter|
  {
    if counter == [] then []
    else if counter[|counter| - 1] == 0xFF then Increment(counter[..|counter| - 1]) + [0]
    else counter[..|counter| - 1] + [counter[|counter| - 1] + 1]
  }

  /** The counter block after `blocks` increments. */
  function Advance(counter: seq<byte>, blocks: nat): (r: seq<byte>)
    ensures |r| == |counter|
    decreases blocks
  {
    if blocks == 0 then counter else Advance(Increment(counter), blocks - 1)
  }

  /** `blocks` consecutive encrypted counter blocks. */
  function Keystream(aes: BlockCipher, key: seq<byte>, counter: seq<byte>, blocks: nat): seq<byte>
    decreases blocks
  {
    if blocks == 0 then []
    else aes.encrypt(key, counter) + Keystream(aes, key, Increment(counter), blocks - 1)
  }

  lemma {:induction false} KeystreamLength(aes: BlockCipher, key: seq<byte>, counter: seq<byte>, blocks: nat)
    requires IsBlockCipher(aes) && |key| == BlockLength && |counter| == BlockLength
    ensures |Keystream(aes, key, counter, blocks)| == BlockLength * blocks
    decreases blocks
  {
    if blocks > 0 {
      KeystreamLength(aes, key, Increment(counter), blocks - 1);
    }
  }

  /** Number of counter blocks CTR mode consumes for `n` bytes starting at stream offset 0. */
  function BlocksFor(n: nat): (blocks: nat)
    ensures BlockLength * blocks >= n
    ensures blocks > 0 ==> BlockLength * (blocks - 1) < n
  {
    (n + BlockLength - 1) / BlockLength
  }

  /**
   * AES-CTR with the stream offset at 0, as mbedtls_aes_crypt_ctr computes
   * it: encryption and decryption are the same operation.
   */
  function CtrCrypt(aes: BlockCipher, key: seq<byte>, counter: seq<byte>, data: seq<byte>): (r: seq<byte>)
    ensures |r| == |data|
  {
    XorPrefix(data, Keystream(aes, key, counter, BlocksFor(|data|)))
  }

  /** With the same key and the same initial counter block, CTR undoes itself. */
  lemma CtrRoundTrip(aes: BlockCipher, key: seq<byte>, counter: seq<byte>, data: seq<byte>)
    ensures CtrCrypt(aes, key, counter, CtrCrypt(aes, key, counter, data)) == data
  {
    XorPrefixInvolutive(data, Keystream(aes, key, counter, BlocksFor(|data|)));
  }

  /** Every output byte is the input byte XORed with the keystream byte at the same position. */
  lemma CtrIsXor(aes: BlockCipher, key: seq<byte>, counter: seq<byte>, data: seq<byte>, i: nat)
    requires IsBlockCipher(aes) && |key| == BlockLength && |counter| == BlockLength
    requires i < |data|
    ensures i < |Keystream(aes, key, counter, BlocksFor(|data|))|
    ensures CtrCrypt(aes, key, counter, data)[i]
         == XorByte(data[i], Keystream(aes, key, counter, BlocksFor(|data|))[i])
  {
    KeystreamLength(aes, key, counter, BlocksFor(|data|));
  }
}
