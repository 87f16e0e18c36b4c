/** The hand-written PBKDF2 and the password check on top of it (internal/security/security.go:150-183). */
module Pbkdf2 {
  import opened Octets
  import opened Wrappers

  const UINT32: nat := 0x1_0000_0000

  /** An iteration count the standard allows. */
  type Count = n: int | 1 <= n witness 1

  // ---------------------------------------------------------------- section 5.2 of RFC 8018

  /** INT(i): four octets, most significant first. */
  function Counter(i: nat): seq<Byte>
    requires i < UINT32
  {
    BigEndian(4, i)
  }

  /** U_j of block i. */
  function Chain(hmac: Hmac, password: seq<Byte>, salt: seq<Byte>, i: nat, j: nat): Digest
    requires i < UINT32 && 1 <= j
  {
    if j == 1 then hmac(password, salt + Counter(i)) else hmac(password, Chain(hmac, password, salt, i, j - 1))
  }

  /** Byte b of U_1 xor ... xor U_count. */
  function XorOfChain(hmac: Hmac, password: seq<Byte>, salt: seq<Byte>, i: nat, count: Count, b: nat): Byte
    requires i < UINT32 && b < DIGEST_SIZE
  {
    if count == 1 then Chain(hmac, password, salt, i, 1)[b]
    else Xor(XorOfChain(hmac, password, salt, i, count - 1, b), Chain(hmac, password, salt, i, count)[b])
  }

  /** T_i = U_1 xor ... xor U_count. */
  function Block(hmac: Hmac, password: seq<Byte>, salt: seq<Byte>, count: Count, i: nat): Digest
    requires i < UINT32
  {
    seq(DIGEST_SIZE, b requires 0 <= b < DIGEST_SIZE => XorOfChain(hmac, password, salt, i, count, b))
  }

  /** T_1 || ... || T_blocks. */
  function Stream(hmac: Hmac, password: seq<Byte>, salt: seq<Byte>, count: Count, blocks: nat): (stream: seq<Byte>)
    requires blocks < UINT32
    ensures |stream| == blocks * DIGEST_SIZE
  {
    if blocks == 0 then []
    else Stream(hmac, password, salt, count, blocks - 1) + Block(hmac, password, salt, count, blocks)
  }

  /** ceil(size / 32). */
  function BlocksFor(size: nat): (blocks: nat)
    ensures blocks * DIGEST_SIZE >= size && (blocks == 0 || (blocks - 1) * DIGEST_SIZE < size)
  {
    (size + DIGEST_SIZE - 1) / DIGEST_SIZE
  }

  /** The derived key of the standard, which refuses more than 2^32 - 1 blocks. */
  function DerivedKey(hmac: Hmac, password: seq<Byte>, salt: seq<Byte>, count: Count, size: nat): Option<seq<Byte>> {
    if BlocksFor(size) >= UINT32 then None
    else Some(Stream(hmac, password, salt, count, BlocksFor(size))[..size])
  }

  // ---------------------------------------------------------------- the loops

  /** The iterations the inner loop performs: one even when none or fewer are asked for. */
  function Rounds(iterations: int): Count {
    if iterations < 1 then 1 else iterations
  }

  /** The blocks the outer loop appends: the block number is a uint32 and wraps. */
  function Blocks(hmac: Hmac, password: seq<Byte>, salt: seq<Byte>, count: Count, blocks: nat): (stream: seq<Byte>)
    ensures |stream| == blocks * DIGEST_SIZE
  {
    if blocks == 0 then []
    else Blocks(hmac, password, salt, count, blocks - 1) + Block(hmac, password, salt, count, blocks % UINT32)
  }

  lemma BlockNumbers(hmac: Hmac, password: seq<Byte>, salt: seq<Byte>, count: Count, blocks: nat)
    ensures ((blocks + 1) % UINT32 + 1) % UINT32 == (blocks + 2) % UINT32
    ensures Blocks(hmac, password, salt, count, blocks + 1)
         == Blocks(hmac, password, salt, count, blocks) + Block(hmac, password, salt, count, (blocks + 1) % UINT32)
  {
    hide Block;
  }

  method Pbkdf2Sha256(hmac: Hmac, password: seq<Byte>, salt: seq<Byte>, iterations: int, size: nat)
    returns (key: seq<Byte>)
    ensures key == Blocks(hmac, password, salt, Rounds(iterations), BlocksFor(size))[..size]
  {
    hide Block, Counter, BlocksFor, Rounds;
    var result: seq<Byte> := [];
    var blockNumber: nat := 1;
    ghost var blocks: nat := 0;
    while |result| < size
      invariant blocks <= BlocksFor(size) && blockNumber == (blocks + 1) % UINT32
      invariant result == Blocks(hmac, password, salt, Rounds(iterations), blocks)
      decreases BlocksFor(size) - blocks
    {
      var block := DeriveBlock(hmac, password, salt, iterations, blockNumber);
      BlockNumbers(hmac, password, salt, Rounds(iterations), blocks);
      result := result + block;
      blockNumber := (blockNumber + 1) % UINT32;
      blocks := blocks + 1;
    }
    key := result[..size];
  }

  method DeriveBlock(hmac: Hmac, password: seq<Byte>, salt: seq<Byte>, iterations: int, blockNumber: nat)
    returns (derived: Digest)
    requires blockNumber < UINT32
    ensures derived == Block(hmac, password, salt, Rounds(iterations), blockNumber)
  {
    hide Xor, Counter;
    var u := hmac(password, salt + Counter(blockNumber));
    var block := new Byte[DIGEST_SIZE](b requires 0 <= b < DIGEST_SIZE => u[b]);
    var i := 1;
    while i < iterations
      invariant 1 <= i <= Rounds(iterations)
      invariant u == Chain(hmac, password, salt, blockNumber, i)
      invariant forall b :: 0 <= b < DIGEST_SIZE ==>
        block[b] == XorOfChain(hmac, password, salt, blockNumber, i, b)
    {
      u := hmac(password, u);
      for j := 0 to block.Length
        invariant forall b :: 0 <= b < j ==> block[b] == XorOfChain(hmac, password, salt, blockNumber, i + 1, b)
        invariant forall b :: j <= b < DIGEST_SIZE ==> block[b] == XorOfChain(hmac, password, salt, blockNumber, i, b)
      {
        block[j] := Xor(block[j], u[j]);
      }
      i := i + 1;
    }
    derived := block[..];
  }

  // ---------------------------------------------------------------- what the loops compute

  lemma {:induction false} BlocksAreStream(
      hmac: Hmac, password: seq<Byte>, salt: seq<Byte>, count: Count, blocks: nat)
    requires blocks < UINT32
    ensures Blocks(hmac, password, salt, count, blocks) == Stream(hmac, password, salt, count, blocks)
  {
    hide Block;
    if blocks > 0 { BlocksAreStream(hmac, password, salt, count, blocks - 1); }
  }

  /** Within the length the standard allows, the loops compute the standard's derived key. */
  lemma LoopsMeetStandard(hmac: Hmac, password: seq<Byte>, salt: seq<Byte>, count: Count, size: nat)
    ensures BlocksFor(size) < UINT32 ==>
      DerivedKey(hmac, password, salt, count, size)
      == Some(Blocks(hmac, password, salt, count, BlocksFor(size))[..size])
  {
    hide Block, Blocks, Stream;
    if BlocksFor(size) < UINT32 { BlocksAreStream(hmac, password, salt, count, BlocksFor(size)); }
  }

  lemma {:induction false} BlockAt(hmac: Hmac, password: seq<Byte>, salt: seq<Byte>, count: Count, blocks: nat, n: nat)
    requires n < blocks
    ensures Blocks(hmac, password, salt, count, blocks)[n * DIGEST_SIZE..(n + 1) * DIGEST_SIZE]
         == Block(hmac, password, salt, count, (n + 1) % UINT32)
  {
    hide Block;
    var before := Blocks(hmac, password, salt, count, blocks - 1);
    if n < blocks - 1 {
      BlockAt(hmac, password, salt, count, blocks - 1, n);
      assert (n + 1) * DIGEST_SIZE <= |before|;
      assert (before + Block(hmac, password, salt, count, blocks % UINT32))[n * DIGEST_SIZE..(n + 1) * DIGEST_SIZE]
          == before[n * DIGEST_SIZE..(n + 1) * DIGEST_SIZE];
    }
  }

  /** Past the standard's limit the counter has wrapped: the key repeats itself from its first byte on. */
  lemma LongKeysRepeat(hmac: Hmac, password: seq<Byte>, salt: seq<Byte>, count: Count, blocks: nat, n: nat)
    requires n + UINT32 < blocks
    ensures var key := Blocks(hmac, password, salt, count, blocks);
      var later := (n + UINT32) * DIGEST_SIZE;
      key[n * DIGEST_SIZE..(n + 1) * DIGEST_SIZE] == key[later..later + DIGEST_SIZE]
  {
    BlockAt(hmac, password, salt, count, blocks, n);
    BlockAt(hmac, password, salt, count, blocks, n + UINT32);
    assert (n + UINT32 + 1) % UINT32 == (n + 1) % UINT32;
  }

  // ---------------------------------------------------------------- every digit of the key

  /** U_1, U_2, ...: the first is of the salt and the block number, each later one of the one before. */
  ghost predicate Iterations(hmac: Hmac, password: seq<Byte>, salt: seq<Byte>, number: nat, us: seq<Digest>)
    requires number < 0x1_0000_0000
  {
    && us != []
    && us[0] == hmac(password, salt + [number / 0x100_0000, number / 0x1_0000 % 0x100, number / 0x100 % 0x100, number % 0x100])
    && forall j :: 0 < j < |us| ==> us[j] == hmac(password, us[j - 1])
  }

  /** In how many of them digit k of byte b is 1. */
  function Ones(us: seq<Digest>, b: nat, k: nat): nat
    requires b < 32 && k < 8
  {
    if us == [] then 0 else Ones(us[..|us| - 1], b, k) + if One(us[|us| - 1][b], k) then 1 else 0
  }

  lemma {:induction false} IterationsAreChain(
      hmac: Hmac, password: seq<Byte>, salt: seq<Byte>, number: nat, us: seq<Digest>, j: nat)
    requires number < UINT32 && Iterations(hmac, password, salt, number, us) && j < |us|
    ensures us[j] == Chain(hmac, password, salt, number, j + 1)
  {
    if j == 0 { BigEndian4(number); } else { IterationsAreChain(hmac, password, salt, number, us, j - 1); }
  }

  lemma {:induction false} ParityOfChain(
      hmac: Hmac, password: seq<Byte>, salt: seq<Byte>, number: nat, us: seq<Digest>, count: Count, b: nat, k: nat)
    requires number < UINT32 && Iterations(hmac, password, salt, number, us) && count <= |us| && b < 32 && k < 8
    ensures One(XorOfChain(hmac, password, salt, number, count, b), k) <==> Ones(us[..count], b, k) % 2 == 1
  {
    hide Iterations, Chain, Xor, One, Counter;
    IterationsAreChain(hmac, password, salt, number, us, count - 1);
    assert us[..count][..count - 1] == us[..count - 1];
    if count == 1 {
      assert us[..0] == [];
    } else {
      ParityOfChain(hmac, password, salt, number, us, count - 1, b, k);
      XorDigits(XorOfChain(hmac, password, salt, number, count - 1, b), us[count - 1][b], k);
    }
  }

  lemma ByteOfBlock(hmac: Hmac, password: seq<Byte>, salt: seq<Byte>, count: Count, blocks: nat, n: nat)
    requires n < blocks * 32
    ensures Blocks(hmac, password, salt, count, blocks)[n]
         == XorOfChain(hmac, password, salt, (n / 32 + 1) % UINT32, count, n % 32)
  {
    BlockAt(hmac, password, salt, count, blocks, n / 32);
    hide Blocks, XorOfChain;
    var key, start := Blocks(hmac, password, salt, count, blocks), n / 32 * 32;
    assert key[start..start + 32][n % 32] == key[n];
  }

  /** Every digit of every derived byte, whatever the iteration count and the length: it is 1 if and only if an odd
      number of the iterations of its block have a 1 there. The blocks are numbered from 1, modulo 2^32. */
  lemma KeyDigits(hmac: Hmac, password: seq<Byte>, salt: seq<Byte>, iterations: int, size: nat,
                  us: seq<Digest>, n: nat, k: nat)
    requires n < size && k < 8
    requires |us| == if iterations < 1 then 1 else iterations
    requires Iterations(hmac, password, salt, (n / 32 + 1) % 0x1_0000_0000, us)
    ensures
      One(Blocks(hmac, password, salt, Rounds(iterations), BlocksFor(size))[..size][n], k) <==> Ones(us, n % 32, k) % 2 == 1
  {
    hide Blocks, XorOfChain, Iterations, Ones, One;
    ByteOfBlock(hmac, password, salt, Rounds(iterations), BlocksFor(size), n);
    ParityOfChain(hmac, password, salt, (n / 32 + 1) % UINT32, us, Rounds(iterations), n % 32, k);
    assert us[..|us|] == us;
  }

  // ---------------------------------------------------------------- the password check

  const PASSWORD_ITERATIONS: nat := 210_000
  const SALT_SIZE: nat := 16

  /** What the stored value must be for a password to pass. */
  predicate Accepts(hmac: Hmac, base64: Base64, password: seq<Byte>, encoded: string) {
    var raw := base64.decode(encoded);
    && raw.Some? && |raw.value| > SALT_SIZE
    && Blocks(hmac, password, raw.value[..SALT_SIZE], PASSWORD_ITERATIONS, BlocksFor(|raw.value| - SALT_SIZE))
         [..|raw.value| - SALT_SIZE] == raw.value[SALT_SIZE..]
  }

  method VerifyPassword(hmac: Hmac, base64: Base64, password: seq<Byte>, encoded: string) returns (ok: bool)
    ensures ok <==> Accepts(hmac, base64, password, encoded)
  {
    hide Blocks, BlocksFor;
    var raw := base64.decode(encoded);
    if raw.None? || |raw.value| <= SALT_SIZE { return false; }
    var expected := raw.value[SALT_SIZE..];
    var actual := Pbkdf2Sha256(hmac, password, raw.value[..SALT_SIZE], PASSWORD_ITERATIONS, |expected|);
    return actual == expected;
  }

  /** app/security.py:96-99: the salt and the standard's 32-byte key. */
  function HashPassword(hmac: Hmac, base64: Base64, password: seq<Byte>, salt: seq<Byte>): string {
    base64.encode(salt + DerivedKey(hmac, password, salt, 210_000, 32).value)
  }

  /**
   * The Go check accepts a hash the Python side stored exactly for the passwords whose derived key is the stored one,
   * so always for the stored password itself.
   */
  lemma StoredHashChecks(hmac: Hmac, base64: Base64, stored: seq<Byte>, salt: seq<Byte>, password: seq<Byte>)
    requires base64.Inverse() && |salt| == 16
    ensures Accepts(hmac, base64, password, HashPassword(hmac, base64, stored, salt))
       <==> DerivedKey(hmac, password, salt, 210_000, 32) == DerivedKey(hmac, stored, salt, 210_000, 32)
  {
    hide Stream, Blocks;
    var raw := salt + DerivedKey(hmac, stored, salt, 210_000, 32).value;
    assert base64.decode(base64.encode(raw)) == Some(raw);
    assert raw[..16] == salt;
    assert raw[16..] == DerivedKey(hmac, stored, salt, 210_000, 32).value;
    LoopsMeetStandard(hmac, password, salt, 210_000, 32);
  }
}
