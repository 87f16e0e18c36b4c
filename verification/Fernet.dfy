/** Fernet tokens under a keyring (internal/security/security.go:70-148): padding, chaining, framing and key search.
    AES, HMAC and base64 are parameters. */
module Fernet {
  import opened Octets
  import opened Wrappers

  const BLOCK_SIZE: nat := 16

  type Block = b: seq<Byte> | |b| == BLOCK_SIZE witness seq(BLOCK_SIZE, _ => 0)

  /** A decoded key: 16 signing bytes, then 16 encryption bytes. */
  type Key = k: seq<Byte> | |k| == 32 witness seq(32, _ => 0)

  datatype Primitives = Primitives(
    encrypt: (Block, Block) -> Block,
    decrypt: (Block, Block) -> Block,
    hmac: Hmac,
    base64: Base64)
  {
    /** AES under one key is a permutation of the blocks, and base64 decoding undoes encoding. */
    ghost predicate Laws() {
      && (forall key, block :: decrypt(key, encrypt(key, block)) == block)
      && (forall key, block :: encrypt(key, decrypt(key, block)) == block)
      && base64.Inverse()
    }
  }

  function SigningKey(key: Key): seq<Byte> { key[..16] }

  function CipherKey(key: Key): Block { key[16..] }

  // ---------------------------------------------------------------- padding, section 6.3 of RFC 5652

  function Padding(value: seq<Byte>): (n: nat)
    ensures 1 <= n <= BLOCK_SIZE && (|value| + n) % BLOCK_SIZE == 0
  {
    BLOCK_SIZE - |value| % BLOCK_SIZE
  }

  function Pad(value: seq<Byte>): (padded: seq<Byte>)
    ensures |padded| % BLOCK_SIZE == 0 && |padded| >= BLOCK_SIZE
  {
    value + seq(Padding(value), _ => Padding(value) as Byte)
  }

  predicate EndsInPadding(plain: seq<Byte>)
    requires plain != []
  {
    var n := plain[|plain| - 1];
    1 <= n <= BLOCK_SIZE && n <= |plain| && forall i :: |plain| - n <= i < |plain| ==> plain[i] == n
  }

  function Unpad(plain: seq<Byte>): Option<seq<Byte>>
    requires plain != []
  {
    if EndsInPadding(plain) then Some(plain[..|plain| - plain[|plain| - 1]]) else None
  }

  lemma UnpadExactly(plain: seq<Byte>, value: seq<Byte>)
    requires plain != [] && |plain| % BLOCK_SIZE == 0
    ensures Unpad(plain) == Some(value) <==> plain == Pad(value)
  {
    if plain == Pad(value) {
      assert plain[|plain| - 1] == Padding(value);
      assert plain[..|value|] == value;
    }
    if Unpad(plain) == Some(value) {
      var n := plain[|plain| - 1];
      assert |value| == |plain| - n;
      assert Padding(value) == n;
      assert plain == value + plain[|value|..];
    }
  }

  // ---------------------------------------------------------------- cipher block chaining

  function XorBlocks(a: Block, b: Block): Block {
    seq(BLOCK_SIZE, i requires 0 <= i < BLOCK_SIZE => Xor(a[i], b[i]))
  }

  lemma XorBlocksCancel(a: Block, b: Block)
    ensures XorBlocks(XorBlocks(a, b), b) == a
  {
    hide Xor;
    forall i | 0 <= i < BLOCK_SIZE ensures XorBlocks(XorBlocks(a, b), b)[i] == a[i] { XorCancel(a[i], b[i]); }
  }

  /** The block a block is chained to: the last one, or the IV. */
  function Previous(iv: Block, blocks: seq<Byte>): Block {
    if |blocks| < BLOCK_SIZE then iv else blocks[|blocks| - BLOCK_SIZE..]
  }

  function ChainEncrypt(p: Primitives, key: Block, iv: Block, plain: seq<Byte>): (cipher: seq<Byte>)
    requires |plain| % BLOCK_SIZE == 0
    ensures |cipher| == |plain|
  {
    if plain == [] then []
    else
      var n := |plain| - BLOCK_SIZE;
      var before := ChainEncrypt(p, key, iv, plain[..n]);
      before + p.encrypt(key, XorBlocks(plain[n..], Previous(iv, before)))
  }

  function ChainDecrypt(p: Primitives, key: Block, iv: Block, cipher: seq<Byte>): (plain: seq<Byte>)
    requires |cipher| % BLOCK_SIZE == 0
    ensures |plain| == |cipher|
  {
    if cipher == [] then []
    else
      var n := |cipher| - BLOCK_SIZE;
      ChainDecrypt(p, key, iv, cipher[..n]) + XorBlocks(p.decrypt(key, cipher[n..]), Previous(iv, cipher[..n]))
  }

  lemma {:induction false} DecryptUndoesEncrypt(p: Primitives, key: Block, iv: Block, plain: seq<Byte>)
    requires p.Laws() && |plain| % BLOCK_SIZE == 0
    ensures ChainDecrypt(p, key, iv, ChainEncrypt(p, key, iv, plain)) == plain
  {
    hide XorBlocks, Previous;
    if plain != [] {
      var n := |plain| - BLOCK_SIZE;
      var before := ChainEncrypt(p, key, iv, plain[..n]);
      DecryptUndoesEncrypt(p, key, iv, plain[..n]);
      var cipher := ChainEncrypt(p, key, iv, plain);
      assert cipher[..n] == before;
      assert cipher[n..] == p.encrypt(key, XorBlocks(plain[n..], Previous(iv, before)));
      XorBlocksCancel(plain[n..], Previous(iv, before));
      assert plain == plain[..n] + plain[n..];
    }
  }

  lemma {:induction false} EncryptUndoesDecrypt(p: Primitives, key: Block, iv: Block, cipher: seq<Byte>)
    requires p.Laws() && |cipher| % BLOCK_SIZE == 0
    ensures ChainEncrypt(p, key, iv, ChainDecrypt(p, key, iv, cipher)) == cipher
  {
    hide XorBlocks, Previous;
    if cipher != [] {
      var n := |cipher| - BLOCK_SIZE;
      EncryptUndoesDecrypt(p, key, iv, cipher[..n]);
      var plain := ChainDecrypt(p, key, iv, cipher);
      assert plain[..n] == ChainDecrypt(p, key, iv, cipher[..n]);
      assert plain[n..] == XorBlocks(p.decrypt(key, cipher[n..]), Previous(iv, cipher[..n]));
      XorBlocksCancel(p.decrypt(key, cipher[n..]), Previous(iv, cipher[..n]));
      assert cipher == cipher[..n] + cipher[n..];
    }
  }

  // ---------------------------------------------------------------- the token format

  const VERSION: Byte := 0x80
  const HEADER: nat := 9

  type Stamp = s: seq<Byte> | |s| == 8 witness seq(8, _ => 0)

  /** Everything under the signature. */
  function Signed(p: Primitives, key: Key, stamp: Stamp, iv: Block, value: seq<Byte>): seq<Byte> {
    [VERSION] + stamp + iv + ChainEncrypt(p, CipherKey(key), iv, Pad(value))
  }

  function Seal(p: Primitives, key: Key, stamp: Stamp, iv: Block, value: seq<Byte>): seq<Byte> {
    var signed := Signed(p, key, stamp, iv, value);
    signed + p.hmac(SigningKey(key), signed)
  }

  /** What a key reads out of the bytes of a token. */
  function Open(p: Primitives, key: Key, raw: seq<Byte>): Option<seq<Byte>> {
    if |raw| < HEADER + BLOCK_SIZE + BLOCK_SIZE + DIGEST_SIZE || raw[0] != VERSION then None
    else
      var end := |raw| - DIGEST_SIZE;
      var iv, cipher := raw[HEADER..HEADER + BLOCK_SIZE], raw[HEADER + BLOCK_SIZE..end];
      if p.hmac(SigningKey(key), raw[..end]) != raw[end..] || |cipher| % BLOCK_SIZE != 0 then None
      else Unpad(ChainDecrypt(p, CipherKey(key), iv, cipher))
  }

  lemma OpenSealed(p: Primitives, key: Key, stamp: Stamp, iv: Block, value: seq<Byte>)
    requires p.Laws()
    ensures Open(p, key, Seal(p, key, stamp, iv, value)) == Some(value)
  {
    hide ChainEncrypt, ChainDecrypt, Pad, Unpad;
    var signed, raw := Signed(p, key, stamp, iv, value), Seal(p, key, stamp, iv, value);
    var end := |raw| - DIGEST_SIZE;
    var cipher := ChainEncrypt(p, CipherKey(key), iv, Pad(value));
    assert raw[..end] == signed && raw[end..] == p.hmac(SigningKey(key), signed);
    assert raw[HEADER..HEADER + BLOCK_SIZE] == iv && raw[HEADER + BLOCK_SIZE..end] == cipher;
    DecryptUndoesEncrypt(p, CipherKey(key), iv, Pad(value));
    UnpadExactly(Pad(value), value);
  }

  lemma SealedIfOpened(p: Primitives, key: Key, raw: seq<Byte>, value: seq<Byte>)
    requires p.Laws() && Open(p, key, raw) == Some(value)
    ensures |raw| >= HEADER + BLOCK_SIZE
    ensures raw == Seal(p, key, raw[1..HEADER], raw[HEADER..HEADER + BLOCK_SIZE], value)
  {
    hide ChainEncrypt, ChainDecrypt, Pad, Unpad;
    var end := |raw| - DIGEST_SIZE;
    var iv, cipher := raw[HEADER..HEADER + BLOCK_SIZE], raw[HEADER + BLOCK_SIZE..end];
    var plain := ChainDecrypt(p, CipherKey(key), iv, cipher);
    UnpadExactly(plain, value);
    EncryptUndoesDecrypt(p, CipherKey(key), iv, cipher);
    assert raw[..end] == [VERSION] + raw[1..HEADER] + iv + cipher;
    assert raw == raw[..end] + raw[end..];
  }

  /** A key opens exactly the bytes it seals: under some stamp and IV, and for that value only. */
  lemma OpensWhatItSealed(p: Primitives, key: Key, raw: seq<Byte>, value: seq<Byte>)
    requires p.Laws()
    ensures Open(p, key, raw) == Some(value)
       <==> exists stamp: Stamp, iv: Block :: raw == Seal(p, key, stamp, iv, value)
  {
    hide Open, Seal;
    if stamp: Stamp, iv: Block :| raw == Seal(p, key, stamp, iv, value) { OpenSealed(p, key, stamp, iv, value); }
    if Open(p, key, raw) == Some(value) { SealedIfOpened(p, key, raw, value); }
  }

  // ---------------------------------------------------------------- the keyring

  /** The first key that opens the token decides. */
  function FirstOpened(p: Primitives, keys: seq<Key>, token: string): Option<seq<Byte>> {
    if keys == [] then None
    else
      var plain := OpenToken(p, keys[0], token);
      if plain.Some? then plain else FirstOpened(p, keys[1..], token)
  }

  function OpenToken(p: Primitives, key: Key, token: string): Option<seq<Byte>> {
    match p.base64.decode(token)
    case Some(raw) => Open(p, key, raw)
    case None => None
  }

  datatype Failure = InvalidToken | KeyUnavailable | NoRandomness

  const UINT64: nat := 0x1_0000_0000_0000_0000

  /** The seconds since the epoch as an unsigned 64-bit number, most significant byte first. */
  function StampOf(now: int): Stamp {
    BigEndian(8, now % UINT64)
  }

  function Encrypted(p: Primitives, keys: seq<Key>, random: Option<Block>, now: int, value: seq<Byte>)
    : Result<string, Failure>
  {
    if value == [] then Ok("")
    else if keys == [] then Err(KeyUnavailable)
    else
      match random
      case Some(iv) => Ok(p.base64.encode(Seal(p, keys[0], StampOf(now), iv, value)))
      case None => Err(NoRandomness)
  }

  function Decrypted(p: Primitives, keys: seq<Key>, token: string): Result<seq<Byte>, Failure> {
    if token == "" then Ok([])
    else match FirstOpened(p, keys, token) case Some(value) => Ok(value) case None => Err(InvalidToken)
  }

  method DecryptFernet(p: Primitives, key: Key, token: string) returns (plain: Option<seq<Byte>>)
    ensures plain == OpenToken(p, key, token)
  {
    hide ChainDecrypt;
    var decoded := p.base64.decode(token);
    if decoded.None? { return None; }
    var raw := decoded.value;
    if |raw| < 1 + 8 + BLOCK_SIZE + BLOCK_SIZE + DIGEST_SIZE || raw[0] != VERSION { return None; }
    var signed, providedMac := raw[..|raw| - DIGEST_SIZE], raw[|raw| - DIGEST_SIZE..];
    if p.hmac(SigningKey(key), signed) != providedMac { return None; }
    var iv, cipher := raw[9..9 + BLOCK_SIZE], raw[9 + BLOCK_SIZE..|raw| - DIGEST_SIZE];
    if |cipher| == 0 || |cipher| % BLOCK_SIZE != 0 { return None; }
    var text := ChainDecrypt(p, CipherKey(key), iv, cipher);
    var padding := text[|text| - 1];
    if padding < 1 || padding > BLOCK_SIZE || padding > |text| { return None; }
    for i := |text| - padding to |text|
      invariant forall j :: |text| - padding <= j < i ==> text[j] == padding
    {
      if text[i] != padding { return None; }
    }
    return Some(text[..|text| - padding]);
  }

  class Keyring {
    const keys: seq<Key>

    constructor (keys: seq<Key>)
      ensures this.keys == keys
    {
      this.keys := keys;
    }

    method DecryptString(p: Primitives, token: string) returns (result: Result<seq<Byte>, Failure>)
      ensures result == Decrypted(p, keys, token)
    {
      hide OpenToken;
      if token == "" { return Ok([]); }
      for i := 0 to |keys|
        invariant FirstOpened(p, keys, token) == FirstOpened(p, keys[i..], token)
      {
        assert keys[i..][1..] == keys[i + 1..];
        var plain := DecryptFernet(p, keys[i], token);
        if plain.Some? { return Ok(plain.value); }
      }
      return Err(InvalidToken);
    }

    /** The random source either fills the IV or fails. */
    method EncryptString(p: Primitives, random: Option<Block>, now: int, value: seq<Byte>)
      returns (result: Result<string, Failure>)
      ensures result == Encrypted(p, keys, random, now, value)
    {
      hide ChainEncrypt, StampOf;
      if value == [] { return Ok(""); }
      if |keys| == 0 { return Err(KeyUnavailable); }
      var key := keys[0];
      var padding := BLOCK_SIZE - |value| % BLOCK_SIZE;
      var plain := value + seq(padding, _ => padding as Byte);
      if random.None? { return Err(NoRandomness); }
      var iv := random.value;
      var cipher := ChainEncrypt(p, CipherKey(key), iv, plain);
      var raw := [VERSION] + StampOf(now);
      raw := raw + iv;
      raw := raw + cipher;
      raw := raw + p.hmac(SigningKey(key), raw);
      return Ok(p.base64.encode(raw));
    }
  }

  // ---------------------------------------------------------------- the token, byte by byte

  /** Block k of a value padded as section 6.3 of RFC 5652 has it: after the value, each byte is the number of bytes added. */
  function PlainBlock(value: seq<Byte>, k: nat): Block {
    seq(16, i requires 0 <= i < 16 => if 16 * k + i < |value| then value[16 * k + i] else 16 - |value| % 16)
  }

  lemma PadBlock(value: seq<Byte>, k: nat)
    requires k <= |value| / 16
    ensures 16 * k + 16 <= |Pad(value)| == (|value| / 16 + 1) * 16
    ensures Pad(value)[16 * k..16 * k + 16] == PlainBlock(value, k)
  {
  }

  lemma Inside(a: seq<Byte>, b: seq<Byte>, at: nat)
    requires at + 16 <= |a|
    ensures (a + b)[at..at + 16] == a[at..at + 16]
  {
  }

  /** A block mixed with the 16 bytes before it, IV included, and encrypted. */
  function MixedBlock(p: Primitives, key: Block, iv: Block, block: Block, before: seq<Byte>): Block {
    p.encrypt(key, XorBlocks(block, (iv + before)[|before|..]))
  }

  lemma PreviousEnds(iv: Block, before: seq<Byte>)
    requires |before| % 16 == 0
    ensures (iv + before)[|before|..] == Previous(iv, before)
  {
  }

  lemma ChainStep(p: Primitives, key: Block, iv: Block, plain: seq<Byte>, block: Block)
    requires |plain| % 16 == 0
    ensures
      var before := ChainEncrypt(p, key, iv, plain);
      ChainEncrypt(p, key, iv, plain + block) == before + MixedBlock(p, key, iv, block, before)
  {
    hide XorBlocks, Previous;
    var before := ChainEncrypt(p, key, iv, plain);
    assert (plain + block)[..|plain|] == plain && (plain + block)[|plain|..] == block;
    PreviousEnds(iv, before);
  }

  /** The cipher block at `at` is so made from the plain one. */
  ghost predicate MixedAt(p: Primitives, key: Block, iv: Block, plain: seq<Byte>, cipher: seq<Byte>, at: nat) {
    && at + 16 <= |plain| == |cipher|
    && cipher[at..at + 16] == p.encrypt(key, XorBlocks(plain[at..at + 16], (iv + cipher)[at..at + 16]))
  }

  lemma MixedGrows(p: Primitives, key: Block, iv: Block, plain: seq<Byte>, block: Block,
                   cipher: seq<Byte>, last: Block, at: nat)
    requires MixedAt(p, key, iv, plain, cipher, at)
    ensures MixedAt(p, key, iv, plain + block, cipher + last, at)
  {
    hide XorBlocks;
    assert iv + (cipher + last) == iv + cipher + last;
    Inside(iv + cipher, last, at);
    Inside(cipher, last, at);
    Inside(plain, block, at);
  }

  lemma MixedLast(p: Primitives, key: Block, iv: Block, plain: seq<Byte>, block: Block, cipher: seq<Byte>)
    requires |plain| == |cipher|
    ensures MixedAt(p, key, iv, plain + block, cipher + MixedBlock(p, key, iv, block, cipher), |plain|)
  {
    hide XorBlocks;
    var last := MixedBlock(p, key, iv, block, cipher);
    assert (iv + (cipher + last))[|cipher|..|cipher| + 16] == (iv + cipher)[|cipher|..];
    assert (plain + block)[|plain|..|plain| + 16] == block;
    assert (cipher + last)[|cipher|..|cipher| + 16] == last;
  }

  lemma {:induction false} ChainBlock(p: Primitives, key: Block, iv: Block, plain: seq<Byte>, at: nat)
    requires |plain| % 16 == 0 && at % 16 == 0 && at < |plain|
    ensures MixedAt(p, key, iv, plain, ChainEncrypt(p, key, iv, plain), at)
  {
    hide MixedBlock, ChainEncrypt, MixedAt;
    var n := |plain| - 16;
    var most, block := plain[..n], plain[n..];
    assert most + block == plain && |most| % 16 == 0;
    var before := ChainEncrypt(p, key, iv, most);
    ChainStep(p, key, iv, most, block);
    if at < n {
      ChainBlock(p, key, iv, most, at);
      MixedGrows(p, key, iv, most, block, before, MixedBlock(p, key, iv, block, before), at);
    } else {
      MixedLast(p, key, iv, most, block, before);
    }
  }

  lemma SealLayout(p: Primitives, key: Key, stamp: Stamp, iv: Block, value: seq<Byte>)
    ensures
      var raw, cipher := Seal(p, key, stamp, iv, value), ChainEncrypt(p, key[16..], iv, Pad(value));
      && |raw| == 57 + |Pad(value)|
      && raw[0] == 0x80 && raw[1..9] == stamp && raw[9..25] == iv && raw[9..|raw| - 32] == iv + cipher
      && raw[|raw| - 32..] == p.hmac(key[..16], raw[..|raw| - 32])
  {
    hide ChainEncrypt, Pad;
    var signed, raw := Signed(p, key, stamp, iv, value), Seal(p, key, stamp, iv, value);
    assert raw[..|raw| - 32] == signed;
  }

  /** The bytes of an encrypted value: 0x80; the time as a 64-bit number, most significant byte first; the IV; then each
      block of the padded value, mixed with the 16 bytes before it and encrypted under the second half of the first key;
      last the HMAC of all this under the first half. */
  lemma TokenLayout(p: Primitives, keys: seq<Key>, iv: Block, now: int, value: seq<Byte>, raw: seq<Byte>, k: nat)
    requires p.base64.Inverse() && keys != [] && value != [] && k <= |value| / 16
    requires
      var token := Encrypted(p, keys, Some(iv), now, value);
      token.Ok? && p.base64.decode(token.value) == Some(raw)
    ensures |raw| == 57 + (|value| / 16 + 1) * 16 && raw[0] == 0x80 && raw[9..25] == iv
    ensures
      var s: seq<int> := raw[1..9];
      s[0] * 0x100_0000_0000_0000 + s[1] * 0x1_0000_0000_0000 + s[2] * 0x100_0000_0000 + s[3] * 0x1_0000_0000
      + s[4] * 0x100_0000 + s[5] * 0x1_0000 + s[6] * 0x100 + s[7] == now % 0x1_0000_0000_0000_0000
    ensures raw[25 + 16 * k..41 + 16 * k]
         == p.encrypt(keys[0][16..],
                      seq(16, i requires 0 <= i < 16 => Xor(PlainBlock(value, k)[i], raw[9 + 16 * k + i])))
    ensures raw[|raw| - 32..] == p.hmac(keys[0][..16], raw[..|raw| - 32])
  {
    BigEndian8(now % 0x1_0000_0000_0000_0000);
    hide Seal, Xor, BigEndian, PlainBlock;
    assert raw == Seal(p, keys[0], StampOf(now), iv, value);
    hide Encrypted;
    SealLayout(p, keys[0], StampOf(now), iv, value);
    PadBlock(value, k);
    hide ChainEncrypt, Pad;
    SealBlock(p, keys[0], StampOf(now), iv, value, k);
  }

  lemma SealBlock(p: Primitives, key: Key, stamp: Stamp, iv: Block, value: seq<Byte>, k: nat)
    requires k <= |value| / 16
    ensures
      var raw := Seal(p, key, stamp, iv, value);
      && |raw| >= 41 + 16 * k
      && raw[25 + 16 * k..41 + 16 * k]
         == p.encrypt(key[16..], seq(16, i requires 0 <= i < 16 => Xor(PlainBlock(value, k)[i], raw[9 + 16 * k + i])))
  {
    SealLayout(p, key, stamp, iv, value);
    PadBlock(value, k);
    hide Seal, ChainEncrypt, XorBlocks, Xor, Pad, PlainBlock;
    var raw := Seal(p, key, stamp, iv, value);
    BodyBlock(p, key[16..], iv, value, k, raw[9..|raw| - 32]);
    assert raw[25 + 16 * k..41 + 16 * k] == raw[9..|raw| - 32][16 + 16 * k..32 + 16 * k];
    assert raw[9..|raw| - 32][16 * k..16 * k + 16] == raw[9 + 16 * k..25 + 16 * k];
    Mixed(PlainBlock(value, k), raw, 9 + 16 * k, raw[9 + 16 * k..25 + 16 * k]);
  }

  lemma BodyBlock(p: Primitives, key: Block, iv: Block, value: seq<Byte>, k: nat, body: seq<Byte>)
    requires k <= |value| / 16 && body == iv + ChainEncrypt(p, key, iv, Pad(value))
    ensures |body| >= 16 * k + 32
    ensures body[16 + 16 * k..32 + 16 * k] == p.encrypt(key, XorBlocks(PlainBlock(value, k), body[16 * k..16 * k + 16]))
  {
    hide ChainEncrypt, XorBlocks, Pad, PlainBlock;
    PadBlock(value, k);
    ChainBlock(p, key, iv, Pad(value), 16 * k);
    var cipher := ChainEncrypt(p, key, iv, Pad(value));
    assert (iv + cipher)[16 + 16 * k..32 + 16 * k] == cipher[16 * k..16 * k + 16];
  }

  lemma Mixed(plain: Block, raw: seq<Byte>, at: nat, part: Block)
    requires at + 16 <= |raw| && part == raw[at..at + 16]
    ensures XorBlocks(plain, part) == seq(16, i requires 0 <= i < 16 => Xor(plain[i], raw[at + i]))
  {
    hide Xor;
  }

  /** The key's signature check passes on the token. */
  predicate MacAccepts(p: Primitives, key: Key, token: string) {
    match p.base64.decode(token)
    case Some(raw) =>
      |raw| >= DIGEST_SIZE
      && p.hmac(SigningKey(key), raw[..|raw| - DIGEST_SIZE]) == raw[|raw| - DIGEST_SIZE..]
    case None => false
  }

  lemma {:induction false} FirstOpenedSkips(p: Primitives, keys: seq<Key>, n: nat, token: string)
    requires n < |keys|
    requires forall j :: 0 <= j < n ==> !MacAccepts(p, keys[j], token)
    ensures OpenToken(p, keys[n], token).Some? ==> FirstOpened(p, keys, token) == OpenToken(p, keys[n], token)
  {
    hide ChainDecrypt, Unpad;
    if n > 0 {
      assert !MacAccepts(p, keys[0], token);
      FirstOpenedSkips(p, keys[1..], n - 1, token);
    }
  }

  lemma SealedIsLong(p: Primitives, key: Key, stamp: Stamp, iv: Block, value: seq<Byte>)
    ensures |Seal(p, key, stamp, iv, value)| >= HEADER
  {
  }

  /**
   * Whatever was encrypted can be read back, by every keyring that still holds the key and has no earlier key whose
   * signature check the token passes by accident.
   */
  lemma RoundTrip(p: Primitives, keys: seq<Key>, random: Block, now: int, value: seq<Byte>,
                  later: seq<Key>, n: nat)
    requires p.Laws() && keys != [] && n < |later| && later[n] == keys[0]
    requires var token := Encrypted(p, keys, Some(random), now, value);
      token.Ok? && forall j :: 0 <= j < n ==> !MacAccepts(p, later[j], token.value)
    ensures Decrypted(p, later, Encrypted(p, keys, Some(random), now, value).value) == Ok(value)
  {
    hide Seal, Open, StampOf, MacAccepts;
    if value != [] {
      var raw := Seal(p, keys[0], StampOf(now), random, value);
      var token := p.base64.encode(raw);
      assert p.base64.decode(token) == Some(raw);
      OpenSealed(p, keys[0], StampOf(now), random, value);
      SealedIsLong(p, keys[0], StampOf(now), random, value);
      assert token != "" by { assert p.base64.decode(p.base64.encode([])) == Some([]); }
      FirstOpenedSkips(p, later, n, token);
    }
  }

  /** Whatever is read back from a token was sealed under one of the keys: no other bytes are accepted. */
  lemma {:induction false} AcceptedIsSealed(p: Primitives, keys: seq<Key>, token: string, value: seq<Byte>)
    returns (n: nat, stamp: Stamp, iv: Block)
    requires p.Laws() && token != "" && Decrypted(p, keys, token) == Ok(value)
    ensures n < |keys| && p.base64.decode(token) == Some(Seal(p, keys[n], stamp, iv, value))
    ensures forall j :: 0 <= j < n ==> OpenToken(p, keys[j], token) == None
  {
    hide Seal, Open;
    if OpenToken(p, keys[0], token).Some? {
      var raw := p.base64.decode(token).value;
      OpensWhatItSealed(p, keys[0], raw, value);
      n := 0;
      stamp, iv :| raw == Seal(p, keys[0], stamp, iv, value);
    } else {
      n, stamp, iv := AcceptedIsSealed(p, keys[1..], token, value);
      n := n + 1;
    }
  }
}
