/**
  * Packet encryption (common.go): PKCS#7 padding (section 6.3 of RFC 5652) under CBC (section 6.2 of
  * NIST SP 800-38A), over buffers that are overwritten. The block cipher is a parameter.
  */
module Encryption {
  import opened Bytes
  import opened Results

  const BLOCK_SIZE: nat := 16

  /** A block cipher under one key. */
  datatype Cipher = Cipher(enc: seq<byte> -> seq<byte>, dec: seq<byte> -> seq<byte>)

  ghost predicate IsBlockCipher(c: Cipher) {
    && (forall b {:trigger c.enc(b)} :: |b| == BLOCK_SIZE ==> |c.enc(b)| == BLOCK_SIZE && c.dec(c.enc(b)) == b)
    && (forall b {:trigger c.dec(b)} :: |b| == BLOCK_SIZE ==> |c.dec(b)| == BLOCK_SIZE)
  }

  /** The cipher of each key that the library accepts. */
  type Ciphers = seq<byte> -> Cipher

  predicate IsKey(key: seq<byte>) {
    |key| == 16 || |key| == 24 || |key| == 32
  }

  ghost predicate AreBlockCiphers(aes: Ciphers) {
    forall key {:trigger aes(key)} :: IsKey(key) ==> IsBlockCipher(aes(key))
  }

  const IV: seq<byte> := [
    0x55, 0x48, 0x4E, 0x4A, 0x55, 0x53, 0x42, 0x41, 0x43, 0x49, 0x4A, 0x46, 0x59, 0x53, 0x51, 0x4E]

  // ---------- CBC on byte strings ----------

  function XorBlock(a: seq<byte>, b: seq<byte>): (r: seq<byte>)
    requires |a| == |b|
    ensures |r| == |a|
  {
    seq(|a|, i requires 0 <= i < |a| => Xor(a[i], b[i]))
  }

  lemma XorBlockUndone(a: seq<byte>, b: seq<byte>)
    requires |a| == |b|
    ensures XorBlock(XorBlock(a, b), b) == a
  {
    hide Xor;
    forall i | 0 <= i < |a| ensures XorBlock(XorBlock(a, b), b)[i] == a[i] {
      XorUndone(a[i], b[i]);
    }
  }

  ghost predicate Whole(data: seq<byte>) {
    |data| % BLOCK_SIZE == 0
  }

  function CbcEncrypt(c: Cipher, iv: seq<byte>, data: seq<byte>): (r: seq<byte>)
    requires IsBlockCipher(c) && |iv| == BLOCK_SIZE && Whole(data)
    ensures |r| == |data|
    decreases |data|
  {
    if data == [] then []
    else
      var x := c.enc(XorBlock(data[..BLOCK_SIZE], iv));
      x + CbcEncrypt(c, x, data[BLOCK_SIZE..])
  }

  function CbcDecrypt(c: Cipher, iv: seq<byte>, data: seq<byte>): (r: seq<byte>)
    requires IsBlockCipher(c) && |iv| == BLOCK_SIZE && Whole(data)
    ensures |r| == |data|
    decreases |data|
  {
    if data == [] then []
    else XorBlock(c.dec(data[..BLOCK_SIZE]), iv) + CbcDecrypt(c, data[..BLOCK_SIZE], data[BLOCK_SIZE..])
  }

  lemma EncryptFirst(c: Cipher, iv: seq<byte>, data: seq<byte>) returns (x: seq<byte>)
    requires IsBlockCipher(c) && |iv| == BLOCK_SIZE && Whole(data) && data != []
    ensures |data| >= BLOCK_SIZE && Whole(data[BLOCK_SIZE..])
    ensures |x| == BLOCK_SIZE && c.dec(x) == XorBlock(data[..BLOCK_SIZE], iv)
    ensures CbcEncrypt(c, iv, data) == x + CbcEncrypt(c, x, data[BLOCK_SIZE..])
  {
    x := c.enc(XorBlock(data[..BLOCK_SIZE], iv));
  }

  lemma DecryptFirst(c: Cipher, iv: seq<byte>, x: seq<byte>, rest: seq<byte>)
    requires IsBlockCipher(c) && |iv| == |x| == BLOCK_SIZE && Whole(rest)
    ensures Whole(x + rest) && |c.dec(x)| == BLOCK_SIZE
    ensures CbcDecrypt(c, iv, x + rest) == XorBlock(c.dec(x), iv) + CbcDecrypt(c, x, rest)
  {
    assert (x + rest)[..BLOCK_SIZE] == x && (x + rest)[BLOCK_SIZE..] == rest;
  }

  lemma NothingToCrypt(c: Cipher, iv: seq<byte>)
    requires IsBlockCipher(c) && |iv| == BLOCK_SIZE
    ensures CbcDecrypt(c, iv, CbcEncrypt(c, iv, [])) == []
  {
  }

  lemma {:induction false} CbcRoundTrip(c: Cipher, iv: seq<byte>, data: seq<byte>)
    requires IsBlockCipher(c) && |iv| == BLOCK_SIZE && Whole(data)
    ensures CbcDecrypt(c, iv, CbcEncrypt(c, iv, data)) == data
    decreases |data|
  {
    hide XorBlock, CbcEncrypt, CbcDecrypt, IsBlockCipher;
    if data == [] {
      NothingToCrypt(c, iv);
    } else {
      var x := EncryptFirst(c, iv, data);
      var first, rest := data[..BLOCK_SIZE], data[BLOCK_SIZE..];
      DecryptFirst(c, iv, x, CbcEncrypt(c, x, rest));
      XorBlockUndone(first, iv);
      CbcRoundTrip(c, x, rest);
      assert data == first + rest;
    }
  }

  lemma {:induction false} EncryptedBlock(c: Cipher, iv: seq<byte>, data: seq<byte>, i: nat)
    requires IsBlockCipher(c) && |iv| == 16 && Whole(data) && 16 * i + 16 <= |data|
    ensures var all := CbcEncrypt(c, iv, data);
            all[16 * i..16 * i + 16]
              == c.enc(XorBlock(data[16 * i..16 * i + 16], if i == 0 then iv else all[16 * i - 16..16 * i]))
    decreases i
  {
    var x := EncryptFirst(c, iv, data);
    var all, rest := CbcEncrypt(c, iv, data), data[16..];
    FirstBlockIs(c, iv, data, x);
    if i > 0 {
      EncryptedBlock(c, x, rest, i - 1);
      hide CbcEncrypt, XorBlock, IsBlockCipher;
      var tail := CbcEncrypt(c, x, rest);
      assert all == x + tail && rest[16 * i - 16..16 * i] == data[16 * i..16 * i + 16];
      assert tail[16 * i - 16..16 * i] == all[16 * i..16 * i + 16];
      if i == 1 {
        assert all[0..16] == x;
      } else {
        assert tail[16 * i - 32..16 * i - 16] == all[16 * i - 16..16 * i];
      }
    }
  }

  lemma FirstBlockIs(c: Cipher, iv: seq<byte>, data: seq<byte>, x: seq<byte>)
    requires IsBlockCipher(c) && |iv| == 16 && Whole(data) && |data| >= 16
    requires |x| == 16 && CbcEncrypt(c, iv, data) == x + CbcEncrypt(c, x, data[16..])
    ensures x == CbcEncrypt(c, iv, data)[..16] == c.enc(XorBlock(data[..16], iv))
  {
    assert CbcEncrypt(c, iv, data)[..16] == c.enc(XorBlock(data[..16], iv));
  }

  // ---------- padding ----------

  /** How many bytes of padding a plaintext of n bytes gets: 1 to 16. */
  function PadLen(n: nat): (p: nat)
    ensures 1 <= p <= BLOCK_SIZE && (n + p) % BLOCK_SIZE == 0
  {
    BLOCK_SIZE - n % BLOCK_SIZE
  }

  function Padding(p: byte): (r: seq<byte>)
    ensures |r| == p
  {
    seq(p, _ => p)
  }

  function Padded(plain: seq<byte>): (r: seq<byte>)
    ensures Whole(r)
  {
    plain + Padding(PadLen(|plain|))
  }

  datatype CipherError = BadKey | BadPadding(n: byte)

  /** There is a last byte, and if it is the length of a padding there is room for one; otherwise the source stops. */
  predicate Unpaddable(data: seq<byte>) {
    data != [] && (1 <= data[|data| - 1] <= 16 ==> data[|data| - 1] <= |data|)
  }

  /** Only the last byte is looked at. */
  function Unpadded(data: seq<byte>): Result<seq<byte>, CipherError>
    requires Unpaddable(data)
  {
    var n := data[|data| - 1];
    if n <= 0 || n > 16 then Err(BadPadding(n)) else Ok(data[..|data| - n])
  }

  lemma UnpadPadded(plain: seq<byte>)
    ensures Unpaddable(Padded(plain)) && Unpadded(Padded(plain)) == Ok(plain)
  {
    var p := PadLen(|plain|);
    assert Padded(plain)[|plain| + p - 1] == p;
    assert Padded(plain)[..|plain|] == plain;
  }

  // ---------- packets ----------

  function Encrypted(aes: Ciphers, key: seq<byte>, plain: seq<byte>): Result<seq<byte>, CipherError>
    requires AreBlockCiphers(aes)
  {
    if key == [] then Ok(plain)
    else if !IsKey(key) then Err(BadKey)
    else Ok(CbcEncrypt(aes(key), IV, Padded(plain)))
  }

  /** What decryption asks of an encrypted packet; anything else stops the program. */
  ghost predicate Decryptable(key: seq<byte>, data: seq<byte>) {
    IsKey(key) ==> Whole(data) && data != []
  }

  function Decrypted(aes: Ciphers, key: seq<byte>, data: seq<byte>): Result<seq<byte>, CipherError>
    requires AreBlockCiphers(aes) && Decryptable(key, data)
  {
    if key == [] then Ok(data)
    else if !IsKey(key) then Err(BadKey)
    else Unpadded(CbcDecrypt(aes(key), IV, data))
  }

  /** Decrypting an encrypted packet gives back every plaintext, exactly when the key is empty or a key. */
  lemma PacketRoundTrip(aes: Ciphers, key: seq<byte>, plain: seq<byte>)
    requires AreBlockCiphers(aes)
    ensures Encrypted(aes, key, plain).Ok? <==> |key| == 0 || |key| == 16 || |key| == 24 || |key| == 32
    ensures Encrypted(aes, key, plain).Ok? ==>
      && Decryptable(key, Encrypted(aes, key, plain).value)
      && Decrypted(aes, key, Encrypted(aes, key, plain).value) == Ok(plain)
  {
    UnpadPadded(plain);
    if IsKey(key) {
      CbcRoundTrip(aes(key), IV, Padded(plain));
    }
  }

  /** With a key, the packet length is the least multiple of the block size above the plaintext length. */
  lemma PacketLength(aes: Ciphers, key: seq<byte>, plain: seq<byte>)
    requires AreBlockCiphers(aes) && IsKey(key)
    ensures var n := |Encrypted(aes, key, plain).value|;
            n % 16 == 0 && |plain| < n && forall m :: |plain| < m < n ==> m % 16 != 0
  {
    hide CbcEncrypt;
    var n := |Padded(plain)|;
    forall m | |plain| < m < n ensures m % BLOCK_SIZE != 0 {
      NoMultipleBetween(|plain|, m);
    }
  }

  lemma NoMultipleBetween(n: nat, m: nat)
    requires n < m < n + PadLen(n)
    ensures m % BLOCK_SIZE != 0
  {
  }

  const IV_TEXT: string := "UHNJUSBACIJFYSQN"

  /** The initialization vector is a text of 16 characters, as bytes. */
  lemma IvIsText()
    ensures |IV| == |IV_TEXT| == 16 && forall i :: 0 <= i < 16 ==> IV[i] == IV_TEXT[i] as nat
  {
  }

  /** The bits of two blocks, combined: set where exactly one of them is. */
  ghost predicate Mixes(mixed: seq<byte>, a: seq<byte>, b: seq<byte>) {
    && |mixed| == |a| == |b|
    && forall j, k: nat :: 0 <= j < |a| && k < 8 ==> (Bit(mixed[j], k) <==> Bit(a[j], k) != Bit(b[j], k))
  }

  lemma XorMixes(a: seq<byte>, b: seq<byte>)
    requires |a| == |b|
    ensures Mixes(XorBlock(a, b), a, b)
  {
    hide Xor, And, Bit;
    forall j, k: nat | 0 <= j < |a| && k < 8 ensures Bit(XorBlock(a, b)[j], k) <==> Bit(a[j], k) != Bit(b[j], k) {
      BitsOfBytes(a[j], b[j], k);
    }
  }

  /**
    * A packet block by block: each is the encryption of a block of the padded plaintext, combined bit by bit with
    * the block before it, the first with the initialization vector.
    */
  lemma {:induction false} PacketBlocks(aes: Ciphers, key: seq<byte>, plain: seq<byte>, i: nat)
    requires AreBlockCiphers(aes) && IsKey(key) && 16 * i < |Padded(plain)|
    ensures var packet, padded := Encrypted(aes, key, plain).value, Padded(plain);
            && |packet| == |padded| && 16 * i + 16 <= |packet|
            && var before := if i == 0 then IV else packet[16 * i - 16..16 * i];
               exists mixed :: Mixes(mixed, padded[16 * i..16 * i + 16], before)
                 && packet[16 * i..16 * i + 16] == aes(key).enc(mixed)
  {
    hide Mixes, XorBlock;
    var packet, padded := Encrypted(aes, key, plain).value, Padded(plain);
    EncryptedBlock(aes(key), IV, padded, i);
    hide CbcEncrypt, IsBlockCipher;
    XorMixes(padded[16 * i..16 * i + 16], if i == 0 then IV else packet[16 * i - 16..16 * i]);
  }

  // ---------- the buffers ----------

  /** The first len bytes of a buffer. */
  datatype Slice = Slice(buf: array<byte>, len: nat)

  /** pkcs7Padding: write the padding behind the data. */
  method Pkcs7Padding(plainData: array<byte>, dataLen: nat) returns (padLen: nat)
    requires dataLen + PadLen(dataLen) <= plainData.Length
    modifies plainData
    ensures padLen == PadLen(dataLen)
    ensures plainData[..dataLen + padLen] == Padded(old(plainData[..dataLen]))
    ensures plainData[dataLen + padLen..] == old(plainData[dataLen + padLen..])
    ensures 1 <= padLen <= 16 && (dataLen + padLen) % 16 == 0 && plainData[..dataLen] == old(plainData[..dataLen])
    ensures forall j :: dataLen <= j < dataLen + padLen ==> plainData[j] == padLen
  {
    padLen := PadLen(dataLen);
    ghost var before := plainData[..];
    for i := 0 to padLen
      invariant forall j :: 0 <= j < plainData.Length && !(dataLen <= j < dataLen + i) ==> plainData[j] == before[j]
      invariant forall j :: dataLen <= j < dataLen + i ==> plainData[j] == padLen
    {
      plainData[dataLen + i] := padLen;
    }
    assert plainData[..dataLen + padLen] == before[..dataLen] + Padding(padLen);
  }

  method WriteBlock(out: array<byte>, at: nat, block: seq<byte>)
    requires at + |block| <= out.Length
    modifies out
    ensures out[..at] == old(out[..at]) && out[at..at + |block|] == block
    ensures out[at + |block|..] == old(out[at + |block|..])
  {
    ghost var before := out[..];
    for i := 0 to |block|
      invariant forall j :: 0 <= j < out.Length && !(at <= j < at + i) ==> out[j] == before[j]
      invariant forall j :: 0 <= j < i ==> out[at + j] == block[j]
    {
      out[at + i] := block[i];
    }
  }

  lemma EncryptStep(c: Cipher, prev: seq<byte>, todo: seq<byte>, done: seq<byte>) returns (x: seq<byte>)
    requires IsBlockCipher(c) && |prev| == BLOCK_SIZE && Whole(todo) && todo != []
    ensures |todo| >= BLOCK_SIZE && Whole(todo[BLOCK_SIZE..])
    ensures x == c.enc(XorBlock(todo[..BLOCK_SIZE], prev)) && |x| == BLOCK_SIZE
    ensures done + CbcEncrypt(c, prev, todo) == (done + x) + CbcEncrypt(c, x, todo[BLOCK_SIZE..])
  {
    x := c.enc(XorBlock(todo[..BLOCK_SIZE], prev));
    assert CbcEncrypt(c, prev, todo) == x + CbcEncrypt(c, x, todo[BLOCK_SIZE..]);
  }

  lemma NothingToEncrypt(c: Cipher, iv: seq<byte>, done: seq<byte>)
    requires IsBlockCipher(c) && |iv| == BLOCK_SIZE
    ensures done + CbcEncrypt(c, iv, []) == done
  {
  }

  /** Encrypt one block into its place; what is still to be read, and what lies behind `total`, stay. */
  method EncryptBlock(c: Cipher, out: array<byte>, src: array<byte>, at: nat, total: nat, prev: seq<byte>)
    returns (x: seq<byte>)
    requires at + BLOCK_SIZE <= total <= src.Length && total <= out.Length && |prev| == BLOCK_SIZE
    requires |c.enc(XorBlock(src[at..at + BLOCK_SIZE], prev))| == BLOCK_SIZE
    modifies out
    ensures x == c.enc(XorBlock(old(src[at..at + BLOCK_SIZE]), prev))
    ensures out[..at + BLOCK_SIZE] == old(out[..at]) + x && out[total..] == old(out[total..])
    ensures src[at + BLOCK_SIZE..total] == old(src[at + BLOCK_SIZE..total])
  {
    hide XorBlock;
    ghost var tail, after := out[at + BLOCK_SIZE..], src[at + BLOCK_SIZE..];
    x := c.enc(XorBlock(src[at..at + BLOCK_SIZE], prev));
    WriteBlock(out, at, x);
    assert src[at + BLOCK_SIZE..] == after;
    assert out[total..] == tail[total - at - BLOCK_SIZE..];
    assert src[at + BLOCK_SIZE..total] == after[..total - at - BLOCK_SIZE];
  }

  /** The CBC encrypter, first block first; the two buffers may be one. */
  method EncryptBlocks(c: Cipher, out: array<byte>, src: array<byte>, total: nat)
    requires IsBlockCipher(c) && total <= src.Length && total <= out.Length && total % BLOCK_SIZE == 0
    modifies out
    ensures out[..total] == CbcEncrypt(c, IV, old(src[..total]))
    ensures out[total..] == old(out[total..])
  {
    hide CbcEncrypt, XorBlock, IsBlockCipher;
    ghost var todo, done: seq<byte> := src[..total], [];
    ghost var all := CbcEncrypt(c, IV, todo);
    var prev, at := IV, 0;
    while at < total
      invariant at <= total && |prev| == BLOCK_SIZE && |todo| == total - at && Whole(todo)
      invariant src[at..total] == todo && out[..at] == done && out[total..] == old(out[total..])
      invariant done + CbcEncrypt(c, prev, todo) == all
    {
      ghost var x := EncryptStep(c, prev, todo, done);
      FirstBlock(src[at..total], src[at..at + BLOCK_SIZE], src[at + BLOCK_SIZE..total]);
      prev := EncryptBlock(c, out, src, at, total, prev);
      at := at + BLOCK_SIZE;
      done, todo := done + prev, todo[BLOCK_SIZE..];
    }
    assert todo == [];
    NothingToEncrypt(c, prev, done);
  }

  lemma FirstBlock(all: seq<byte>, block: seq<byte>, rest: seq<byte>)
    requires all == block + rest
    ensures all[..|block|] == block && all[|block|..] == rest
  {
  }

  /** The ciphertext block before position `at`, or the initialization vector. */
  function Before(data: seq<byte>, at: nat): (r: seq<byte>)
    requires at <= |data| && at % BLOCK_SIZE == 0
    ensures |r| == BLOCK_SIZE
  {
    if at == 0 then IV else data[at - BLOCK_SIZE..at]
  }

  lemma DecryptStep(c: Cipher, data: seq<byte>, at: nat, done: seq<byte>)
    requires IsBlockCipher(c) && Whole(data) && at % BLOCK_SIZE == 0 && at + BLOCK_SIZE <= |data|
    requires done == CbcDecrypt(c, Before(data, at + BLOCK_SIZE), data[at + BLOCK_SIZE..])
    ensures |c.dec(data[at..at + BLOCK_SIZE])| == BLOCK_SIZE
    ensures CbcDecrypt(c, Before(data, at), data[at..])
         == XorBlock(c.dec(data[at..at + BLOCK_SIZE]), Before(data, at)) + done
  {
    var d := data[at..];
    assert d[..BLOCK_SIZE] == data[at..at + BLOCK_SIZE] && d[BLOCK_SIZE..] == data[at + BLOCK_SIZE..];
  }

  /** Decrypt one block into its place. */
  method DecryptBlock(c: Cipher, out: array<byte>, src: array<byte>, at: nat)
    requires at + BLOCK_SIZE <= src.Length && at + BLOCK_SIZE <= out.Length && at % BLOCK_SIZE == 0
    requires |c.dec(src[at..at + BLOCK_SIZE])| == BLOCK_SIZE
    modifies out
    ensures out[..at] == old(out[..at]) && out[at + BLOCK_SIZE..] == old(out[at + BLOCK_SIZE..])
    ensures out[at..at + BLOCK_SIZE] == old(XorBlock(c.dec(src[at..at + BLOCK_SIZE]), Before(src[..at], at)))
  {
    hide XorBlock;
    var block := src[at..at + BLOCK_SIZE];
    var prev := if at > 0 then src[at - BLOCK_SIZE..at] else IV;
    assert at > 0 ==> src[..at][at - BLOCK_SIZE..at] == prev;
    WriteBlock(out, at, XorBlock(c.dec(block), prev));
  }

  /** The CBC decrypter, last block first, so that the two buffers may be one. */
  method DecryptBlocks(c: Cipher, out: array<byte>, src: array<byte>, total: nat)
    requires IsBlockCipher(c) && total <= src.Length && total <= out.Length && total % BLOCK_SIZE == 0
    modifies out
    ensures out[..total] == CbcDecrypt(c, IV, old(src[..total]))
    ensures out[total..] == old(out[total..])
  {
    hide CbcDecrypt, XorBlock, IsBlockCipher, Before;
    ghost var data, tail, done: seq<byte> := src[..total], out[total..], [];
    var at := total;
    NothingToDecrypt(c, Before(data, total));
    assert data[total..] == [];
    while at > 0
      invariant at <= total && at % BLOCK_SIZE == 0
      invariant src[..at] == data[..at] && out[at..] == done + tail
      invariant done == CbcDecrypt(c, Before(data, at), data[at..])
    {
      at := at - BLOCK_SIZE;
      HeadBlock(data, at, src[..at + BLOCK_SIZE]);
      ghost var head := src[..at];
      assert src[at..at + BLOCK_SIZE] == src[..at + BLOCK_SIZE][at..] && head == src[..at + BLOCK_SIZE][..at];
      DecryptStep(c, data, at, done);
      DecryptBlock(c, out, src, at);
      assert src[..at] == head;
      InFront(out[at..], out[at..at + BLOCK_SIZE], done, tail);
      done := out[at..at + BLOCK_SIZE] + done;
    }
    NoBlockBefore(data);
    InTwo(out[..], done, tail);
  }

  lemma InFront(all: seq<byte>, block: seq<byte>, done: seq<byte>, tail: seq<byte>)
    requires |all| >= |block| && all[..|block|] == block && all[|block|..] == done + tail
    ensures all == (block + done) + tail
  {
    assert all == all[..|block|] + all[|block|..];
  }

  lemma InTwo(all: seq<byte>, done: seq<byte>, tail: seq<byte>)
    requires all == done + tail
    ensures all[..|done|] == done && all[|done|..] == tail
  {
  }

  lemma NoBlockBefore(data: seq<byte>)
    ensures Before(data, 0) == IV && data[0..] == data
  {
  }

  lemma HeadBlock(data: seq<byte>, at: nat, head: seq<byte>)
    requires at % BLOCK_SIZE == 0 && at + BLOCK_SIZE <= |data| && head == data[..at + BLOCK_SIZE]
    ensures head[at..] == data[at..at + BLOCK_SIZE] && head[..at] == data[..at]
    ensures Before(head[..at], at) == Before(data, at)
  {
    var h := head[..at];
    assert h == data[..at];
    if at > 0 {
      assert h[at - BLOCK_SIZE..at] == data[at - BLOCK_SIZE..at];
    }
  }

  lemma NothingToDecrypt(c: Cipher, iv: seq<byte>)
    requires IsBlockCipher(c) && |iv| == BLOCK_SIZE
    ensures CbcDecrypt(c, iv, []) == []
  {
  }

  /**
    * encryptBytes: with no key the input slice itself; with a bad key an error; otherwise pad the input buffer in
    * place, encrypt into the output buffer, and return the written part.
    */
  method EncryptBytes(aes: Ciphers, key: seq<byte>, out: array<byte>, src: array<byte>, plainLen: nat)
    returns (r: Result<Slice, CipherError>)
    requires AreBlockCiphers(aes) && plainLen <= src.Length
    requires IsKey(key) ==> plainLen + PadLen(plainLen) <= src.Length && plainLen + PadLen(plainLen) <= out.Length
    modifies out, src
    ensures match Encrypted(aes, key, old(src[..plainLen]))
            case Err(e) => r == Err(e)
            case Ok(packet) =>
              r.Ok? && r.value.len == |packet| <= r.value.buf.Length && r.value.buf[..r.value.len] == packet
    ensures r.Ok? ==> r.value.buf == if key == [] then src else out
    ensures !IsKey(key) ==> out[..] == old(out[..]) && src[..] == old(src[..])
    ensures out != src ==> src[..plainLen] == old(src[..plainLen])
  {
    hide CbcEncrypt, IsBlockCipher;
    if key == [] {
      return Ok(Slice(src, plainLen));
    }
    if !IsKey(key) {
      return Err(BadKey);
    }
    ghost var plain := src[..plainLen];
    var padLen := Pkcs7Padding(src, plainLen);
    var total := padLen + plainLen;
    assert src[..total] == Padded(plain);
    assert src[..plainLen] == src[..total][..plainLen] == plain;
    EncryptBlocks(aes(key), out, src, total);
    return Ok(Slice(out, total));
  }

  /** decryptBytes: decrypt into the output buffer and return it without its padding. */
  method DecryptBytes(aes: Ciphers, key: seq<byte>, out: array<byte>, src: array<byte>, dataLen: nat)
    returns (r: Result<Slice, CipherError>)
    requires AreBlockCiphers(aes) && dataLen <= src.Length && Decryptable(key, src[..dataLen])
    requires IsKey(key) ==> dataLen <= out.Length
    modifies out
    ensures match Decrypted(aes, key, old(src[..dataLen]))
            case Err(e) => r == Err(e)
            case Ok(plain) =>
              r.Ok? && r.value.len == |plain| <= r.value.buf.Length && r.value.buf[..r.value.len] == plain
    ensures r.Ok? ==> r.value.buf == if key == [] then src else out
  {
    hide CbcDecrypt, IsBlockCipher;
    if key == [] {
      return Ok(Slice(src, dataLen));
    }
    if !IsKey(key) {
      return Err(BadKey);
    }
    assert |src[..dataLen]| == dataLen;
    DecryptBlocks(aes(key), out, src, dataLen);
    r := Pkcs7UnPadding(out, dataLen);
  }

  /** pkcs7UnPadding: the length comes from the last byte, which must be 1 to 16. */
  method Pkcs7UnPadding(origData: array<byte>, dataLen: nat) returns (r: Result<Slice, CipherError>)
    requires dataLen <= origData.Length && Unpaddable(origData[..dataLen])
    ensures match Unpadded(origData[..dataLen])
            case Err(e) => r == Err(e)
            case Ok(plain) => r == Ok(Slice(origData, |plain|)) && |plain| <= dataLen && origData[..|plain|] == plain
    ensures var last := origData[dataLen - 1];
            if 1 <= last <= 16 then r == Ok(Slice(origData, dataLen - last)) else r == Err(BadPadding(last))
  {
    var unPadLen := origData[dataLen - 1];
    if unPadLen <= 0 || unPadLen > 16 {
      return Err(BadPadding(unPadLen));
    }
    return Ok(Slice(origData, dataLen - unPadLen));
  }

  /** A packet sent and received through buffers with room for the padding comes back as it was. */
  method SendAndReceive(aes: Ciphers, key: seq<byte>, data: seq<byte>) returns (back: seq<byte>)
    requires AreBlockCiphers(aes) && (key == [] || IsKey(key))
    ensures back == data
  {
    hide CbcEncrypt, CbcDecrypt, IsBlockCipher, Unpadded, XorBlock;
    PacketRoundTrip(aes, key, data);
    var inBuf := new byte[|data| + BLOCK_SIZE](i => if 0 <= i < |data| then data[i] else 0);
    var sendBuf := new byte[|data| + BLOCK_SIZE];
    assert inBuf[..|data|] == data;
    var sent := EncryptBytes(aes, key, sendBuf, inBuf, |data|);
    var packet := sent.value;
    var outBuf := new byte[packet.len];
    var received := DecryptBytes(aes, key, outBuf, packet.buf, packet.len);
    back := received.value.buf[..received.value.len];
  }
}
