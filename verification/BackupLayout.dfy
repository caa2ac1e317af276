/** The bytes of an encrypted backup, position by position, and the choice of its key. */
module BackupLayout {
  import opened Optional
  import opened BackupStream
  import opened BackupArchive

  /** A word of four bytes, most significant first. */
  function Word(a: int, b: int, c: int, d: int): int {
    0x100_0000 * a + 0x1_0000 * b + 0x100 * c + d
  }

  lemma Uint32Layout(v: nat)
    requires v < 0x1_0000_0000
    ensures var b := PutUint32(v); Word(b[0], b[1], b[2], b[3]) == v
  {
    var w := v / 256;
    assert PutBigEndian(v, 4) == PutBigEndian(w, 3) + [v % 256];
    assert PutBigEndian(w, 3) == PutBigEndian(w / 256, 2) + [w % 256];
    assert PutBigEndian(w / 256, 2) == PutBigEndian(w / 256 / 256, 1) + [w / 256 % 256];
    assert PutBigEndian(w / 256 / 256, 1) == PutBigEndian(w / 256 / 256 / 256, 0) + [w / 256 / 256 % 256];
  }

  lemma WordIs(b: bytes)
    requires |b| == 4
    ensures Word(b[0], b[1], b[2], b[3]) == GetUint32(b)
  {
    Uint32Canonical(b);
    Uint32Layout(GetUint32(b));
  }

  /** The nonce of a chunk: seven zero bytes, its index, and 1 for the final chunk. */
  lemma NonceLayout(index: nat, final: bool)
    requires index < 0x8000_0000
    ensures var n := ChunkNonce(index, final);
            && |n| == 12 && (forall i | 0 <= i < 7 :: n[i] == 0)
            && Word(n[7], n[8], n[9], n[10]) == index && n[11] == if final then 1 else 0
  {
    Uint32Layout(index);
    assert ChunkNonce(index, final)[7..11] == PutUint32(index);
  }

  /** The word before a sealed chunk: its length, and the top bit before the final one. */
  lemma FrameWord(f: bytes, sealed: nat, final: bool)
    requires |f| >= 4
    requires var word := GetUint32(f[..4]); (word >= FINAL_FLAG) == final && word % FINAL_FLAG == sealed
    ensures Word(f[0], f[1], f[2], f[3]) == sealed + if final then 0x8000_0000 else 0
  {
    WordIs(f[..4]);
  }

  /** A frame is that word and the sealed chunk. */
  lemma FrameBytes(a: Aead, index: nat, chunk: bytes, final: bool)
    requires Correct(a) && index < 0x8000_0000 && |chunk| <= 0x100_0000
    ensures var f := Frame(a, index, chunk, final);
            && |f| == 20 + |chunk| && f[4..] == a.seal(ChunkNonce(index, final), chunk)
            && Word(f[0], f[1], f[2], f[3]) == |chunk| + 16 + if final then 0x8000_0000 else 0
  {
    FrameLayout(a, index, chunk, final);
    FrameWord(Frame(a, index, chunk, final), |chunk| + 16, final);
  }

  /** The bytes of a header: the format, the key's id, the salt and the chunk size. */
  lemma HeaderLayout(keyId: bytes, salt: bytes, size: nat)
    requires |keyId| == 8 && |salt| == 32 && size < 0x1_0000_0000
    ensures var h := Header(keyId, salt, size);
            && |h| == 66
            && (forall i | 0 <= i < 22 :: h[i] == "STEPANEL-BACKUP-ENC-2\n"[i] as int)
            && h[22..30] == keyId && h[30..62] == salt && Word(h[62], h[63], h[64], h[65]) == size
  {
    var h := Header(keyId, salt, size);
    Uint32Layout(size);
    assert h[62..66] == PutUint32(size);
    assert h[..22] == Magic();
  }

  /** A key is found exactly as the first one of at least 32 characters with the id. */
  lemma {:induction false} FoundExactly(suite: Suite, keys: seq<string>, id: bytes, i: nat)
    requires i <= |keys| && forall j | 0 <= j < i :: |keys[j]| < 32 || suite.keyId(keys[j]) != id
    requires i < |keys| ==> |keys[i]| >= 32 && suite.keyId(keys[i]) == id
    ensures FindKey(suite, keys, id) == if i < |keys| then Some(keys[i]) else None
  {
    if i > 0 {
      assert forall j | 0 <= j < i - 1 :: keys[1..][j] == keys[j + 1];
      FoundExactly(suite, keys[1..], id, i - 1);
    }
  }

  /** Every chunk size from 1 byte to 16 MiB is accepted, by the encoder and in a header, and no other. */
  lemma AcceptedSizes(suite: Suite, keys: seq<string>, keyId: bytes, salt: bytes, size: nat, body: bytes)
    requires |keyId| == 8 && |salt| == 32 && size < 0x1_0000_0000
    ensures DecodeArchive(suite, keys, Header(keyId, salt, size) + body) == Err(BadChunkSize) <==>
            !(1 <= size <= 0x100_0000)
  {
    var header := Header(keyId, salt, size);
    var s := header + body;
    assert s[..HEADER_BYTES] == header && s[..MAGIC_BYTES] == Magic();
    assert header[HEADER_BYTES - 4..] == PutUint32(size);
    Uint32RoundTrip(size);
    if ChunkSizeOk(size) {
      match FindKey(suite, keys, header[MAGIC_BYTES..MAGIC_BYTES + KEY_ID_BYTES]) {
        case None =>
        case Some(key) => BodyIsNotToBlame(suite.aead(key, header), size, 0, s[HEADER_BYTES..]);
      }
    }
  }

  /** Frames never fail over the header. */
  lemma {:induction false} BodyIsNotToBlame(a: Aead, size: nat, index: nat, s: bytes)
    requires index < FINAL_FLAG
    ensures Decode(a, size, index, s) != Err(BadChunkSize)
    decreases |s|
  {
    var head := ReadFrame(a, size, index, s);
    if head.Head? && !head.final && index < FINAL_FLAG - 1 {
      BodyIsNotToBlame(a, size, index + 1, head.rest);
    }
  }
}
