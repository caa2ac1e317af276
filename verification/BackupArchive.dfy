/**
  Whole encrypted backup archives: the authenticated header, the choice of key, and the encoder
  and decoder loops of `encryptBackupArchive` and `decryptBackupStreamV2`.
*/
module BackupArchive {
  import opened Optional
  import opened BackupStream

  const KEY_ID_BYTES: nat := 8
  const SALT_BYTES: nat := 32
  const MIN_KEY: nat := 32
  const MAGIC_BYTES: nat := 22
  const HEADER_BYTES: nat := MAGIC_BYTES + KEY_ID_BYTES + SALT_BYTES + 4

  function Magic(): (m: bytes)
    ensures |m| == MAGIC_BYTES
  {
    var text := "STEPANEL-BACKUP-ENC-2\n";
    seq(|text|, i requires 0 <= i < |text| => text[i] as int % 256)
  }

  /** The keyed functions: a key's public id, and the AEAD of a key under an archive's header. */
  datatype Suite = Suite(keyId: string -> bytes, aead: (string, bytes) -> Aead)

  predicate Usable(key: string) {
    |key| >= MIN_KEY
  }

  function Header(keyId: bytes, salt: bytes, size: nat): (h: bytes)
    requires |keyId| == KEY_ID_BYTES && |salt| == SALT_BYTES && size < 0x1_0000_0000
    ensures |h| == HEADER_BYTES
  {
    Magic() + keyId + salt + PutUint32(size)
  }

  /** The first configured key with the given id. */
  function FindKey(suite: Suite, keys: seq<string>, id: bytes): Option<string> {
    if keys == [] then None
    else if Usable(keys[0]) && suite.keyId(keys[0]) == id then Some(keys[0])
    else FindKey(suite, keys[1..], id)
  }

  function Encode(suite: Suite, key: string, salt: bytes, size: nat, p: bytes): Option<bytes>
    requires |suite.keyId(key)| == KEY_ID_BYTES && |salt| == SALT_BYTES && ChunkSizeOk(size)
  {
    if !Usable(key) || |Chunks(p, size)| > FINAL_FLAG then None
    else
      var header := Header(suite.keyId(key), salt, size);
      Some(header + Frames(suite.aead(key, header), 0, Chunks(p, size)))
  }

  function DecodeArchive(suite: Suite, keys: seq<string>, s: bytes): Decoded {
    if |s| < MAGIC_BYTES || s[..MAGIC_BYTES] != Magic() || |s| < HEADER_BYTES then Err(BadHeader)
    else
      var header := s[..HEADER_BYTES];
      var size := GetUint32(header[HEADER_BYTES - 4..]);
      if !ChunkSizeOk(size) then Err(BadChunkSize)
      else match FindKey(suite, keys, header[MAGIC_BYTES..MAGIC_BYTES + KEY_ID_BYTES])
        case None => Err(UnknownKey)
        case Some(key) => Decode(suite.aead(key, header), size, 0, s[HEADER_BYTES..])
  }

  // ---------------------------------------------------------------------------------------
  // Round trip and damage
  // ---------------------------------------------------------------------------------------

  /** The key is configured, and no other configured key shares its id. */
  ghost predicate Configured(suite: Suite, keys: seq<string>, key: string) {
    key in keys && forall i | 0 <= i < |keys| :: suite.keyId(keys[i]) == suite.keyId(key) ==> keys[i] == key
  }

  lemma {:induction false} ConfiguredKeyIsFound(suite: Suite, keys: seq<string>, key: string)
    requires Usable(key) && Configured(suite, keys, key)
    ensures FindKey(suite, keys, suite.keyId(key)) == Some(key)
  {
    assert keys != [];
    if suite.keyId(keys[0]) != suite.keyId(key) {
      ConfiguredKeyIsFound(suite, keys[1..], key);
    }
  }

  lemma HeaderIsParsed(suite: Suite, keys: seq<string>, key: string, salt: bytes, size: nat, body: bytes)
    requires |suite.keyId(key)| == KEY_ID_BYTES && |salt| == SALT_BYTES && ChunkSizeOk(size)
    requires Usable(key) && Configured(suite, keys, key)
    ensures var header := Header(suite.keyId(key), salt, size);
            DecodeArchive(suite, keys, header + body) == Decode(suite.aead(key, header), size, 0, body)
  {
    var header := Header(suite.keyId(key), salt, size);
    var s := header + body;
    assert s[..HEADER_BYTES] == header && s[HEADER_BYTES..] == body;
    assert s[..MAGIC_BYTES] == Magic();
    assert header[MAGIC_BYTES..MAGIC_BYTES + KEY_ID_BYTES] == suite.keyId(key);
    assert header[HEADER_BYTES - 4..] == PutUint32(size);
    Uint32RoundTrip(size);
    ConfiguredKeyIsFound(suite, keys, key);
  }

  /** How many chunks an input takes; the encoder's limit is exactly 2^31 full chunks. */
  lemma {:induction false} ChunkCount(p: bytes, size: nat, n: nat)
    requires size > 0 && n > 0
    ensures |Chunks(p, size)| <= n <==> |p| <= n * size
    decreases |p|
  {
    if |p| > size {
      if n > 1 {
        ChunkCount(p[size..], size, n - 1);
        assert (n - 1) * size == n * size - size;
      } else {
        assert n * size == size;
      }
    } else {
      assert size <= n * size;
    }
  }

  /** Decrypting an encrypted archive returns its input, whatever its length; only oversized input is refused. */
  lemma DecryptReturnsInput(suite: Suite, keys: seq<string>, key: string, salt: bytes, size: nat, p: bytes)
    requires |suite.keyId(key)| == KEY_ID_BYTES && |salt| == SALT_BYTES && ChunkSizeOk(size)
    requires Usable(key) && Configured(suite, keys, key)
    requires Correct(suite.aead(key, Header(suite.keyId(key), salt, size)))
    ensures Encode(suite, key, salt, size, p).Some? <==> |p| <= FINAL_FLAG * size
    ensures Encode(suite, key, salt, size, p).Some? ==>
              DecodeArchive(suite, keys, Encode(suite, key, salt, size, p).value) == Ok(p)
  {
    ChunkCount(p, size, FINAL_FLAG);
    if Encode(suite, key, salt, size, p).Some? {
      var a := suite.aead(key, Header(suite.keyId(key), salt, size));
      var cs := Chunks(p, size);
      HeaderIsParsed(suite, keys, key, salt, size, Frames(a, 0, cs));
      WellFormedAccepted(a, size, 0, cs);
      FlattenChunks(p, size);
    }
  }

  /** No proper prefix and no proper extension of an encrypted archive decrypts. */
  lemma TruncatedOrExtendedRejected(suite: Suite, keys: seq<string>, key: string, salt: bytes, size: nat, p: bytes,
                                    k: nat, extra: bytes)
    requires |suite.keyId(key)| == KEY_ID_BYTES && |salt| == SALT_BYTES && ChunkSizeOk(size)
    requires Usable(key) && Configured(suite, keys, key)
    requires Correct(suite.aead(key, Header(suite.keyId(key), salt, size)))
    requires Encode(suite, key, salt, size, p).Some?
    ensures var s := Encode(suite, key, salt, size, p).value;
            && (k < |s| ==> DecodeArchive(suite, keys, s[..k]).Err?)
            && (extra != [] ==> DecodeArchive(suite, keys, s + extra).Err?)
  {
    var header := Header(suite.keyId(key), salt, size);
    var a := suite.aead(key, header);
    var body := Frames(a, 0, Chunks(p, size));
    var s := header + body;
    if HEADER_BYTES <= k < |s| {
      assert s[..k] == header + body[..k - HEADER_BYTES];
      HeaderIsParsed(suite, keys, key, salt, size, body[..k - HEADER_BYTES]);
      ProperPrefixRejected(a, size, 0, Chunks(p, size), k - HEADER_BYTES);
    }
    if extra != [] {
      assert s + extra == header + (body + extra);
      HeaderIsParsed(suite, keys, key, salt, size, body + extra);
      ExtensionRejected(a, size, 0, Chunks(p, size), extra);
    }
  }

  /** Of all streams built from an archive's header and frames, only the archive itself decrypts. */
  lemma RearrangedRejected(suite: Suite, keys: seq<string>, key: string, salt: bytes, size: nat, p: bytes,
                           order: seq<nat>)
    requires |suite.keyId(key)| == KEY_ID_BYTES && |salt| == SALT_BYTES && ChunkSizeOk(size)
    requires Usable(key) && Configured(suite, keys, key)
    requires Ideal(suite.aead(key, Header(suite.keyId(key), salt, size)))
    requires Encode(suite, key, salt, size, p).Some? && Within(order, |Chunks(p, size)|)
    ensures var header := Header(suite.keyId(key), salt, size);
            var a := suite.aead(key, header);
            DecodeArchive(suite, keys, header + Assemble(a, Chunks(p, size), order)).Ok?
            <==> InOrderFrom(order, 0, |Chunks(p, size)|)
  {
    var a := suite.aead(key, Header(suite.keyId(key), salt, size));
    HeaderIsParsed(suite, keys, key, salt, size, Assemble(a, Chunks(p, size), order));
    OnlyTheOriginalOrderDecodes(a, size, 0, Chunks(p, size), order);
  }

  // ---------------------------------------------------------------------------------------
  // The loops
  // ---------------------------------------------------------------------------------------

  method SealFrame(aead: Aead, index: nat, final: bool, chunk: bytes) returns (frame: bytes)
    requires Correct(aead) && index < FINAL_FLAG && |chunk| <= 16 * CHUNK
    ensures frame == Frame(aead, index, chunk, final)
  {
    var nonce := BackupChunkNonce(index, final);
    var sealed := aead.seal(nonce[..], chunk);
    assert |sealed| == |chunk| + OVERHEAD;
    frame := PutUint32(LengthWord(|sealed|, final)) + sealed;
  }

  /** The encoder's chunk at `position`, and whether the look-ahead finds the end of the input. */
  lemma ChunkAt(input: bytes, size: nat, position: nat, end: nat)
    requires size > 0 && position <= end <= |input|
    requires end == if |input| - position < size then |input| else position + size
    ensures var cs := Chunks(input[position..], size);
            && cs[0] == input[position..end]
            && (|cs| == 1 <==> end - position < size || end == |input|)
            && (|cs| > 1 ==> cs[1..] == Chunks(input[end..], size))
  {
    assert input[position..][..end - position] == input[position..end];
    assert input[position..][end - position..] == input[end..];
    if end == |input| {
      assert input[position..end] == input[position..];
    }
  }

  /** `encryptBackupArchive`: read a chunk, look ahead for the end of the input, seal and write. */
  method EncryptBackupArchive(suite: Suite, key: string, salt: bytes, size: nat, input: bytes)
    returns (output: Option<bytes>)
    requires |suite.keyId(key)| == KEY_ID_BYTES && |salt| == SALT_BYTES && ChunkSizeOk(size)
    requires Correct(suite.aead(key, Header(suite.keyId(key), salt, size)))
    ensures output == Encode(suite, key, salt, size, input)
  {
    if !Usable(key) {
      return None;
    }
    var header := Header(suite.keyId(key), salt, size);
    var body := EncryptFrames(suite.aead(key, header), size, input);
    output := if body.None? then None else Some(header + body.value);
  }

  /** Moving the first frame of what is left to what is written. */
  lemma FramesStep(aead: Aead, index: nat, left: seq<bytes>, written: bytes, frame: bytes)
    requires |left| > 1 && index + |left| <= FINAL_FLAG && frame == Frame(aead, index, left[0], false)
    ensures written + Frames(aead, index, left) == written + frame + Frames(aead, index + 1, left[1..])
  {
  }

  method EncryptFrames(aead: Aead, size: nat, input: bytes) returns (output: Option<bytes>)
    requires ChunkSizeOk(size) && Correct(aead)
    ensures output.None? <==> |Chunks(input, size)| > FINAL_FLAG
    ensures output.Some? ==> output.value == Frames(aead, 0, Chunks(input, size))
  {
    var written: bytes := [];
    var index, position := 0, 0;
    ghost var cs, left := Chunks(input, size), Chunks(input, size);
    assert input[0..] == input;
    while true
      invariant index < FINAL_FLAG && position <= |input|
      invariant left == Chunks(input[position..], size) && |cs| == index + |left|
      invariant |cs| <= FINAL_FLAG ==> Frames(aead, 0, cs) == written + Frames(aead, index, left)
      decreases FINAL_FLAG - index
    {
      var end := if |input| - position < size then |input| else position + size;
      ChunkAt(input, size, position, end);
      var final := end - position < size || end == |input|;
      if !final && index == FINAL_FLAG - 1 {
        return None;
      }
      var frame := SealFrame(aead, index, final, input[position..end]);
      ghost var soFar := written;
      written := written + frame;
      if final {
        return Some(written);
      }
      if |cs| <= FINAL_FLAG {
        FramesStep(aead, index, left, soFar, frame);
      }
      left := left[1..];
      index, position := index + 1, end;
    }
  }

  method FindConfiguredKey(suite: Suite, keys: seq<string>, id: bytes) returns (key: Option<string>)
    ensures key == FindKey(suite, keys, id)
  {
    for i := 0 to |keys|
      invariant FindKey(suite, keys, id) == FindKey(suite, keys[i..], id)
    {
      if Usable(keys[i]) && suite.keyId(keys[i]) == id {
        return Some(keys[i]);
      }
      assert keys[i..][1..] == keys[i + 1..];
    }
    key := None;
  }

  /** `decryptBackupStreamV2`: read, open and write frame after frame until the final one. */
  method DecryptBackupStream(suite: Suite, keys: seq<string>, input: bytes) returns (result: Decoded)
    ensures result == DecodeArchive(suite, keys, input)
  {
    if |input| < MAGIC_BYTES || input[..MAGIC_BYTES] != Magic() || |input| < HEADER_BYTES {
      return Err(BadHeader);
    }
    var header := input[..HEADER_BYTES];
    var size := GetUint32(header[HEADER_BYTES - 4..]);
    if !ChunkSizeOk(size) {
      return Err(BadChunkSize);
    }
    var key := FindConfiguredKey(suite, keys, header[MAGIC_BYTES..MAGIC_BYTES + KEY_ID_BYTES]);
    if key.None? {
      return Err(UnknownKey);
    }
    result := DecryptFrames(suite.aead(key.value, header), size, input[HEADER_BYTES..]);
  }

  method DecryptFrames(aead: Aead, size: nat, input: bytes) returns (result: Decoded)
    ensures result == Decode(aead, size, 0, input)
  {
    var written: bytes := [];
    var rest, index := input, 0;
    while true
      invariant index < FINAL_FLAG
      invariant Decode(aead, size, 0, input) == Joined(written, Decode(aead, size, index, rest))
      decreases |rest|
    {
      var head := ReadFrame(aead, size, index, rest);
      if head.Bad? {
        return Err(head.reason);
      }
      if head.final {
        if head.rest != [] {
          return Err(TrailingData);
        }
        return Ok(written + head.plain);
      }
      if index == FINAL_FLAG - 1 {
        return Err(TooManyChunks);
      }
      JoinedTwice(written, head.plain, Decode(aead, size, index + 1, head.rest));
      written, rest, index := written + head.plain, head.rest, index + 1;
    }
  }

  function Joined(front: bytes, d: Decoded): Decoded {
    match d
    case Ok(plain) => Ok(front + plain)
    case Err(reason) => Err(reason)
  }

  lemma JoinedTwice(x: bytes, y: bytes, d: Decoded)
    ensures Joined(x, Joined(y, d)) == Joined(x + y, d)
  {
    if d.Ok? {
      assert x + (y + d.plain) == x + y + d.plain;
    }
  }
}
