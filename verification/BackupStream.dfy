/**
  The encrypted backup stream, version 2: a header, then frames of a 32-bit word (sealed length,
  with the top bit marking the final frame) and one sealed chunk.  Each chunk's nonce encodes its
  position and whether it is final.

  AES-GCM under an archive's subkey and header is a pair of functions; what is assumed of it is
  stated as `Correct` and `Ideal`.
*/
module BackupStream {
  import opened Optional

  type byte = x: int | 0 <= x < 256
  type bytes = seq<byte>

  const FINAL_FLAG: nat := 0x8000_0000
  const OVERHEAD: nat := 16
  const CHUNK: nat := 0x10_0000
  const NONCE_BYTES: nat := 12

  // ---------------------------------------------------------------------------------------
  // Big-endian words and nonces
  // ---------------------------------------------------------------------------------------

  function Pow256(n: nat): nat {
    if n == 0 then 1 else 256 * Pow256(n - 1)
  }

  /** `n` bytes, most significant first. */
  function PutBigEndian(v: nat, n: nat): (b: bytes)
    ensures |b| == n
    decreases n, v
  {
    if n == 0 then [] else PutBigEndian(v / 256, n - 1) + [v % 256]
  }

  function GetBigEndian(b: bytes): nat {
    if b == [] then 0 else 256 * GetBigEndian(b[..|b| - 1]) + b[|b| - 1]
  }

  lemma {:induction false} BigEndianRoundTrip(v: nat, n: nat)
    requires v < Pow256(n)
    ensures GetBigEndian(PutBigEndian(v, n)) == v
  {
    if n > 0 {
      BigEndianRoundTrip(v / 256, n - 1);
      var b := PutBigEndian(v, n);
      assert b[..n - 1] == PutBigEndian(v / 256, n - 1) && b[n - 1] == v % 256;
    }
  }

  lemma {:induction false} BigEndianCanonical(b: bytes)
    ensures GetBigEndian(b) < Pow256(|b|)
    ensures PutBigEndian(GetBigEndian(b), |b|) == b
  {
    if b != [] {
      BigEndianCanonical(b[..|b| - 1]);
      var v := GetBigEndian(b);
      assert v / 256 == GetBigEndian(b[..|b| - 1]) && v % 256 == b[|b| - 1];
      assert b == b[..|b| - 1] + [b[|b| - 1]];
    }
  }

  lemma Pow256Of4()
    ensures Pow256(4) == 0x1_0000_0000
  {
    assert Pow256(1) == 256 && Pow256(2) == 0x1_0000 && Pow256(3) == 0x100_0000;
  }

  function PutUint32(v: nat): (b: bytes)
    requires v < 0x1_0000_0000
    ensures |b| == 4
  {
    PutBigEndian(v, 4)
  }

  function GetUint32(b: bytes): (v: nat)
    requires |b| == 4
    ensures v < 0x1_0000_0000
  {
    BigEndianCanonical(b);
    Pow256Of4();
    GetBigEndian(b)
  }

  lemma Uint32RoundTrip(v: nat)
    requires v < 0x1_0000_0000
    ensures GetUint32(PutUint32(v)) == v
  {
    Pow256Of4();
    BigEndianRoundTrip(v, 4);
  }

  lemma Uint32Canonical(b: bytes)
    requires |b| == 4
    ensures PutUint32(GetUint32(b)) == b
  {
    BigEndianCanonical(b);
  }

  /** The word before a sealed chunk; the flag is added because a sealed length never reaches it. */
  function LengthWord(size: nat, final: bool): nat
    requires size < FINAL_FLAG
  {
    if final then size + FINAL_FLAG else size
  }

  /** The length and the flag are both read back from the word. */
  lemma LengthWordParts(size: nat, final: bool)
    requires size < FINAL_FLAG
    ensures var word := LengthWord(size, final);
            word < 0x1_0000_0000 && (word >= FINAL_FLAG) == final && word % FINAL_FLAG == size
  {
  }

  function ChunkNonce(index: nat, final: bool): (nonce: bytes)
    requires index < FINAL_FLAG
    ensures |nonce| == NONCE_BYTES
  {
    [0, 0, 0, 0, 0, 0, 0] + PutUint32(index) + [if final then 1 else 0]
  }

  /** No two positions of an archive share a nonce (section 8 of NIST SP 800-38D). */
  lemma NonceIdentifiesPosition(i: nat, f: bool, j: nat, g: bool)
    requires i < FINAL_FLAG && j < FINAL_FLAG && ChunkNonce(i, f) == ChunkNonce(j, g)
    ensures i == j && f == g
  {
    var x, y := ChunkNonce(i, f), ChunkNonce(j, g);
    assert x[7..11] == PutUint32(i) && y[7..11] == PutUint32(j);
    assert x[11] == y[11];
    Uint32RoundTrip(i);
    Uint32RoundTrip(j);
  }

  /** `backupChunkNonceV2` fills the nonce bytes in place. */
  method BackupChunkNonce(index: nat, final: bool) returns (nonce: array<byte>)
    requires index < FINAL_FLAG
    ensures fresh(nonce) && nonce[..] == ChunkNonce(index, final)
  {
    nonce := new byte[NONCE_BYTES](_ => 0);
    var word := PutUint32(index);
    nonce[7], nonce[8], nonce[9], nonce[10] := word[0], word[1], word[2], word[3];
    if final {
      nonce[11] := 1;
    }
    assert nonce[..] == [0, 0, 0, 0, 0, 0, 0] + nonce[7..11] + [nonce[11]];
    assert nonce[7..11] == word;
  }

  // ---------------------------------------------------------------------------------------
  // The AEAD
  // ---------------------------------------------------------------------------------------

  /** Authenticated encryption under one archive's subkey, with its header as associated data. */
  datatype Aead = Aead(seal: (bytes, bytes) -> bytes, open: (bytes, bytes) -> Option<bytes>)

  ghost predicate Correct(a: Aead) {
    forall n: bytes, p: bytes {:trigger a.seal(n, p)} ::
      |a.seal(n, p)| == |p| + OVERHEAD && a.open(n, a.seal(n, p)) == Some(p)
  }

  /** Only sealed texts open. */
  ghost predicate Authentic(a: Aead) {
    forall n: bytes, c: bytes {:trigger a.open(n, c)} ::
      a.open(n, c).Some? ==> a.seal(n, a.open(n, c).value) == c
  }

  /** A sealed text belongs to one nonce. */
  ghost predicate NonceBound(a: Aead) {
    forall n: bytes, p: bytes, m: bytes, q: bytes {:trigger a.seal(n, p), a.seal(m, q)} ::
      |n| == |m| == NONCE_BYTES && a.seal(n, p) == a.seal(m, q) ==> n == m
  }

  ghost predicate Ideal(a: Aead) {
    Correct(a) && Authentic(a) && NonceBound(a)
  }

  /** The hypotheses are consistent: appending the nonce, padded to the overhead, satisfies them. */
  lemma IdealExists() returns (a: Aead)
    ensures Ideal(a)
  {
    a := Aead(
      (n: bytes, p: bytes) => p + Tag(n),
      (n: bytes, c: bytes) => if |c| >= OVERHEAD && c[|c| - OVERHEAD..] == Tag(n) then Some(c[..|c| - OVERHEAD])
        else None);
    forall n: bytes, p: bytes ensures |a.seal(n, p)| == |p| + OVERHEAD && a.open(n, a.seal(n, p)) == Some(p) {
      assert (p + Tag(n))[|p|..] == Tag(n) && (p + Tag(n))[..|p|] == p;
    }
    forall n: bytes, c: bytes | a.open(n, c).Some? ensures a.seal(n, a.open(n, c).value) == c {
      assert c == c[..|c| - OVERHEAD] + c[|c| - OVERHEAD..];
    }
    forall n: bytes, p: bytes, m: bytes, q: bytes
      | |n| == |m| == NONCE_BYTES && a.seal(n, p) == a.seal(m, q)
      ensures n == m
    {
      assert (p + Tag(n))[|p|..] == Tag(n) && (q + Tag(m))[|q|..] == Tag(m) && |p| == |q|;
      assert Tag(n)[..NONCE_BYTES] == n && Tag(m)[..NONCE_BYTES] == m;
    }
  }

  function Tag(n: bytes): (t: bytes)
    ensures |t| == OVERHEAD
  {
    if |n| == NONCE_BYTES then n + [0, 0, 0, 0] else seq(OVERHEAD, _ => 0)
  }

  // ---------------------------------------------------------------------------------------
  // The frame format
  // ---------------------------------------------------------------------------------------

  /** The encoder's chunks: full ones while more input follows; the last may be short, or empty. */
  function Chunks(p: bytes, size: nat): (cs: seq<bytes>)
    requires size > 0
    ensures WellChunked(cs, size)
    decreases |p|
  {
    if |p| <= size then [p] else [p[..size]] + Chunks(p[size..], size)
  }

  predicate WellChunked(cs: seq<bytes>, size: nat) {
    && |cs| > 0 && |cs[|cs| - 1]| <= size
    && forall i | 0 <= i < |cs| - 1 :: |cs[i]| == size
  }

  function Flatten(cs: seq<bytes>): bytes {
    if cs == [] then [] else cs[0] + Flatten(cs[1..])
  }

  lemma {:induction false} FlattenChunks(p: bytes, size: nat)
    requires size > 0
    ensures Flatten(Chunks(p, size)) == p
    decreases |p|
  {
    if |p| <= size {
      assert Flatten([p]) == p + Flatten([]);
    } else {
      FlattenChunks(p[size..], size);
      assert Chunks(p, size)[1..] == Chunks(p[size..], size);
    }
  }

  function Frame(a: Aead, index: nat, chunk: bytes, final: bool): bytes
    requires index < FINAL_FLAG
  {
    var sealed := a.seal(ChunkNonce(index, final), chunk);
    PutUint32(LengthWord(|sealed| % FINAL_FLAG, final)) + sealed
  }

  function Frames(a: Aead, index: nat, cs: seq<bytes>): bytes
    requires |cs| > 0 && index + |cs| <= FINAL_FLAG
    decreases |cs|
  {
    if |cs| == 1 then
      Frame(a, index, cs[0], true)
    else
      Frame(a, index, cs[0], false) + Frames(a, index + 1, cs[1..])
  }

  datatype Reason =
    | BadHeader | BadChunkSize | UnknownKey
    | FinalMissing | ShortRead | BadFrameSize | AuthenticationFailed | ShortChunk | TooManyChunks | TrailingData

  datatype Decoded = Ok(plain: bytes) | Err(reason: Reason)

  /** What the decoder learns from the front of the remaining input. */
  datatype Head = Head(final: bool, plain: bytes, rest: bytes) | Bad(reason: Reason)

  function ReadFrame(a: Aead, size: nat, index: nat, s: bytes): (h: Head)
    requires index < FINAL_FLAG
    ensures h.Head? ==> |h.rest| < |s|
  {
    if |s| == 0 then Bad(FinalMissing)
    else if |s| < 4 then Bad(ShortRead)
    else
      var word := GetUint32(s[..4]);
      var final := word >= FINAL_FLAG;
      var length := word % FINAL_FLAG;
      if length < OVERHEAD || length > size + OVERHEAD then Bad(BadFrameSize)
      else if |s| - 4 < length then Bad(ShortRead)
      else match a.open(ChunkNonce(index, final), s[4..4 + length])
        case None => Bad(AuthenticationFailed)
        case Some(plain) =>
          if !final && |plain| != size then Bad(ShortChunk) else Head(final, plain, s[4 + length..])
  }

  function Decode(a: Aead, size: nat, index: nat, s: bytes): Decoded
    requires index < FINAL_FLAG
    decreases |s|
  {
    match ReadFrame(a, size, index, s)
    case Bad(reason) => Err(reason)
    case Head(final, plain, rest) =>
      if final then
        if rest == [] then Ok(plain) else Err(TrailingData)
      else if index == FINAL_FLAG - 1 then
        Err(TooManyChunks)
      else match Decode(a, size, index + 1, rest)
        case Ok(more) => Ok(plain + more)
        case Err(reason) => Err(reason)
  }

  predicate ChunkSizeOk(size: nat) {
    0 < size <= 16 * CHUNK
  }

  // ---------------------------------------------------------------------------------------
  // The decoder accepts exactly the well-formed streams
  // ---------------------------------------------------------------------------------------

  /** The bytes of a frame: its word tells final from not final and gives the sealed length. */
  lemma FrameLayout(a: Aead, index: nat, chunk: bytes, final: bool)
    requires Correct(a) && index < FINAL_FLAG && |chunk| <= 16 * CHUNK
    ensures var f := Frame(a, index, chunk, final);
            var word := GetUint32(f[..4]);
            && |f| == 4 + |chunk| + OVERHEAD
            && (word >= FINAL_FLAG) == final && word % FINAL_FLAG == |chunk| + OVERHEAD
            && f[4..] == a.seal(ChunkNonce(index, final), chunk)
  {
    var sealed := a.seal(ChunkNonce(index, final), chunk);
    assert |sealed| == |chunk| + OVERHEAD;
    var word := LengthWord(|sealed|, final);
    LengthWordParts(|sealed|, final);
    Uint32RoundTrip(word);
    var f := PutUint32(word) + sealed;
    assert f[..4] == PutUint32(word) && f[4..] == sealed;
    assert Frame(a, index, chunk, final) == f;
  }

  /** A frame in front of anything is read back. */
  lemma FrameIsRead(a: Aead, size: nat, index: nat, chunk: bytes, final: bool, rest: bytes)
    requires Correct(a) && ChunkSizeOk(size) && index < FINAL_FLAG
    requires |chunk| <= size && (!final ==> |chunk| == size)
    ensures ReadFrame(a, size, index, Frame(a, index, chunk, final) + rest) == Head(final, chunk, rest)
    ensures |Frame(a, index, chunk, final)| == 4 + |chunk| + OVERHEAD
  {
    FrameLayout(a, index, chunk, final);
    var f := Frame(a, index, chunk, final);
    var s := f + rest;
    assert s[..4] == f[..4] && s[4..|f|] == f[4..] && s[|f|..] == rest;
    assert a.open(ChunkNonce(index, final), f[4..]) == Some(chunk);
  }

  /** Decoding past one frame. */
  lemma DecodeFrame(a: Aead, size: nat, index: nat, chunk: bytes, final: bool, rest: bytes)
    requires Correct(a) && ChunkSizeOk(size) && index < FINAL_FLAG && (!final ==> index + 1 < FINAL_FLAG)
    requires |chunk| <= size && (!final ==> |chunk| == size)
    ensures |Frame(a, index, chunk, final)| == 4 + |chunk| + OVERHEAD
    ensures Decode(a, size, index, Frame(a, index, chunk, final) + rest) ==
            if final then if rest == [] then Ok(chunk) else Err(TrailingData)
            else match Decode(a, size, index + 1, rest)
              case Ok(more) => Ok(chunk + more)
              case Err(reason) => Err(reason)
  {
    FrameIsRead(a, size, index, chunk, final, rest);
  }

  lemma {:induction false} WellFormedAccepted(a: Aead, size: nat, index: nat, cs: seq<bytes>)
    requires Correct(a) && ChunkSizeOk(size) && WellChunked(cs, size) && index + |cs| <= FINAL_FLAG
    ensures Decode(a, size, index, Frames(a, index, cs)) == Ok(Flatten(cs))
    decreases |cs|
  {
    if |cs| == 1 {
      LastFrameAccepted(a, size, index, cs[0]);
      assert cs == [cs[0]];
    } else {
      assert WellChunked(cs[1..], size);
      WellFormedAccepted(a, size, index + 1, cs[1..]);
      DecodeFrame(a, size, index, cs[0], false, Frames(a, index + 1, cs[1..]));
    }
  }

  lemma LastFrameAccepted(a: Aead, size: nat, index: nat, chunk: bytes)
    requires Correct(a) && ChunkSizeOk(size) && |chunk| <= size && index < FINAL_FLAG
    ensures Decode(a, size, index, Frames(a, index, [chunk])) == Ok(Flatten([chunk]))
  {
    DecodeFrame(a, size, index, chunk, true, []);
    assert Frame(a, index, chunk, true) + [] == Frame(a, index, chunk, true);
    assert Flatten([chunk]) == chunk + Flatten([]);
  }

  /** What `ReadFrame` accepts is a frame. */
  lemma FrameWasSealed(a: Aead, size: nat, index: nat, s: bytes)
    requires Correct(a) && Authentic(a) && ChunkSizeOk(size) && index < FINAL_FLAG
    requires ReadFrame(a, size, index, s).Head?
    ensures var h := ReadFrame(a, size, index, s);
            && s == Frame(a, index, h.plain, h.final) + h.rest
            && |h.plain| <= size && (!h.final ==> |h.plain| == size)
  {
    var h := ReadFrame(a, size, index, s);
    var word := GetUint32(s[..4]);
    var length := word % FINAL_FLAG;
    assert a.seal(ChunkNonce(index, h.final), h.plain) == s[4..4 + length];
    SealedFrame(a, index, s, h.plain, h.final);
  }

  /** A word and the sealed bytes it announces make up the frame of their chunk. */
  lemma SealedFrame(a: Aead, index: nat, s: bytes, plain: bytes, final: bool)
    requires Correct(a) && index < FINAL_FLAG && |s| >= 4
    requires var word := GetUint32(s[..4]);
             && final == (word >= FINAL_FLAG) && 4 + word % FINAL_FLAG <= |s|
             && a.seal(ChunkNonce(index, final), plain) == s[4..4 + word % FINAL_FLAG]
    ensures var length := GetUint32(s[..4]) % FINAL_FLAG;
            |plain| + OVERHEAD == length && s == Frame(a, index, plain, final) + s[4 + length..]
  {
    var word := GetUint32(s[..4]);
    var length := word % FINAL_FLAG;
    Uint32Canonical(s[..4]);
    assert LengthWord(length, final) == word;
    assert s == s[..4] + s[4..4 + length] + s[4 + length..];
  }

  /** The first frame of an accepted stream. */
  lemma AcceptedHead(a: Aead, size: nat, index: nat, s: bytes) returns (final: bool, chunk: bytes, rest: bytes)
    requires Correct(a) && Authentic(a) && ChunkSizeOk(size) && index < FINAL_FLAG
    requires Decode(a, size, index, s).Ok?
    ensures s == Frame(a, index, chunk, final) + rest && |rest| < |s|
    ensures |chunk| <= size && (!final ==> |chunk| == size)
    ensures final ==> rest == [] && Decode(a, size, index, s).plain == chunk
    ensures !final ==> index + 1 < FINAL_FLAG && Decode(a, size, index + 1, rest).Ok?
                       && Decode(a, size, index, s).plain == chunk + Decode(a, size, index + 1, rest).plain
  {
    FrameWasSealed(a, size, index, s);
    var h := ReadFrame(a, size, index, s);
    final, chunk, rest := h.final, h.plain, h.rest;
  }

  lemma PrependChunk(a: Aead, size: nat, index: nat, chunk: bytes, more: seq<bytes>)
    requires WellChunked(more, size) && |chunk| == size && index + 1 + |more| <= FINAL_FLAG
    ensures WellChunked([chunk] + more, size)
    ensures Frames(a, index, [chunk] + more) == Frame(a, index, chunk, false) + Frames(a, index + 1, more)
    ensures Flatten([chunk] + more) == chunk + Flatten(more)
  {
    assert ([chunk] + more)[1..] == more;
  }

  /** The converse of `WellFormedAccepted`: an accepted stream is the framing of some chunks. */
  lemma {:induction false} AcceptedIsWellFormed(a: Aead, size: nat, index: nat, s: bytes) returns (cs: seq<bytes>)
    requires Correct(a) && Authentic(a) && ChunkSizeOk(size) && index < FINAL_FLAG
    requires Decode(a, size, index, s).Ok?
    ensures WellChunked(cs, size) && index + |cs| <= FINAL_FLAG
    ensures s == Frames(a, index, cs) && Decode(a, size, index, s).plain == Flatten(cs)
    decreases |s|
  {
    var final, chunk, rest := AcceptedHead(a, size, index, s);
    if final {
      cs := [chunk];
      assert Flatten(cs) == chunk + Flatten([]);
      assert Frame(a, index, chunk, true) + [] == Frame(a, index, chunk, true);
    } else {
      var more := AcceptedIsWellFormed(a, size, index + 1, rest);
      cs := [chunk] + more;
      PrependChunk(a, size, index, chunk, more);
    }
  }

  // ---------------------------------------------------------------------------------------
  // Damaged streams are rejected
  // ---------------------------------------------------------------------------------------

  lemma {:induction false} ProperPrefixRejected(a: Aead, size: nat, index: nat, cs: seq<bytes>, k: nat)
    requires Correct(a) && ChunkSizeOk(size) && WellChunked(cs, size) && index + |cs| <= FINAL_FLAG
    requires k < |Frames(a, index, cs)|
    ensures Decode(a, size, index, Frames(a, index, cs)[..k]).Err?
    decreases |cs|
  {
    var s := Frames(a, index, cs);
    var first := Frame(a, index, cs[0], |cs| == 1);
    FrameIsRead(a, size, index, cs[0], |cs| == 1, []);
    if k < |first| {
      assert s[..k] == first[..k];
      CutFrameRejected(a, size, index, cs[0], |cs| == 1, k);
    } else {
      var rest := Frames(a, index + 1, cs[1..]);
      assert s[..k] == first + rest[..k - |first|];
      DecodeFrame(a, size, index, cs[0], false, rest[..k - |first|]);
      assert WellChunked(cs[1..], size);
      ProperPrefixRejected(a, size, index + 1, cs[1..], k - |first|);
    }
  }

  lemma CutFrameRejected(a: Aead, size: nat, index: nat, chunk: bytes, final: bool, k: nat)
    requires Correct(a) && ChunkSizeOk(size) && index < FINAL_FLAG
    requires |chunk| <= size && (!final ==> |chunk| == size)
    requires k < |Frame(a, index, chunk, final)|
    ensures ReadFrame(a, size, index, Frame(a, index, chunk, final)[..k]).Bad?
  {
    FrameLayout(a, index, chunk, final);
    var f := Frame(a, index, chunk, final);
    if k >= 4 {
      assert f[..k][..4] == f[..4];
    }
  }

  lemma {:induction false} ExtensionRejected(a: Aead, size: nat, index: nat, cs: seq<bytes>, extra: bytes)
    requires Correct(a) && ChunkSizeOk(size) && WellChunked(cs, size) && index + |cs| <= FINAL_FLAG
    requires extra != []
    ensures Decode(a, size, index, Frames(a, index, cs) + extra) == Err(TrailingData)
    decreases |cs|
  {
    if |cs| == 1 {
      DecodeFrame(a, size, index, cs[0], true, extra);
    } else {
      var rest := Frames(a, index + 1, cs[1..]);
      assert Frames(a, index, cs) + extra == Frame(a, index, cs[0], false) + (rest + extra);
      DecodeFrame(a, size, index, cs[0], false, rest + extra);
      assert WellChunked(cs[1..], size);
      ExtensionRejected(a, size, index + 1, cs[1..], extra);
    }
  }

  /** The frame an archive with chunks `cs` holds at position `j`. */
  function FrameAt(a: Aead, cs: seq<bytes>, j: nat): bytes
    requires j < |cs| <= FINAL_FLAG
  {
    Frame(a, j, cs[j], j == |cs| - 1)
  }

  predicate Within(order: seq<nat>, n: nat) {
    forall i | 0 <= i < |order| :: order[i] < n
  }

  /** A stream assembled from an archive's own frames, in any order, with any repetition. */
  function Assemble(a: Aead, cs: seq<bytes>, order: seq<nat>): bytes
    requires |cs| <= FINAL_FLAG && Within(order, |cs|)
  {
    if order == [] then [] else FrameAt(a, cs, order[0]) + Assemble(a, cs, order[1..])
  }

  predicate InOrderFrom(order: seq<nat>, start: nat, n: nat)
    requires start <= n
  {
    |order| == n - start && forall i | 0 <= i < |order| :: order[i] == start + i
  }

  lemma MovedFrameRejected(a: Aead, size: nat, index: nat, cs: seq<bytes>, j: nat, rest: bytes)
    requires Ideal(a) && ChunkSizeOk(size) && WellChunked(cs, size) && j < |cs| <= FINAL_FLAG
    requires index < FINAL_FLAG && index != j
    ensures ReadFrame(a, size, index, FrameAt(a, cs, j) + rest).Bad?
  {
    var final := j == |cs| - 1;
    var f := FrameAt(a, cs, j);
    FrameLayout(a, j, cs[j], final);
    assert (f + rest)[..4] == f[..4] && (f + rest)[4..|f|] == f[4..];
    if a.open(ChunkNonce(index, final), f[4..]).Some? {
      SealedElsewhere(a, index, j, final, cs[j]);
    }
  }

  lemma SealedElsewhere(a: Aead, index: nat, j: nat, final: bool, chunk: bytes)
    requires Ideal(a) && index < FINAL_FLAG && j < FINAL_FLAG
    requires a.open(ChunkNonce(index, final), a.seal(ChunkNonce(j, final), chunk)).Some?
    ensures index == j
  {
    var n, m := ChunkNonce(index, final), ChunkNonce(j, final);
    assert a.seal(n, a.open(n, a.seal(m, chunk)).value) == a.seal(m, chunk);
    NonceIdentifiesPosition(index, final, j, final);
  }

  lemma HeadMoved(a: Aead, size: nat, index: nat, cs: seq<bytes>, j: nat, rest: bytes)
    requires Ideal(a) && ChunkSizeOk(size) && WellChunked(cs, size) && j < |cs| <= FINAL_FLAG
    requires index < FINAL_FLAG && index != j
    ensures Decode(a, size, index, FrameAt(a, cs, j) + rest).Err?
  {
    MovedFrameRejected(a, size, index, cs, j, rest);
  }

  lemma HeadInPlace(a: Aead, size: nat, index: nat, cs: seq<bytes>, rest: bytes)
    requires Correct(a) && ChunkSizeOk(size) && WellChunked(cs, size) && index < |cs| <= FINAL_FLAG
    ensures Decode(a, size, index, FrameAt(a, cs, index) + rest).Ok? <==>
            if index == |cs| - 1 then rest == [] else Decode(a, size, index + 1, rest).Ok?
  {
    DecodeFrame(a, size, index, cs[index], index == |cs| - 1, rest);
  }

  lemma AssemblyHead(a: Aead, cs: seq<bytes>, order: seq<nat>) returns (rest: bytes)
    requires |cs| <= FINAL_FLAG && Within(order, |cs|) && order != []
    ensures rest == Assemble(a, cs, order[1..]) && Assemble(a, cs, order) == FrameAt(a, cs, order[0]) + rest
  {
    rest := Assemble(a, cs, order[1..]);
  }

  /** An assembly is accepted when it starts with the frame of the position reached and the rest is accepted. */
  lemma AssemblyStep(a: Aead, size: nat, index: nat, cs: seq<bytes>, order: seq<nat>)
    requires Ideal(a) && ChunkSizeOk(size) && WellChunked(cs, size) && index < |cs| <= FINAL_FLAG
    requires Within(order, |cs|) && order != []
    ensures Decode(a, size, index, Assemble(a, cs, order)).Ok? <==>
            && order[0] == index
            && if index == |cs| - 1 then order[1..] == []
              else Decode(a, size, index + 1, Assemble(a, cs, order[1..])).Ok?
  {
    var rest := AssemblyHead(a, cs, order);
    if order[0] != index {
      HeadMoved(a, size, index, cs, order[0], rest);
    } else if index == |cs| - 1 {
      LastInPlace(a, size, cs, order[1..]);
    } else {
      HeadInPlace(a, size, index, cs, rest);
    }
  }

  /** Any dropped, repeated or reordered frame is rejected: only the original order decodes. */
  lemma OnlyTheOriginalOrderDecodes(a: Aead, size: nat, index: nat, cs: seq<bytes>, order: seq<nat>)
    requires Ideal(a) && ChunkSizeOk(size) && WellChunked(cs, size) && index < |cs| <= FINAL_FLAG
    requires Within(order, |cs|)
    ensures Decode(a, size, index, Assemble(a, cs, order)).Ok? <==> InOrderFrom(order, index, |cs|)
  {
    AssemblyIsWalked(a, size, index, cs, order);
    WalkIsInOrder(order, index, |cs|);
  }

  /** The positions the decoder accepts one after the other. */
  predicate Walks(order: seq<nat>, index: nat, n: nat)
    requires index < n
    decreases |order|
  {
    order != [] && order[0] == index && if index == n - 1 then order[1..] == [] else Walks(order[1..], index + 1, n)
  }

  lemma {:induction false} AssemblyIsWalked(a: Aead, size: nat, index: nat, cs: seq<bytes>, order: seq<nat>)
    requires Ideal(a) && ChunkSizeOk(size) && WellChunked(cs, size) && index < |cs| <= FINAL_FLAG
    requires Within(order, |cs|)
    ensures Decode(a, size, index, Assemble(a, cs, order)).Ok? <==> Walks(order, index, |cs|)
    decreases |order|
  {
    if order != [] {
      AssemblyStep(a, size, index, cs, order);
      if index < |cs| - 1 {
        AssemblyIsWalked(a, size, index + 1, cs, order[1..]);
      }
    }
  }

  lemma {:induction false} WalkIsInOrder(order: seq<nat>, index: nat, n: nat)
    requires index < n
    ensures Walks(order, index, n) <==> InOrderFrom(order, index, n)
    decreases |order|
  {
    InOrderUnfold(order, index, n);
    if order != [] && index < n - 1 {
      WalkIsInOrder(order[1..], index + 1, n);
    }
  }

  lemma LastInPlace(a: Aead, size: nat, cs: seq<bytes>, order: seq<nat>)
    requires Correct(a) && ChunkSizeOk(size) && WellChunked(cs, size) && 0 < |cs| <= FINAL_FLAG && Within(order, |cs|)
    ensures Decode(a, size, |cs| - 1, FrameAt(a, cs, |cs| - 1) + Assemble(a, cs, order)).Ok? <==> order == []
  {
    HeadInPlace(a, size, |cs| - 1, cs, Assemble(a, cs, order));
    if order != [] {
      NonemptyAssembly(a, size, cs, order);
    }
  }

  lemma InOrderUnfold(order: seq<nat>, start: nat, n: nat)
    requires start < n
    ensures InOrderFrom(order, start, n)
       <==> order != [] && order[0] == start && InOrderFrom(order[1..], start + 1, n)
  {
    if order != [] && InOrderFrom(order[1..], start + 1, n) {
      assert forall i | 0 < i < |order| :: order[i] == order[1..][i - 1];
    }
  }

  lemma NonemptyAssembly(a: Aead, size: nat, cs: seq<bytes>, order: seq<nat>)
    requires Correct(a) && ChunkSizeOk(size) && WellChunked(cs, size) && |cs| <= FINAL_FLAG
    requires order != [] && Within(order, |cs|)
    ensures Assemble(a, cs, order) != []
  {
    FrameIsRead(a, size, order[0], cs[order[0]], order[0] == |cs| - 1, []);
  }
}
