/** Strict RIFF/WAVE traversal and decoding. */
module Wav {
  import Division
  import opened Bytes
  import opened Grids
  import opened Interleaved
  import opened Results
  import opened Sequences

  const RIFF: Bytes := [0x52, 0x49, 0x46, 0x46]
  const WAVE: Bytes := [0x57, 0x41, 0x56, 0x45]
  const FMT: Bytes := [0x66, 0x6d, 0x74, 0x20]
  const DATA: Bytes := [0x64, 0x61, 0x74, 0x61]

  const PCM_TAG := 1
  const IEEE_FLOAT_TAG := 3
  const ALAW_TAG := 6
  const ULAW_TAG := 7
  const EXTENSIBLE_TAG := 0xfffe
  const GUID_TAIL: Bytes := [0x00, 0x00, 0x00, 0x00, 0x10, 0x00, 0x80, 0x00, 0x00, 0xaa, 0x00, 0x38, 0x9b, 0x71]
  const PCM_SUBFORMAT_GUID: Bytes := [0x01, 0x00] + GUID_TAIL
  const IEEE_FLOAT_SUBFORMAT_GUID: Bytes := [0x03, 0x00] + GUID_TAIL

  datatype WavFormat = WavFormat(tag: nat, channels: nat, sampleRate: nat, bitsPerSample: nat, blockAlign: nat)

  datatype DecodedAudio<S> = DecodedAudio(sampleRate: nat, channels: seq<seq<S>>)

  datatype WavError = NotRiff | WrongSize | Truncated | DuplicateFmt | DuplicateData | BadFormat
                    | MissingFmt | MissingData | EmptyData | IncompleteFrame | BadSample

  // ---- The format chunk -------------------------------------------------------------

  function FieldAt(bytes: Bytes, start: nat, width: nat): nat
    requires start + width <= |bytes|
  {
    FromLittleEndian(bytes[start..start + width])
  }

  /** The tag, through the extensible header where there is one. */
  function FormatTag(body: Bytes): Option<nat>
    requires |body| >= 16
  {
    var original := FieldAt(body, 0, 2);
    if original != EXTENSIBLE_TAG then Some(original)
    else if |body| < 40 || FieldAt(body, 16, 2) != 22 || FieldAt(body, 18, 2) != FieldAt(body, 14, 2) then None
    else if body[24..40] == PCM_SUBFORMAT_GUID then Some(PCM_TAG)
    else if body[24..40] == IEEE_FLOAT_SUBFORMAT_GUID then Some(IEEE_FLOAT_TAG)
    else None
  }

  predicate SupportedSample(tag: nat, bits: nat) {
    || (tag == PCM_TAG && (bits == 8 || bits == 16 || bits == 24 || bits == 32))
    || (tag == IEEE_FLOAT_TAG && bits == 32)
    || ((tag == ALAW_TAG || tag == ULAW_TAG) && bits == 8)
  }

  function ParseFormat(body: Bytes): (r: Option<WavFormat>)
    ensures r.Some? ==>
      var f := r.value;
      f.channels > 0 && f.sampleRate > 0 && SupportedSample(f.tag, f.bitsPerSample)
        && f.blockAlign == Area(f.channels, f.bitsPerSample / 8) > 0
  {
    if |body| < 16 then None
    else match FormatTag(body)
      case None => None
      case Some(tag) =>
        var channels, rate := FieldAt(body, 2, 2), FieldAt(body, 4, 4);
        var byteRate, align, bits := FieldAt(body, 8, 4), FieldAt(body, 12, 2), FieldAt(body, 14, 2);
        if channels == 0 || rate == 0 || !SupportedSample(tag, bits) then None
        else if align != Area(channels, bits / 8) || byteRate != rate * align then None
        else
          AreaMonotone(1, 1, channels, bits / 8);
          Some(WavFormat(tag, channels, rate, bits, align))
  }

  /** What a format chunk can spell: a supported sample, and an alignment and a byte rate that fit their fields. */
  predicate ValidFormat(f: WavFormat) {
    && 0 < f.channels < Power256(2) && 0 < f.sampleRate < Power256(4) && SupportedSample(f.tag, f.bitsPerSample)
    && f.blockAlign == Area(f.channels, f.bitsPerSample / 8) < Power256(2)
    && ByteRate(f) < Power256(4)
  }

  function ByteRate(f: WavFormat): nat { f.sampleRate * f.blockAlign }

  function CommonFields(tag: nat, f: WavFormat): (r: Bytes)
    ensures |r| == 16
  {
    LittleEndian(tag, 2) + LittleEndian(f.channels, 2) + LittleEndian(f.sampleRate, 4) + LittleEndian(ByteRate(f), 4)
    + LittleEndian(f.blockAlign, 2) + LittleEndian(f.bitsPerSample, 2)
  }

  /** A plain header, or an extensible one with a speaker mask nobody reads. */
  datatype Header = Plain | Extensible(mask: Bytes)

  predicate ValidHeader(header: Header, f: WavFormat) {
    match header
    case Plain => true
    case Extensible(mask) => |mask| == 4 && (f.tag == PCM_TAG || f.tag == IEEE_FLOAT_TAG)
  }

  function Extension(f: WavFormat, mask: Bytes): Bytes {
    LittleEndian(22, 2) + LittleEndian(f.bitsPerSample, 2) + mask
    + if f.tag == PCM_TAG then PCM_SUBFORMAT_GUID else IEEE_FLOAT_SUBFORMAT_GUID
  }

  /** The body of a format chunk; `extra` is whatever follows what the parser looks at. */
  function EncodeFormat(f: WavFormat, header: Header, extra: Bytes): Bytes {
    match header
    case Plain => CommonFields(f.tag, f) + extra
    case Extensible(mask) => CommonFields(EXTENSIBLE_TAG, f) + Extension(f, mask) + extra
  }

  lemma SlicesOf(a: Bytes, b: Bytes, c: Bytes, d: Bytes, e: Bytes, g: Bytes, rest: Bytes)
    requires |a| == |b| == |e| == |g| == 2 && |c| == |d| == 4
    ensures var s := a + b + c + d + e + g + rest;
      && s[0..2] == a && s[2..4] == b && s[4..8] == c && s[8..12] == d && s[12..14] == e && s[14..16] == g
      && s[16..] == rest
  {
  }

  lemma CommonRead(tag: nat, f: WavFormat, rest: Bytes)
    requires tag < Power256(2) && ValidFormat(f)
    ensures var body := CommonFields(tag, f) + rest;
      && FieldAt(body, 0, 2) == tag && FieldAt(body, 2, 2) == f.channels && FieldAt(body, 4, 4) == f.sampleRate
      && FieldAt(body, 8, 4) == ByteRate(f) && FieldAt(body, 12, 2) == f.blockAlign
      && FieldAt(body, 14, 2) == f.bitsPerSample && body[16..] == rest
  {
    Power256Known();
    hide LittleEndian, FromLittleEndian, Power256, ByteRate, Area;
    SlicesOf(LittleEndian(tag, 2), LittleEndian(f.channels, 2), LittleEndian(f.sampleRate, 4),
             LittleEndian(ByteRate(f), 4), LittleEndian(f.blockAlign, 2), LittleEndian(f.bitsPerSample, 2), rest);
    LittleEndianRoundTrip(tag, 2);
    LittleEndianRoundTrip(f.channels, 2);
    LittleEndianRoundTrip(f.sampleRate, 4);
    LittleEndianRoundTrip(ByteRate(f), 4);
    LittleEndianRoundTrip(f.blockAlign, 2);
    LittleEndianRoundTrip(f.bitsPerSample, 2);
  }

  lemma ExtensionRead(f: WavFormat, mask: Bytes, extra: Bytes, body: Bytes)
    requires SupportedSample(f.tag, f.bitsPerSample) && |mask| == 4 && |body| >= 16
    requires body[16..] == Extension(f, mask) + extra
    ensures |body| >= 40 && FieldAt(body, 16, 2) == 22 && FieldAt(body, 18, 2) == f.bitsPerSample
    ensures body[24..40] == if f.tag == PCM_TAG then PCM_SUBFORMAT_GUID else IEEE_FLOAT_SUBFORMAT_GUID
  {
    Power256Known();
    hide LittleEndian, FromLittleEndian, Power256;
    var guid := if f.tag == PCM_TAG then PCM_SUBFORMAT_GUID else IEEE_FLOAT_SUBFORMAT_GUID;
    var tail := body[16..];
    assert tail == LittleEndian(22, 2) + LittleEndian(f.bitsPerSample, 2) + mask + guid + extra;
    assert body[16..18] == tail[..2] == LittleEndian(22, 2);
    assert body[18..20] == tail[2..4] == LittleEndian(f.bitsPerSample, 2);
    assert body[24..40] == tail[8..24] == guid;
    LittleEndianRoundTrip(22, 2);
    LittleEndianRoundTrip(f.bitsPerSample, 2);
  }

  lemma GuidsDiffer()
    ensures PCM_SUBFORMAT_GUID != IEEE_FLOAT_SUBFORMAT_GUID
  {
    assert PCM_SUBFORMAT_GUID[0] == 1 && IEEE_FLOAT_SUBFORMAT_GUID[0] == 3;
  }

  /** The fields a body of a given tag spells decide what is read from it. */
  lemma FieldsDecide(body: Bytes, f: WavFormat)
    requires |body| >= 16 && ValidFormat(f) && FormatTag(body) == Some(f.tag)
    requires FieldAt(body, 2, 2) == f.channels && FieldAt(body, 4, 4) == f.sampleRate
    requires FieldAt(body, 8, 4) == ByteRate(f) && FieldAt(body, 12, 2) == f.blockAlign
    requires FieldAt(body, 14, 2) == f.bitsPerSample
    ensures ParseFormat(body) == Some(f)
  {
    hide FieldAt, FormatTag, Area, Power256;
  }

  /** Every format that fits its fields can be spelled with either header it has, and is read back, whatever
      follows. */
  lemma FormatRoundTrip(f: WavFormat, header: Header, extra: Bytes)
    requires ValidFormat(f) && ValidHeader(header, f)
    ensures ParseFormat(EncodeFormat(f, header, extra)) == Some(f)
  {
    Power256Known();
    hide CommonFields, Extension, FieldAt, Power256, Area, ByteRate;
    var body := EncodeFormat(f, header, extra);
    match header
    case Plain =>
      CommonRead(f.tag, f, extra);
      FieldsDecide(body, f);
    case Extensible(mask) =>
      assert body == CommonFields(EXTENSIBLE_TAG, f) + (Extension(f, mask) + extra);
      CommonRead(EXTENSIBLE_TAG, f, Extension(f, mask) + extra);
      ExtensionRead(f, mask, extra, body);
      GuidsDiffer();
      FieldsDecide(body, f);
  }

  /** Where the header of a body came from. */
  function HeaderOf(body: Bytes): Header
    requires |body| >= 16
  {
    if FieldAt(body, 0, 2) == EXTENSIBLE_TAG && |body| >= 24 then Extensible(body[20..24]) else Plain
  }

  function ExtraOf(body: Bytes): Bytes
    requires |body| >= 16
  {
    if HeaderOf(body).Extensible? && |body| >= 40 then body[40..] else body[16..]
  }

  lemma FieldSpelled(body: Bytes, start: nat, width: nat)
    requires start + width <= |body|
    ensures FieldAt(body, start, width) < Power256(width)
    ensures LittleEndian(FieldAt(body, start, width), width) == body[start..start + width]
  {
    LittleEndianBack(body[start..start + width]);
  }

  lemma CommonSpelled(body: Bytes, tag: nat, f: WavFormat)
    requires |body| >= 16 && tag == FieldAt(body, 0, 2) && f.channels == FieldAt(body, 2, 2)
    requires f.sampleRate == FieldAt(body, 4, 4) && ByteRate(f) == FieldAt(body, 8, 4)
    requires f.blockAlign == FieldAt(body, 12, 2) && f.bitsPerSample == FieldAt(body, 14, 2)
    ensures body[..16] == CommonFields(tag, f)
    ensures f.channels < Power256(2) && f.sampleRate < Power256(4)
    ensures f.blockAlign < Power256(2) && ByteRate(f) < Power256(4)
  {
    hide LittleEndian, FieldAt, Power256, ByteRate;
    FieldSpelled(body, 0, 2);
    FieldSpelled(body, 2, 2);
    FieldSpelled(body, 4, 4);
    FieldSpelled(body, 8, 4);
    FieldSpelled(body, 12, 2);
    FieldSpelled(body, 14, 2);
    assert body[..16] == body[0..2] + body[2..4] + body[4..8] + body[8..12] + body[12..14] + body[14..16];
  }

  lemma ExtensionSpelled(body: Bytes, f: WavFormat)
    requires |body| >= 40 && FieldAt(body, 16, 2) == 22 && FieldAt(body, 18, 2) == f.bitsPerSample
    requires body[24..40] == if f.tag == PCM_TAG then PCM_SUBFORMAT_GUID else IEEE_FLOAT_SUBFORMAT_GUID
    ensures body[16..40] == Extension(f, body[20..24])
  {
    hide LittleEndian, FieldAt;
    FieldSpelled(body, 16, 2);
    FieldSpelled(body, 18, 2);
    assert body[16..40] == body[16..18] + body[18..20] + body[20..24] + body[24..40];
  }

  /** A body is accepted exactly when it spells a valid format: nothing else is read as one. */
  lemma FormatsAreSpelled(body: Bytes, f: WavFormat)
    ensures ParseFormat(body) == Some(f) <==>
      && |body| >= 16 && ValidFormat(f) && ValidHeader(HeaderOf(body), f)
      && body == EncodeFormat(f, HeaderOf(body), ExtraOf(body))
  {
    if ParseFormat(body) == Some(f) {
      var tag := FieldAt(body, 0, 2);
      hide CommonFields, Extension, FieldAt, Power256, Area;
      CommonSpelled(body, tag, f);
      if tag == EXTENSIBLE_TAG {
        ExtensionSpelled(body, f);
        assert body == body[..16] + body[16..40] + body[40..];
      } else {
        assert body == body[..16] + body[16..];
      }
    } else if |body| >= 16 && ValidFormat(f) && ValidHeader(HeaderOf(body), f) {
      FormatRoundTrip(f, HeaderOf(body), ExtraOf(body));
    }
  }

  // ---- The chunk list ---------------------------------------------------------------

  /** A chunk and the padding byte that follows an odd body. */
  datatype Chunk = Chunk(id: Bytes, body: Bytes, padding: byte)

  predicate ValidChunk(c: Chunk) { |c.id| == 4 && |c.body| < Power256(4) && (|c.body| % 2 == 0 ==> c.padding == 0) }

  predicate ValidChunks(chunks: seq<Chunk>) { forall i :: 0 <= i < |chunks| ==> ValidChunk(chunks[i]) }

  function Padding(c: Chunk): Bytes { if |c.body| % 2 == 1 then [c.padding] else [] }

  function EncodeChunk(c: Chunk): (r: Bytes)
    requires ValidChunk(c)
    ensures |r| >= 8
  {
    c.id + LittleEndian(|c.body|, 4) + c.body + Padding(c)
  }

  function EncodeChunks(chunks: seq<Chunk>): Bytes
    requires ValidChunks(chunks)
  {
    if chunks == [] then [] else EncodeChunk(chunks[0]) + EncodeChunks(chunks[1..])
  }

  /** The first chunk and what follows it. */
  function FirstChunk(s: Bytes): (r: Option<(Chunk, Bytes)>)
    ensures r.Some? ==> |r.value.1| < |s|
  {
    if |s| < 8 then None
    else
      var size := FieldAt(s, 4, 4);
      var end := 8 + size + size % 2;
      if |s| < end then None
      else Some((Chunk(s[..4], s[8..8 + size], if size % 2 == 1 then s[8 + size] else 0), s[end..]))
  }

  /** The chunks a byte string is made of, if it is. */
  function Chunks(s: Bytes): Option<seq<Chunk>>
    decreases |s|
  {
    if s == [] then Some([])
    else match FirstChunk(s)
      case None => None
      case Some((chunk, rest)) =>
        match Chunks(rest)
        case None => None
        case Some(others) => Some([chunk] + others)
  }

  lemma ChunkSlices(id: Bytes, size: Bytes, body: Bytes, padding: Bytes, rest: Bytes)
    requires |id| == 4 && |size| == 4
    ensures var s := id + size + body + padding + rest; var n := |body|;
      s[..4] == id && s[4..8] == size && s[8..8 + n] == body && s[8 + n..8 + n + |padding|] == padding
        && s[8 + n + |padding|..] == rest
  {
  }

  lemma FirstChunkEncoded(c: Chunk, rest: Bytes)
    requires ValidChunk(c)
    ensures FirstChunk(EncodeChunk(c) + rest) == Some((c, rest))
  {
    hide LittleEndian, FromLittleEndian, Power256;
    LittleEndianRoundTrip(|c.body|, 4);
    ChunkSlices(c.id, LittleEndian(|c.body|, 4), c.body, Padding(c), rest);
    var s, n := EncodeChunk(c) + rest, |c.body|;
    assert s == c.id + LittleEndian(|c.body|, 4) + c.body + Padding(c) + rest;
    assert n % 2 == 1 ==> s[8 + n] == s[8 + n..8 + n + 1][0];
  }

  /** A chunk is its identifier, the length of its body with the least significant byte first, the body, and a padding
      byte that makes its size even. */
  lemma ChunkLayout(c: Chunk)
    requires ValidChunk(c)
    ensures var s, n := EncodeChunk(c), |c.body|;
      && |s| == 8 + n + n % 2 && |s| % 2 == 0 && s[..4] == c.id && s[8..8 + n] == c.body
      && forall i: nat :: i < 4 ==> s[4..8][i] == n / Power256(i) % 256
  {
    hide LittleEndian, Power256;
    ChunkSlices(c.id, LittleEndian(|c.body|, 4), c.body, Padding(c), []);
    var s := EncodeChunk(c);
    assert s == c.id + LittleEndian(|c.body|, 4) + c.body + Padding(c) + [];
    forall i: nat | i < 4 ensures s[4..8][i] == |c.body| / Power256(i) % 256 {
      LittleEndianDigit(|c.body|, 4, i);
    }
  }

  /** Serialising chunks and reading them back is the identity. */
  lemma {:induction false} ChunksRoundTrip(chunks: seq<Chunk>)
    requires ValidChunks(chunks)
    ensures Chunks(EncodeChunks(chunks)) == Some(chunks)
  {
    hide FirstChunk, EncodeChunk, ValidChunk;
    if chunks != [] {
      FirstChunkEncoded(chunks[0], EncodeChunks(chunks[1..]));
      ChunksRoundTrip(chunks[1..]);
      assert [chunks[0]] + chunks[1..] == chunks;
    }
  }

  lemma FirstChunkDecodes(s: Bytes)
    ensures var r := FirstChunk(s); r.Some? ==> ValidChunk(r.value.0) && s == EncodeChunk(r.value.0) + r.value.1
  {
    hide LittleEndian, FromLittleEndian, Power256;
    var r := FirstChunk(s);
    if r.Some? {
      LittleEndianBack(s[4..8]);
      var (c, rest) := r.value;
      assert s[..4] + s[4..8] + s[8..8 + |c.body|] == s[..8 + |c.body|];
      assert s[..8 + |c.body|] + Padding(c) + rest == s;
    }
  }

  /** Only serialised chunk lists are read as chunks. */
  lemma {:induction false} ChunksAreSerialised(s: Bytes)
    ensures var r := Chunks(s); r.Some? ==> ValidChunks(r.value) && EncodeChunks(r.value) == s
    decreases |s|
  {
    hide FirstChunk, EncodeChunk, ValidChunk;
    if s != [] {
      FirstChunkDecodes(s);
      var first := FirstChunk(s);
      if first.Some? { ChunksAreSerialised(first.value.1); }
    }
  }

  // ---- What a chunk list means ------------------------------------------------------

  function Bodies(chunks: seq<Chunk>, id: Bytes): seq<Bytes> {
    if chunks == [] then []
    else Bodies(chunks[..|chunks| - 1], id) + if chunks[|chunks| - 1].id == id then [chunks[|chunks| - 1].body] else []
  }

  /** Decodes samples of a tag and width; refuses a sample that is not finite. */
  type SampleDecoder<S> = (nat, nat) -> (Bytes -> Option<S>)

  function FormatOf<S>(f: WavFormat, decoders: SampleDecoder<S>): Format<S> {
    Format(f.bitsPerSample / 8, decoders(f.tag, f.bitsPerSample))
  }

  /** One format body and one data body. */
  ghost predicate Playable<S>(fmt: Bytes, data: Bytes, decoders: SampleDecoder<S>) {
    var f := ParseFormat(fmt);
    && f.Some?
    && data != [] && Rest(data, f.value.blockAlign) == []
    && AllDecodable(Frames(data, f.value.blockAlign), FormatOf(f.value, decoders), f.value.channels)
  }

  ghost function Played<S>(fmt: Bytes, data: Bytes, decoders: SampleDecoder<S>): DecodedAudio<S>
    requires Playable(fmt, data, decoders)
  {
    var f := ParseFormat(fmt).value;
    DecodedAudio(f.sampleRate, Channels(Frames(data, f.blockAlign), FormatOf(f, decoders), f.channels))
  }

  /** Exactly one format and one data chunk, whatever else there is and in whatever order. */
  ghost predicate Acceptable<S>(chunks: seq<Chunk>, decoders: SampleDecoder<S>) {
    var fmts, datas := Bodies(chunks, FMT), Bodies(chunks, DATA);
    |fmts| == 1 && |datas| == 1 && Playable(fmts[0], datas[0], decoders)
  }

  predicate IsRiffWave(bytes: Bytes) { |bytes| >= 12 && bytes[..4] == RIFF && bytes[8..12] == WAVE }

  // ---- The traversal ----------------------------------------------------------------

  function Prepend(seen: seq<Chunk>, rest: Option<seq<Chunk>>): Option<seq<Chunk>> {
    if rest.Some? then Some(seen + rest.value) else None
  }

  lemma {:induction false} BodiesJoin(a: seq<Chunk>, b: seq<Chunk>, id: Bytes)
    ensures Bodies(a + b, id) == Bodies(a, id) + Bodies(b, id)
  {
    if b == [] {
      assert a + b == a;
    } else {
      BodiesJoin(a, b[..|b| - 1], id);
      assert (a + b)[..|a + b| - 1] == a + b[..|b| - 1];
    }
  }

  /** The bodies seen so far, as the two optional variables of the loop hold them. */
  predicate Holds<T(==)>(found: Option<T>, bodies: seq<Bytes>, value: Bytes -> Option<T>) {
    |bodies| <= 1 && (|bodies| == 0 ==> found == None) && (|bodies| == 1 ==> found.Some? && found == value(bodies[0]))
  }

  function Same(bytes: Bytes): Option<Bytes> { Some(bytes) }

  method DecodeData<S>(f: WavFormat, data: Bytes, decoders: SampleDecoder<S>)
    returns (r: Result<DecodedAudio<S>, WavError>)
    requires f.channels > 0 && f.blockAlign == Area(f.channels, f.bitsPerSample / 8) > 0
    ensures var format := FormatOf(f, decoders);
      && FramesOk(Frames(data, f.blockAlign), format.width, f.channels)
      && r.Ok? == (data != [] && Rest(data, f.blockAlign) == []
                   && AllDecodable(Frames(data, f.blockAlign), format, f.channels))
      && (r.Ok? ==> r.value == DecodedAudio(f.sampleRate, Channels(Frames(data, f.blockAlign), format, f.channels)))
  {
    hide AllDecodable, Area;
    var format := FormatOf(f, decoders);
    FramesAllOk(data, format.width, f.channels);
    FramesByDivision(data, f.blockAlign);
    WholeFrames(data, f.blockAlign);
    if data == [] { return Err(EmptyData); }
    if |data| % f.blockAlign != 0 { return Err(WavError.IncompleteFrame); }
    var samples := Deinterleave(data, |data| / f.blockAlign, format, f.channels);
    r := if samples == None then Err(WavError.BadSample) else Ok(DecodedAudio(f.sampleRate, samples.value));
  }

  lemma WholeFrames(data: Bytes, size: nat)
    requires size > 0
    ensures |data| % size == 0 <==> Rest(data, size) == []
  {
    FramesByDivision(data, size);
    Division.Floor(|data|, size);
  }

  lemma NextChunk(seen: seq<Chunk>, chunk: Chunk, after: Option<seq<Chunk>>)
    ensures Prepend(seen, if after.Some? then Some([chunk] + after.value) else None) == Prepend(seen + [chunk], after)
    ensures Bodies(seen + [chunk], FMT) == Bodies(seen, FMT) + if chunk.id == FMT then [chunk.body] else []
    ensures Bodies(seen + [chunk], DATA) == Bodies(seen, DATA) + if chunk.id == DATA then [chunk.body] else []
  {
    assert (seen + [chunk])[..|seen|] == seen;
    assert after.Some? ==> seen + ([chunk] + after.value) == seen + [chunk] + after.value;
  }

  lemma FirstChunkSuffix(s: Bytes)
    ensures FirstChunk(s).Some? ==> FirstChunk(s).value.1 == s[|s| - |FirstChunk(s).value.1|..]
  {
  }

  /** What the loop leaves: the only format and the only data body, or a reason the chunk list has none. */
  ghost predicate TraversedTo(chunks: Option<seq<Chunk>>, r: Result<(WavFormat, Bytes), WavError>) {
    if r.Ok? then
      && chunks.Some?
      && |Bodies(chunks.value, FMT)| == 1 && ParseFormat(Bodies(chunks.value, FMT)[0]) == Some(r.value.0)
      && Bodies(chunks.value, DATA) == [r.value.1]
    else
      chunks.Some? ==>
        || |Bodies(chunks.value, FMT)| != 1 || |Bodies(chunks.value, DATA)| != 1
        || ParseFormat(Bodies(chunks.value, FMT)[0]) == None
  }

  lemma SeenSoFar(seen: seq<Chunk>, after: Option<seq<Chunk>>, whole: Option<seq<Chunk>>)
    requires whole == Prepend(seen, after)
    ensures whole.Some? ==> after.Some?
    ensures whole.Some? ==> Bodies(whole.value, FMT) == Bodies(seen, FMT) + Bodies(after.value, FMT)
    ensures whole.Some? ==> Bodies(whole.value, DATA) == Bodies(seen, DATA) + Bodies(after.value, DATA)
  {
    if whole.Some? {
      BodiesJoin(seen, after.value, FMT);
      BodiesJoin(seen, after.value, DATA);
    }
  }

  method Traverse(bytes: Bytes) returns (r: Result<(WavFormat, Bytes), WavError>)
    requires |bytes| >= 12
    ensures TraversedTo(Chunks(bytes[12..]), r)
  {
    hide ParseFormat, FirstChunk, Bodies, Prepend;
    var position, format: Option<WavFormat>, data: Option<Bytes> := 12, None, None;
    ghost var seen: seq<Chunk>, whole := [], Chunks(bytes[12..]);
    NothingSeen(whole);
    while position < |bytes|
      invariant 12 <= position <= |bytes|
      invariant whole == Prepend(seen, Chunks(bytes[position..]))
      invariant Holds(format, Bodies(seen, FMT), ParseFormat) && Holds(data, Bodies(seen, DATA), Same)
    {
      var next := FirstChunk(bytes[position..]);
      SeenSoFar(seen, Chunks(bytes[position..]), whole);
      if next == None { return Err(Truncated); }
      var (chunk, rest) := next.value;
      NextChunk(seen, chunk, Chunks(rest));
      seen := seen + [chunk];
      SeenSoFar(seen, Chunks(rest), whole);
      if chunk.id == FMT {
        if format.Some? { return Err(DuplicateFmt); }
        format := ParseFormat(chunk.body);
        if format == None { return Err(BadFormat); }
      } else if chunk.id == DATA {
        if data.Some? { return Err(DuplicateData); }
        data := Some(chunk.body);
      }
      FirstChunkSuffix(bytes[position..]);
      position := |bytes| - |rest|;
      assert bytes[position..] == rest;
    }
    assert bytes[|bytes|..] == [];
    AllSeen(seen);
    if format == None { return Err(MissingFmt); }
    if data == None { return Err(MissingData); }
    r := Ok((format.value, data.value));
  }

  lemma NothingSeen(whole: Option<seq<Chunk>>)
    ensures whole == Prepend([], whole) && Bodies([], FMT) == [] && Bodies([], DATA) == []
  {
    assert whole.Some? ==> [] + whole.value == whole.value;
  }

  lemma AllSeen(seen: seq<Chunk>)
    ensures Prepend(seen, Chunks([])) == Some(seen)
  {
    assert seen + [] == seen;
  }

  /** What a whole file decodes to, if it is accepted: the declared size must be right, the rest must be a list of
      whole chunks, and that list must be acceptable. */
  ghost function Verdict<S>(bytes: Bytes, decoders: SampleDecoder<S>): Option<DecodedAudio<S>> {
    if !IsRiffWave(bytes) || FieldAt(bytes, 4, 4) != |bytes| - 8 then None
    else match Chunks(bytes[12..])
      case None => None
      case Some(chunks) => VerdictOf(chunks, decoders)
  }

  ghost function VerdictOf<S>(chunks: seq<Chunk>, decoders: SampleDecoder<S>): Option<DecodedAudio<S>> {
    if Acceptable(chunks, decoders) then Some(Played(Bodies(chunks, FMT)[0], Bodies(chunks, DATA)[0], decoders))
      else None
  }

  method ParseWav<S>(bytes: Bytes, decoders: SampleDecoder<S>) returns (r: Result<DecodedAudio<S>, WavError>)
    ensures r.Ok? == Verdict(bytes, decoders).Some? && (r.Ok? ==> Verdict(bytes, decoders) == Some(r.value))
  {
    hide ParseFormat, FieldAt, Chunks, Bodies, AllDecodable, Frames, Rest, Area;
    if !IsRiffWave(bytes) { return Err(NotRiff); }
    if FieldAt(bytes, 4, 4) != |bytes| - 8 { return Err(WrongSize); }
    var traversed := Traverse(bytes);
    if traversed.Err? { return Err(traversed.error); }
    r := DecodeData(traversed.value.0, traversed.value.1, decoders);
  }

  // ---- Files ------------------------------------------------------------------------

  function Serialise(chunks: seq<Chunk>): Bytes
    requires ValidChunks(chunks)
  {
    var payload := WAVE + EncodeChunks(chunks);
    RIFF + LittleEndian(|payload|, 4) + payload
  }

  lemma SerialisedLayout(chunks: seq<Chunk>)
    requires ValidChunks(chunks) && 4 + |EncodeChunks(chunks)| < Power256(4)
    ensures var bytes := Serialise(chunks);
      IsRiffWave(bytes) && FieldAt(bytes, 4, 4) == |bytes| - 8 && bytes[12..] == EncodeChunks(chunks)
  {
    hide EncodeChunks, LittleEndian, FromLittleEndian, Power256;
    var tail := EncodeChunks(chunks);
    LittleEndianRoundTrip(|WAVE + tail|, 4);
    var bytes, size := Serialise(chunks), LittleEndian(|WAVE + tail|, 4);
    assert bytes == RIFF + size + WAVE + tail;
    assert bytes[..4] == RIFF && bytes[4..8] == size && bytes[8..12] == WAVE && bytes[12..] == tail;
  }

  lemma SameBodies(a: seq<Bytes>, b: seq<Bytes>)
    requires multiset(a) == multiset(b)
    ensures |a| == |b| && (|a| == 1 ==> a[0] == b[0])
  {
    assert |multiset(a)| == |a| && |multiset(b)| == |b|;
    if |a| == 1 {
      assert a[0] in multiset(b);
    }
  }

  /** A permutation of the chunks, with any unknown chunks added, has the same format and data bodies. */
  lemma {:induction false} BodiesOfPermutation(chunks: seq<Chunk>, others: seq<Chunk>, unknown: multiset<Chunk>,
                                               id: Bytes)
    requires multiset(others) == multiset(chunks) + unknown
    requires forall c :: c in unknown ==> c.id != id
    ensures multiset(Bodies(chunks, id)) == multiset(Bodies(others, id))
    decreases |others|
  {
    hide Bodies;
    if others == [] {
      assert |multiset(chunks)| == |chunks| && multiset(chunks) <= multiset(others);
      assert chunks == others;
    } else {
      var n := |others| - 1;
      var x, rest := others[n], others[..n];
      Around(rest, x, [], others, id);
      assert rest + [] == rest;
      if x in unknown {
        Cancel(multiset(rest), x, multiset(chunks), unknown);
        BodiesOfPermutation(chunks, rest, unknown - multiset{x}, id);
      } else {
        InChunks(chunks, others, unknown, x);
        var i :| 0 <= i < |chunks| && chunks[i] == x;
        var a, b := chunks[..i], chunks[i + 1..];
        Around(a, x, b, chunks, id);
        CancelBoth(multiset(rest), x, multiset(a + b), unknown);
        BodiesOfPermutation(a + b, rest, unknown, id);
      }
    }
  }

  lemma Cancel(rest: multiset<Chunk>, x: Chunk, chunks: multiset<Chunk>, unknown: multiset<Chunk>)
    requires rest + multiset{x} == chunks + unknown && x in unknown
    ensures rest == chunks + (unknown - multiset{x})
  {
    forall c ensures rest[c] == (chunks + (unknown - multiset{x}))[c] {
      assert (rest + multiset{x})[c] == (chunks + unknown)[c];
    }
  }

  lemma CancelBoth(rest: multiset<Chunk>, x: Chunk, chunks: multiset<Chunk>, unknown: multiset<Chunk>)
    requires rest + multiset{x} == (chunks + multiset{x}) + unknown
    ensures rest == chunks + unknown
  {
    forall c ensures rest[c] == (chunks + unknown)[c] {
      assert (rest + multiset{x})[c] == ((chunks + multiset{x}) + unknown)[c];
    }
  }

  lemma InChunks(chunks: seq<Chunk>, others: seq<Chunk>, unknown: multiset<Chunk>, x: Chunk)
    requires multiset(others) == multiset(chunks) + unknown && x in others && x !in unknown
    ensures x in chunks
  {
    assert x in multiset(others);
    assert x in multiset(chunks);
  }

  lemma Around(a: seq<Chunk>, x: Chunk, b: seq<Chunk>, whole: seq<Chunk>, id: Bytes)
    requires whole == a + [x] + b
    ensures multiset(whole) == multiset(a + b) + multiset{x}
    ensures multiset(Bodies(whole, id)) == multiset(Bodies(a + b, id)) + if x.id == id then multiset{x.body}
      else multiset{}
  {
    hide Bodies;
    BodiesJoin(a + [x], b, id);
    BodiesJoin(a, [x], id);
    BodiesJoin(a, b, id);
    BodiesOfOne(x, id);
  }

  lemma BodiesOfOne(x: Chunk, id: Bytes)
    ensures Bodies([x], id) == if x.id == id then [x.body] else []
  {
    assert [x][..0] == [];
    assert Bodies([x], id) == Bodies([], id) + if x.id == id then [x.body] else [];
  }

  lemma SerialisedVerdict<S>(chunks: seq<Chunk>, decoders: SampleDecoder<S>)
    requires ValidChunks(chunks) && 4 + |EncodeChunks(chunks)| < Power256(4)
    ensures Verdict(Serialise(chunks), decoders) == VerdictOf(chunks, decoders)
  {
    hide EncodeChunks, Chunks, Acceptable, FieldAt;
    SerialisedLayout(chunks);
    ChunksRoundTrip(chunks);
  }

  lemma FileInPieces(bytes: Bytes)
    requires IsRiffWave(bytes) && FieldAt(bytes, 4, 4) == |bytes| - 8
    ensures bytes == RIFF + LittleEndian(|WAVE + bytes[12..]|, 4) + (WAVE + bytes[12..])
  {
    LittleEndianBack(bytes[4..8]);
    hide LittleEndian, FromLittleEndian;
    assert |WAVE + bytes[12..]| == |bytes| - 8;
    assert bytes == bytes[..4] + bytes[4..8] + (bytes[8..12] + bytes[12..]);
  }

  /** Nothing is accepted but serialised chunk lists: the magic numbers, the size and every chunk are as written. */
  lemma FilesAreSerialised<S>(bytes: Bytes, decoders: SampleDecoder<S>)
    ensures Verdict(bytes, decoders).Some? ==>
      && |bytes| >= 12 && Chunks(bytes[12..]).Some?
      && var chunks := Chunks(bytes[12..]).value;
         ValidChunks(chunks) && bytes == Serialise(chunks) && VerdictOf(chunks, decoders) == Verdict(bytes, decoders)
  {
    if Verdict(bytes, decoders).Some? {
      ChunksAreSerialised(bytes[12..]);
      FileInPieces(bytes);
      hide Chunks, EncodeChunks, ValidChunks, VerdictOf, LittleEndian, FieldAt, IsRiffWave;
    }
  }

  /** Reordering the chunks of a file and inserting unknown ones changes nothing: the same channels, or refused both. */
  lemma ChunkOrderIsIrrelevant<S>(chunks: seq<Chunk>, others: seq<Chunk>, unknown: multiset<Chunk>,
                                  decoders: SampleDecoder<S>)
    requires ValidChunks(chunks) && 4 + |EncodeChunks(chunks)| < Power256(4)
    requires ValidChunks(others) && 4 + |EncodeChunks(others)| < Power256(4)
    requires multiset(others) == multiset(chunks) + unknown
    requires forall c :: c in unknown ==> c.id != FMT && c.id != DATA
    ensures Verdict(Serialise(chunks), decoders) == Verdict(Serialise(others), decoders)
  {
    hide EncodeChunks, Verdict, Bodies, Playable, Played, Power256;
    SerialisedVerdict(chunks, decoders);
    SerialisedVerdict(others, decoders);
    BodiesOfPermutation(chunks, others, unknown, FMT);
    BodiesOfPermutation(chunks, others, unknown, DATA);
    SameBodies(Bodies(chunks, FMT), Bodies(others, FMT));
    SameBodies(Bodies(chunks, DATA), Bodies(others, DATA));
  }

  // ---- A whole file ----------------------------------------------------------------------

  predicate SamplesFit<S>(f: WavFormat, samples: seq<seq<Bytes>>, decoders: SampleDecoder<S>) {
    forall k :: 0 <= k < |samples| ==>
      && |samples[k]| == f.channels && Sized(samples[k], f.bitsPerSample / 8)
      && forall c :: 0 <= c < f.channels ==> decoders(f.tag, f.bitsPerSample)(samples[k][c]).Some?
  }

  /** A file with a format chunk and the interleaved samples of its channels. */
  function FileOf(f: WavFormat, header: Header, extra: Bytes, samples: seq<seq<Bytes>>): seq<Chunk> {
    [Chunk(FMT, EncodeFormat(f, header, extra), 0), Chunk(DATA, Flatten(Interleave(samples)), 0)]
  }

  lemma BodiesOfFile(fmt: Bytes, data: Bytes)
    ensures Bodies([Chunk(FMT, fmt, 0), Chunk(DATA, data, 0)], FMT) == [fmt]
    ensures Bodies([Chunk(FMT, fmt, 0), Chunk(DATA, data, 0)], DATA) == [data]
  {
    var a, b := Chunk(FMT, fmt, 0), Chunk(DATA, data, 0);
    assert FMT[0] != DATA[0];
    BodiesOfOne(a, FMT); BodiesOfOne(b, FMT); BodiesOfOne(a, DATA); BodiesOfOne(b, DATA);
    hide Bodies;
    BodiesJoin([a], [b], FMT);
    BodiesJoin([a], [b], DATA);
    assert [a] + [b] == [a, b];
  }

  lemma FileVerdict<S>(f: WavFormat, header: Header, extra: Bytes, samples: seq<seq<Bytes>>,
                       decoders: SampleDecoder<S>)
    requires ValidFormat(f) && ValidHeader(header, f) && samples != [] && SamplesFit(f, samples, decoders)
    ensures var a := VerdictOf(FileOf(f, header, extra, samples), decoders);
      && a.Some? && a.value.sampleRate == f.sampleRate && |a.value.channels| == f.channels
      && forall c, k :: 0 <= c < f.channels && 0 <= k < |samples| ==>
           && |a.value.channels[c]| == |samples|
           && Some(a.value.channels[c][k]) == decoders(f.tag, f.bitsPerSample)(samples[k][c])
  {
    var format, data := FormatOf(f, decoders), Flatten(Interleave(samples));
    FormatRoundTrip(f, header, extra);
    BodiesOfFile(EncodeFormat(f, header, extra), data);
    InterleavedDecodes(samples, format, f.channels);
    hide Bodies, ParseFormat, EncodeFormat, Frames, Rest, Flatten, Interleave, Area, AllDecodable;
    NotEmpty(samples, f.blockAlign);
    assert Playable(EncodeFormat(f, header, extra), data, decoders);
  }

  lemma NotEmpty(samples: seq<seq<Bytes>>, size: nat)
    requires samples != [] && size > 0
    requires |Frames(Flatten(Interleave(samples)), size)| == |samples|
    ensures Flatten(Interleave(samples)) != []
  {
  }

  /** What a file spells is what it is decoded to: the rate of its format, and in each channel the decoded samples of
      that channel in order. */
  lemma FileRoundTrip<S>(f: WavFormat, header: Header, extra: Bytes, samples: seq<seq<Bytes>>,
                         decoders: SampleDecoder<S>)
    requires ValidFormat(f) && ValidHeader(header, f) && samples != [] && SamplesFit(f, samples, decoders)
    requires |EncodeFormat(f, header, extra)| < Power256(4) && |Flatten(Interleave(samples))| < Power256(4)
    requires 4 + |EncodeChunks(FileOf(f, header, extra, samples))| < Power256(4)
    ensures var a := Verdict(Serialise(FileOf(f, header, extra, samples)), decoders);
      && a.Some? && a.value.sampleRate == f.sampleRate && |a.value.channels| == f.channels
      && forall c, k :: 0 <= c < f.channels && 0 <= k < |samples| ==>
           && |a.value.channels[c]| == |samples|
           && Some(a.value.channels[c][k]) == decoders(f.tag, f.bitsPerSample)(samples[k][c])
  {
    FileVerdict(f, header, extra, samples, decoders);
    hide EncodeFormat, Flatten, Interleave, EncodeChunks, VerdictOf, Verdict, Serialise, SamplesFit, ValidFormat;
    SerialisedVerdict(FileOf(f, header, extra, samples), decoders);
  }
}
