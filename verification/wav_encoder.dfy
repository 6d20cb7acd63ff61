/**
 * encodeWAV: the canonical 44-byte RIFF WAVE header for mono 16-bit linear
 * PCM (a "fmt " chunk with format tag WAVE_FORMAT_PCM = 1, then a "data"
 * chunk), followed by the quantised samples, all little-endian; and a
 * decoder for that layout, which serves as the encoder's partner.
 */
module WavEncoder {
  import opened Base
  import SampleBuffer

  const HeaderSize: nat := 44
  const FormatPcm: nat := 1
  const Channels: nat := 1
  const BitsPerSample: nat := 16
  const BlockAlign: nat := 2
  const Uint16Modulus: nat := 0x1_0000
  const Uint32Modulus: nat := 0x1_0000_0000

  // ---------------------------------------------------------------------
  // DataView stores
  // ---------------------------------------------------------------------

  /** writeString: `setUint8(offset + i, str.charCodeAt(i))`, ToUint8 reducing modulo 256. */
  function Ascii(s: string): (r: seq<Byte>)
    ensures |r| == |s|
  {
    seq(|s|, i requires 0 <= i < |s| => (s[i] as int) % 256)
  }

  /** `setUint16(offset, v, true)`: ToUint16 then low byte first. */
  function LE16(v: int): (r: seq<Byte>)
    ensures |r| == 2
  {
    var u := v % Uint16Modulus;
    [u % 256, u / 256]
  }

  /** `setUint32(offset, v, true)`: ToUint32 (wrap modulo 2^32) then low byte first. */
  function LE32(v: int): (r: seq<Byte>)
    ensures |r| == 4
  {
    var u := v % Uint32Modulus;
    [u % 256, (u / 0x100) % 256, (u / 0x1_0000) % 256, u / 0x100_0000]
  }

  // ---------------------------------------------------------------------
  // Sample quantisation
  // ---------------------------------------------------------------------

  function Min(a: real, b: real): real { if a <= b then a else b }
  function Max(a: real, b: real): real { if a >= b then a else b }

  /** `Math.max(-1, Math.min(1, s))`. */
  function Clamp(x: real): (c: real)
    ensures -1.0 <= c <= 1.0
    ensures -1.0 <= x <= 1.0 ==> c == x
    ensures x < -1.0 ==> c == -1.0
    ensures x > 1.0 ==> c == 1.0
  {
    Max(-1.0, Min(1.0, x))
  }

  /** The asymmetric scale: 0x8000 for negative samples, 0x7FFF otherwise. */
  function Scale(s: real): real
  {
    if s < 0.0 then s * 32768.0 else s * 32767.0
  }

  /** ToIntegerOrInfinity on a finite number: truncation toward zero. */
  function Truncate(x: real): int
  {
    if x >= 0.0 then x.Floor else -((-x).Floor)
  }

  /** ToInt16, as `setInt16` applies it: truncate, then wrap modulo 2^16 into [-2^15, 2^15). */
  function ToInt16(x: real): (r: int)
    ensures -0x8000 <= r < 0x8000
  {
    var m := Truncate(x) % Uint16Modulus;
    if m >= 0x8000 then m - Uint16Modulus else m
  }

  /**
   * The value stored for one sample. For clamped input ToInt16 never wraps,
   * so the stored value is the truncated scaled sample itself.
   */
  function Quantize(x: real): (q: int)
    ensures -32768 <= q <= 32767
    ensures q == Truncate(Scale(Clamp(x)))
    ensures x < 0.0 ==> q <= 0
    ensures x >= 0.0 ==> q >= 0
    ensures x <= -1.0 ==> q == -32768
    ensures x >= 1.0 ==> q == 32767
  {
    var s := Clamp(x);
    var t := Truncate(Scale(s));
    assert -32768 <= t <= 32767;
    ToInt16(Scale(s))
  }

  /** How a reader maps a stored sample back to [-1, 1] under the same asymmetric scale. */
  function Dequantize(q: int): real
  {
    if q < 0 then q as real / 32768.0 else q as real / 32767.0
  }

  /**
   * Quantisation loses less than one least significant bit: decoding the
   * stored value lands within 1/32768 above a negative clamped sample and
   * within 1/32767 below a non-negative one.
   */
  lemma QuantizeWithinOneStep(x: real)
    ensures Clamp(x) < 0.0 ==> Clamp(x) <= Dequantize(Quantize(x)) < Clamp(x) + 1.0 / 32768.0
    ensures Clamp(x) >= 0.0 ==> Clamp(x) - 1.0 / 32767.0 < Dequantize(Quantize(x)) <= Clamp(x)
  {
    var c := Clamp(x);
    var q := Quantize(x);
    if c < 0.0 {
      var f := (-(c * 32768.0)).Floor;
      assert q == -f;
      assert f as real <= -(c * 32768.0) < f as real + 1.0;
    } else {
      var f := (c * 32767.0).Floor;
      assert q == f;
      assert f as real <= c * 32767.0 < f as real + 1.0;
    }
  }

  // ---------------------------------------------------------------------
  // Encoder
  // ---------------------------------------------------------------------

  /** The 44 header bytes for n samples at the given rate, field by field in file order. */
  function Header(n: nat, sampleRate: nat): (r: seq<Byte>)
    ensures |r| == HeaderSize
  {
    Ascii("RIFF") + LE32(36 + n * 2) + Ascii("WAVE")
    + Ascii("fmt ") + LE32(16) + LE16(FormatPcm) + LE16(Channels)
    + LE32(sampleRate) + LE32(sampleRate * 2) + LE16(BlockAlign) + LE16(BitsPerSample)
    + Ascii("data") + LE32(n * 2)
  }

  /** The data chunk: each sample as a little-endian int16, two bytes per sample, in order. */
  function SampleBytes(samples: seq<real>): (r: seq<Byte>)
    ensures |r| == 2 * |samples|
    ensures forall i :: 0 <= i < |samples| ==> r[2 * i..2 * i + 2] == LE16(Quantize(samples[i]))
  {
    if |samples| == 0 then []
    else
      var init := samples[..|samples| - 1];
      var rest := SampleBytes(init);
      var r := rest + LE16(Quantize(samples[|samples| - 1]));
      assert forall i :: 0 <= i < |init| ==> r[2 * i..2 * i + 2] == rest[2 * i..2 * i + 2];
      r
  }

  /**
   * encodeWAV: exactly 44 + 2n bytes, the header first, then sample i at
   * bytes 44 + 2i and 45 + 2i.
   */
  function Encode(samples: seq<real>, sampleRate: nat): (r: seq<Byte>)
    ensures |r| == HeaderSize + 2 * |samples|
    ensures r[..HeaderSize] == Header(|samples|, sampleRate)
    ensures forall i :: 0 <= i < |samples| ==>
              r[HeaderSize + 2 * i..HeaderSize + 2 * i + 2] == LE16(Quantize(samples[i]))
  {
    var h := Header(|samples|, sampleRate);
    var d := SampleBytes(samples);
    assert forall i :: 0 <= i < |samples| ==>
              (h + d)[HeaderSize + 2 * i..HeaderSize + 2 * i + 2] == d[2 * i..2 * i + 2];
    h + d
  }

  /** A DataView store of consecutive bytes at an offset; every other byte is kept. */
  function Put(buf: seq<Byte>, at: nat, bytes: seq<Byte>): (r: seq<Byte>)
    requires at + |bytes| <= |buf|
    ensures |r| == |buf|
    ensures r[at..at + |bytes|] == bytes
    ensures r[..at] == buf[..at] && r[at + |bytes|..] == buf[at + |bytes|..]
  {
    buf[..at] + bytes + buf[at + |bytes|..]
  }

  /** One store extends an already written prefix of the target by the stored bytes. */
  lemma PutPrefix(buf: seq<Byte>, target: seq<Byte>, at: nat, bytes: seq<Byte>)
    requires at + |bytes| <= |buf| && at + |bytes| <= |target|
    requires buf[..at] == target[..at] && target[at..at + |bytes|] == bytes
    ensures Put(buf, at, bytes)[..at + |bytes|] == target[..at + |bytes|]
  {
    var r := Put(buf, at, bytes);
    assert r[..at + |bytes|] == r[..at] + r[at..at + |bytes|];
    assert target[..at + |bytes|] == target[..at] + target[at..at + |bytes|];
  }

  /** The thirteen header stores of encodeWAV, in source order, into a zeroed buffer. */
  method WriteHeader(buf: seq<Byte>, n: nat, sampleRate: nat) returns (r: seq<Byte>)
    requires |buf| >= HeaderSize
    ensures |r| == |buf|
    ensures r[..HeaderSize] == Header(n, sampleRate)
  {
    var h := Header(n, sampleRate);
    HeaderLayout(n, sampleRate);
    r := buf;
    PutPrefix(r, h, 0, Ascii("RIFF"));             r := Put(r, 0, Ascii("RIFF"));
    PutPrefix(r, h, 4, LE32(36 + n * 2));          r := Put(r, 4, LE32(36 + n * 2));
    PutPrefix(r, h, 8, Ascii("WAVE"));             r := Put(r, 8, Ascii("WAVE"));
    PutPrefix(r, h, 12, Ascii("fmt "));            r := Put(r, 12, Ascii("fmt "));
    PutPrefix(r, h, 16, LE32(16));                 r := Put(r, 16, LE32(16));
    PutPrefix(r, h, 20, LE16(FormatPcm));          r := Put(r, 20, LE16(FormatPcm));
    PutPrefix(r, h, 22, LE16(Channels));           r := Put(r, 22, LE16(Channels));
    PutPrefix(r, h, 24, LE32(sampleRate));         r := Put(r, 24, LE32(sampleRate));
    PutPrefix(r, h, 28, LE32(sampleRate * 2));     r := Put(r, 28, LE32(sampleRate * 2));
    PutPrefix(r, h, 32, LE16(BlockAlign));         r := Put(r, 32, LE16(BlockAlign));
    PutPrefix(r, h, 34, LE16(BitsPerSample));      r := Put(r, 34, LE16(BitsPerSample));
    PutPrefix(r, h, 36, Ascii("data"));            r := Put(r, 36, Ascii("data"));
    PutPrefix(r, h, 40, LE32(n * 2));              r := Put(r, 40, LE32(n * 2));
    assert h[..HeaderSize] == h;
  }

  /**
   * encodeWAV as written: allocate 44 + 2n zero bytes, store the header,
   * then store each quantised sample at offset 44 + 2i. The result is the
   * byte sequence Encode describes.
   */
  method EncodeWav(samples: seq<real>, sampleRate: nat) returns (buf: seq<Byte>)
    ensures buf == Encode(samples, sampleRate)
  {
    var n := |samples|;
    buf := seq(HeaderSize + n * 2, _ => 0);
    buf := WriteHeader(buf, n, sampleRate);
    var offset := HeaderSize;
    var i := 0;
    while i < n
      invariant 0 <= i <= n
      invariant offset == HeaderSize + 2 * i
      invariant |buf| == HeaderSize + 2 * n
      invariant buf[..HeaderSize] == Header(n, sampleRate)
      invariant buf[HeaderSize..offset] == SampleBytes(samples[..i])
    {
      assert samples[..i + 1][..i] == samples[..i];
      var prefix := buf[..offset];
      buf := Put(buf, offset, LE16(Quantize(samples[i])));
      assert buf[..offset] == prefix;
      assert buf[HeaderSize..offset + 2] == buf[HeaderSize..offset] + buf[offset..offset + 2];
      i := i + 1;
      offset := offset + 2;
    }
    assert samples[..n] == samples;
    assert buf == buf[..HeaderSize] + buf[HeaderSize..];
  }

  /** exportWAV: flatten the captured blocks in order, then encode. */
  function ExportWav(blocks: seq<seq<real>>, sampleRate: nat): (r: seq<Byte>)
    ensures |r| == HeaderSize + 2 * SampleBuffer.TotalLength(blocks)
  {
    SampleBuffer.FlattenLength(blocks);
    Encode(SampleBuffer.Flatten(blocks), sampleRate)
  }

  // ---------------------------------------------------------------------
  // Decoder (the partner of the encoder)
  // ---------------------------------------------------------------------

  function U16(b: seq<Byte>, at: nat): nat
    requires at + 2 <= |b|
  {
    b[at] as nat + 256 * (b[at + 1] as nat)
  }

  function U32(b: seq<Byte>, at: nat): nat
    requires at + 4 <= |b|
  {
    b[at] as nat + 0x100 * (b[at + 1] as nat) + 0x1_0000 * (b[at + 2] as nat) + 0x100_0000 * (b[at + 3] as nat)
  }

  function I16(b: seq<Byte>, at: nat): int
    requires at + 2 <= |b|
  {
    var u := U16(b, at);
    if u >= 0x8000 then u - Uint16Modulus else u
  }

  /** What a reader of a mono 16-bit PCM file learns from it. */
  datatype WavInfo = WavInfo(sampleRate: nat, samples: seq<int>)

  function DecodeSamples(data: seq<Byte>): (r: seq<int>)
    ensures |r| == |data| / 2
  {
    seq(|data| / 2, i requires 0 <= i < |data| / 2 => I16(data, 2 * i))
  }

  /**
   * The 44 header bytes describe a mono 16-bit PCM file whose data chunk
   * holds dataSize bytes.
   */
  predicate HeaderOk(h: seq<Byte>, dataSize: nat)
    requires |h| == HeaderSize
  {
    && h[0..4] == Ascii("RIFF") && U32(h, 4) == dataSize + 36 && h[8..12] == Ascii("WAVE")
    && h[12..16] == Ascii("fmt ") && U32(h, 16) == 16 && U16(h, 20) == FormatPcm
    && U16(h, 22) == Channels && U32(h, 28) == 2 * U32(h, 24)
    && U16(h, 32) == BlockAlign && U16(h, 34) == BitsPerSample
    && h[36..40] == Ascii("data") && U32(h, 40) == dataSize
  }

  /**
   * Reads a canonical mono 16-bit PCM WAVE file, rejecting anything whose
   * chunk tags, sizes or format fields disagree with that layout.
   */
  function Decode(b: seq<Byte>): Option<WavInfo>
  {
    if |b| < HeaderSize then None
    else if !HeaderOk(b[..HeaderSize], |b| - HeaderSize) || (|b| - HeaderSize) % 2 != 0 then None
    else Some(WavInfo(U32(b[..HeaderSize], 24), DecodeSamples(b[HeaderSize..])))
  }

  function QuantizeAll(samples: seq<real>): (r: seq<int>)
    ensures |r| == |samples|
  {
    seq(|samples|, i requires 0 <= i < |samples| => Quantize(samples[i]))
  }

  lemma U16OfLE16(v: int)
    ensures U16(LE16(v), 0) == v % Uint16Modulus
  {
    var u := v % Uint16Modulus;
    assert u == 256 * (u / 256) + u % 256;
  }

  lemma I16OfLE16(q: int)
    requires -0x8000 <= q < 0x8000
    ensures I16(LE16(q), 0) == q
  {
    U16OfLE16(q);
  }

  lemma U32OfLE32(v: int)
    ensures U32(LE32(v), 0) == v % Uint32Modulus
  {
    var u := v % Uint32Modulus;
    var a := u / 0x100;
    var c := u / 0x1_0000;
    assert u == 0x100 * a + u % 0x100;
    assert c == a / 0x100;
    assert a == 0x100 * c + a % 0x100;
    assert u / 0x100_0000 == c / 0x100;
    assert c == 0x100 * (c / 0x100) + c % 0x100;
  }

  lemma U32At(b: seq<Byte>, at: nat)
    requires at + 4 <= |b|
    ensures U32(b, at) == U32(b[at..at + 4], 0)
  {
  }

  lemma U16At(b: seq<Byte>, at: nat)
    requires at + 2 <= |b|
    ensures U16(b, at) == U16(b[at..at + 2], 0)
    ensures I16(b, at) == I16(b[at..at + 2], 0)
  {
  }

  /** Where each field of the header sits. */
  lemma HeaderLayout(n: nat, sampleRate: nat)
    ensures Header(n, sampleRate)[0..4] == Ascii("RIFF")
    ensures Header(n, sampleRate)[4..8] == LE32(36 + n * 2)
    ensures Header(n, sampleRate)[8..12] == Ascii("WAVE")
    ensures Header(n, sampleRate)[12..16] == Ascii("fmt ")
    ensures Header(n, sampleRate)[16..20] == LE32(16)
    ensures Header(n, sampleRate)[20..22] == LE16(FormatPcm)
    ensures Header(n, sampleRate)[22..24] == LE16(Channels)
    ensures Header(n, sampleRate)[24..28] == LE32(sampleRate)
    ensures Header(n, sampleRate)[28..32] == LE32(sampleRate * 2)
    ensures Header(n, sampleRate)[32..34] == LE16(BlockAlign)
    ensures Header(n, sampleRate)[34..36] == LE16(BitsPerSample)
    ensures Header(n, sampleRate)[36..40] == Ascii("data")
    ensures Header(n, sampleRate)[40..44] == LE32(n * 2)
  {
  }

  /**
   * The header announces the RIFF size 36 + 2n, PCM format tag 1, one
   * channel, the sample rate, byte rate 2 * rate, block align 2, 16 bits
   * per sample and the data size 2n.
   */
  lemma HeaderFields(n: nat, sampleRate: nat)
    requires 36 + 2 * n < Uint32Modulus
    requires 2 * sampleRate < Uint32Modulus
    ensures HeaderOk(Header(n, sampleRate), 2 * n)
    ensures U32(Header(n, sampleRate), 24) == sampleRate
  {
    var h := Header(n, sampleRate);
    HeaderLayout(n, sampleRate);
    ReadU32(h, 4, 36 + n * 2);
    ReadU32(h, 16, 16);
    ReadU16(h, 20, FormatPcm);
    ReadU16(h, 22, Channels);
    ReadU32(h, 24, sampleRate);
    ReadU32(h, 28, sampleRate * 2);
    ReadU16(h, 32, BlockAlign);
    ReadU16(h, 34, BitsPerSample);
    ReadU32(h, 40, n * 2);
  }

  lemma ReadU32(b: seq<Byte>, at: nat, v: nat)
    requires at + 4 <= |b| && b[at..at + 4] == LE32(v) && v < Uint32Modulus
    ensures U32(b, at) == v
  {
    U32At(b, at);
    U32OfLE32(v);
  }

  lemma ReadU16(b: seq<Byte>, at: nat, v: nat)
    requires at + 2 <= |b| && b[at..at + 2] == LE16(v) && v < Uint16Modulus
    ensures U16(b, at) == v
  {
    U16At(b, at);
    U16OfLE16(v);
  }

  /**
   * Round trip: reading back an encoded file yields the declared sample rate
   * and exactly the quantised samples, in order. Holds while the RIFF size
   * and the byte rate fit the 32-bit header fields.
   */
  lemma DecodeEncode(samples: seq<real>, sampleRate: nat)
    requires 36 + 2 * |samples| < Uint32Modulus
    requires 2 * sampleRate < Uint32Modulus
    ensures Decode(Encode(samples, sampleRate)) == Some(WavInfo(sampleRate, QuantizeAll(samples)))
  {
    var b := Encode(samples, sampleRate);
    HeaderFields(|samples|, sampleRate);
    DecodeSampleBytes(samples, sampleRate);
    DecodeWellFormed(b, Header(|samples|, sampleRate));
  }

  lemma DecodeWellFormed(b: seq<Byte>, h: seq<Byte>)
    requires |h| == HeaderSize && |b| >= HeaderSize && b[..HeaderSize] == h
    requires HeaderOk(h, |b| - HeaderSize) && (|b| - HeaderSize) % 2 == 0
    ensures Decode(b) == Some(WavInfo(U32(h, 24), DecodeSamples(b[HeaderSize..])))
  {
  }

  /** The data chunk of an encoded file reads back as the quantised samples. */
  lemma DecodeSampleBytes(samples: seq<real>, sampleRate: nat)
    ensures DecodeSamples(Encode(samples, sampleRate)[HeaderSize..]) == QuantizeAll(samples)
  {
    var b := Encode(samples, sampleRate);
    var data := b[HeaderSize..];
    forall i | 0 <= i < |samples|
      ensures DecodeSamples(data)[i] == QuantizeAll(samples)[i]
    {
      assert data[2 * i..2 * i + 2] == b[HeaderSize + 2 * i..HeaderSize + 2 * i + 2];
      U16At(data, 2 * i);
      I16OfLE16(Quantize(samples[i]));
    }
  }

  /** No samples: just the header, announcing a RIFF size of 36 and an empty data chunk. */
  lemma EmptyRecording(sampleRate: nat)
    requires 2 * sampleRate < Uint32Modulus
    ensures Encode([], sampleRate) == Header(0, sampleRate)
    ensures U32(Encode([], sampleRate), 4) == 36
    ensures U32(Encode([], sampleRate), 40) == 0
    ensures Decode(Encode([], sampleRate)) == Some(WavInfo(sampleRate, []))
  {
    HeaderFields(0, sampleRate);
    assert Encode([], sampleRate) == Header(0, sampleRate);
    DecodeEncode([], sampleRate);
  }
}
