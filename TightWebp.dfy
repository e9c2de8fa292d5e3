/** The WebP encoder of the Tight encoding: the choice of the WebP quality
    and method for a rectangle, and the framing of the encoded bytes
    behind the subencoding byte and a Tight compact length. The WebP
    compression itself (libwebp) is outside this model: its output is a
    parameter. */
module TightWebp {
  import opened Bytes
  import opened Wrappers
  import opened RdrStream
  import TightQoi

  /** A WebP setting: quality 0..100 and compression method. */
  datatype Config = Config(quality: byte, webpMethod: byte)

  /** The table of the ten Tight quality levels. */
  const Conf: seq<Config> := [
    Config(5, 0), Config(24, 0), Config(30, 0), Config(37, 0), Config(42, 0),
    Config(65, 0), Config(78, 0), Config(85, 0), Config(88, 0), Config(100, 0)]

  /** The setting used outside the table: quality 8, method 0. */
  const Fallback := Config(8, 0)

  /** The setting for video mode when WebpVideoQuality is -1. */
  const VideoDefault := Config(3, 0)

  /** Every level uses method 0, and a higher level always means a higher
      WebP quality, the top level being 100. */
  lemma ConfOrdered()
    ensures |Conf| == 10
    ensures forall i :: 0 <= i < 10 ==> Conf[i].webpMethod == 0 && Conf[i].quality <= 100
    ensures forall i, j :: 0 <= i < j < 10 ==> Conf[i].quality < Conf[j].quality
    ensures Conf[9].quality == 100
  {
  }

  /** The setting compressOnly chooses. WebpVideoQuality is a parameter in
      -1..9, the range its declaration enforces. */
  function CompressSettings(lowVideoQuality: bool, webpVideoQuality: int, qualityIn: byte): (r: Config)
    requires -1 <= webpVideoQuality <= 9
    ensures lowVideoQuality && webpVideoQuality == -1 ==> r == VideoDefault
    ensures lowVideoQuality && webpVideoQuality >= 0 ==> r == Conf[webpVideoQuality]
    ensures !lowVideoQuality && qualityIn <= 9 ==> r == Conf[qualityIn]
    ensures !lowVideoQuality && qualityIn > 9 ==> r == Fallback
    ensures r.webpMethod == 0 && r.quality <= 100
  {
    ConfOrdered();
    if lowVideoQuality then
      if webpVideoQuality == -1 then VideoDefault else Conf[webpVideoQuality]
    else if qualityIn <= 9 then Conf[qualityIn]
    else Fallback
  }

  /** In video mode the client's quality level plays no part. */
  lemma VideoIgnoresClient(webpVideoQuality: int, q1: byte, q2: byte)
    requires -1 <= webpVideoQuality <= 9
    ensures CompressSettings(true, webpVideoQuality, q1) == CompressSettings(true, webpVideoQuality, q2)
  {
  }

  /** The setting writeRect chooses from the stored quality level. */
  function RectSettings(qualityLevel: int): (r: Config)
    ensures 0 <= qualityLevel <= 9 ==> r == Conf[qualityLevel]
    ensures !(0 <= qualityLevel <= 9) ==> r == Fallback
  {
    if 0 <= qualityLevel <= 9 then Conf[qualityLevel] else Fallback
  }

  /** Outside video mode both paths agree for a level in 0..9, and also for
      a level above 9; they differ only for a negative level, which
      compressOnly cannot be given (its level is unsigned). */
  lemma PathsAgree(level: byte, webpVideoQuality: int)
    requires -1 <= webpVideoQuality <= 9
    ensures CompressSettings(false, webpVideoQuality, level) == RectSettings(level)
  {
  }

  /** isSupported(): the client announced Tight and WebP. */
  function IsSupported(supportsTight: bool, supportsWebp: bool): (r: bool)
    ensures r <==> supportsTight && supportsWebp
  {
    supportsTight && supportsWebp
  }

  /** The compact length of a byte count: writeCompact takes an unsigned
      32-bit value, so the size_t count is cut to 32 bits first. */
  function CompactSize(n: nat): seq<byte>
  {
    TightQoi.Compact(n % TWO32)
  }

  /** A frame whose payload is below 2^22 bytes reads back: the compact
      length gives the payload's length and the payload follows it. */
  lemma FrameReadsBack(sub: byte, out: seq<byte>, rest: seq<byte>)
    requires |out| < 0x40_0000
    ensures var frame := [sub] + CompactSize(|out|) + out + rest;
      && TightQoi.ReadCompact(frame[1..]) == Some((|out|, |CompactSize(|out|)|))
      && frame[1 + |CompactSize(|out|)|..][..|out|] == out
  {
    var c := CompactSize(|out|);
    DivModUnique(0, TWO32, |out|);
    assert c == TightQoi.Compact(|out|);
    var frame := [sub] + c + out + rest;
    assert frame[1..] == c + (out + rest);
    TightQoi.CompactRoundTrip(|out|, out + rest);
    assert frame[1 + |c|..] == out + rest;
  }

  /** The encoder's state: the quality level the client last set. */
  class Encoder {
    var qualityLevel: int

    /** A new encoder has no quality level (-1). */
    constructor ()
      ensures qualityLevel == -1
    {
      qualityLevel := -1;
    }

    /** setQualityLevel(level) */
    method SetQualityLevel(level: int)
      modifies this
      ensures qualityLevel == level
    {
      qualityLevel := level;
    }

    /** setFineQualityLevel does nothing for WebP. */
    method SetFineQualityLevel(quality: int, subsampling: int)
      ensures unchanged(this)
    {
    }

    /** treatLossless(): the level is at or above the TreatLossless setting
        (a parameter in 0..10, where 10 means never). */
    predicate TreatLossless(threshold: int)
      reads this
      ensures TreatLossless(threshold) <==> threshold <= qualityLevel
    {
      qualityLevel >= threshold
    }

    /** A new encoder is never treated as lossless, whatever the setting
        in its declared range. */
    lemma NewIsLossy(threshold: int)
      requires 0 <= threshold <= 10 && qualityLevel == -1
      ensures !TreatLossless(threshold)
    {
    }

    /** With the setting at 10 no level a client can send (0..9) is
        lossless. */
    lemma OffMeansNever()
      requires 0 <= qualityLevel <= 9
      ensures !TreatLossless(10)
    {
    }

    /** compressOnly: the setting for the rectangle, and the WebP output
        (a parameter) as the encoded bytes. */
    method CompressOnly(qualityIn: byte, lowVideoQuality: bool, webpVideoQuality: int, webp: seq<byte>)
      returns (cfg: Config, out: seq<byte>)
      requires -1 <= webpVideoQuality <= 9
      ensures cfg == CompressSettings(lowVideoQuality, webpVideoQuality, qualityIn)
      ensures out == webp
    {
      if lowVideoQuality {
        if webpVideoQuality == -1 {
          cfg := VideoDefault;
        } else {
          cfg := Conf[webpVideoQuality];
        }
      } else if qualityIn <= 9 {
        cfg := Conf[qualityIn];
      } else {
        cfg := Fallback;
      }
      out := webp;
    }

    /** writeCompact(value, os) */
    method WriteCompact(value: u32, os: OutStream)
      modifies os
      ensures os.data == old(os.data) + TightQoi.Compact(value)
    {
      var b: byte := value % 128;
      if value <= 0x7F {
        os.WriteU8(b);
      } else {
        os.WriteU8(b + 128);
        b := value / 128 % 128;
        if value <= 0x3FFF {
          os.WriteU8(b);
        } else {
          os.WriteU8(b + 128);
          os.WriteU8(value / 16384 % 256);
        }
      }
    }

    /** writeOnly(out): the subencoding byte (tightWebp, whose value is not
        part of this model, in the high nibble), the compact length and
        the bytes. */
    method WriteOnly(subencoding: byte, out: seq<byte>, os: OutStream)
      requires subencoding < 16
      modifies os
      ensures os.data == old(os.data) + [subencoding * 16] + CompactSize(|out|) + out
    {
      os.WriteU8(subencoding * 16);
      WriteCompact(|out| % TWO32, os);
      os.WriteBytes(out);
    }

    /** writeRect: the setting chosen from the stored level, and the frame
        of the WebP output (a parameter) on the stream. */
    method WriteRect(subencoding: byte, webp: seq<byte>, os: OutStream) returns (cfg: Config)
      requires subencoding < 16
      modifies os
      ensures cfg == RectSettings(qualityLevel)
      ensures os.data == old(os.data) + [subencoding * 16] + CompactSize(|webp|) + webp
    {
      if qualityLevel >= 0 && qualityLevel <= 9 {
        cfg := Conf[qualityLevel];
      } else {
        cfg := Fallback;
      }
      WriteOnly(subencoding, webp, os);
    }
  }
}
