/** The parameters of one RFB connection as the server learns them: the
    ProtocolVersion handshake (section 7.1.1 of RFC 6143), the pixel
    format check, the SetEncodings negotiation (section 7.5.2 of RFC 6143,
    with the TightVNC, TurboVNC and Kasm pseudo-encodings) and the
    extended clipboard capabilities. */
module ConnParams {
  import opened Bytes
  import opened Wrappers
  import RdrStream

  // ---------------------------------------------------------------------
  // Encoding numbers (common/rfb/encodings.h)
  // ---------------------------------------------------------------------

  const EncodingRaw: int := 0
  const EncodingCopyRect: int := 1

  const PseudoXCursor: int := -240
  const PseudoCursor: int := -239
  const PseudoDesktopSize: int := -223
  const PseudoLEDState: int := -261
  const PseudoExtendedDesktopSize: int := -308
  const PseudoDesktopName: int := -307
  const PseudoFence: int := -312
  const PseudoContinuousUpdates: int := -313
  const PseudoCursorWithAlpha: int := -314
  const PseudoQEMUKeyEvent: int := -258
  const PseudoLastRect: int := -224
  const PseudoSubsamp1X: int := -768
  const PseudoSubsamp4X: int := -767
  const PseudoSubsamp2X: int := -766
  const PseudoSubsampGray: int := -765
  const PseudoSubsamp8X: int := -764
  const PseudoSubsamp16X: int := -763
  const PseudoWEBP: int := -1024
  const PseudoPreferBandwidth: int := -992
  const PseudoMaxVideoResolution: int := -1997
  const PseudoQOI: int := -1886
  const PseudoKasmDisconnectNotify: int := -1885
  const PseudoVMwareCursor: int := 0x574d5664
  const PseudoVMwareCursorPosition: int := 0x574d5666
  /** 0xC0A1E5CE, as the signed 32-bit entry it arrives as. */
  const PseudoExtendedClipboard: int := 0xC0A1E5CE - 0x1_0000_0000

  // ---------------------------------------------------------------------
  // What one entry of the list means
  // ---------------------------------------------------------------------

  /** The client capabilities a SetEncodings entry can switch on. */
  datatype Cap =
    | LocalCursor | LocalXCursor | CursorWithAlpha | VMwareCursor
    | CursorPosition | DesktopResize | ExtendedDesktopSize | DesktopRename
    | LastRect | LEDState | QEMUKeyEvent | WEBP | QOI | DisconnectNotify
    | Fence | ContinuousUpdates | ExtendedClipboard

  /** The capabilities setEncodings clears before reading the list. Cursor
      position, desktop rename, LED state, fence, continuous updates and
      extended clipboard support survive a second SetEncodings. */
  const Resettable: set<Cap> := {LocalCursor, CursorWithAlpha, VMwareCursor, DesktopResize,
    ExtendedDesktopSize, LocalXCursor, LastRect, QEMUKeyEvent, WEBP, QOI, DisconnectNotify}

  /** The capability an entry announces, if any (the switch of setEncodings). */
  function CapOf(e: int): Option<Cap>
  {
    if e == PseudoCursor then Some(LocalCursor)
    else if e == PseudoXCursor then Some(LocalXCursor)
    else if e == PseudoCursorWithAlpha then Some(CursorWithAlpha)
    else if e == PseudoVMwareCursor then Some(VMwareCursor)
    else if e == PseudoDesktopSize then Some(DesktopResize)
    else if e == PseudoExtendedDesktopSize then Some(ExtendedDesktopSize)
    else if e == PseudoVMwareCursorPosition then Some(CursorPosition)
    else if e == PseudoDesktopName then Some(DesktopRename)
    else if e == PseudoLastRect then Some(LastRect)
    else if e == PseudoLEDState then Some(LEDState)
    else if e == PseudoQEMUKeyEvent then Some(QEMUKeyEvent)
    else if e == PseudoWEBP then Some(WEBP)
    else if e == PseudoQOI then Some(QOI)
    else if e == PseudoKasmDisconnectNotify then Some(DisconnectNotify)
    else if e == PseudoFence then Some(Fence)
    else if e == PseudoContinuousUpdates then Some(ContinuousUpdates)
    else if e == PseudoExtendedClipboard then Some(ExtendedClipboard)
    else None
  }

  /** The chroma subsampling the client asked for. */
  datatype Subsampling = Undefined | NoSubsampling | Gray | Sub2X | Sub4X | Sub8X | Sub16X

  function SubsamplingOf(e: int): Option<Subsampling>
  {
    if e == PseudoSubsamp1X then Some(NoSubsampling)
    else if e == PseudoSubsampGray then Some(Gray)
    else if e == PseudoSubsamp2X then Some(Sub2X)
    else if e == PseudoSubsamp4X then Some(Sub4X)
    else if e == PseudoSubsamp8X then Some(Sub8X)
    else if e == PseudoSubsamp16X then Some(Sub16X)
    else None
  }

  /** A setting chosen by a range of pseudo-encodings: the connection's
      compression, quality and fine quality levels, and the Kasm video
      parameters of the server. */
  datatype Knob =
    | Compress | Quality | FineQuality
    | JpegVideoQuality | WebpVideoQuality | TreatLossless
    | DynamicQualityMin | DynamicQualityMax | VideoArea | VideoTime
    | VideoOutTime | FrameRate | VideoScaling

  /** The Kasm knobs are server parameters a client may set only when the
      server lets clients change its settings. */
  predicate IsKasm(k: Knob)
  {
    !(k.Compress? || k.Quality? || k.FineQuality?)
  }

  /** The first pseudo-encoding of a knob's range. */
  function Lo(k: Knob): int
  {
    match k
    case Compress => -256
    case Quality => -32
    case FineQuality => -512
    case JpegVideoQuality => -1023
    case WebpVideoQuality => -1013
    case TreatLossless => -1003
    case DynamicQualityMin => -991
    case DynamicQualityMax => -981
    case VideoArea => -971
    case VideoTime => -870
    case VideoOutTime => -1986
    case FrameRate => -2048
    case VideoScaling => -1996
  }

  /** The last pseudo-encoding of a knob's range. */
  function Hi(k: Knob): int
  {
    match k
    case Compress => -247
    case Quality => -23
    case FineQuality => -412
    case JpegVideoQuality => -1014
    case WebpVideoQuality => -1004
    case TreatLossless => -993
    case DynamicQualityMin => -982
    case DynamicQualityMax => -972
    case VideoArea => -871
    case VideoTime => -770
    case VideoOutTime => -1887
    case FrameRate => -1998
    case VideoScaling => -1987
  }

  /** The value the first pseudo-encoding of a range stands for. */
  function Base(k: Knob): int
  {
    match k
    case VideoArea => 1
    case VideoOutTime => 1
    case FrameRate => 10
    case _ => 0
  }

  predicate InRange(k: Knob, e: int)
  {
    Lo(k) <= e <= Hi(k)
  }

  /** The knob whose range holds an entry, if any. */
  function KnobOf(e: int): Option<Knob>
  {
    if InRange(Compress, e) then Some(Compress)
    else if InRange(Quality, e) then Some(Quality)
    else if InRange(FineQuality, e) then Some(FineQuality)
    else if InRange(JpegVideoQuality, e) then Some(JpegVideoQuality)
    else if InRange(WebpVideoQuality, e) then Some(WebpVideoQuality)
    else if InRange(TreatLossless, e) then Some(TreatLossless)
    else if InRange(DynamicQualityMin, e) then Some(DynamicQualityMin)
    else if InRange(DynamicQualityMax, e) then Some(DynamicQualityMax)
    else if InRange(VideoArea, e) then Some(VideoArea)
    else if InRange(VideoTime, e) then Some(VideoTime)
    else if InRange(VideoOutTime, e) then Some(VideoOutTime)
    else if InRange(FrameRate, e) then Some(FrameRate)
    else if InRange(VideoScaling, e) then Some(VideoScaling)
    else None
  }

  /** The ranges do not overlap, so the range tests of setEncodings, which
      are made one after the other, pick at most one knob per entry, and it
      is the knob whose range holds the entry. */
  lemma KnobOfRange(e: int, k: Knob)
    ensures KnobOf(e) == Some(k) <==> InRange(k, e)
  {
  }

  /** The bounds of the IntParameter behind a Kasm knob, as ServerCore.cxx
      declares them: setParam refuses a value outside them and the
      parameter keeps its value. FrameRate is declared without bounds, and
      the connection's own levels are plain fields. */
  predicate Accepts(k: Knob, v: int)
  {
    match k
    case JpegVideoQuality => -1 <= v <= 9
    case WebpVideoQuality => -1 <= v <= 9
    case TreatLossless => 0 <= v <= 10
    case DynamicQualityMin => 0 <= v <= 9
    case DynamicQualityMax => 0 <= v <= 9
    case VideoArea => 1 <= v <= 100
    case VideoTime => 0 <= v <= 2000
    case VideoOutTime => 1 <= v <= 100
    case VideoScaling => 0 <= v <= 2
    case _ => true
  }

  /** What bandwidthPreset sets when PreferBandwidth is set to true:
      DynamicQualityMin 2, DynamicQualityMax 9 and TreatLossless 8. */
  function PresetLevel(k: Knob): (r: Option<int>)
    ensures r.Some? ==> IsKasm(k) && Accepts(k, r.value)
  {
    match k
    case DynamicQualityMin => Some(2)
    case DynamicQualityMax => Some(9)
    case TreatLossless => Some(8)
    case _ => None
  }

  /** The Kasm parameters after bandwidthPreset. */
  function ApplyPreset(kasm: map<Knob, int>): (r: map<Knob, int>)
    ensures forall k :: PresetLevel(k).Some? ==> k in r && r[k] == PresetLevel(k).value
    ensures forall k :: PresetLevel(k).None? ==> (k in r <==> k in kasm) && (k in kasm ==> r[k] == kasm[k])
  {
    kasm[DynamicQualityMin := 2][DynamicQualityMax := 9][TreatLossless := 8]
  }

  /** The value entry e writes into knob k in one pass of setEncodings, if
      any: the preset values for PreferBandwidth, or the level of a range
      entry that the connection may set and the parameter accepts. */
  function Writes(e: int, allow: bool, k: Knob): Option<int>
  {
    if allow && e == PseudoPreferBandwidth then PresetLevel(k)
    else if InRange(k, e) && (allow || !IsKasm(k)) && Accepts(k, e - Lo(k) + Base(k)) then Some(e - Lo(k) + Base(k))
    else None
  }

  // ---------------------------------------------------------------------
  // The negotiation as a function of the list
  // ---------------------------------------------------------------------

  /** What SetEncodings decides: the connection's fields, and the Kasm
      server parameters it set (kasm, preferBandwidth), which are global in
      the code. */
  datatype Settings = Settings(
    useCopyRect: bool,
    caps: set<Cap>,
    subsampling: Subsampling,
    compress: int,
    quality: int,
    fine: int,
    encodings: set<int>,
    maxVideoRes: bool,
    kasm: map<Knob, int>,
    preferBandwidth: bool)

  /** The current value of a knob, None for a Kasm parameter not set. */
  function Level(st: Settings, k: Knob): Option<int>
  {
    if k.Compress? then Some(st.compress)
    else if k.Quality? then Some(st.quality)
    else if k.FineQuality? then Some(st.fine)
    else if k in st.kasm then Some(st.kasm[k])
    else None
  }

  function SetLevel(st: Settings, k: Knob, v: int): (r: Settings)
    ensures Level(r, k) == Some(v)
    ensures forall k' :: k' != k ==> Level(r, k') == Level(st, k')
    ensures r.useCopyRect == st.useCopyRect && r.caps == st.caps && r.subsampling == st.subsampling
    ensures r.encodings == st.encodings && r.maxVideoRes == st.maxVideoRes && r.preferBandwidth == st.preferBandwidth
  {
    if k.Compress? then st.(compress := v)
    else if k.Quality? then st.(quality := v)
    else if k.FineQuality? then st.(fine := v)
    else st.(kasm := st.kasm[k := v])
  }

  /** The part of one loop pass that is not about levels: the switch of
      setEncodings and the insertion into encodings_. */
  function StepFlags(st: Settings, e: int, allow: bool): (r: Settings)
    ensures r.compress == st.compress && r.quality == st.quality && r.fine == st.fine
    ensures r.kasm == if allow && e == PseudoPreferBandwidth then ApplyPreset(st.kasm) else st.kasm
  {
    st.(
      useCopyRect := st.useCopyRect || e == EncodingCopyRect,
      caps := if CapOf(e).Some? then st.caps + {CapOf(e).value} else st.caps,
      subsampling := if SubsamplingOf(e).Some? then SubsamplingOf(e).value else st.subsampling,
      encodings := if e > 0 then st.encodings + {e} else st.encodings,
      maxVideoRes := st.maxVideoRes || (allow && e == PseudoMaxVideoResolution),
      preferBandwidth := st.preferBandwidth || (allow && e == PseudoPreferBandwidth),
      kasm := if allow && e == PseudoPreferBandwidth then ApplyPreset(st.kasm) else st.kasm)
  }

  /** The part of one loop pass about levels: the range tests. */
  function StepLevels(st: Settings, e: int, allow: bool): Settings
  {
    match KnobOf(e)
    case Some(k) =>
      if (allow || !IsKasm(k)) && Accepts(k, e - Lo(k) + Base(k)) then SetLevel(st, k, e - Lo(k) + Base(k)) else st
    case None => st
  }

  /** One pass of the loop body of setEncodings for entry e; allow is
      !ignoreClientSettingsKasm && canChangeSettings. */
  function Step(st: Settings, e: int, allow: bool): Settings
  {
    StepLevels(StepFlags(st, e, allow), e, allow)
  }

  /** The list processed from its last entry to its first, as the loop of
      setEncodings does. */
  function Back(st: Settings, es: seq<int>, allow: bool): Settings
    decreases |es|
  {
    if |es| == 0 then st else Step(Back(st, es[1..], allow), es[0], allow)
  }

  /** The state setEncodings starts the loop from. */
  function Reset(st: Settings): Settings
  {
    st.(useCopyRect := false, caps := st.caps - Resettable, compress := -1, quality := -1,
        fine := -1, subsampling := Undefined, encodings := {EncodingRaw})
  }

  /** setEncodings: reset, the list from last to first, then copy-rect
      turned off again when QOI is in use or a watermark image is set. */
  function Negotiate(st: Settings, es: seq<int>, allow: bool, watermarkImage: bool): Settings
  {
    var b := Back(Reset(st), es, allow);
    b.(useCopyRect := b.useCopyRect && QOI !in b.caps && !watermarkImage)
  }

  /** The index of the earliest entry that writes a knob. */
  function FirstWrite(es: seq<int>, allow: bool, k: Knob): (r: Option<nat>)
    ensures r.Some? ==> r.value < |es| && Writes(es[r.value], allow, k).Some?
    ensures r.Some? ==> forall j :: 0 <= j < r.value ==> Writes(es[j], allow, k).None?
    ensures r.None? ==> forall j :: 0 <= j < |es| ==> Writes(es[j], allow, k).None?
    decreases |es|
  {
    if |es| == 0 then None
    else if Writes(es[0], allow, k).Some? then Some(0)
    else match FirstWrite(es[1..], allow, k)
      case None => None
      case Some(i) => Some(i + 1)
  }

  /** The index of the earliest subsampling entry. */
  function FirstSubsampling(es: seq<int>): (r: Option<nat>)
    ensures r.Some? ==> r.value < |es| && SubsamplingOf(es[r.value]).Some?
    ensures r.Some? ==> forall j :: 0 <= j < r.value ==> SubsamplingOf(es[j]).None?
    ensures r.None? ==> forall j :: 0 <= j < |es| ==> SubsamplingOf(es[j]).None?
    decreases |es|
  {
    if |es| == 0 then None
    else if SubsamplingOf(es[0]).Some? then Some(0)
    else match FirstSubsampling(es[1..])
      case None => None
      case Some(i) => Some(i + 1)
  }

  /** One entry sets a knob when it is PreferBandwidth and the knob is one
      of the preset's, or when it lies in the knob's range, the parameter
      accepts the level and, for a Kasm knob, clients may change settings;
      otherwise the knob keeps its value. */
  lemma StepLevel(st: Settings, e: int, allow: bool, k: Knob)
    ensures Level(Step(st, e, allow), k) ==
      if allow && e == PseudoPreferBandwidth && PresetLevel(k).Some? then PresetLevel(k)
      else if InRange(k, e) && (allow || !IsKasm(k)) && Accepts(k, e - Lo(k) + Base(k)) then Some(e - Lo(k) + Base(k))
      else Level(st, k)
  {
    FlagsLevel(st, e, allow, k);
    RangesLevel(StepFlags(st, e, allow), e, allow, k);
    if e == PseudoPreferBandwidth {
      assert !InRange(k, e);
    }
  }

  /** The switch touches a level only through the preset. */
  lemma FlagsLevel(st: Settings, e: int, allow: bool, k: Knob)
    ensures Level(StepFlags(st, e, allow), k) ==
      if allow && e == PseudoPreferBandwidth && PresetLevel(k).Some? then PresetLevel(k) else Level(st, k)
  {
  }

  /** The range tests touch a knob only through an accepted entry of its
      range. */
  lemma RangesLevel(st: Settings, e: int, allow: bool, k: Knob)
    ensures Level(StepLevels(st, e, allow), k) ==
      if InRange(k, e) && (allow || !IsKasm(k)) && Accepts(k, e - Lo(k) + Base(k)) then Some(e - Lo(k) + Base(k))
      else Level(st, k)
  {
    KnobOfRange(e, k);
    match KnobOf(e)
    case Some(k') =>
      KnobOfRange(e, k');
    case None =>
  }

  /** The value a knob has after the list: the earliest entry of its range
      when there is one the list may set, else the value before. */
  function LevelAfter(st: Settings, es: seq<int>, allow: bool, k: Knob): Option<int>
  {
    var f := FirstWrite(es, allow, k);
    if f.Some? then Writes(es[f.value], allow, k) else Level(st, k)
  }

  /** Back, one entry at a time, as far as one knob is concerned. */
  lemma BackLevel(st: Settings, es: seq<int>, allow: bool, k: Knob)
    requires |es| > 0
    ensures Level(Back(st, es, allow), k) ==
      if Writes(es[0], allow, k).Some? then Writes(es[0], allow, k) else Level(Back(st, es[1..], allow), k)
  {
    StepLevel(Back(st, es[1..], allow), es[0], allow, k);
  }

  /** LevelAfter when the first entry does not write the knob: the rest
      decides. */
  lemma LevelAfterTail(st: Settings, es: seq<int>, allow: bool, k: Knob)
    requires |es| > 0 && Writes(es[0], allow, k).None?
    ensures LevelAfter(st, es, allow, k) == LevelAfter(st, es[1..], allow, k)
  {
    var f := FirstWrite(es[1..], allow, k);
    if f.Some? {
      assert FirstWrite(es, allow, k) == Some(f.value + 1);
      assert es[1..][f.value] == es[f.value + 1];
    } else {
      assert FirstWrite(es, allow, k) == None;
    }
  }

  /** Because the list is read backwards, the EARLIEST entry that writes a
      knob decides its value: the earliest entry of its range that the
      parameter accepts (CompressLevel0..9 give 0..9, and so on), or an
      earlier PreferBandwidth for the three knobs of the preset. A Kasm
      knob is touched only when clients may change settings. */
  lemma {:induction false} EarliestLevelWins(st: Settings, es: seq<int>, allow: bool, k: Knob)
    ensures Level(Back(st, es, allow), k) == LevelAfter(st, es, allow, k)
    decreases |es|
  {
    if |es| > 0 {
      EarliestLevelWins(st, es[1..], allow, k);
      BackLevel(st, es, allow, k);
      if Writes(es[0], allow, k).Some? {
        assert FirstWrite(es, allow, k) == Some(0);
      } else {
        LevelAfterTail(st, es, allow, k);
      }
    }
  }

  /** A knob that holds a value its parameter accepts still does after
      the list: setParam never stores a level outside the declared
      bounds, and the preset's values lie inside them. */
  lemma KnobStaysDeclared(st: Settings, es: seq<int>, allow: bool, k: Knob)
    requires Level(st, k).Some? ==> Accepts(k, Level(st, k).value)
    ensures var l := Level(Back(st, es, allow), k); l.Some? ==> Accepts(k, l.value)
  {
    EarliestLevelWins(st, es, allow, k);
  }

  /** The earliest subsampling entry decides the subsampling. */
  lemma {:induction false} EarliestSubsamplingWins(st: Settings, es: seq<int>, allow: bool)
    ensures var f := FirstSubsampling(es);
      Back(st, es, allow).subsampling ==
        if f.Some? then SubsamplingOf(es[f.value]).value else st.subsampling
    decreases |es|
  {
    if |es| > 0 {
      EarliestSubsamplingWins(st, es[1..], allow);
      var f := FirstSubsampling(es[1..]);
      if SubsamplingOf(es[0]).None? && f.Some? {
        assert es[1..][f.value] == es[f.value + 1];
      }
    }
  }

  /** A capability is on after the list when it was on before or some
      entry announces it. */
  lemma {:induction false} CapsOfList(st: Settings, es: seq<int>, allow: bool, c: Cap)
    ensures c in Back(st, es, allow).caps <==> c in st.caps || exists i :: 0 <= i < |es| && CapOf(es[i]) == Some(c)
    decreases |es|
  {
    if |es| > 0 {
      CapsOfList(st, es[1..], allow, c);
      StepFacts(Back(st, es[1..], allow), es[0], allow);
      AnnouncedCons(es, c);
    }
  }

  /** Some entry announces c: the first, or one of the rest. */
  lemma AnnouncedCons(es: seq<int>, c: Cap)
    requires |es| > 0
    ensures (exists i :: 0 <= i < |es| && CapOf(es[i]) == Some(c)) <==>
      CapOf(es[0]) == Some(c) || exists i :: 0 <= i < |es[1..]| && CapOf(es[1..][i]) == Some(c)
  {
    if i :| 0 <= i < |es| && CapOf(es[i]) == Some(c) {
      if i > 0 {
        assert es[1..][i - 1] == es[i];
      }
    }
    if i :| 0 <= i < |es[1..]| && CapOf(es[1..][i]) == Some(c) {
      assert es[i + 1] == es[1..][i];
    }
  }

  /** What one entry does to everything but the levels. */
  lemma StepFacts(st: Settings, e: int, allow: bool)
    ensures var r := Step(st, e, allow);
      r.useCopyRect == (st.useCopyRect || e == EncodingCopyRect)
      && r.caps == (if CapOf(e).Some? then st.caps + {CapOf(e).value} else st.caps)
      && r.subsampling == (if SubsamplingOf(e).Some? then SubsamplingOf(e).value else st.subsampling)
      && r.encodings == (if e > 0 then st.encodings + {e} else st.encodings)
      && r.maxVideoRes == (st.maxVideoRes || (allow && e == PseudoMaxVideoResolution))
      && r.preferBandwidth == (st.preferBandwidth || (allow && e == PseudoPreferBandwidth))
  {
  }

  lemma InCons(es: seq<int>, x: int)
    requires |es| > 0
    ensures x in es <==> es[0] == x || x in es[1..]
  {
    assert es == [es[0]] + es[1..];
  }

  /** The encodings kept are those held before and the positive entries. */
  lemma {:induction false} EncodingsOfList(st: Settings, es: seq<int>, allow: bool, x: int)
    ensures x in Back(st, es, allow).encodings <==> x in st.encodings || (x > 0 && x in es)
    decreases |es|
  {
    if |es| > 0 {
      EncodingsOfList(st, es[1..], allow, x);
      StepFacts(Back(st, es[1..], allow), es[0], allow);
      InCons(es, x);
    }
  }

  /** Copy-rect is on after the list when it was, or the list names it. */
  lemma {:induction false} CopyRectOfList(st: Settings, es: seq<int>, allow: bool)
    ensures Back(st, es, allow).useCopyRect <==> st.useCopyRect || EncodingCopyRect in es
    decreases |es|
  {
    if |es| > 0 {
      CopyRectOfList(st, es[1..], allow);
      StepFacts(Back(st, es[1..], allow), es[0], allow);
      InCons(es, EncodingCopyRect);
    }
  }

  /** preferBandwidth is set only when clients may change settings, and
      then exactly when the list names it. */
  lemma {:induction false} PreferBandwidthOfList(st: Settings, es: seq<int>, allow: bool)
    ensures Back(st, es, allow).preferBandwidth <==> st.preferBandwidth || (allow && PseudoPreferBandwidth in es)
    decreases |es|
  {
    if |es| > 0 {
      PreferBandwidthOfList(st, es[1..], allow);
      StepFacts(Back(st, es[1..], allow), es[0], allow);
      InCons(es, PseudoPreferBandwidth);
    }
  }

  /** The maximum video resolution is marked as client-passed under the
      same condition. */
  lemma {:induction false} MaxVideoResOfList(st: Settings, es: seq<int>, allow: bool)
    ensures Back(st, es, allow).maxVideoRes <==> st.maxVideoRes || (allow && PseudoMaxVideoResolution in es)
    decreases |es|
  {
    if |es| > 0 {
      MaxVideoResOfList(st, es[1..], allow);
      StepFacts(Back(st, es[1..], allow), es[0], allow);
      InCons(es, PseudoMaxVideoResolution);
    }
  }

  /** What setEncodings promises about encodings_ and copy-rect:
      encodings_ is Raw and the positive entries; copy-rect is used only
      when asked for, without QOI and without a watermark image. */
  lemma NegotiateEncodings(st: Settings, es: seq<int>, allow: bool, watermarkImage: bool, x: int)
    ensures var n := Negotiate(st, es, allow, watermarkImage);
      (x in n.encodings <==> x == EncodingRaw || (x > 0 && x in es))
      && (n.useCopyRect <==> EncodingCopyRect in es && QOI !in n.caps && !watermarkImage)
  {
    EncodingsOfList(Reset(st), es, allow, x);
    CopyRectOfList(Reset(st), es, allow);
  }

  /** A resettable capability is on after setEncodings only when this list
      announces it; the others also keep their earlier value. */
  lemma NegotiateCaps(st: Settings, es: seq<int>, allow: bool, watermarkImage: bool, c: Cap)
    ensures c in Negotiate(st, es, allow, watermarkImage).caps <==>
      (c in st.caps && c !in Resettable) || exists i :: 0 <= i < |es| && CapOf(es[i]) == Some(c)
  {
    CapsOfList(Reset(st), es, allow, c);
  }

  /** The levels and the subsampling the list does not set are undefined
      (-1) after setEncodings, whatever they were before. */
  lemma NegotiateDefaults(st: Settings, es: seq<int>, allow: bool, watermarkImage: bool)
    ensures var n := Negotiate(st, es, allow, watermarkImage);
      ((forall j :: 0 <= j < |es| ==> !InRange(Compress, es[j])) ==> n.compress == -1)
      && ((forall j :: 0 <= j < |es| ==> !InRange(Quality, es[j])) ==> n.quality == -1)
      && ((forall j :: 0 <= j < |es| ==> !InRange(FineQuality, es[j])) ==> n.fine == -1)
      && (FirstSubsampling(es).None? ==> n.subsampling == Undefined)
  {
    var r := Reset(st);
    var b := Back(r, es, allow);
    assert Level(r, Compress) == Some(-1) && Level(r, Quality) == Some(-1) && Level(r, FineQuality) == Some(-1);
    UnsetLevelKept(r, es, allow, Compress);
    UnsetLevelKept(r, es, allow, Quality);
    UnsetLevelKept(r, es, allow, FineQuality);
    EarliestSubsamplingWins(r, es, allow);
    assert Level(b, Compress) == Some(b.compress) && Level(b, Quality) == Some(b.quality) && Level(b, FineQuality) == Some(b.fine);
  }

  /** A connection level that no entry of the list lies in the range of
      keeps its value. */
  lemma UnsetLevelKept(st: Settings, es: seq<int>, allow: bool, k: Knob)
    requires !IsKasm(k)
    ensures (forall j :: 0 <= j < |es| ==> !InRange(k, es[j])) ==> Level(Back(st, es, allow), k) == Level(st, k)
  {
    if forall j :: 0 <= j < |es| ==> !InRange(k, es[j]) {
      EarliestLevelWins(st, es, allow, k);
      assert PresetLevel(k).None?;
      assert forall j :: 0 <= j < |es| ==> Writes(es[j], allow, k).None?;
    }
  }

  /** Without leave to change settings (IgnoreClientSettingsKasm, or a
      client lacking the rights) no Kasm parameter is touched. */
  lemma NegotiateKasmIgnored(st: Settings, es: seq<int>, watermarkImage: bool, k: Knob)
    requires IsKasm(k)
    ensures var n := Negotiate(st, es, false, watermarkImage);
      Level(n, k) == Level(st, k) && n.preferBandwidth == st.preferBandwidth && n.maxVideoRes == st.maxVideoRes
  {
    EarliestLevelWins(Reset(st), es, false, k);
    PreferBandwidthOfList(Reset(st), es, false);
    MaxVideoResOfList(Reset(st), es, false);
  }

  /** With leave, a Kasm parameter takes the value of the earliest entry
      that writes it: an accepted entry of its range, or PreferBandwidth
      for the preset's knobs. */
  lemma NegotiateKasmApplied(st: Settings, es: seq<int>, watermarkImage: bool, k: Knob)
    requires IsKasm(k)
    ensures var n := Negotiate(st, es, true, watermarkImage);
      Level(n, k) == LevelAfter(st, es, true, k)
      && (n.preferBandwidth <==> st.preferBandwidth || PseudoPreferBandwidth in es)
  {
    EarliestLevelWins(Reset(st), es, true, k);
    PreferBandwidthOfList(Reset(st), es, true);
  }

  /** PreferBandwidth before a DynamicQualityMin entry wins over it: the
      entry is applied first, then the preset puts DynamicQualityMin back
      to 2 and sets DynamicQualityMax 9 and TreatLossless 8. */
  lemma PresetOverridesLaterLevel(st: Settings, d: int)
    requires InRange(DynamicQualityMin, d)
    ensures var n := Negotiate(st, [PseudoPreferBandwidth, d], true, false);
      Level(n, DynamicQualityMin) == Some(2) && Level(n, DynamicQualityMax) == Some(9)
      && Level(n, TreatLossless) == Some(8)
  {
    EarliestLevelWins(Reset(st), [PseudoPreferBandwidth, d], true, DynamicQualityMin);
    EarliestLevelWins(Reset(st), [PseudoPreferBandwidth, d], true, DynamicQualityMax);
    EarliestLevelWins(Reset(st), [PseudoPreferBandwidth, d], true, TreatLossless);
  }

  /** The level an entry stands for but its parameter refuses leaves the
      parameter as it was: VideoArea's last entry stands for 101, and the
      VideoScaling entries for 3 to 9. */
  lemma RefusedLevelKept(st: Settings, e: int)
    requires e == -871 || -1993 <= e <= -1987
    ensures var k := if e == -871 then VideoArea else VideoScaling;
      Level(Negotiate(st, [e], true, false), k) == Level(st, k)
  {
    var k := if e == -871 then VideoArea else VideoScaling;
    EarliestLevelWins(Reset(st), [e], true, k);
  }

  /** A client that sends the same knob twice gets the first value. */
  lemma FirstOfTwoWins(st: Settings, a: int, b: int, allow: bool)
    requires InRange(Compress, a) && InRange(Compress, b)
    ensures Negotiate(st, [a, b], allow, false).compress == a + 256
  {
    EarliestLevelWins(Reset(st), [a, b], allow, Compress);
  }

  /** The VMware pseudo-encodings are positive numbers, so besides
      switching their capability on they land in encodings_, and
      supportsEncoding answers true for them. */
  lemma VMwareCursorIsListed(st: Settings, allow: bool)
    ensures var n := Negotiate(st, [PseudoVMwareCursor], allow, false);
      VMwareCursor in n.caps && PseudoVMwareCursor in n.encodings
  {
    EncodingsOfList(Reset(st), [PseudoVMwareCursor], allow, PseudoVMwareCursor);
  }

  // ---------------------------------------------------------------------
  // ProtocolVersion: "RFB xxx.yyy\n"
  // ---------------------------------------------------------------------

  /** The index of the first NUL of s, or |s| when there is none. */
  function NulAt(s: seq<byte>): (n: nat)
    ensures n <= |s|
    ensures forall i :: 0 <= i < n ==> s[i] != 0
    ensures n < |s| ==> s[n] == 0
  {
    if |s| == 0 || s[0] == 0 then 0 else 1 + NulAt(s[1..])
  }

  /** The bytes of a C string: up to the first NUL. */
  function CStr(s: seq<byte>): (r: seq<byte>)
    ensures |r| <= |s| && r == s[..|r|]
    ensures forall i :: 0 <= i < |r| ==> r[i] != 0
    ensures |r| < |s| ==> s[|r|] == 0
  {
    s[..NulAt(s)]
  }

  /** White space as sscanf skips it: space, \t, \n, \v, \f and \r. */
  predicate IsSpaceByte(b: byte)
  {
    b == 32 || 9 <= b <= 13
  }

  predicate IsDigitByte(b: byte)
  {
    48 <= b <= 57
  }

  function SkipSpace(t: seq<byte>, k: nat): (r: nat)
    requires k <= |t|
    ensures k <= r <= |t|
    ensures r < |t| ==> !IsSpaceByte(t[r])
    decreases |t| - k
  {
    if k < |t| && IsSpaceByte(t[k]) then SkipSpace(t, k + 1) else k
  }

  /** Decimal digits from k, not reaching lim, added to acc. */
  function DigitRun(t: seq<byte>, k: nat, lim: nat, acc: int): (r: (int, nat))
    requires k <= |t|
    ensures k <= r.1 <= |t|
    ensures r.1 == k || r.1 <= lim
    decreases |t| - k
  {
    if k < |t| && k < lim && IsDigitByte(t[k]) then DigitRun(t, k + 1, lim, acc * 10 + (t[k] - 48))
    else (acc, k)
  }

  /** One %3d conversion from k: white space, then at most three
      characters holding an optional sign and at least one digit. The
      value and the index after it, or None for a matching failure. */
  function Conv3(t: seq<byte>, k: nat): (r: Option<(int, nat)>)
    requires k <= |t|
    ensures r.Some? ==> k < r.value.1 <= |t|
  {
    var k0 := SkipSpace(t, k);
    var signed := k0 < |t| && (t[k0] == 43 || t[k0] == 45);
    var k1 := if signed then k0 + 1 else k0;
    var d := DigitRun(t, k1, k0 + 3, 0);
    if d.1 == k1 then None
    else Some((if signed && t[k0] == 45 then -d.0 else d.0, d.1))
  }

  /** What sscanf(verStr, "RFB %03d.%03d\n", &major, &minor) stores: the
      major version when the first conversion succeeds, the minor one when
      both do. It returns 2 exactly when minor is stored. */
  datatype VersionScan = VersionScan(major: Option<int>, minor: Option<int>)

  function ScanVersion(s: seq<byte>): (r: VersionScan)
    ensures r.minor.Some? ==> r.major.Some?
  {
    var t := CStr(s);
    if |t| < 3 || t[..3] != [82, 70, 66] then VersionScan(None, None)
    else match Conv3(t, 3)
      case None => VersionScan(None, None)
      case Some((ma, k)) =>
        if k < |t| && t[k] == 46 then
          match Conv3(t, k + 1)
          case None => VersionScan(Some(ma), None)
          case Some((mi, _)) => VersionScan(Some(ma), Some(mi))
        else VersionScan(Some(ma), None)
  }

  /** A number 0..999 as %03d writes it. */
  function Digits3(n: int): (r: seq<byte>)
    requires 0 <= n <= 999
    ensures |r| == 3 && forall i :: 0 <= i < 3 ==> IsDigitByte(r[i])
  {
    [48 + n / 100, 48 + n / 10 % 10, 48 + n % 10]
  }

  /** writeVersion: "RFB %03d.%03d\n", twelve bytes. */
  function VersionBytes(major: int, minor: int): (r: seq<byte>)
    requires 0 <= major <= 999 && 0 <= minor <= 999
    ensures |r| == 12
  {
    [82, 70, 66, 32] + Digits3(major) + [46] + Digits3(minor) + [10]
  }

  lemma Digits3At(t: seq<byte>, k: nat, n: int)
    requires 0 <= n <= 999 && k + 3 <= |t| && t[k..k + 3] == Digits3(n)
    ensures DigitRun(t, k, k + 3, 0) == (n, k + 3)
  {
    assert t[k] == 48 + n / 100 && t[k + 1] == 48 + n / 10 % 10 && t[k + 2] == 48 + n % 10 by {
      assert t[k..k + 3][0] == t[k] && t[k..k + 3][1] == t[k + 1] && t[k..k + 3][2] == t[k + 2];
    }
    var a, b, c := n / 100, n / 10 % 10, n % 10;
    assert (a * 10 + b) * 10 + c == n;
    calc {
      DigitRun(t, k, k + 3, 0);
      DigitRun(t, k + 1, k + 3, a);
      DigitRun(t, k + 2, k + 3, a * 10 + b);
      DigitRun(t, k + 3, k + 3, (a * 10 + b) * 10 + c);
    }
  }

  lemma Conv3At(t: seq<byte>, k: nat, n: int)
    requires 0 <= n <= 999 && k + 3 <= |t| && t[k..k + 3] == Digits3(n)
    ensures Conv3(t, k) == Some((n, k + 3))
  {
    assert t[k] == t[k..k + 3][0];
    Digits3At(t, k, n);
  }

  /** Where the parts of the version text lie. */
  lemma VersionLayout(major: int, minor: int)
    requires 0 <= major <= 999 && 0 <= minor <= 999
    ensures var t := VersionBytes(major, minor);
      CStr(t) == t && t[..3] == [82, 70, 66] && IsSpaceByte(t[3])
      && t[4..7] == Digits3(major) && t[7] == 46 && t[8..11] == Digits3(minor)
  {
    var t := VersionBytes(major, minor);
    assert forall i :: 0 <= i < |t| ==> t[i] != 0;
    CStrWhole(t);
  }

  /** A %3d conversion skips white space first. */
  lemma Conv3Skip(t: seq<byte>, k: nat)
    requires k < |t| && IsSpaceByte(t[k])
    ensures Conv3(t, k) == Conv3(t, k + 1)
  {
    assert SkipSpace(t, k) == SkipSpace(t, k + 1);
  }

  /** readVersion recovers what writeVersion sends, for every version
      0..999. */
  lemma VersionRoundTrip(major: int, minor: int)
    requires 0 <= major <= 999 && 0 <= minor <= 999
    ensures ScanVersion(VersionBytes(major, minor)) == VersionScan(Some(major), Some(minor))
  {
    var t := VersionBytes(major, minor);
    VersionLayout(major, minor);
    Conv3Skip(t, 3);
    Conv3At(t, 4, major);
    Conv3At(t, 8, minor);
    ScanBoth(t, major, 7, minor, 11);
  }

  /** ScanVersion when both conversions succeed around the '.'. */
  lemma ScanBoth(t: seq<byte>, major: int, k: nat, minor: int, k': nat)
    requires CStr(t) == t && |t| >= 3 && t[..3] == [82, 70, 66]
    requires Conv3(t, 3) == Some((major, k)) && k < |t| && t[k] == 46
    requires Conv3(t, k + 1) == Some((minor, k'))
    ensures ScanVersion(t) == VersionScan(Some(major), Some(minor))
  {
  }

  lemma {:induction false} CStrWhole(s: seq<byte>)
    requires forall i :: 0 <= i < |s| ==> s[i] != 0
    ensures CStr(s) == s
    decreases |s|
  {
    if |s| > 0 {
      CStrWhole(s[1..]);
    }
  }

  /** Twelve bytes that do not start with "RFB" are refused outright,
      and neither version is touched. */
  lemma NotRfbRefused(s: seq<byte>)
    requires |s| >= 3 && s[..3] != [82, 70, 66]
    ensures ScanVersion(s) == VersionScan(None, None)
  {
    var t := CStr(s);
    if |t| >= 3 {
      assert t[..3] == s[..3];
    }
  }

  /** An HTTP request line sent to the RFB port is one such greeting. */
  lemma HttpRefused()
    ensures ScanVersion([71, 69, 84, 32, 47, 32, 72, 84, 84, 80, 47, 49]) == VersionScan(None, None)
  {
    var s: seq<byte> := [71, 69, 84, 32, 47, 32, 72, 84, 84, 80, 47, 49];
    assert s[0] == 71;
    NotRfbRefused(s);
  }

  // ---------------------------------------------------------------------
  // The connection parameters
  // ---------------------------------------------------------------------

  /** The pixel format the client asked for. */
  datatype PixelFormat = PixelFormat(bpp: int, depth: int, bigEndian: bool, trueColour: bool,
    redMax: int, greenMax: int, blueMax: int, redShift: int, greenShift: int, blueShift: int)

  /** ledUnknown (ledStates.h is not part of this model): all ones. */
  const LedUnknown: u32 := 0xFFFF_FFFF

  /** The clipboard flags of the extended clipboard pseudo-encoding
      (clipboardTypes.h is not part of this model): formats in the low
      bits, actions from bit 24. */
  const ClipboardUTF8: u32 := 1
  const ClipboardRTF: u32 := 2
  const ClipboardHTML: u32 := 4
  const ClipboardRequest: u32 := 0x200_0000
  const ClipboardNotify: u32 := 0x800_0000
  const ClipboardProvide: u32 := 0x1000_0000

  /** The flags a connection starts with. They are distinct bits, so their
      sum is their bitwise or. */
  const DefaultClipFlags: u32 := ClipboardUTF8 + ClipboardRTF + ClipboardHTML + ClipboardRequest + ClipboardNotify + ClipboardProvide

  /** The largest clipboard text the server offers to accept at first:
      20 MiB of UTF-8. */
  const DefaultUtf8Size: u32 := 20 * 1024 * 1024

  function Pow2(i: nat): (r: nat)
    ensures r > 0
  {
    if i == 0 then 1 else 2 * Pow2(i - 1)
  }

  /** Bit i of the flags (flags & (1 << i)). */
  predicate Bit(flags: u32, i: nat)
    requires i < 32
  {
    flags / Pow2(i) % 2 == 1
  }

  /** How many of bits 0..i-1 are set: the index into lengths of bit i. */
  function Rank(flags: u32, i: nat): (r: nat)
    requires i <= 32
    ensures r <= i
  {
    if i == 0 then 0 else Rank(flags, i - 1) + (if Bit(flags, i - 1) then 1 else 0)
  }

  /** Each set bit takes its own length, in bit order, within the first
      Rank(flags, 16) lengths. */
  lemma {:induction false} RankOrdered(flags: u32, i: nat, j: nat)
    requires i < j <= 16 && Bit(flags, i)
    ensures Rank(flags, i) < Rank(flags, j)
    decreases j - i
  {
    if j > i + 1 {
      RankOrdered(flags, i, j - 1);
    }
  }

  /** The size setClipboardCaps leaves for format bit i: the next unused
      length when the bit is set, else the size as it was. */
  function ClipSize(flags: u32, lengths: seq<u32>, sizes: seq<u32>, i: nat): u32
    requires i < 16 && |sizes| == 16 && |lengths| >= Rank(flags, 16)
  {
    if Bit(flags, i) then RankOrdered(flags, i, 16); lengths[Rank(flags, i)] else sizes[i]
  }

  class ConnParams {
    var majorVersion: int
    var minorVersion: int
    /** The version bytes read so far (verStr[0..verStrPos)). */
    var verStr: seq<byte>
    var pf: PixelFormat
    var useCopyRect: bool
    /** The supportsXxx flags that SetEncodings sets, as a set. */
    var caps: set<Cap>
    var subsampling: Subsampling
    var compressLevel: int
    var qualityLevel: int
    var fineQualityLevel: int
    /** encodings_ */
    var encodings: set<int>
    /** kasmPassed[KASM_MAX_VIDEO_RESOLUTION] */
    var maxVideoResPassed: bool
    var ledState: u32
    var clipFlags: u32
    var clipSizes: array<u32>

    predicate Valid()
      reads this
    {
      clipSizes.Length == 16
    }

    /** The fields setEncodings decides, with the Kasm server parameters
        passed in. */
    function Fields(kasm: map<Knob, int>, preferBandwidth: bool): Settings
      reads this
    {
      Settings(useCopyRect, caps, subsampling, compressLevel, qualityLevel, fineQualityLevel,
        encodings, maxVideoResPassed, kasm, preferBandwidth)
    }

    /** ConnParams(): version 0.0, nothing supported, compression 2,
        quality and subsampling undefined, the default clipboard
        capabilities with 20 MiB for UTF-8 text. */
    constructor ()
      ensures Valid() && fresh(clipSizes)
      ensures majorVersion == 0 && minorVersion == 0 && verStr == []
      ensures !useCopyRect && caps == {} && subsampling == Undefined && encodings == {}
      ensures compressLevel == 2 && qualityLevel == -1 && fineQualityLevel == -1
      ensures !maxVideoResPassed && ledState == LedUnknown
      ensures clipFlags == DefaultClipFlags
      ensures clipSizes[0] == DefaultUtf8Size && forall i :: 1 <= i < 16 ==> clipSizes[i] == 0
    {
      majorVersion, minorVersion := 0, 0;
      verStr := [];
      pf := PixelFormat(0, 0, false, false, 0, 0, 0, 0, 0, 0);
      useCopyRect := false;
      caps := {};
      subsampling := Undefined;
      compressLevel, qualityLevel, fineQualityLevel := 2, -1, -1;
      encodings := {};
      maxVideoResPassed := false;
      ledState := LedUnknown;
      clipFlags := DefaultClipFlags;
      var sizes := new u32[16](_ => 0);
      sizes[0] := DefaultUtf8Size;
      clipSizes := sizes;
    }

    /** readVersion(is, &done): takes the available bytes until twelve are
        held. Once twelve were already held it answers false and leaves
        done unset (None). With fewer than twelve it answers true, not
        done. At twelve it is done and answers whether the text scans as
        "RFB %03d.%03d\n"; the versions are stored as sscanf stores them. */
    method ReadVersion(avail: seq<byte>) returns (ok: bool, done: Option<bool>, used: nat)
      modifies this
      ensures |old(verStr)| >= 12 ==> !ok && done.None? && used == 0 && verStr == old(verStr)
      ensures |old(verStr)| >= 12 ==> majorVersion == old(majorVersion) && minorVersion == old(minorVersion)
      ensures |old(verStr)| < 12 ==> used == Min(|avail|, 12 - |old(verStr)|)
      ensures used <= |avail| && verStr == old(verStr) + avail[..used]
      ensures |old(verStr)| < 12 && |verStr| < 12 ==> ok && done == Some(false)
      ensures |old(verStr)| < 12 && |verStr| == 12 ==> done == Some(true) && (ok <==> ScanVersion(verStr).minor.Some?)
      ensures |old(verStr)| < 12 && |verStr| == 12 && ScanVersion(verStr).major.Some? ==> majorVersion == ScanVersion(verStr).major.value
      ensures |old(verStr)| < 12 && |verStr| == 12 && ScanVersion(verStr).minor.Some? ==> minorVersion == ScanVersion(verStr).minor.value
      ensures |verStr| < 12 || ScanVersion(verStr).major.None? ==> majorVersion == old(majorVersion)
      ensures |verStr| < 12 || ScanVersion(verStr).minor.None? ==> minorVersion == old(minorVersion)
      ensures Fields(map[], false) == old(Fields(map[], false)) && clipSizes == old(clipSizes)
    {
      if |verStr| >= 12 {
        return false, None, 0;
      }
      used := TakeVersionBytes(avail);
      if |verStr| < 12 {
        return true, Some(false), used;
      }
      ok := ScanStoredVersion();
      done := Some(true);
    }

    /** The loop of readVersion: bytes are taken while some are available
        and fewer than twelve are held. */
    method TakeVersionBytes(avail: seq<byte>) returns (used: nat)
      requires |verStr| < 12
      modifies this
      ensures used == Min(|avail|, 12 - |old(verStr)|) && verStr == old(verStr) + avail[..used]
      ensures majorVersion == old(majorVersion) && minorVersion == old(minorVersion)
      ensures Fields(map[], false) == old(Fields(map[], false)) && clipSizes == old(clipSizes)
    {
      used := 0;
      while used < |avail| && |verStr| < 12
        invariant used <= |avail| && |verStr| <= 12
        invariant verStr == old(verStr) + avail[..used]
        invariant majorVersion == old(majorVersion) && minorVersion == old(minorVersion)
        invariant Fields(map[], false) == old(Fields(map[], false)) && clipSizes == old(clipSizes)
        decreases |avail| - used
      {
        verStr := verStr + [avail[used]];
        used := used + 1;
        assert avail[..used] == avail[..used - 1] + [avail[used - 1]];
      }
    }

    /** The sscanf of readVersion on the twelve bytes held. */
    method ScanStoredVersion() returns (ok: bool)
      modifies this
      ensures ok <==> ScanVersion(verStr).minor.Some?
      ensures majorVersion == if ScanVersion(verStr).major.Some? then ScanVersion(verStr).major.value else old(majorVersion)
      ensures minorVersion == if ScanVersion(verStr).minor.Some? then ScanVersion(verStr).minor.value else old(minorVersion)
      ensures verStr == old(verStr) && Fields(map[], false) == old(Fields(map[], false)) && clipSizes == old(clipSizes)
    {
      var sc := ScanVersion(verStr);
      if sc.major.Some? {
        majorVersion := sc.major.value;
      }
      if sc.minor.Some? {
        minorVersion := sc.minor.value;
      }
      ok := sc.minor.Some?;
    }

    /** writeVersion(os): the twelve bytes of the version. */
    method WriteVersion(os: RdrStream.OutStream)
      requires 0 <= majorVersion <= 999 && 0 <= minorVersion <= 999
      modifies os
      ensures os.data == old(os.data) + VersionBytes(majorVersion, minorVersion)
    {
      os.WriteBytes(VersionBytes(majorVersion, minorVersion));
    }

    /** setPF(pf): the format is stored, then refused unless it has 8, 16
        or 32 bits per pixel. */
    method SetPF(p: PixelFormat) returns (r: Result<(), string>)
      modifies this
      ensures pf == p
      ensures r.Ok? <==> p.bpp == 8 || p.bpp == 16 || p.bpp == 32
      ensures Fields(map[], false) == old(Fields(map[], false))
    {
      pf := p;
      if p.bpp != 8 && p.bpp != 16 && p.bpp != 32 {
        return Err("setPF: not 8, 16 or 32 bpp?");
      }
      return Ok(());
    }

    /** setLEDState(state) */
    method SetLEDState(state: u32)
      modifies this
      ensures ledState == state && Fields(map[], false) == old(Fields(map[], false))
    {
      ledState := state;
    }

    /** setEncodings(n, encodings): the list decides the fields, and the
        Kasm server parameters it sets are returned (kasm, and whether
        preferBandwidth was set). The handler's permission and the
        server's settings come in as parameters. */
    method SetEncodings(es: seq<i32>, ignoreClientSettingsKasm: bool, canChangeSettings: bool,
                        watermarkImage: bool) returns (kasm: map<Knob, int>, preferBandwidth: bool)
      modifies this
      ensures Fields(kasm, preferBandwidth) ==
        Negotiate(old(Fields(map[], false)), es, !ignoreClientSettingsKasm && canChangeSettings, watermarkImage)
      ensures forall x :: SupportsEncoding(x) <==> x == EncodingRaw || (x > 0 && x in es)
    {
      ghost var allow := !ignoreClientSettingsKasm && canChangeSettings;
      useCopyRect := false;
      caps := caps - Resettable;
      compressLevel, qualityLevel, fineQualityLevel := -1, -1, -1;
      subsampling := Undefined;
      encodings := {EncodingRaw};
      kasm, preferBandwidth := map[], false;
      ghost var start := Fields(kasm, preferBandwidth);
      assert start == Reset(old(Fields(map[], false)));

      var i := |es|;
      while i > 0
        invariant 0 <= i <= |es|
        invariant Fields(kasm, preferBandwidth) == Back(start, es[i..], allow)
      {
        i := i - 1;
        assert es[i..][1..] == es[i + 1..];
        kasm, preferBandwidth := ApplySwitch(es[i], ignoreClientSettingsKasm, canChangeSettings, kasm, preferBandwidth);
        kasm := ApplyRanges(es[i], ignoreClientSettingsKasm, canChangeSettings, kasm, preferBandwidth);
      }
      if QOI in caps {
        useCopyRect := false;
      }
      if watermarkImage {
        useCopyRect := false;
      }
      forall x
        ensures SupportsEncoding(x) <==> x == EncodingRaw || (x > 0 && x in es)
      {
        NegotiateEncodings(old(Fields(map[], false)), es, allow, watermarkImage, x);
      }
    }

    /** The switch of the loop of setEncodings for one entry, and the
        insertion of a positive entry into encodings_. Setting
        PreferBandwidth to true runs bandwidthPreset. */
    method ApplySwitch(e: int, ignoreClientSettingsKasm: bool, canChangeSettings: bool,
                       kasm: map<Knob, int>, preferBandwidth: bool) returns (kasm': map<Knob, int>, preferBandwidth': bool)
      modifies this
      ensures Fields(kasm', preferBandwidth') ==
        StepFlags(old(Fields(kasm, preferBandwidth)), e, !ignoreClientSettingsKasm && canChangeSettings)
    {
      ghost var before := Fields(kasm, preferBandwidth);
      kasm', preferBandwidth' := kasm, preferBandwidth;
      if e == EncodingCopyRect {
        useCopyRect := true;
      }
      var c := CapOf(e);
      if c.Some? {
        caps := caps + {c.value};
      }
      var s := SubsamplingOf(e);
      if s.Some? {
        subsampling := s.value;
      }
      if e == PseudoPreferBandwidth && !ignoreClientSettingsKasm && canChangeSettings {
        preferBandwidth' := true;
        kasm' := ApplyPreset(kasm);
      }
      if e == PseudoMaxVideoResolution && !ignoreClientSettingsKasm && canChangeSettings {
        maxVideoResPassed := true;
      }
      if e > 0 {
        encodings := encodings + {e};
      }
      assert useCopyRect == (before.useCopyRect || e == EncodingCopyRect);
      assert caps == if CapOf(e).Some? then before.caps + {CapOf(e).value} else before.caps;
    }

    /** The range tests of the loop of setEncodings for one entry. */
    method ApplyRanges(e: int, ignoreClientSettingsKasm: bool, canChangeSettings: bool,
                       kasm: map<Knob, int>, preferBandwidth: bool) returns (kasm': map<Knob, int>)
      modifies this
      ensures Fields(kasm', preferBandwidth) ==
        StepLevels(old(Fields(kasm, preferBandwidth)), e, !ignoreClientSettingsKasm && canChangeSettings)
    {
      kasm' := kasm;
      ghost var st := Fields(kasm, preferBandwidth);
      var k := KnobOf(e);
      if k.Some? {
        var v := e - Lo(k.value) + Base(k.value);
        if k.value == Compress {
          compressLevel := v;
        } else if k.value == Quality {
          qualityLevel := v;
        } else if k.value == FineQuality {
          fineQualityLevel := v;
        } else if !ignoreClientSettingsKasm && canChangeSettings && Accepts(k.value, v) {
          kasm' := kasm[k.value := v];
        }
      }
    }

    /** supportsEncoding(encoding) */
    predicate SupportsEncoding(e: int)
      reads this
      ensures SupportsEncoding(e) <==> e in encodings
    {
      e in encodings
    }

    /** setClipboardCaps(flags, lengths): the flags are stored, and the
        lengths go in order to the sizes of the set bits 0..15; the other
        sizes stay. */
    method SetClipboardCaps(flags: u32, lengths: seq<u32>)
      requires Valid() && |lengths| >= Rank(flags, 16)
      modifies this, clipSizes
      ensures Valid() && clipSizes == old(clipSizes) && clipFlags == flags
      ensures forall i :: 0 <= i < 16 ==> clipSizes[i] == ClipSize(flags, lengths, old(clipSizes[..]), i)
      ensures Fields(map[], false) == old(Fields(map[], false))
    {
      clipFlags := flags;
      AssignClipSizes(flags, lengths);
    }

    /** The loop of setClipboardCaps. */
    method AssignClipSizes(flags: u32, lengths: seq<u32>)
      requires Valid() && |lengths| >= Rank(flags, 16)
      modifies clipSizes
      ensures forall i :: 0 <= i < 16 ==> clipSizes[i] == ClipSize(flags, lengths, old(clipSizes[..]), i)
    {
      ghost var sizes := clipSizes[..];
      var num := 0;
      var i := 0;
      while i < 16
        invariant 0 <= i <= 16 && num == Rank(flags, i)
        invariant forall j :: 0 <= j < i ==> clipSizes[j] == ClipSize(flags, lengths, sizes, j)
        invariant forall j :: i <= j < 16 ==> clipSizes[j] == sizes[j]
      {
        if Bit(flags, i) {
          RankOrdered(flags, i, 16);
          clipSizes[i] := lengths[num];
          num := num + 1;
        }
        i := i + 1;
      }
    }
  }

  function Min(a: int, b: int): int
  {
    if a <= b then a else b
  }
}
