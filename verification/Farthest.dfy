/** The bound on lineages is attained: any short position report can make all eighteen moves. */
module FarthestLineage {
  import opened GoText
  import opened Packets
  import opened Ax25
  import opened Gate
  import opened Tnc2
  import opened RelayNetwork
  import opened Lineages
  import opened LoopFreedom
  import GateRules

  const HOP: string := "WIDE2-1"

  /** The callsign of the k-th digipeater on the way. */
  function Digi(k: nat): string
    requires k < MAX_PATH_HOPS
  {
    ['A', DigitChar(k)]
  }

  /** The path after k repeats. */
  function Trail(k: nat): (path: seq<string>)
    requires k <= MAX_PATH_HOPS
    ensures |path| == MAX_PATH_HOPS
  {
    seq(MAX_PATH_HOPS, i requires 0 <= i < MAX_PATH_HOPS => if i < k then Digi(i) + "*" else HOP)
  }

  const PLAIN_CONFIG: Config :=
    Config("", true, false, false, false, false, false, false, false, [], "", "")

  function Digipeater(k: nat): Config
    requires k < MAX_PATH_HOPS
  {
    PLAIN_CONFIG.(callsign := Digi(k), digipeatWide2 := true)
  }

  lemma DigiFacts(k: nat)
    requires k < MAX_PATH_HOPS
    ensures var c := Digi(k);
      && WellFormedCall(c) && Upper(c) == c && c != ""
      && IsUsed(c + "*") && Bare(c + "*") == c
  {
    hide WellFormedCall, Upper, IsUsed, Bare;
    PlainCall(Digi(k));
    MarkedIsUsed("", Digi(k));
  }

  lemma HopFacts()
    ensures WellFormedCall(HOP) && Upper(HOP) == HOP && !IsUsed(HOP) && Bare(HOP) == HOP
    ensures ParseWide(HOP) == Some(Counts(2, 1))
  {
    hide WellFormedCall, Upper, ParseWide;
    WideFacts();
  }

  lemma TrailNames(k: nat)
    requires k < MAX_PATH_HOPS
    ensures FirstUnused(Trail(k)) == k && FindCall(Trail(k), Digi(k)) == -1
  {
    hide FirstUnused, FindCall, Upper, IsUsed, Bare, Trail;
    forall i | 0 <= i < MAX_PATH_HOPS
      ensures IsUsed(Trail(k)[i]) == (i < k) && !Names(Trail(k)[i], Digi(k))
    {
      TrailHop(k, i);
    }
    assert !IsUsed(Trail(k)[k]);
  }

  lemma TrailHop(k: nat, i: nat)
    requires k < MAX_PATH_HOPS && i < MAX_PATH_HOPS
    ensures IsUsed(Trail(k)[i]) == (i < k) && !Names(Trail(k)[i], Digi(k))
  {
    hide Upper, IsUsed, Bare;
    HopFacts();
    DigiFacts(i);
    assert Digi(i)[1] == DigitChar(i) && DigitValue(DigitChar(i)) == i;
    assert |HOP| == 7;
  }

  /** The k-th digipeater repeats the frame and adds its mark to the trail. */
  lemma TrailPlan(src: string, k: nat)
    requires k < MAX_PATH_HOPS && Upper(src) != Digi(k)
    ensures Plan(src, Trail(k), Digipeater(k)) == Some(Relay(Trail(k + 1), false))
  {
    hide FirstUnused, FindCall, Upper, ParseWide;
    HopFacts();
    DigiFacts(k);
    TrailNames(k);
    var f := Flood("WIDE", true, Counts(2, 1));
    assert ParseFlood(Trail(k)[k], []) == Some(f);
    assert FloodPath(Trail(k), k, Digi(k), f) == Trail(k + 1);
  }

  /** The frame on the air after k repeats. */
  function Raw(src: string, info: seq<byte>, k: nat): seq<byte>
    requires k <= MAX_PATH_HOPS
  {
    match EncodeFrame(src, BEACON_DEST, Trail(k), info)
    case Err(_) => []
    case Ok(raw) => raw
  }

  lemma TrailFrame(src: string, info: seq<byte>, k: nat)
    requires k <= MAX_PATH_HOPS && WellFormedCall(src)
    ensures EncodeFrame(src, BEACON_DEST, Trail(k), info) == Ok(Raw(src, info, k))
    ensures DecodeFrame(Raw(src, info, k)) == Ok(Fields(src, BEACON_DEST, Trail(k), info))
  {
    hide WellFormedCall, IsUsed, Bare, EncodeFrame, DecodeFrame;
    var f := Fields(src, BEACON_DEST, Trail(k), info);
    HopFacts();
    PlainCall(BEACON_DEST);
    forall i | 0 <= i < MAX_PATH_HOPS ensures WellFormedCall(Bare(f.path[i])) {
      DigiFacts(i);
    }
    assert WellFormedFields(f);
    EncodableFields(f);
  }

  /** From any point of the trail the frame is repeated to its end, before what follows there. */
  lemma {:induction false} Leg(src: string, info: seq<byte>, k: nat, rest: seq<Step>) returns (steps: seq<Step>)
    requires k <= MAX_PATH_HOPS && WellFormedCall(src)
    requires forall i :: 0 <= i < MAX_PATH_HOPS ==> Upper(src) != Digi(i)
    requires Lineage(Air(Raw(src, info, MAX_PATH_HOPS)), rest)
    ensures Lineage(Air(Raw(src, info, k)), steps)
    ensures |steps| == MAX_PATH_HOPS - k + |rest|
    ensures Count(steps, Repeat) == MAX_PATH_HOPS - k + Count(rest, Repeat)
    ensures forall i :: 0 <= i < MAX_PATH_HOPS ==>
      RepeatsBy(steps, Digi(i)) == RepeatsBy(rest, Digi(i)) + if i >= k then 1 else 0
    decreases MAX_PATH_HOPS - k
  {
    hide WellFormedCall, Upper, Emits, Raw, EncodeFrame, DecodeFrame, Plan, Trail;
    if k == MAX_PATH_HOPS {
      steps := rest;
    } else {
      TrailFrame(src, info, k);
      TrailFrame(src, info, k + 1);
      TrailPlan(src, k);
      var t := RepeatHappens(Raw(src, info, k), Digipeater(k), Relay(Trail(k + 1), false));
      var more := Leg(src, info, k + 1, rest);
      steps := [t] + more;
      assert steps[1..] == more;
      OneDigi(k);
    }
  }

  lemma OneDigi(k: nat)
    requires k < MAX_PATH_HOPS
    ensures forall i :: 0 <= i < MAX_PATH_HOPS ==> (Upper(Digi(k)) == Digi(i) <==> i == k)
  {
    hide Upper, WellFormedCall;
    DigiFacts(k);
    assert forall i :: 0 <= i < MAX_PATH_HOPS ==> DigitValue(Digi(i)[1]) == i;
  }

  // ---- through the gateways ----

  const OUTWARD: Config := PLAIN_CONFIG.(callsign := "GI", gateRFtoIS := true)

  const INWARD: Config :=
    PLAIN_CONFIG.(callsign := "GR", gateIStoRF := true, igateTXPath := HOP + Prefixed(seq(7, i => HOP), ','))

  /** A position report that the gateways may pass on and that fits a line. */
  predicate Reportable(info: seq<byte>) {
    && 0 < |info| <= 462 && info[0] != QUESTION && info[0] != CURLY
    && LF !in info && CR !in info
  }

  lemma {:induction false} ShortHops(parts: seq<string>)
    requires forall i :: 0 <= i < |parts| ==> |parts[i]| == 3 && '\n' !in parts[i]
    ensures |Prefixed(parts, ',')| == 4 * |parts| && '\n' !in Prefixed(parts, ',')
  {
    if parts != [] {
      ShortHops(parts[1..]);
    }
  }

  lemma {:induction false} TrimmedHops(parts: seq<string>)
    requires forall i :: 0 <= i < |parts| ==> parts[i] == HOP
    ensures NonEmptyTrimmed(parts) == parts
  {
    hide TrimSpace;
    TrimSpaceKeeps(HOP);
    if parts != [] {
      TrimmedHops(parts[1..]);
    }
  }

  /** The configured path is a fresh trail. */
  lemma InwardPath()
    ensures TXPath(INWARD) == Trail(0)
  {
    hide Split, NonEmptyTrimmed, Prefixed;
    var more := seq(7, i => HOP);
    SplitOfJoined(HOP, more, ',');
    TrimmedHops([HOP] + more);
    assert [HOP] + more == Trail(0);
  }

  function Heard(info: seq<byte>): Frame {
    Frame("AA", BEACON_DEST, Trail(MAX_PATH_HOPS), info, Some(Raw("AA", info, MAX_PATH_HOPS)), SrcRF)
  }

  lemma LineHeader(info: seq<byte>)
    ensures var header := GatedHeader(Heard(info), OUTWARD);
      |header| == 47 && '\n' !in header && header[0] == 'A'
  {
    hide Prefixed, Trail, Raw, Digi;
    var path := Trail(MAX_PATH_HOPS);
    TrailTexts();
    ShortHops(path);
    var hops := Prefixed(path, ',');
    assert GatedHeader(Heard(info), OUTWARD) == "AA>APRGO" + hops + ",qAO,GI";
  }

  lemma TrailTexts()
    ensures forall i :: 0 <= i < MAX_PATH_HOPS ==>
      var hop := Trail(MAX_PATH_HOPS)[i]; |hop| == 3 && OctetString(hop) && '\n' !in hop && ':' !in hop && ',' !in hop
  {
    forall i | 0 <= i < MAX_PATH_HOPS
      ensures var hop := Trail(MAX_PATH_HOPS)[i]; |hop| == 3 && OctetString(hop) && '\n' !in hop && ':' !in hop && ',' !in hop
    {
      var hop := Trail(MAX_PATH_HOPS)[i];
      assert hop == ['A', DigitChar(i), '*'];
    }
  }

  lemma OutwardClean(info: seq<byte>)
    ensures var f := Heard(info);
      OctetHeader(f.src, f.dest, GatedPath(f, OUTWARD)) && CleanHeader(f.src, f.dest, GatedPath(f, OUTWARD))
  {
    hide Raw, Trail, Digi;
    TrailTexts();
    var path := GatedPath(Heard(info), OUTWARD);
    assert path == Trail(MAX_PATH_HOPS) + ["qAO", "GI"];
    assert OctetString("qAO") && OctetString("GI");
  }

  /** The line that the first gateway sends. */
  lemma GatedLine(info: seq<byte>)
    requires Reportable(info)
    ensures var line := GatedTNC2(Heard(info), OUTWARD);
      Sent(line) == Some(line + [CR, LF]) && line in ReadLines(line + [CR, LF])
  {
    hide ReadLines, GatedHeader, Sent, Raw, Trail, OctetHeader, CleanHeader;
    LineHeader(info);
    OutwardClean(info);
    HeaderOctets(Heard(info), OUTWARD);
    var header := GatedHeader(Heard(info), OUTWARD);
    var front := Octets(header);
    assert LF !in front && front[0] as int == 'A' as int;
    var line := front + [COLON] + info;
    assert LF !in line;
    assert line == GatedTNC2(Heard(info), OUTWARD);
    LineArrives(line);
  }

  lemma LineArrives(line: seq<byte>)
    requires line != [] && |line| <= MAX_LINE - 2
    requires LF !in line && line[|line| - 1] != CR && line[0] != HASH
    ensures Sent(line) == Some(line + [CR, LF])
    ensures line in ReadLines(line + [CR, LF])
  {
    hide TrimRight;
    TrimRightKeeps(line, [], LINE_END);
    TrimRightKeeps(line, [CR], LINE_END);
    var stream := (line + [CR]) + [LF] + [];
    IndexOfFirst(line + [CR], LF, []);
    assert line + [] == line && stream == line + [CR, LF];
    assert stream[..|line| + 1] == line + [CR];
  }

  /** Gated to APRS-IS after the last repeat. */
  lemma Outward(info: seq<byte>) returns (t: Step)
    requires Reportable(info)
    ensures Emits(Air(Raw("AA", info, MAX_PATH_HOPS)), t) && t.move == ToIS
    ensures t.next == Net(GatedTNC2(Heard(info), OUTWARD))
  {
    hide GatedTNC2, DecodeFrame, EncodeFrame, ReadLines, Sent, RFtoIS, Raw, EqualFold, Upper, Trail, Plan, Bare;
    var raw := Raw("AA", info, MAX_PATH_HOPS);
    PlainCall("AA");
    TrailFrame("AA", info, MAX_PATH_HOPS);
    GatedLine(info);
    var p := Packet(AirFrame(raw), NOTHING_DECODED);
    assert AirFrame(raw) == Heard(info);
    OutwardDecision(p, info);
    var line := GatedTNC2(Heard(info), OUTWARD);
    t := Step(OUTWARD, NOTHING_DECODED, false, false, ToIS, Net(line));
    assert FromRF(p, OUTWARD) == [SendIS(line)];
    assert AirStep(raw, t, SendIS(line));
  }

  lemma OutwardDecision(p: Packet, info: seq<byte>)
    requires Reportable(info) && p.frame == Heard(info)
    ensures RFtoIS(p, OUTWARD) == SendIS(GatedTNC2(Heard(info), OUTWARD))
  {
    hide GatedTNC2, Raw, Upper, Bare, RFtoIS;
    GateRules.GatedToISExact(p, OUTWARD);
    PlainCall("AA");
    PlainCall("GI");
    forall i | 0 <= i < MAX_PATH_HOPS ensures !GateRules.ForbidsGating(Upper(Bare(p.frame.path[i]))) {
      DigiFacts(i);
      assert Digi(i)[0] == 'A' && |Digi(i)| == 2;
    }
  }

  /** Wrapped and put on the air again by the second gateway, under its configured path. */
  lemma Inward(info: seq<byte>, d: Decoded) returns (t: Step, wrapped: seq<byte>)
    requires Reportable(info) && !d.isMessage && d.fix.Some?
    ensures Emits(Net(GatedTNC2(Heard(info), OUTWARD)), t) && t.move == ToRF
    ensures t.next == Air(Raw("GR", wrapped, 0))
  {
    hide GatedTNC2, EncodeFrame, EqualFold, Upper, Trail, Raw, CleanHeader, OctetHeader, ParseTNC2, TXPath, FromIS;
    OutwardClean(info);
    ReadBackExact(Heard(info), OUTWARD);
    var f := GatedFrame(Heard(info), OUTWARD);
    wrapped := Wrapped(f, INWARD);
    PlainCall("GR");
    TrailFrame("GR", wrapped, 0);
    InwardDecision(f, d);
    var a := InjectRF("GR", BEACON_DEST, Trail(0), wrapped);
    t := Step(INWARD, d, false, true, ToRF, Air(Raw("GR", wrapped, 0)));
    assert NetStep(GatedTNC2(Heard(info), OUTWARD), t, a);
  }

  lemma InwardDecision(f: Frame, d: Decoded)
    requires f.src == "AA" && f.info != [] && f.info[0] != CURLY
    requires !d.isMessage && d.fix.Some?
    ensures FromIS(Packet(f, d), INWARD, false, true) == InjectRF("GR", BEACON_DEST, Trail(0), Wrapped(f, INWARD))
  {
    hide Upper, Trail, TXPath, Wrapped;
    InwardPath();
    PlainCall("AA");
    PlainCall("GR");
  }

  /** Every short position report, however its content is decoded beyond that, can be repeated
      eight times, gated to APRS-IS, gated back and repeated eight times more, by the same eight
      stations. */
  lemma BoundAttained(info: seq<byte>, d: Decoded) returns (start: Signal, steps: seq<Step>)
    requires Reportable(info) && !d.isMessage && d.fix.Some?
    ensures Lineage(start, steps) && |steps| == 18
    ensures Count(steps, Repeat) == 16
    ensures forall i :: 0 <= i < MAX_PATH_HOPS ==> WellFormedCall(Digi(i)) && RepeatsBy(steps, Digi(i)) == 2
  {
    hide Raw, Emits, GatedTNC2, Upper, WellFormedCall;
    var inward, wrapped := Inward(info, d);
    CallsDiffer("GR");
    var last := Leg("GR", wrapped, 0, []);
    var outward := Outward(info);
    var crossing := [outward] + ([inward] + last);
    assert ([inward] + last)[1..] == last;
    assert crossing[1..] == [inward] + last;
    CallsDiffer("AA");
    start := Air(Raw("AA", info, 0));
    steps := Leg("AA", info, 0, crossing);
    forall i | 0 <= i < MAX_PATH_HOPS ensures WellFormedCall(Digi(i)) && RepeatsBy(steps, Digi(i)) == 2 {
      DigiFacts(i);
      assert RepeatsBy([inward] + last, Digi(i)) == RepeatsBy(last, Digi(i)) == 1;
      assert RepeatsBy(crossing, Digi(i)) == 1;
    }
  }

  lemma CallsDiffer(call: string)
    requires call == "AA" || call == "GR"
    ensures WellFormedCall(call)
    ensures forall i :: 0 <= i < MAX_PATH_HOPS ==> Upper(call) != Digi(i)
  {
    hide WellFormedCall, Upper;
    PlainCall(call);
    assert forall i :: 0 <= i < MAX_PATH_HOPS ==> IsDigit(Digi(i)[1]);
  }
}
