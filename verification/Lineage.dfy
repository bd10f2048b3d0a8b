/** Lineages: what can become of one transmission as any stations, with any configuration and
    whatever they have heard, repeat it, gate it to APRS-IS and gate it back. */
module Lineages {
  import opened GoText
  import opened Packets
  import opened Ax25
  import opened Gate
  import opened Tnc2
  import opened RelayNetwork

  /** A frame on the air, or a line read from APRS-IS. */
  datatype Signal = Air(raw: seq<byte>) | Net(line: seq<byte>)

  datatype Move = Repeat | ToIS | ToRF

  /** One station turning one signal into another. What the station decoded the packet to, whom
      it has heard and what its tracker grants are left open. */
  datatype Step = Step(station: Config, decoded: Decoded, heard: bool, granted: bool, move: Move, next: Signal)

  function AirFrame(raw: seq<byte>): Frame
    requires DecodeFrame(raw).Ok?
  {
    var f := DecodeFrame(raw).value;
    Frame(f.src, f.dest, f.path, f.info, Some(raw), SrcRF)
  }

  predicate AirStep(raw: seq<byte>, t: Step, a: Action) {
    && DecodeFrame(raw).Ok?
    && a in FromRF(Packet(AirFrame(raw), t.decoded), t.station)
    && match t.move
       case Repeat => a.RelayRF? && t.next == Air(a.raw)
       case ToIS => a.SendIS? && Sent(a.payload).Some? && t.next.Net? && t.next.line in ReadLines(Sent(a.payload).value)
       case ToRF => false
  }

  predicate NetStep(line: seq<byte>, t: Step, a: Action) {
    && ParseTNC2(line).Some?
    && a == FromIS(Packet(ParseTNC2(line).value, t.decoded), t.station, t.heard, t.granted)
    && t.move == ToRF && a.InjectRF?
    && EncodeFrame(a.src, a.dest, a.path, a.info).Ok?
    && t.next == Air(EncodeFrame(a.src, a.dest, a.path, a.info).value)
  }

  ghost predicate Emits(from: Signal, t: Step) {
    match from
    case Air(raw) => exists a :: AirStep(raw, t, a)
    case Net(line) => exists a :: NetStep(line, t, a)
  }

  /** Each step starts from what the one before it put out. */
  ghost predicate Lineage(start: Signal, steps: seq<Step>)
    decreases |steps|
  {
    steps == [] || (Emits(start, steps[0]) && Lineage(steps[0].next, steps[1..]))
  }

  function Count(steps: seq<Step>, m: Move): nat {
    if steps == [] then 0 else (if steps[0].move == m then 1 else 0) + Count(steps[1..], m)
  }

  // ---- what a repeat does to the frame on the wire ----

  lemma RepeatPlan(raw: seq<byte>, t: Step, a: Action) returns (relay: Relay)
    requires AirStep(raw, t, a) && t.move == Repeat
    ensures var f := DecodeFrame(raw).value;
      && Plan(f.src, f.path, t.station) == Some(relay)
      && EncodeFrame(f.src, f.dest, relay.path, f.info) == Ok(a.raw)
  {
    hide Plan, EncodeFrame, DecodeFrame, RFtoIS;
    assert RFtoIS(Packet(AirFrame(raw), t.decoded), t.station).RelayRF? == false by {
      GatingIsNotRelaying(Packet(AirFrame(raw), t.decoded), t.station);
    }
    assert Digipeat(AirFrame(raw), t.station) == Some(a);
    relay := Plan(DecodeFrame(raw).value.src, DecodeFrame(raw).value.path, t.station).value;
  }

  lemma GatingIsNotRelaying(p: Packet, s: Config)
    ensures !RFtoIS(p, s).RelayRF?
    ensures RFtoIS(p, s).SendIS? ==> p.frame.info != [] && p.frame.info[0] != CURLY
  {
    hide PathRefusal, EqualFold, GatedTNC2;
  }

  /** The repeated frame decodes to the planned path, with the information untouched. */
  lemma RepeatOnWire(raw: seq<byte>, t: Step, a: Action)
    requires AirStep(raw, t, a) && t.move == Repeat
    ensures DecodeFrame(a.raw).Ok?
    ensures var f, g := DecodeFrame(raw).value, DecodeFrame(a.raw).value;
      && g.info == f.info
      && Plan(f.src, f.path, t.station).Some?
      && var path := Plan(f.src, f.path, t.station).value.path;
        EncodablePath(path) && g.path == CanonPath(path)
  {
    hide Plan, EncodeFrame, DecodeFrame, AirStep;
    StepReads(raw, t, a);
    var relay := RepeatPlan(raw, t, a);
    var f := DecodeFrame(raw).value;
    FrameRoundTrip(f.src, f.dest, relay.path, f.info);
  }

  lemma CanonKeepsUsed(path: seq<string>)
    requires EncodablePath(path)
    ensures UsedCount(CanonPath(path)) == UsedCount(path)
    ensures forall i :: 0 <= i < |path| ==> IsUsed(CanonPath(path)[i]) == IsUsed(path[i])
  {
    hide UsedCount, IsUsed, SplitCallSsid, CanonHop;
    forall i | 0 <= i < |path| ensures IsUsed(CanonPath(path)[i]) == IsUsed(path[i]) {
      CanonHopShape(path[i]);
    }
    UsedCountGrows(path, CanonPath(path));
    UsedCountGrows(CanonPath(path), path);
  }

  // ---- the bound on every lineage ----

  predicate IsWrapped(info: seq<byte>) {
    info != [] && info[0] == CURLY
  }

  /** The moves of each kind that can still follow a signal. */
  function Left(from: Signal, m: Move): nat {
    match from
    case Air(raw) =>
      if DecodeFrame(raw).Err? then 0
      else
        var f := DecodeFrame(raw).value;
        var spare := if UsedCount(f.path) <= MAX_PATH_HOPS then MAX_PATH_HOPS - UsedCount(f.path) else 0;
        if IsWrapped(f.info) then (if m.Repeat? then spare else 0)
        else if m.Repeat? then spare + MAX_PATH_HOPS else 1
    case Net(line) =>
      if ParseTNC2(line).None? || IsWrapped(ParseTNC2(line).value.info) || m.ToIS? then 0
      else if m.Repeat? then MAX_PATH_HOPS
      else 1
  }

  lemma RepeatSpends(raw: seq<byte>, t: Step, a: Action, m: Move)
    requires AirStep(raw, t, a) && t.move == Repeat
    ensures Left(Air(a.raw), m) + (if m == Repeat then 1 else 0) <= Left(Air(raw), m)
  {
    hide Plan, EncodeFrame, DecodeFrame, AirStep, UsedCount, UsedFirst;
    StepReads(raw, t, a);
    var f := DecodeFrame(raw).value;
    RepeatOnWire(raw, t, a);
    PlanUsesHop(f.src, f.path, t.station);
    CanonKeepsUsed(Plan(f.src, f.path, t.station).value.path);
  }

  lemma StepReads(raw: seq<byte>, t: Step, a: Action)
    requires AirStep(raw, t, a)
    ensures DecodeFrame(raw).Ok?
  {
    hide DecodeFrame, FromRF;
  }

  lemma GatingSpends(raw: seq<byte>, t: Step, a: Action, m: Move)
    requires AirStep(raw, t, a) && t.move == ToIS
    ensures Left(t.next, m) + (if m == ToIS then 1 else 0) <= Left(Air(raw), m)
  {
    hide DecodeFrame, ParseTNC2, UsedCount, RFtoIS, ReadLines, Digipeat;
    var p := Packet(AirFrame(raw), t.decoded);
    GatingIsNotRelaying(p, t.station);
    DigipeatRelays(p.frame, t.station);
    assert a == RFtoIS(p, t.station);
  }

  lemma DigipeatRelays(f: Frame, s: Config)
    ensures Digipeat(f, s).Some? ==> Digipeat(f, s).value.RelayRF?
  {
    hide Plan, EncodeFrame;
  }

  /** What is put on the air from APRS-IS is wrapped, and what was wrapped is not put on the air. */
  lemma InjectionWraps(p: Packet, s: Config, heard: bool, granted: bool)
    ensures FromIS(p, s, heard, granted).InjectRF? ==>
      FromIS(p, s, heard, granted).info == Wrapped(p.frame, s) && !IsWrapped(p.frame.info)
  {
    hide MessageRefusal, TXPath, Wrapped, EqualFold;
  }

  lemma InjectionSpends(line: seq<byte>, t: Step, a: Action, m: Move)
    requires NetStep(line, t, a)
    ensures Left(t.next, m) + (if m == ToRF then 1 else 0) <= Left(Net(line), m)
  {
    hide DecodeFrame, ParseTNC2, UsedCount, EncodeFrame, FromIS, Wrapped, SplitCallSsid, Canon, EncodablePath, CanonPath;
    var f := ParseTNC2(line).value;
    InjectionWraps(Packet(f, t.decoded), t.station, t.heard, t.granted);
    FrameRoundTrip(a.src, a.dest, a.path, a.info);
    WrappedStarts(f, t.station);
  }

  lemma WrappedStarts(f: Frame, s: Config)
    ensures IsWrapped(Wrapped(f, s))
  {
    var header := WrapHeader(f.src, f.dest, s.callsign);
    assert header[0] == '}';
    assert Wrapped(f, s)[0] == Octets(header)[0];
  }

  /** One step uses up one move of its kind and gives back none of any kind. */
  lemma StepSpends(from: Signal, t: Step, m: Move)
    requires Emits(from, t)
    ensures Left(t.next, m) + (if m == t.move then 1 else 0) <= Left(from, m)
  {
    hide Left, AirStep, NetStep;
    match from {
      case Air(raw) =>
        var a :| AirStep(raw, t, a);
        AirMoves(raw, t, a);
        if t.move == Repeat {
          RepeatSpends(raw, t, a, m);
        } else {
          GatingSpends(raw, t, a, m);
        }
      case Net(line) =>
        var a :| NetStep(line, t, a);
        NetMoves(line, t, a);
        InjectionSpends(line, t, a, m);
    }
  }

  lemma AirMoves(raw: seq<byte>, t: Step, a: Action)
    requires AirStep(raw, t, a)
    ensures t.move != ToRF && (t.move == Repeat ==> t.next == Air(a.raw)) && (t.move == ToIS ==> t.next.Net?)
  {
    hide DecodeFrame, FromRF, ReadLines;
  }

  lemma NetMoves(line: seq<byte>, t: Step, a: Action)
    requires NetStep(line, t, a)
    ensures t.move == ToRF
  {
    hide ParseTNC2, EncodeFrame, FromIS;
  }

  lemma {:induction false} MovesLeft(start: Signal, steps: seq<Step>, m: Move)
    requires Lineage(start, steps)
    ensures Count(steps, m) <= Left(start, m)
    decreases |steps|
  {
    hide Left, Emits;
    if steps != [] {
      StepSpends(start, steps[0], m);
      MovesLeft(steps[0].next, steps[1..], m);
    }
  }

  lemma {:induction false} MovesAddUp(steps: seq<Step>)
    ensures |steps| == Count(steps, Repeat) + Count(steps, ToIS) + Count(steps, ToRF)
  {
    if steps != [] {
      MovesAddUp(steps[1..]);
    }
  }

  /** In any network a transmission is repeated at most 16 times along one line of descent, goes
      to APRS-IS at most once and comes back at most once. */
  lemma LineageBound(start: Signal, steps: seq<Step>)
    requires Lineage(start, steps)
    ensures Count(steps, Repeat) <= 16
    ensures Count(steps, ToIS) <= 1 && Count(steps, ToRF) <= 1
    ensures |steps| <= 18
  {
    hide Lineage;
    MovesLeft(start, steps, Repeat);
    MovesLeft(start, steps, ToIS);
    MovesLeft(start, steps, ToRF);
    MovesAddUp(steps);
  }
}
