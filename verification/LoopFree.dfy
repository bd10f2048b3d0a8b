/** No station repeats what descends from its own repeat, and exactly which callsigns that
    guarantee depends on. */
module LoopFreedom {
  import opened GoText
  import opened Packets
  import opened Ax25
  import opened Gate
  import opened RelayNetwork
  import opened Lineages

  // ---- callsigns that the air leaves as they are compared ----

  lemma UpperDash(c: string)
    ensures IndexOf(Upper(c), '-') == IndexOf(c, '-')
  {
    hide IndexOf;
    var i := IndexOf(c, '-');
    if i < 0 {
      assert '-' !in Upper(c);
    } else {
      assert '-' !in c[..i] && '-' !in Upper(c[..i]);
      assert Upper(c) == Upper(c[..i]) + ['-'] + Upper(c[i + 1..]);
      IndexOfFirst(Upper(c[..i]), '-', Upper(c[i + 1..]));
    }
  }

  /** The parts of a callsign that is well-formed but for letter case. */
  lemma CaseParts(c: string) returns (base: string, suffix: Option<string>)
    requires WellFormedCall(Upper(c))
    ensures SplitCallSsid(c) == ParseParts(base, suffix)
    ensures ValidBaseCall(Upper(base)) && (suffix.Some? ==> SsidText(suffix.value))
    ensures Upper(c) == Upper(base) + if suffix.None? then "" else "-" + suffix.value
  {
    hide IndexOf, TrimSpace, ParseParts, ValidBaseCall, SsidText, UpperChar, Upper;
    UpperDash(c);
    var i := IndexOf(c, '-');
    if i < 0 {
      base, suffix := c, None;
      assert Upper(c) + "" == Upper(c);
    } else {
      base := c[..i];
      suffix := Some(c[i + 1..]);
      assert c == base + ['-'] + c[i + 1..];
      UpperDashed(base, c[i + 1..]);
      assert Upper(c)[..i] == Upper(base) && Upper(c)[i + 1..] == Upper(c[i + 1..]);
      UpperSsid(c[i + 1..]);
    }
    BaseNotPadded(base);
  }

  lemma UpperDashed(base: string, t: string)
    ensures Upper(base + ['-'] + t) == Upper(base) + "-" + Upper(t)
  {
    hide Upper;
    UpperConcat(base + ['-'], t);
    UpperConcat(base, ['-']);
    UpperOfDash();
  }

  lemma UpperOfDash()
    ensures Upper(['-']) == ['-']
  {
  }

  lemma BaseNotPadded(base: string)
    requires ValidBaseCall(Upper(base))
    ensures TrimSpace(base) == base
  {
    hide TrimSpace;
    TrimSpaceKeeps(base);
  }

  lemma UpperSsid(t: string)
    requires SsidText(Upper(t))
    ensures Upper(t) == t
  {
  }

  lemma CaseOfParts(base: string, suffix: Option<string>)
    requires ValidBaseCall(Upper(base)) && (suffix.Some? ==> SsidText(suffix.value))
    ensures ParseParts(base, suffix).Ok?
    ensures ParseParts(base, suffix).value.Canonical()
      == Upper(base) + if suffix.None? then "" else "-" + suffix.value
  {
    hide Atoi, Itoa;
    assert forall k :: 0 <= k < |base| ==> IsAlnum(base[k]);
    assert Upper(base) + "" == Upper(base);
    if suffix.Some? {
      SsidTextExact(suffix.value);
    }
  }

  /** The canonical form equals the form stations compare exactly for callsigns that are
      well-formed but for letter case. */
  lemma CanonIsUpper(c: string)
    requires SplitCallSsid(c).Ok?
    ensures Canon(c) == Upper(c) <==> WellFormedCall(Upper(c))
  {
    hide WellFormedCall, ParseParts, TrimSpace, IndexOf, DashSplit;
    CanonShape(SplitCallSsid(c).value);
    if WellFormedCall(Upper(c)) {
      var base, suffix := CaseParts(c);
      CaseOfParts(base, suffix);
    }
  }

  // ---- stamps survive the wire ----

  lemma StampOnWire(path: seq<string>, callUp: string)
    requires EncodablePath(path) && Stamped(path, callUp) && WellFormedCall(callUp)
    ensures Stamped(CanonPath(path), callUp)
  {
    hide IsUsed, Bare, SplitCallSsid, Canon, WellFormedCall, CanonHop;
    var k :| 0 <= k < |path| && StampAt(path, callUp, k);
    CanonKeepsUsed(path);
    CanonHopShape(path[k]);
    CanonIsUpper(Bare(path[k]));
    UpperTwice(Bare(path[k]));
    assert StampAt(CanonPath(path), callUp, k);
  }

  /** The path that a frame on the air carries. */
  function PathOf(raw: seq<byte>): seq<string> {
    match DecodeFrame(raw)
    case Err(_) => []
    case Ok(f) => f.path
  }

  lemma RepeatStamps(raw: seq<byte>, t: Step, a: Action)
    requires AirStep(raw, t, a) && t.move == Repeat
    requires WellFormedCall(Upper(t.station.callsign))
    ensures Stamped(PathOf(a.raw), Upper(t.station.callsign))
  {
    hide Plan, EncodeFrame, DecodeFrame, AirStep, Stamped, WellFormedCall, EncodablePath, CanonPath;
    StepReads(raw, t, a);
    RepeatOnWire(raw, t, a);
    var f := DecodeFrame(raw).value;
    PlanStamps(f.src, f.path, t.station);
    StampOnWire(Plan(f.src, f.path, t.station).value.path, Upper(t.station.callsign));
  }

  lemma RepeatKeepsStamp(raw: seq<byte>, t: Step, a: Action, callUp: string)
    requires AirStep(raw, t, a) && t.move == Repeat
    requires WellFormedCall(callUp) && Stamped(PathOf(raw), callUp)
    ensures Stamped(PathOf(a.raw), callUp) && Upper(t.station.callsign) != callUp
  {
    hide Plan, EncodeFrame, DecodeFrame, AirStep, Stamped, WellFormedCall, EncodablePath, CanonPath, Upper;
    StepReads(raw, t, a);
    RepeatOnWire(raw, t, a);
    var f := DecodeFrame(raw).value;
    PlanKeepsStamp(f.src, f.path, t.station, callUp);
    StampOnWire(Plan(f.src, f.path, t.station).value.path, callUp);
    if Upper(t.station.callsign) == callUp {
      StampRefused(f.src, f.path, t.station);
    }
  }

  /** Every step of the lineage is a repeat. */
  ghost predicate AllRepeats(steps: seq<Step>) {
    forall i :: 0 <= i < |steps| ==> steps[i].move == Repeat
  }

  lemma RepeatFromAir(from: Signal, t: Step) returns (a: Action)
    requires Emits(from, t) && t.move == Repeat
    ensures from.Air? && AirStep(from.raw, t, a) && t.next == Air(a.raw)
  {
    hide AirStep, NetStep;
    if from.Net? {
      a :| NetStep(from.line, t, a);
      NetMoves(from.line, t, a);
    } else {
      a :| AirStep(from.raw, t, a);
      AirMoves(from.raw, t, a);
    }
  }

  lemma FirstStep(start: Signal, steps: seq<Step>)
    requires Lineage(start, steps) && steps != []
    ensures Emits(start, steps[0]) && Lineage(steps[0].next, steps[1..])
  {
  }

  lemma {:induction false} StampedNotRepeated(start: Signal, steps: seq<Step>, callUp: string, j: nat)
    requires Lineage(start, steps) && j < |steps| && forall k :: 0 <= k <= j ==> steps[k].move == Repeat
    requires start.Air? && WellFormedCall(callUp) && Stamped(PathOf(start.raw), callUp)
    ensures Upper(steps[j].station.callsign) != callUp
    decreases j
  {
    hide AirStep, Stamped, WellFormedCall, Upper, PathOf, Emits, Lineage;
    FirstStep(start, steps);
    var a := RepeatFromAir(start, steps[0]);
    RepeatKeepsStamp(start.raw, steps[0], a, callUp);
    if j > 0 {
      StampedNotRepeated(steps[0].next, steps[1..], callUp, j - 1);
    }
  }

  /** Of the stations that repeat a frame one after the other, none appears twice, if the earlier
      one's callsign is well-formed but for letter case. */
  lemma {:induction false} RepeatsDiffer(start: Signal, steps: seq<Step>, j: nat)
    requires Lineage(start, steps) && 0 < j < |steps| && forall k :: 0 <= k <= j ==> steps[k].move == Repeat
    requires WellFormedCall(Upper(steps[0].station.callsign))
    ensures Upper(steps[j].station.callsign) != Upper(steps[0].station.callsign)
  {
    hide AirStep, Stamped, WellFormedCall, Upper, PathOf, Emits, Lineage;
    FirstStep(start, steps);
    var a := RepeatFromAir(start, steps[0]);
    RepeatStamps(start.raw, steps[0], a);
    StampedNotRepeated(steps[0].next, steps[1..], Upper(steps[0].station.callsign), j - 1);
  }

  lemma {:induction false} LineageFrom(start: Signal, steps: seq<Step>, i: nat) returns (from: Signal)
    requires Lineage(start, steps) && i < |steps|
    ensures Lineage(from, steps[i..]) && Emits(from, steps[i])
    ensures from == if i == 0 then start else steps[i - 1].next
    decreases i
  {
    hide Emits;
    if i == 0 {
      from := start;
      assert steps[0..] == steps;
    } else {
      from := LineageFrom(steps[0].next, steps[1..], i - 1);
      assert steps[1..][i - 1..] == steps[i..];
    }
  }

  /** A line from APRS-IS is followed by nothing but its return to the air. */
  lemma AfterGating(start: Signal, steps: seq<Step>, k: nat)
    requires Lineage(start, steps) && k + 1 < |steps| && steps[k].move == ToIS
    ensures steps[k + 1].move == ToRF
  {
    hide AirStep, NetStep;
    var from := LineageFrom(start, steps, k);
    var next := LineageFrom(start, steps, k + 1);
    match from {
      case Air(raw) =>
        var a :| AirStep(raw, steps[k], a);
        AirMoves(raw, steps[k], a);
      case Net(line) =>
        var a :| NetStep(line, steps[k], a);
        NetMoves(line, steps[k], a);
    }
    var b :| NetStep(next.line, steps[k + 1], b);
    NetMoves(next.line, steps[k + 1], b);
  }

  /** In any lineage, between two repeats by one station whose callsign is well-formed but for
      letter case, the packet was put on the air anew from APRS-IS. */
  lemma NeverTwice(start: Signal, steps: seq<Step>, i: nat, j: nat)
    requires Lineage(start, steps) && i < j < |steps|
    requires steps[i].move == Repeat && steps[j].move == Repeat
    requires WellFormedCall(Upper(steps[i].station.callsign))
    requires Upper(steps[j].station.callsign) == Upper(steps[i].station.callsign)
    ensures exists k :: i < k < j && steps[k].move == ToRF
  {
    hide WellFormedCall, Upper, Lineage, Emits;
    if forall k :: i < k < j ==> steps[k].move != ToRF {
      OnlyRepeats(start, steps, i, j);
      var from := LineageFrom(start, steps, i);
      RepeatsDiffer(from, steps[i..], j - i);
    }
  }

  /** Between two repeats without a return from APRS-IS there are only repeats. */
  lemma OnlyRepeats(start: Signal, steps: seq<Step>, i: nat, j: nat)
    requires Lineage(start, steps) && i < j < |steps|
    requires steps[i].move == Repeat && steps[j].move == Repeat
    requires forall k :: i < k < j ==> steps[k].move != ToRF
    ensures forall k :: i <= k <= j ==> steps[k].move == Repeat
  {
    hide Lineage;
    forall k | i <= k <= j ensures steps[k].move == Repeat {
      if steps[k].move == ToIS {
        AfterGating(start, steps, k);
      }
    }
  }

  /** How often a station appears as the repeater. */
  function RepeatsBy(steps: seq<Step>, callUp: string): nat {
    if steps == [] then 0
    else (if steps[0].move == Repeat && Upper(steps[0].station.callsign) == callUp then 1 else 0) + RepeatsBy(steps[1..], callUp)
  }

  lemma {:induction false} FirstRepeatBy(steps: seq<Step>, callUp: string) returns (i: nat)
    requires RepeatsBy(steps, callUp) > 0
    ensures i < |steps| && steps[i].move == Repeat && Upper(steps[i].station.callsign) == callUp
    ensures RepeatsBy(steps[i + 1..], callUp) == RepeatsBy(steps, callUp) - 1
  {
    hide Upper;
    if steps[0].move == Repeat && Upper(steps[0].station.callsign) == callUp {
      i := 0;
    } else {
      i := FirstRepeatBy(steps[1..], callUp);
      assert steps[1..][i + 1..] == steps[i + 2..];
      i := i + 1;
    }
  }

  lemma {:induction false} NoReturn(steps: seq<Step>, k: nat)
    requires k < |steps| && steps[k].move == ToRF
    ensures Count(steps, ToRF) == Count(steps[..k], ToRF) + 1 + Count(steps[k + 1..], ToRF)
  {
    if k > 0 {
      NoReturn(steps[1..], k - 1);
      assert steps[..k][1..] == steps[1..][..k - 1];
      assert steps[1..][k..] == steps[k + 1..];
    }
  }

  /** No such station repeats one transmission more than twice in a lineage. */
  lemma AtMostTwice(start: Signal, steps: seq<Step>, callUp: string)
    requires Lineage(start, steps) && WellFormedCall(callUp)
    ensures RepeatsBy(steps, callUp) <= 2
  {
    hide WellFormedCall, Upper, Lineage, Emits, RepeatsBy, Count;
    if RepeatsBy(steps, callUp) > 2 {
      var i := FirstRepeatBy(steps, callUp);
      var j := FirstRepeatBy(steps[i + 1..], callUp);
      assert steps[i + 1..][j + 1..] == steps[i + j + 2..];
      var l := FirstRepeatBy(steps[i + j + 2..], callUp);
      NeverTwice(start, steps, i, i + 1 + j);
      NeverTwice(start, steps, i + 1 + j, i + j + 2 + l);
      var k :| i < k < i + 1 + j && steps[k].move == ToRF;
      var m :| i + 1 + j < m < i + j + 2 + l && steps[m].move == ToRF;
      NoReturn(steps, k);
      NoReturn(steps[k + 1..], m - k - 1);
      LineageBound(start, steps);
    }
  }

  // ---- the condition is exact ----

  /** What descends from a repeat under this callsign is repeated by the station, without having
      been put on the air anew in between. */
  ghost predicate RepeatsAgain(start: Signal, steps: seq<Step>, i: nat, j: nat, s: Config) {
    && Lineage(start, steps) && i < j < |steps|
    && steps[i].move == Repeat && steps[i].station.callsign == s.callsign
    && steps[j].move == Repeat && steps[j].station == s
    && forall k :: i < k < j ==> steps[k].move != ToRF
  }

  ghost predicate RepeatsItself(s: Config) {
    exists start, steps, i, j :: RepeatsAgain(start, steps, i, j, s)
  }

  /** A planned repeat whose frame can be encoded is a step of a lineage. */
  lemma RepeatHappens(raw: seq<byte>, s: Config, relay: Relay) returns (t: Step)
    requires DecodeFrame(raw).Ok?
    requires var f := DecodeFrame(raw).value;
      Plan(f.src, f.path, s) == Some(relay) && EncodeFrame(f.src, f.dest, relay.path, f.info).Ok?
    requires s.txEnable && (s.digipeatWide1 || s.digipeatWide2)
    ensures var f := DecodeFrame(raw).value;
      && Emits(Air(raw), t) && t.move == Repeat && t.station == s
      && t.next == Air(EncodeFrame(f.src, f.dest, relay.path, f.info).value)
  {
    hide DecodeFrame, EncodeFrame, Plan, RFtoIS;
    var f := DecodeFrame(raw).value;
    var out := EncodeFrame(f.src, f.dest, relay.path, f.info).value;
    t := Step(s, NOTHING_DECODED, false, false, Repeat, Air(out));
    var a := RelayRF(out, relay.viscous);
    assert Digipeat(AirFrame(raw), s) == Some(a);
    assert AirStep(raw, t, a);
  }

  lemma SsidCall(base: string, t: string)
    requires ValidBaseCall(base) && SsidText(t)
    ensures WellFormedCall(base + "-" + t) && Upper(base + "-" + t) == base + "-" + t
  {
    hide IndexOf, ValidBaseCall, SsidText;
    var c := base + ['-'] + t;
    assert '-' !in base && Upper(base) == base by { BaseChars(base); }
    assert Upper(t) == t by { SsidChars(t); }
    IndexOfFirst(base, '-', t);
    assert c[..|base|] == base && c[|base| + 1..] == t;
    UpperConcat(base + ['-'], t);
    UpperConcat(base, ['-']);
    UpperOfDash();
  }

  lemma BaseChars(base: string)
    requires ValidBaseCall(base)
    ensures '-' !in base && Upper(base) == base
  {
  }

  lemma SsidChars(t: string)
    requires SsidText(t)
    ensures Upper(t) == t
  {
  }

  lemma PlainCall(base: string)
    requires ValidBaseCall(base)
    ensures WellFormedCall(base) && Upper(base) == base
  {
    hide IndexOf;
    assert '-' !in base;
  }

  /** The last-hop token of each role. */
  function RoleToken(s: Config): string {
    if s.digipeatWide2 then "WIDE2-1" else "WIDE1-1"
  }

  function RoleFlood(s: Config): Flood {
    Flood("WIDE", true, Counts(if s.digipeatWide2 then 2 else 1, 1))
  }

  lemma WideFacts()
    ensures WellFormedCall("WIDE1-1") && WellFormedCall("WIDE2-1")
    ensures WellFormedCall("AA") && WellFormedCall("APRGO")
    ensures Upper("WIDE1-1") == "WIDE1-1" && Upper("WIDE2-1") == "WIDE2-1" && Upper("AA") == "AA"
    ensures ParseWide("WIDE1-1") == Some(Counts(1, 1)) && ParseWide("WIDE2-1") == Some(Counts(2, 1))
  {
    hide WellFormedCall, ParseWide, Upper;
    WideToken("WIDE1-1", '1', '1');
    WideToken("WIDE2-1", '2', '1');
    SsidCall("WIDE1", "1");
    SsidCall("WIDE2", "1");
    assert "WIDE1" + "-" + "1" == "WIDE1-1" && "WIDE2" + "-" + "1" == "WIDE2-1";
    PlainCall("AA");
    PlainCall("APRGO");
  }

  /** An encodable callsign can be put in a path with the used mark. */
  lemma MarkedHop(call: string)
    requires SplitCallSsid(call).Ok?
    ensures IsUsed(call + "*") && Bare(call + "*") == call
    ensures CanonHop(call + "*") == Canon(call) + "*"
    ensures WellFormedCall(Canon(call)) && call != ""
  {
    hide SplitCallSsid, WellFormedCall;
    MarkedIsUsed("", call);
    CanonShape(SplitCallSsid(call).value);
    NoEmptyCall();
  }

  lemma NoEmptyCall()
    ensures SplitCallSsid("").Err?
  {
    hide IndexOf;
    assert TrimSpace("") == "";
  }

  lemma RoleHop(s: Config)
    requires !WellFormedCall(Upper(s.callsign))
    ensures !IsUsed(RoleToken(s)) && !Names(RoleToken(s), Upper(s.callsign))
    ensures ParseFlood(RoleToken(s), s.regionalAliases) == Some(RoleFlood(s))
  {
    hide Upper, WellFormedCall, ParseWide;
    WideFacts();
  }

  lemma TwoHops(a: string, b: string, callUp: string)
    requires !Names(a, callUp) && !Names(b, callUp) && !IsUsed(b)
    ensures FindCall([a, b], callUp) < 0 && FirstUnused([a, b]) == if IsUsed(a) then 1 else 0
  {
    hide FindCall, FirstUnused, IsUsed, Names;
    var path := [a, b];
    assert path[0] == a && path[1] == b;
  }

  lemma RolePlan(path: seq<string>, at: nat, s: Config)
    requires at < |path| <= MAX_PATH_HOPS && s.callsign != "" && !EqualFold("AA", s.callsign)
    requires s.digipeatWide1 || s.digipeatWide2
    requires FirstUnused(path) == at && FindCall(path, Upper(s.callsign)) < 0
    requires ParseFlood(path[at], s.regionalAliases) == Some(RoleFlood(s))
    ensures Plan("AA", path, s) == Some(Relay(path[at := s.callsign + "*"], s.viscousDelay && !s.digipeatWide2))
  {
    hide Upper, ParseFlood, FirstUnused, FindCall, EqualFold;
    assert Eligible(RoleFlood(s), s);
    assert FloodPath(path, at, s.callsign, RoleFlood(s)) == path[at := s.callsign + "*"];
  }

  /** Whoever has the ill-formed callsign, it is not "AA". */
  lemma NotAA(s: Config)
    requires SplitCallSsid(s.callsign).Ok? && !WellFormedCall(Upper(s.callsign))
    ensures s.callsign != "" && !EqualFold("AA", s.callsign)
  {
    hide SplitCallSsid, WellFormedCall, Upper;
    WideFacts();
    NoEmptyCall();
  }

  lemma FirstPlan(s: Config)
    requires SplitCallSsid(s.callsign).Ok? && !WellFormedCall(Upper(s.callsign)) && (s.digipeatWide1 || s.digipeatWide2)
    ensures Plan("AA", [RoleToken(s), RoleToken(s)], s)
      == Some(Relay([s.callsign + "*", RoleToken(s)], s.viscousDelay && !s.digipeatWide2))
  {
    hide Upper, SplitCallSsid, WellFormedCall, Plan, RoleToken, RoleFlood, ParseFlood, FindCall, FirstUnused, Names, IsUsed, EqualFold;
    RoleHop(s);
    NotAA(s);
    var path := [RoleToken(s), RoleToken(s)];
    TwoHops(RoleToken(s), RoleToken(s), Upper(s.callsign));
    RolePlan(path, 0, s);
    assert path[0 := s.callsign + "*"] == [s.callsign + "*", RoleToken(s)];
  }

  lemma SecondPlan(s: Config)
    requires SplitCallSsid(s.callsign).Ok? && !WellFormedCall(Upper(s.callsign)) && (s.digipeatWide1 || s.digipeatWide2)
    ensures Plan("AA", [Canon(s.callsign) + "*", RoleToken(s)], s)
      == Some(Relay([Canon(s.callsign) + "*", s.callsign + "*"], s.viscousDelay && !s.digipeatWide2))
  {
    hide Upper, SplitCallSsid, WellFormedCall, Canon, Plan, RoleToken, RoleFlood, ParseFlood, FindCall, FirstUnused, IsUsed, Bare, EqualFold;
    RoleHop(s);
    NotAA(s);
    MarkedHop(s.callsign);
    var mine := Canon(s.callsign) + "*";
    var path := [mine, RoleToken(s)];
    CanonIsUpper(s.callsign);
    CanonUpper(s.callsign);
    MarkedIsUsed("", Canon(s.callsign));
    assert !Names(mine, Upper(s.callsign));
    TwoHops(mine, RoleToken(s), Upper(s.callsign));
    RolePlan(path, 1, s);
    assert path[1 := s.callsign + "*"] == [mine, s.callsign + "*"];
  }

  lemma CanonUpper(call: string)
    requires SplitCallSsid(call).Ok?
    ensures Upper(Canon(call)) == Canon(call)
  {
    var a := SplitCallSsid(call).value;
    UpperTwice(a.call);
    if a.ssid > 0 {
      UpperConcat(Upper(a.call) + "-", Itoa(a.ssid));
      UpperConcat(Upper(a.call), "-");
      assert Upper(Itoa(a.ssid)) == Itoa(a.ssid);
      UpperOfDash();
    }
  }

  lemma TestFrame(path: seq<string>) returns (raw: seq<byte>)
    requires EncodablePath(path) && |path| <= MAX_DIGIPEATERS
    ensures EncodeFrame("AA", "APRGO", path, []) == Ok(raw)
    ensures DecodeFrame(raw) == Ok(Fields("AA", "APRGO", CanonPath(path), []))
  {
    hide SplitCallSsid, WellFormedCall, Canon, EncodeFrame, DecodeFrame, EncodablePath, CanonPath;
    WideFacts();
    CanonFixpoints("AA");
    CanonFixpoints("APRGO");
    EncodeSucceeds("AA", "APRGO", path, []);
    FrameRoundTrip("AA", "APRGO", path, []);
    raw := EncodeFrame("AA", "APRGO", path, []).value;
  }

  /** A station repeats itself exactly when it transmits in the fill-in or the full role under a
      callsign that can be sent but is not well-formed, for instance one written with the SSID 0. */
  lemma RepeatsItselfExact(s: Config)
    ensures RepeatsItself(s) <==>
      && s.txEnable && (s.digipeatWide1 || s.digipeatWide2)
      && SplitCallSsid(s.callsign).Ok? && !WellFormedCall(Upper(s.callsign))
  {
    hide SplitCallSsid, WellFormedCall, Upper, RepeatsAgain;
    if RepeatsItself(s) {
      var start, steps, i, j :| RepeatsAgain(start, steps, i, j, s);
      AgainMeans(start, steps, i, j, s);
    }
    if s.txEnable && (s.digipeatWide1 || s.digipeatWide2) && SplitCallSsid(s.callsign).Ok?
       && !WellFormedCall(Upper(s.callsign)) {
      SelfRepeatExists(s);
    }
  }

  lemma AgainMeans(start: Signal, steps: seq<Step>, i: nat, j: nat, s: Config)
    requires RepeatsAgain(start, steps, i, j, s)
    ensures s.txEnable && (s.digipeatWide1 || s.digipeatWide2)
    ensures SplitCallSsid(s.callsign).Ok? && !WellFormedCall(Upper(s.callsign))
  {
    hide SplitCallSsid, WellFormedCall, Upper, Emits, Lineage;
    if WellFormedCall(Upper(s.callsign)) {
      NeverTwice(start, steps, i, j);
    }
    OnlyRepeats(start, steps, i, j);
    var before := LineageFrom(start, steps, j - 1);
    var from := LineageFrom(start, steps, j);
    SecondRepeat(before, steps[j - 1], steps[j]);
  }

  /** Who repeats a repeat transmits under a sendable callsign; if that is not well-formed, the
      repeat answers a flood token. */
  lemma SecondRepeat(start: Signal, t: Step, u: Step)
    requires Emits(start, t) && Emits(t.next, u) && t.move == Repeat && u.move == Repeat
    requires !WellFormedCall(Upper(u.station.callsign))
    ensures var s := u.station;
      s.txEnable && (s.digipeatWide1 || s.digipeatWide2) && SplitCallSsid(s.callsign).Ok?
  {
    hide SplitCallSsid, WellFormedCall, Canon, DecodeFrame, EncodeFrame, Plan, Upper, Emits, CanonPath, EncodablePath, AirStep;
    var a := RepeatFromAir(start, t);
    var b := RepeatFromAir(t.next, u);
    RepeatTransmits(start.raw, t, a);
    RepeatTransmits(a.raw, u, b);
    StepReads(start.raw, t, a);
    RepeatOnWire(start.raw, t, a);
    RepeatOnWire(a.raw, u, b);
    var f, g := DecodeFrame(start.raw).value, DecodeFrame(a.raw).value;
    PlanHasCall(g.src, g.path, u.station);
    EncodableCall(Plan(g.src, g.path, u.station).value.path, u.station.callsign);
    CanonNamesNone(Plan(f.src, f.path, t.station).value.path, Upper(u.station.callsign));
    FloodOnly(g.src, g.path, u.station);
  }

  lemma RepeatTransmits(raw: seq<byte>, t: Step, a: Action)
    requires AirStep(raw, t, a) && t.move == Repeat
    ensures a.RelayRF? && t.station.txEnable
  {
    hide DecodeFrame, Digipeat, RFtoIS;
    StepReads(raw, t, a);
    GatingIsNotRelaying(Packet(AirFrame(raw), t.decoded), t.station);
  }

  lemma PlanHasCall(src: string, path: seq<string>, s: Config)
    requires Plan(src, path, s).Some?
    ensures s.callsign + "*" in Plan(src, path, s).value.path
  {
    hide FindCall, FirstUnused, Upper, EqualFold, ParseFlood, FloodToken, IsUsed;
    var out := Plan(src, path, s).value.path;
    var mine, first := FindCall(path, Upper(s.callsign)), FirstUnused(path);
    if mine >= 0 {
      assert out[mine] == s.callsign + "*";
    } else {
      assert out[first] == s.callsign + "*";
    }
  }

  lemma EncodableCall(path: seq<string>, call: string)
    requires EncodablePath(path) && call + "*" in path
    ensures SplitCallSsid(call).Ok?
  {
    hide SplitCallSsid;
    MarkedIsUsed("", call);
    var i :| 0 <= i < |path| && path[i] == call + "*";
    assert Bare(path[i]) == call;
  }

  /** After the wire no hop reads as a callsign that is not well-formed. */
  lemma CanonNamesNone(path: seq<string>, callUp: string)
    requires EncodablePath(path) && !WellFormedCall(callUp)
    ensures FindCall(CanonPath(path), callUp) < 0
  {
    hide SplitCallSsid, WellFormedCall, Canon, CanonHop, Upper, Bare, IsUsed;
    forall i | 0 <= i < |path| ensures !Names(CanonPath(path)[i], callUp) {
      CanonHopShape(path[i]);
      CanonUpper(Bare(path[i]));
    }
  }

  lemma FloodOnly(src: string, path: seq<string>, s: Config)
    requires Plan(src, path, s).Some? && FindCall(path, Upper(s.callsign)) < 0
    ensures s.digipeatWide1 || s.digipeatWide2
  {
    hide FindCall, FirstUnused, Upper, EqualFold, ParseFlood, FloodPath;
  }

  lemma SelfRepeatExists(s: Config)
    requires SplitCallSsid(s.callsign).Ok? && s.txEnable && (s.digipeatWide1 || s.digipeatWide2)
    requires !WellFormedCall(Upper(s.callsign))
    ensures RepeatsItself(s)
  {
    hide SplitCallSsid, WellFormedCall, Canon, DecodeFrame, EncodeFrame, Plan, Upper, Emits, CanonHop, IsUsed, Bare, EncodablePath, CanonPath;
    MarkedHop(s.callsign);
    PlainHop(Canon(s.callsign));
    MarkedHop(Canon(s.callsign));
    var call, canon, token := s.callsign + "*", Canon(s.callsign) + "*", RoleToken(s);
    var held := s.viscousDelay && !s.digipeatWide2;
    var raw, first := FirstRepeat(s);
    SecondPlan(s);
    ShortPaths(canon, call);
    var second := TestFrame([canon, call]);
    var t := RepeatHappens(raw, s, Relay([call, token], held));
    var u := RepeatHappens(first, s, Relay([canon, call], held));
    TwoSteps(Air(raw), t, u);
    assert RepeatsAgain(Air(raw), [t, u], 0, 1, s);
  }

  lemma FirstRepeat(s: Config) returns (raw: seq<byte>, first: seq<byte>)
    requires SplitCallSsid(s.callsign).Ok? && s.txEnable && (s.digipeatWide1 || s.digipeatWide2)
    requires !WellFormedCall(Upper(s.callsign))
    ensures DecodeFrame(raw) == Ok(Fields("AA", "APRGO", [RoleToken(s), RoleToken(s)], []))
    ensures Plan("AA", [RoleToken(s), RoleToken(s)], s)
      == Some(Relay([s.callsign + "*", RoleToken(s)], s.viscousDelay && !s.digipeatWide2))
    ensures EncodeFrame("AA", "APRGO", [s.callsign + "*", RoleToken(s)], []) == Ok(first)
    ensures DecodeFrame(first) == Ok(Fields("AA", "APRGO", [Canon(s.callsign) + "*", RoleToken(s)], []))
  {
    hide SplitCallSsid, WellFormedCall, Canon, DecodeFrame, EncodeFrame, Plan, Upper, CanonHop, IsUsed, Bare, EncodablePath, CanonPath;
    WideFacts();
    MarkedHop(s.callsign);
    PlainHop(RoleToken(s));
    ShortPaths(RoleToken(s), RoleToken(s));
    ShortPaths(s.callsign + "*", RoleToken(s));
    raw := TestFrame([RoleToken(s), RoleToken(s)]);
    FirstPlan(s);
    first := TestFrame([s.callsign + "*", RoleToken(s)]);
  }

  lemma ShortPaths(a: string, b: string)
    requires SplitCallSsid(Bare(a)).Ok? && SplitCallSsid(Bare(b)).Ok?
    ensures EncodablePath([b]) && CanonPath([b]) == [CanonHop(b)]
    ensures EncodablePath([a, b]) && CanonPath([a, b]) == [CanonHop(a), CanonHop(b)]
  {
    hide SplitCallSsid, CanonHop, Bare;
  }

  lemma PlainHop(c: string)
    requires WellFormedCall(c)
    ensures SplitCallSsid(Bare(c)).Ok? && CanonHop(c) == c
    ensures SplitCallSsid(c).Ok? && Canon(c) == c
  {
    hide SplitCallSsid, WellFormedCall, Canon;
    MarkedCall(c);
    CanonFixpoints(c);
  }

  lemma TwoSteps(start: Signal, t: Step, u: Step)
    requires Emits(start, t) && Emits(t.next, u)
    ensures Lineage(start, [t, u])
  {
    hide Emits;
    assert [t, u][1..] == [u] && [u][1..] == [];
    assert Lineage(u.next, []);
    assert Lineage(t.next, [u]);
  }
}
