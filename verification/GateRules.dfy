/** What the gate lets through, stated without reference to the order of its checks. */
module GateRules {
  import opened GoText
  import opened Packets
  import opened Ax25
  import opened Gate
  import opened Content
  import opened HeardHops
  import RelayNetwork
  import LoopFreedom

  /** Path elements that forbid gating to APRS-IS: opt-outs, APRS-IS marks and q-constructs. */
  predicate ForbidsGating(name: string) {
    || name in {"NOGATE", "RFONLY", "TCPIP", "TCPXX"}
    || (|name| == 3 && HasPrefix(name, "QA"))
  }

  lemma {:induction false} PathRefusalExact(path: seq<string>)
    ensures PathRefusal(path).None? <==> forall i :: 0 <= i < |path| ==> !ForbidsGating(Upper(Bare(path[i])))
  {
    hide Upper, Bare;
    if path != [] {
      PathRefusalExact(path[1..]);
      assert HopRefusal(path[0]).None? <==> !ForbidsGating(Upper(Bare(path[0])));
      assert forall i :: 0 < i < |path| ==> path[i] == path[1..][i - 1];
    }
  }

  /** The first hop that forbids gating gives the reason. */
  lemma {:induction false} RefusalReason(path: seq<string>, i: nat)
    requires i < |path| && ForbidsGating(Upper(Bare(path[i])))
    requires forall j :: 0 <= j < i ==> !ForbidsGating(Upper(Bare(path[j])))
    ensures var name := Upper(Bare(path[i]));
      PathRefusal(path) == Some(
        if name in {"NOGATE", "RFONLY"} then OptedOut else if name in {"TCPIP", "TCPXX"} then HeardViaIS else AlreadyGated)
    decreases i
  {
    hide Upper, Bare;
    assert forall j :: 0 < j < |path| ==> path[j] == path[1..][j - 1];
    if i > 0 {
      RefusalReason(path[1..], i - 1);
    }
  }

  /** The line for APRS-IS: the frame's header and path, then qAR if the station can bring answers
      back and qAO if not, its callsign, and the information. */
  function LineForIS(f: Frame, s: Config): seq<byte> {
    var q := if s.txEnable && s.gateIStoRF && s.passcode !in {"", "-1"} then ",qAR," else ",qAO,";
    Octets(f.src + ">" + f.dest + Prefixed(f.path, ',') + q + s.callsign) + [58] + f.info
  }

  /** A packet heard on the air goes to APRS-IS exactly when it is somebody else's, is a message
      if only messages are wanted, nothing in its path forbids it, and it is neither empty nor a
      query nor a third-party packet. */
  lemma GatedToISExact(p: Packet, s: Config)
    ensures RFtoIS(p, s).SendIS? <==>
      && !EqualFold(p.frame.src, s.callsign)
      && (s.messagingOnly ==> p.decoded.isMessage || p.decoded.isAck || p.decoded.isRej)
      && (forall i :: 0 <= i < |p.frame.path| ==> !ForbidsGating(Upper(Bare(p.frame.path[i]))))
      && p.frame.info != [] && p.frame.info[0] as char != '?' && p.frame.info[0] as char != '}'
    ensures RFtoIS(p, s).SendIS? ==> RFtoIS(p, s).payload == LineForIS(p.frame, s) == GatedTNC2(p.frame, s)
    ensures !RFtoIS(p, s).SendIS? ==> RFtoIS(p, s).Drop?
  {
    hide EqualFold, PathRefusal, Upper, Bare, ForbidsGating, Prefixed;
    PathRefusalExact(p.frame.path);
  }

  /** The actions for a frame heard on the air: its repeat if there is one, its gating if that is
      configured, and a drop if there is neither. */
  lemma ActionsExact(p: Packet, s: Config, a: Action)
    ensures a in FromRF(p, s) <==>
      || RelayOf(p.frame, s) == Some(a)
      || (s.gateRFtoIS && a == RFtoIS(p, s))
      || (a == Drop(NoActions) && RelayOf(p.frame, s).None? && !s.gateRFtoIS)
  {
    hide RelayOf, RFtoIS;
  }

  /** The station may put packets from APRS-IS on the air and this one is not barred outright. */
  predicate Admissible(p: Packet, s: Config) {
    && s.gateIStoRF && s.txEnable && s.callsign != ""
    && !EqualFold(p.frame.src, s.callsign)
    && !(p.frame.info != [] && p.frame.info[0] as char == '}')
  }

  predicate StartsWith(s: string, names: set<string>, n: nat) {
    n <= |s| && Upper(s[..n]) in names
  }

  predicate DeclaresTelemetry(body: string) {
    StartsWith(body, {"PARM.", "UNIT.", "EQNS.", "BITS."}, 5)
  }

  predicate IsWeatherService(src: string) {
    StartsWith(src, {"SKY", "CWA"}, 3) || StartsWith(src, {"NWS-", "NWS_"}, 4) || StartsWith(src, {"WXSVR"}, 5)
  }

  /** A message for somebody else who was heard, or one of the weather services'. */
  predicate Relayable(p: Packet, s: Config, heard: bool) {
    var to := p.decoded.msgTo;
    && p.decoded.isMessage && to != ""
    && !EqualFold(to, s.callsign) && !EqualFold(to, p.frame.src)
    && !DeclaresTelemetry(p.decoded.msgBody)
    && (IsWeatherService(p.frame.src) || (heard && !StartsWith(to, {"BLN"}, 3)))
  }

  lemma PrefixOfUpper(s: string, p: string)
    ensures HasPrefix(Upper(s), p) <==> |p| <= |s| && Upper(s[..|p|]) == p
  {
    assert |p| <= |s| ==> Upper(s)[..|p|] == Upper(s[..|p|]);
  }

  lemma PrefixesMean(src: string, to: string, body: string)
    ensures TelemetryBody(body) <==> DeclaresTelemetry(body)
    ensures WeatherSource(src) <==> IsWeatherService(src)
    ensures HasPrefix(Upper(to), "BLN") <==> StartsWith(to, {"BLN"}, 3)
  {
    hide Upper, HasPrefix;
    PrefixOfUpper(body, "PARM.");
    PrefixOfUpper(body, "UNIT.");
    PrefixOfUpper(body, "EQNS.");
    PrefixOfUpper(body, "BITS.");
    PrefixOfUpper(src, "NWS-");
    PrefixOfUpper(src, "NWS_");
    PrefixOfUpper(src, "SKY");
    PrefixOfUpper(src, "CWA");
    PrefixOfUpper(src, "WXSVR");
    PrefixOfUpper(to, "BLN");
  }

  /** The third-party form: the sender, its destination, the mark of APRS-IS and ours. */
  function ThirdPartyForm(f: Frame, call: string): seq<byte> {
    Octets("}" + f.src + ">" + f.dest + ",TCPIP*," + call + "*") + [58] + f.info
  }

  /** A packet from APRS-IS goes on the air exactly when it is admissible and is either a
      relayable message or a position that the tracker grants; it is then wrapped, sent as ours,
      and only a position takes the configured path. */
  lemma PutOnAirExact(p: Packet, s: Config, heard: bool, granted: bool)
    ensures var a := FromIS(p, s, heard, granted);
      var position := !p.decoded.isMessage && p.decoded.fix.Some? && granted;
      && (a.InjectRF? <==> Admissible(p, s) && (position || Relayable(p, s, heard)))
      && (a.InjectRF? ==>
            a == InjectRF(s.callsign, "APRGO", if position then TXPath(s) else [], ThirdPartyForm(p.frame, s.callsign)))
      && (!a.InjectRF? ==> a.Drop?)
  {
    hide EqualFold, TXPath, TelemetryBody, WeatherSource, HasPrefix, Upper, DeclaresTelemetry, IsWeatherService, StartsWith;
    PrefixesMean(p.frame.src, p.decoded.msgTo, p.decoded.msgBody);
  }

  /** Why a packet from APRS-IS is not put on the air. */
  lemma NotPutOnAir(p: Packet, s: Config, heard: bool, granted: bool)
    ensures var a, d, src, to := FromIS(p, s, heard, granted), p.decoded, p.frame.src, p.decoded.msgTo;
      var on, wrapped := s.gateIStoRF && s.txEnable, p.frame.info != [] && p.frame.info[0] as char == '}';
      var ours := EqualFold(src, s.callsign);
      var message := Admissible(p, s) && d.isMessage && to != "";
      var foreign := message && !EqualFold(to, s.callsign) && !EqualFold(to, src) && !DeclaresTelemetry(d.msgBody);
      && (a == Drop(ISDisabled) <==> !on)
      && (a == Drop(NoCallsign) <==> on && s.callsign == "")
      && (a == Drop(OwnPacket) <==> on && s.callsign != "" && ours)
      && (a == Drop(AlreadyWrapped) <==> on && s.callsign != "" && !ours && wrapped)
      && (a == Drop(NotAMessage) <==> Admissible(p, s) && !d.isMessage && !(d.fix.Some? && granted))
      && (a == Drop(NoRecipient) <==> Admissible(p, s) && d.isMessage && to == "")
      && (a == Drop(ToUs) <==> message && EqualFold(to, s.callsign))
      && (a == Drop(SelfAddressed) <==> message && !EqualFold(to, s.callsign) && EqualFold(to, src))
      && (a == Drop(TelemetryDeclaration) <==>
            message && !EqualFold(to, s.callsign) && !EqualFold(to, src) && DeclaresTelemetry(d.msgBody))
      && (a == Drop(Bulletin) <==> foreign && !IsWeatherService(src) && StartsWith(to, {"BLN"}, 3))
      && (a == Drop(NotHeard) <==> foreign && !IsWeatherService(src) && !StartsWith(to, {"BLN"}, 3) && !heard)
  {
    hide EqualFold, TXPath, TelemetryBody, WeatherSource, HasPrefix, Upper, DeclaresTelemetry, IsWeatherService, StartsWith,
         Wrapped;
    PrefixesMean(p.frame.src, p.decoded.msgTo, p.decoded.msgBody);
  }

  /** Why a packet heard on the air is not gated. */
  lemma NotGated(p: Packet, s: Config)
    ensures var a, d, info := RFtoIS(p, s), p.decoded, p.frame.info;
      var ours := EqualFold(p.frame.src, s.callsign);
      var wanted := !ours && (s.messagingOnly ==> d.isMessage || d.isAck || d.isRej);
      var free := wanted && forall i :: 0 <= i < |p.frame.path| ==> !ForbidsGating(Upper(Bare(p.frame.path[i])));
      && (a == Drop(OwnCallsign) <==> ours)
      && (a == Drop(MessagingOnlyMode) <==> !ours && !wanted)
      && (a == Drop(EmptyInfo) <==> free && info == [])
      && (a == Drop(QueryPacket) <==> free && info != [] && info[0] as char == '?')
      && (a == Drop(DropReason.ThirdParty) <==> free && info != [] && info[0] as char == '}')
  {
    hide EqualFold, Upper, Bare, ForbidsGating, GatedTNC2, PathRefusal;
    PathRefusalExact(p.frame.path);
    PathReasons(p.frame.path);
  }

  lemma {:induction false} PathReasons(path: seq<string>)
    ensures PathRefusal(path).Some? ==> PathRefusal(path).value in {OptedOut, HeardViaIS, AlreadyGated}
  {
    hide Upper, Bare;
    if path != [] {
      PathReasons(path[1..]);
    }
  }

  // ---- settings ----

  /** The path setting is read element by element, each trimmed, blank ones left out. */
  lemma {:induction false} PathElements(before: seq<string>, part: string, after: seq<string>)
    ensures NonEmptyTrimmed(before + [part] + after)
      == NonEmptyTrimmed(before) + (if TrimSpace(part) == "" then [] else [TrimSpace(part)]) + NonEmptyTrimmed(after)
    decreases |before|
  {
    hide TrimSpace;
    var whole := before + [part] + after;
    if before == [] {
      assert whole[0] == part && whole[1..] == after;
    } else {
      assert whole[0] == before[0] && whole[1..] == before[1..] + [part] + after;
      PathElements(before[1..], part, after);
    }
  }

  /** For a setting whose elements are separated by commas and none blank, these are the path. */
  lemma PathSetting(s: Config, parts: seq<string>)
    requires parts != [] && forall i :: 0 <= i < |parts| ==> ',' !in parts[i] && TrimSpace(parts[i]) != ""
    requires s.igateTXPath == parts[0] + Prefixed(parts[1..], ',')
    ensures |TXPath(s)| == |parts| && forall i :: 0 <= i < |parts| ==> TXPath(s)[i] == TrimSpace(parts[i])
  {
    hide TrimSpace, Split;
    SplitOfJoined(parts[0], parts[1..], ',');
    assert [parts[0]] + parts[1..] == parts;
    AllElements(parts);
    assert parts[0] != "" by { TrimEmpty(); }
  }

  lemma TrimEmpty()
    ensures TrimSpace("") == ""
  {
  }

  lemma {:induction false} AllElements(parts: seq<string>)
    requires forall i :: 0 <= i < |parts| ==> TrimSpace(parts[i]) != ""
    ensures |NonEmptyTrimmed(parts)| == |parts|
    ensures forall i :: 0 <= i < |parts| ==> NonEmptyTrimmed(parts)[i] == TrimSpace(parts[i])
  {
    hide TrimSpace;
    if parts != [] {
      AllElements(parts[1..]);
    }
  }

  /** Trimming takes blanks off both ends and nothing else. */
  lemma TrimExact(front: string, core: string, back: string)
    requires forall i :: 0 <= i < |front| ==> front[i] in SPACES
    requires forall i :: 0 <= i < |back| ==> back[i] in SPACES
    requires core != "" && core[0] !in SPACES && core[|core| - 1] !in SPACES
    ensures TrimSpace(front + core + back) == core
  {
    var s := front + core + back;
    TrimLeftDrops(s, SPACES);
    var left := TrimLeft(s, SPACES);
    var k := |s| - |left|;
    assert s[|front|] == core[0];
    assert k <= |front|;
    assert left[0] == s[k];
    assert k == |front|;
    assert left == core + back;
    TrimRightKeeps(core, back, SPACES);
  }

  /** Aliases are configured in any case and with blanks around them. */
  lemma AliasRead(front: string, core: string, back: string)
    requires forall i :: 0 <= i < |front| ==> front[i] as int in {9, 10, 11, 12, 13, 32}
    requires forall i :: 0 <= i < |back| ==> back[i] as int in {9, 10, 11, 12, 13, 32}
    requires core != "" && core[0] as int > 32 && core[|core| - 1] as int > 32
    ensures AliasKey(front + core + back) == Upper(core)
  {
    hide TrimSpace, Upper;
    TrimExact(front, core, back);
  }

  /** Of several aliases that a hop is a token of, the first configured one counts. */
  lemma {:induction false} FirstAlias(hopUp: string, aliases: seq<string>, i: nat)
    requires i < |aliases| && ParseAlias(hopUp, AliasKey(aliases[i])).Some?
    requires forall j :: 0 <= j < i ==> ParseAlias(hopUp, AliasKey(aliases[j])).None?
    ensures FindAlias(hopUp, aliases)
      == Some(Flood(AliasKey(aliases[i]), false, ParseAlias(hopUp, AliasKey(aliases[i])).value))
    decreases i
  {
    hide ParseAlias, AliasKey;
    if i > 0 {
      assert forall j :: 0 < j < |aliases| ==> aliases[j] == aliases[1..][j - 1];
      FirstAlias(hopUp, aliases[1..], i - 1);
    }
  }

  // ---- which frames are repeated ----

  /** Hop k is the first naming this station, nobody has used it yet and the operator opted in. */
  predicate OwnTurn(path: seq<string>, k: nat, s: Config) {
    && k < |path| <= 8 && s.preemptiveDigipeat
    && !IsUsed(path[k]) && Names(path[k], Upper(s.callsign))
    && forall i :: 0 <= i < k ==> !Names(path[i], Upper(s.callsign))
  }

  /** The station is not in the path, hop k is the first unused one, it is a token of this
      station's role and the longer path still fits. */
  predicate FloodTurn(path: seq<string>, k: nat, s: Config) {
    && k < |path| && !IsUsed(path[k])
    && (forall i :: 0 <= i < |path| ==> !Names(path[i], Upper(s.callsign)))
    && (forall i :: 0 <= i < k ==> IsUsed(path[i]))
    && var f := ParseFlood(path[k], s.regionalAliases);
    && f.Some?
    && var kind := (f.value.wide, f.value.counts.n, f.value.counts.hops);
    && (|| (s.digipeatWide1 && kind == (true, 1, 1))
        || (s.digipeatWide2 && kind in {(true, 2, 1), (true, 2, 2), (false, 1, 1), (false, 1, 2), (false, 2, 1), (false, 2, 2)}))
    && |path| + f.value.counts.hops - 1 <= 8
  }

  /** A repeat is planned exactly when the frame is somebody else's and some hop is this station's
      turn. */
  lemma PlannedExact(src: string, path: seq<string>, s: Config)
    ensures Plan(src, path, s).Some? <==>
      && s.callsign != "" && !EqualFold(src, s.callsign)
      && exists k: nat :: OwnTurn(path, k, s) || FloodTurn(path, k, s)
  {
    hide EqualFold, Upper, Names, IsUsed, ParseFlood, FloodPath, PreemptPath, FloodToken, FindCall, FirstUnused;
    var mine, first := FindCall(path, Upper(s.callsign)), FirstUnused(path);
    if mine >= 0 {
      assert forall k: nat :: OwnTurn(path, k, s) ==> k == mine;
      assert OwnTurn(path, mine, s) <==> !IsUsed(path[mine]) && s.preemptiveDigipeat && |path| <= MAX_PATH_HOPS;
    } else if first >= 0 {
      FloodExact(path, first, s);
      assert forall k: nat :: FloodTurn(path, k, s) ==> k == first;
    }
  }

  lemma FloodExact(path: seq<string>, first: nat, s: Config)
    requires FirstUnused(path) == first && FindCall(path, Upper(s.callsign)) < 0
    ensures FloodPlan(path, first, s).Some? <==> FloodTurn(path, first, s)
  {
    hide EqualFold, Upper, Names, IsUsed, ParseFlood, FloodToken, FindCall, FirstUnused;
    if ParseFlood(path[first], s.regionalAliases).Some? {
      TokenWidth(path[first], s.regionalAliases);
    }
  }

  predicate OthersSendable(path: seq<string>, k: nat) {
    forall i :: 0 <= i < |path| && i != k ==> SplitCallSsid(Bare(path[i])).Ok?
  }

  /** It is this station's turn and all other hops can be sent again, and the token itself too if
      it stays in the path. */
  predicate Turn(path: seq<string>, k: nat, s: Config) {
    && OthersSendable(path, k)
    && (|| OwnTurn(path, k, s)
        || (FloodTurn(path, k, s)
            && (ParseFlood(path[k], s.regionalAliases).value.counts.hops == 2 ==> SplitCallSsid(path[k]).Ok?)))
  }

  /** The bytes heard are repeated exactly when they can be read, the station transmits under a
      callsign that can be sent, the frame is somebody else's, source and destination can be sent
      again, and some hop is this station's turn. */
  lemma RepeatedExact(raw: seq<byte>, s: Config)
    ensures Repeated(raw, s).Some? <==>
      && DecodeFrame(raw).Ok? && s.txEnable && SplitCallSsid(s.callsign).Ok?
      && var f := DecodeFrame(raw).value;
      && !EqualFold(f.src, s.callsign) && SplitCallSsid(f.src).Ok? && SplitCallSsid(f.dest).Ok?
      && exists k: nat :: Turn(f.path, k, s)
  {
    hide EqualFold, Upper, DecodeFrame, EncodeFrame, SplitCallSsid, Plan, OwnTurn, FloodTurn, OthersSendable, EncodablePath, Acceptable;
    if DecodeFrame(raw).Ok? {
      var f := DecodeFrame(raw).value;
      LoopFreedom.NoEmptyCall();
      PlannedExact(f.src, f.path, s);
      if Plan(f.src, f.path, s).Some? {
        forall i | 0 <= i < |f.path| ensures Acceptable(f.path[i]) {
          HeardHop(raw, i);
        }
        forall k: nat | OwnTurn(f.path, k, s) || FloodTurn(f.path, k, s)
          ensures EncodablePath(Plan(f.src, f.path, s).value.path) <==> SplitCallSsid(s.callsign).Ok? && Turn(f.path, k, s)
        {
          TurnEncodes(f.src, f.path, k, s);
        }
        PlanEncodes(raw, s);
      }
      RolesNeeded(f.path, s);
    }
  }

  lemma RolesNeeded(path: seq<string>, s: Config)
    ensures forall k: nat :: OwnTurn(path, k, s) || FloodTurn(path, k, s) ==>
      s.digipeatWide1 || s.digipeatWide2 || s.preemptiveDigipeat
  {
    hide Upper, IsUsed, Names, ParseFlood;
  }

  lemma PlanEncodes(raw: seq<byte>, s: Config)
    requires DecodeFrame(raw).Ok?
    requires Plan(DecodeFrame(raw).value.src, DecodeFrame(raw).value.path, s).Some?
    ensures var f := DecodeFrame(raw).value;
      Repeated(raw, s).Some? <==>
        && (s.digipeatWide1 || s.digipeatWide2 || s.preemptiveDigipeat) && s.txEnable
        && SplitCallSsid(f.src).Ok? && SplitCallSsid(f.dest).Ok?
        && EncodablePath(Plan(f.src, f.path, s).value.path)
  {
    hide DecodeFrame, EncodeFrame, SplitCallSsid, EncodablePath, Plan;
    var f := DecodeFrame(raw).value;
    PlanFits(f.src, f.path, s);
    EncodeExact(f.src, f.dest, Plan(f.src, f.path, s).value.path, f.info);
  }

  lemma EncodeExact(src: string, dest: string, path: seq<string>, info: seq<byte>)
    requires |path| <= MAX_PATH_HOPS
    ensures EncodeFrame(src, dest, path, info).Ok? <==>
      SplitCallSsid(src).Ok? && SplitCallSsid(dest).Ok? && EncodablePath(path)
  {
    hide DecodeFrame, EncodeFrame, SplitCallSsid, EncodablePath, Canon, CanonPath;
    if SplitCallSsid(src).Ok? && SplitCallSsid(dest).Ok? && EncodablePath(path) {
      EncodeSucceeds(src, dest, path, info);
    }
    if EncodeFrame(src, dest, path, info).Ok? {
      FrameRoundTrip(src, dest, path, info);
    }
  }

  lemma PlanFits(src: string, path: seq<string>, s: Config)
    requires Plan(src, path, s).Some?
    ensures |Plan(src, path, s).value.path| <= MAX_PATH_HOPS
  {
    hide FindCall, FirstUnused, Upper, EqualFold, ParseFlood, FloodPath, Eligible;
  }

  lemma TurnEncodes(src: string, path: seq<string>, k: nat, s: Config)
    requires Plan(src, path, s).Some? && forall i :: 0 <= i < |path| ==> Acceptable(path[i])
    requires OwnTurn(path, k, s) || FloodTurn(path, k, s)
    ensures EncodablePath(Plan(src, path, s).value.path) <==> SplitCallSsid(s.callsign).Ok? && Turn(path, k, s)
  {
    hide EqualFold, Upper, Names, IsUsed, Bare, ParseFlood, FloodPath, PreemptPath, FloodToken, FindCall, FirstUnused,
         SplitCallSsid, Acceptable, OthersSendable, EncodablePath;
    if OwnTurn(path, k, s) {
      assert FindCall(path, Upper(s.callsign)) == k;
      PreemptEncodes(path, k, s.callsign);
    } else {
      assert FindCall(path, Upper(s.callsign)) < 0 && FirstUnused(path) == k;
      FloodEncodes(path, k, s);
    }
  }

  lemma PreemptEncodes(path: seq<string>, k: nat, call: string)
    requires k < |path|
    ensures EncodablePath(PreemptPath(path, k, call)) <==> SplitCallSsid(call).Ok? && OthersSendable(path, k)
  {
    hide SplitCallSsid, IsUsed, Bare, Marked;
    var out := PreemptPath(path, k, call);
    forall i | 0 <= i < |path| ensures Bare(out[i]) == if i == k then call else Bare(path[i]) {
      RelayNetwork.MarkedIsUsed(path[i], call);
    }
    assert EncodablePath(out) ==> SplitCallSsid(Bare(out[k])).Ok?;
  }

  lemma FloodEncodes(path: seq<string>, k: nat, s: Config)
    requires k < |path| && Acceptable(path[k]) && !IsUsed(path[k])
    requires FloodPlan(path, k, s).Some?
    ensures var f := ParseFlood(path[k], s.regionalAliases).value;
      EncodablePath(FloodPlan(path, k, s).value.path) <==>
        && SplitCallSsid(s.callsign).Ok? && OthersSendable(path, k)
        && (f.counts.hops == 2 ==> SplitCallSsid(path[k]).Ok?)
  {
    hide SplitCallSsid, IsUsed, Bare, Upper, ParseFlood, FloodPath, Eligible, FloodToken, ValidBaseCall, BaseCall;
    var f := ParseFlood(path[k], s.regionalAliases).value;
    var out := FloodPlan(path, k, s).value.path;
    EligibleCounts(f, s);
    RelayNetwork.FloodShape(path, k, s, FloodPlan(path, k, s).value, f);
    RelayNetwork.MarkedIsUsed("", s.callsign);
    RelayNetwork.TokenRemaining(path[k], s.regionalAliases);
    RewrittenSendable(path[k], s.regionalAliases);
    assert Bare(FloodToken(f)) == FloodToken(f) by { UnusedIsBare(FloodToken(f)); }
    RelayNetwork.GrowsBy(path, k, s.callsign, f);
    InsertEncodes(path, k, s.callsign, FloodToken(f), out);
  }

  lemma UnusedIsBare(hop: string)
    requires !IsUsed(hop)
    ensures Bare(hop) == hop
  {
  }

  /** A path in whose k-th place our mark stands, with or without a token after it. */
  lemma InsertEncodes(path: seq<string>, k: nat, call: string, token: string, out: seq<string>)
    requires k < |path| && |path| <= |out| <= |path| + 1
    requires out[..k] == path[..k] && out[k] == call + "*" && Bare(call + "*") == call && Bare(token) == token
    requires out[k + 1 + |out| - |path|..] == path[k + 1..]
    requires |out| > |path| ==> out[k + 1] == token
    ensures EncodablePath(out) <==>
      SplitCallSsid(call).Ok? && OthersSendable(path, k) && (|out| > |path| ==> SplitCallSsid(token).Ok?)
  {
    hide SplitCallSsid, IsUsed, Bare;
    var grown := |out| - |path|;
    assert forall i :: 0 <= i < k ==> out[i] == out[..k][i] == path[..k][i];
    assert forall i :: k < i < |path| ==> path[i] == path[k + 1..][i - k - 1] == out[i + grown];
    if EncodablePath(out) {
      assert SplitCallSsid(Bare(out[k])).Ok?;
      assert grown == 1 ==> SplitCallSsid(Bare(out[k + 1])).Ok?;
      forall i | k < i < |path| ensures SplitCallSsid(Bare(path[i])).Ok? {
        assert SplitCallSsid(Bare(out[i + grown])).Ok?;
      }
    }
    if OthersSendable(path, k) {
      assert forall i :: k + grown < i < |out| ==> out[i] == path[i - grown];
    }
  }

  lemma TokenWidth(hop: string, aliases: seq<string>)
    requires ParseFlood(hop, aliases).Some?
    ensures ParseFlood(hop, aliases).value.counts.n >= 1
  {
    hide ParseCounts, Upper;
  }

  // ---- held digipeats ----

  /** A repeat is held back exactly when holding is configured, this station is not named in the
      path, and the token has width 1, whether it is WIDE1-1 or a regional alias. */
  lemma HeldExact(src: string, path: seq<string>, s: Config)
    requires Plan(src, path, s).Some?
    ensures Plan(src, path, s).value.viscous <==>
      && s.viscousDelay && FindCall(path, Upper(s.callsign)) < 0
      && ParseFlood(path[FirstUnused(path)], s.regionalAliases).value.counts.n == 1
    ensures FindCall(path, Upper(s.callsign)) < 0 ==>
      FirstUnused(path) >= 0 && ParseFlood(path[FirstUnused(path)], s.regionalAliases).Some?
  {
    hide ParseFlood, FloodPath, FindCall, FirstUnused, PreemptPath, Upper, EqualFold;
  }

  /** The second kind does occur. A full digipeater with the alias AZ holds the token AZ1-1,
      although holding is described as a courtesy of fill-in stations handling WIDE1-1. */
  lemma AliasIsHeld(s: Config)
    requires s.callsign == "AA" && s.viscousDelay && s.digipeatWide2 && s.regionalAliases == ["AZ"]
    ensures Plan("BB", ["AZ1-1"], s) == Some(Relay(["AA*"], true))
  {
    hide IndexOf, ParseCounts, TrimSpace;
    assert Upper("AA") == "AA" && Upper("BB") == "BB" && Upper("AZ1-1") == "AZ1-1" && Upper("AZ") == "AZ";
    TrimSpaceKeeps("AZ");
    assert AliasKey("AZ") == "AZ";
    assert !Names("AZ1-1", "AA");
    assert FindCall(["AZ1-1"], "AA") == -1;
    assert FirstUnused(["AZ1-1"]) == 0;
    AliasCounts();
    assert "AZ1-1"[..2] == "AZ" && "AZ1-1"[2..] == "1-1";
    assert Upper("AZ1-1")[..4][0] == 'A';
    assert ParseWide("AZ1-1").None?;
    assert ["AZ"][1..] == [];
    var f := Flood("AZ", false, Counts(1, 1));
    assert ParseFlood("AZ1-1", ["AZ"]) == Some(f);
    assert FloodPath(["AZ1-1"], 0, "AA", f) == ["AA" + "*"];
    assert !EqualFold("BB", "AA") by { assert Upper("BB")[0] != Upper("AA")[0]; }
    hide ParseFlood, FloodPath, FindCall, FirstUnused, Upper, EqualFold;
    assert Eligible(f, s);
    assert "AA" + "*" == "AA*";
    assert ParseFlood(["AZ1-1"][0], s.regionalAliases) == Some(f);
    assert FloodPlan(["AZ1-1"], 0, s) == Capped(["AA*"], true);
    assert Capped(["AA*"], true) == Some(Relay(["AA*"], true));
  }

  lemma AliasCounts()
    ensures ParseCounts("1-1") == Some(Counts(1, 1))
  {
    hide IndexOf, Numeral;
    assert "1-1" == "1" + ['-'] + "1";
    IndexOfFirst("1", '-', "1");
    AtoiOfItoa(1);
    assert "1-1"[..1] == "1" && "1-1"[2..] == "1" && Itoa(1) == "1";
  }
}
