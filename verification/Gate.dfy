/** The gating and digipeating decisions: what a station does with a packet it hears. */
module Gate {
  import opened GoText
  import opened Packets
  import opened Ax25

  const MAX_PATH_HOPS: nat := 8
  const MAX_WIDE_HOPS: nat := 2
  const BEACON_DEST: string := "APRGO"

  datatype Config = Config(
    callsign: string,
    txEnable: bool,
    digipeatWide1: bool, digipeatWide2: bool, preemptiveDigipeat: bool, viscousDelay: bool,
    gateRFtoIS: bool, gateIStoRF: bool, messagingOnly: bool,
    regionalAliases: seq<string>, igateTXPath: string, passcode: string)

  datatype DropReason =
    | OwnCallsign | MessagingOnlyMode | OptedOut | HeardViaIS | AlreadyGated
    | EmptyInfo | QueryPacket | ThirdParty
    | NoActions | UnknownOrigin
    | ISDisabled | NoCallsign | OwnPacket | AlreadyWrapped
    | NotAMessage | NoRecipient | ToUs | SelfAddressed | TelemetryDeclaration
    | Bulletin | NotHeard

  datatype Action =
    | Drop(reason: DropReason)
    | SendIS(payload: seq<byte>)
      /** Re-transmit these AX.25 bytes, perhaps after a polite delay. */
    | RelayRF(raw: seq<byte>, viscous: bool)
      /** Build a new frame and transmit it. */
    | InjectRF(src: string, dest: string, path: seq<string>, info: seq<byte>)

  // ---- reading hops ----

  /** The n and N of a flood token n-N. */
  datatype Counts = Counts(n: nat, hops: nat)

  datatype Flood = Flood(prefix: string, wide: bool, counts: Counts)

  function ParseCounts(rest: string): (r: Option<Counts>)
    ensures r.Some? ==> 1 <= r.value.n <= 7 && r.value.hops <= 7
  {
    var dash := IndexOf(rest, '-');
    if dash <= 0 || dash == |rest| - 1 then None
    else
      var n, hops := Atoi(rest[..dash]), Atoi(rest[dash + 1..]);
      if n.None? || n.value < 1 || n.value > 7 then None
      else if hops.None? || hops.value < 0 || hops.value > 7 then None
      else Some(Counts(n.value, hops.value))
  }

  function ParseWide(hop: string): Option<Counts> {
    if !HasPrefix(Upper(hop), "WIDE") then None else ParseCounts(hop[4..])
  }

  /** One configured alias, as it is compared. */
  function AliasKey(alias: string): string {
    Upper(TrimSpace(alias))
  }

  function ParseAlias(hopUp: string, key: string): Option<Counts> {
    if key == "" || !HasPrefix(hopUp, key) then None else ParseCounts(hopUp[|key|..])
  }

  /** The first configured alias that the hop is a token of. */
  function FindAlias(hopUp: string, aliases: seq<string>): (r: Option<Flood>)
    ensures r.Some? ==> !r.value.wide && r.value.prefix != "" && HasPrefix(hopUp, r.value.prefix)
    ensures r.Some? ==> ParseCounts(hopUp[|r.value.prefix|..]) == Some(r.value.counts)
    ensures r.Some? ==> exists a :: a in aliases && r.value.prefix == AliasKey(a)
  {
    if aliases == [] then None
    else
      var key := AliasKey(aliases[0]);
      assert aliases[0] in aliases;
      match ParseAlias(hopUp, key)
      case Some(c) => Some(Flood(key, false, c))
      case None => FindAlias(hopUp, aliases[1..])
  }

  function ParseFlood(hop: string, aliases: seq<string>): Option<Flood> {
    match ParseWide(hop)
    case Some(c) => Some(Flood("WIDE", true, c))
    case None => FindAlias(Upper(Bare(hop)), aliases)
  }

  method ParseFloodAlias(hop: string, aliases: seq<string>) returns (r: Option<Flood>)
    ensures r == FindAlias(Upper(Bare(hop)), aliases)
  {
    var hopUp := Upper(Bare(hop));
    for i := 0 to |aliases|
      invariant FindAlias(hopUp, aliases) == FindAlias(hopUp, aliases[i..])
    {
      assert aliases[i..][1..] == aliases[i + 1..];
      var key := AliasKey(aliases[i]);
      var c := ParseAlias(hopUp, key);
      if c.Some? {
        return Some(Flood(key, false, c.value));
      }
    }
    assert aliases[|aliases|..] == [];
    return None;
  }

  /** Which flood tokens a station in its role takes on. */
  predicate Eligible(f: Flood, s: Config) {
    var n, hops := f.counts.n, f.counts.hops;
    if f.wide then
      || (n == 1 && hops == 1 && s.digipeatWide1)
      || (n == 2 && 1 <= hops <= MAX_WIDE_HOPS && s.digipeatWide2)
    else
      s.digipeatWide2 && 1 <= hops <= MAX_WIDE_HOPS && n <= MAX_WIDE_HOPS
  }

  // ---- the path of a digipeat ----

  function FirstUnused(path: seq<string>): (r: int)
    ensures -1 <= r < |path|
    ensures r >= 0 ==> !IsUsed(path[r]) && forall i :: 0 <= i < r ==> IsUsed(path[i])
    ensures r < 0 ==> forall i :: 0 <= i < |path| ==> IsUsed(path[i])
  {
    if path == [] then -1
    else if !IsUsed(path[0]) then 0
    else
      var r := FirstUnused(path[1..]);
      if r < 0 then -1 else r + 1
  }

  predicate Names(hop: string, callUp: string) {
    Upper(Bare(hop)) == callUp
  }

  function FindCall(path: seq<string>, callUp: string): (r: int)
    ensures -1 <= r < |path|
    ensures r >= 0 ==> Names(path[r], callUp) && forall i :: 0 <= i < r ==> !Names(path[i], callUp)
    ensures r < 0 ==> forall i :: 0 <= i < |path| ==> !Names(path[i], callUp)
  {
    if path == [] then -1
    else if Names(path[0], callUp) then 0
    else
      var r := FindCall(path[1..], callUp);
      if r < 0 then -1 else r + 1
  }

  function Marked(hop: string): string {
    if IsUsed(hop) then hop else hop + "*"
  }

  function PreemptPath(path: seq<string>, at: nat, call: string): (r: seq<string>)
    ensures |r| == |path|
  {
    seq(|path|, i requires 0 <= i < |path| =>
      if i < at then Marked(path[i]) else if i == at then call + "*" else path[i])
  }

  function FloodToken(f: Flood): string
    requires f.counts.n <= 7 && 1 <= f.counts.hops <= 7
  {
    f.prefix + Itoa(f.counts.n) + "-" + Itoa(f.counts.hops - 1)
  }

  function FloodPath(path: seq<string>, at: nat, call: string, f: Flood): seq<string>
    requires at < |path| && f.counts.n <= 7 && 1 <= f.counts.hops <= 7
  {
    if f.counts.hops == 1 then path[at := call + "*"]
    else path[..at] + [call + "*", FloodToken(f)] + path[at + 1..]
  }

  datatype Relay = Relay(path: seq<string>, viscous: bool)

  function Capped(path: seq<string>, viscous: bool): (r: Option<Relay>)
    ensures r.Some? ==> r.value == Relay(path, viscous) && |path| <= MAX_PATH_HOPS
  {
    if |path| > MAX_PATH_HOPS then None else Some(Relay(path, viscous))
  }

  lemma EligibleCounts(f: Flood, s: Config)
    requires Eligible(f, s)
    ensures f.counts.n <= MAX_WIDE_HOPS && 1 <= f.counts.hops <= MAX_WIDE_HOPS
  {
  }

  function FloodPlan(path: seq<string>, first: nat, s: Config): Option<Relay>
    requires first < |path|
  {
    match ParseFlood(path[first], s.regionalAliases)
    case None => None
    case Some(f) =>
      if !Eligible(f, s) then None
      else Capped(FloodPath(path, first, s.callsign, f), s.viscousDelay && f.counts.n == 1)
  }

  /** The path under which a station repeats a frame, if it does. */
  function Plan(src: string, path: seq<string>, s: Config): Option<Relay> {
    if s.callsign == "" || EqualFold(src, s.callsign) then None
    else
      var mine := FindCall(path, Upper(s.callsign));
      if mine >= 0 then
        if IsUsed(path[mine]) || !s.preemptiveDigipeat then None
        else Capped(PreemptPath(path, mine, s.callsign), false)
      else
        var first := FirstUnused(path);
        if first < 0 then None else FloodPlan(path, first, s)
  }

  function Digipeat(f: Frame, s: Config): Option<Action> {
    match Plan(f.src, f.path, s)
    case None => None
    case Some(relay) =>
      match EncodeFrame(f.src, f.dest, relay.path, f.info)
      case Err(_) => None
      case Ok(raw) => Some(RelayRF(raw, relay.viscous))
  }

  method BuildPreemptPath(path: seq<string>, at: nat, call: string) returns (r: seq<string>)
    ensures r == PreemptPath(path, at, call)
  {
    r := [];
    for i := 0 to |path|
      invariant r == PreemptPath(path, at, call)[..i]
    {
      if i < at {
        if IsUsed(path[i]) {
          r := r + [path[i]];
        } else {
          r := r + [path[i] + "*"];
        }
      } else if i == at {
        r := r + [call + "*"];
      } else {
        r := r + [path[i]];
      }
    }
  }

  /** One scan finds the first unused hop and the first place our callsign stands. */
  method ScanPath(path: seq<string>, callUp: string) returns (first: int, mine: int)
    ensures first == FirstUnused(path) && mine == FindCall(path, callUp)
  {
    hide FindCall, FirstUnused, Names, IsUsed;
    first, mine := -1, -1;
    for i := 0 to |path|
      invariant -1 <= first < i && -1 <= mine < i
      invariant first >= 0 ==> !IsUsed(path[first]) && forall k :: 0 <= k < first ==> IsUsed(path[k])
      invariant first < 0 ==> forall k :: 0 <= k < i ==> IsUsed(path[k])
      invariant mine >= 0 ==> Names(path[mine], callUp) && forall k :: 0 <= k < mine ==> !Names(path[k], callUp)
      invariant mine < 0 ==> forall k :: 0 <= k < i ==> !Names(path[k], callUp)
    {
      if first < 0 && !IsUsed(path[i]) {
        first := i;
      }
      if mine < 0 && Names(path[i], callUp) {
        mine := i;
      }
    }
  }

  /** The flood case of a digipeat: the first unused hop is replaced or decremented. */
  method FloodAction(path: seq<string>, first: nat, s: Config) returns (r: Option<Relay>)
    requires first < |path|
    ensures r == FloodPlan(path, first, s)
  {
    hide ParseWide, FindAlias, Eligible, FloodToken, Upper, Bare;
    var wide := ParseWide(path[first]);
    var flood: Option<Flood>;
    if wide.Some? {
      flood := Some(Flood("WIDE", true, wide.value));
    } else {
      flood := ParseFloodAlias(path[first], s.regionalAliases);
    }
    if flood.None? {
      return None;
    }
    var f := flood.value;
    if !Eligible(f, s) {
      return None;
    }
    EligibleCounts(f, s);
    var newPath: seq<string>;
    if f.counts.hops <= 1 {
      newPath := path;
      newPath := newPath[first := s.callsign + "*"];
    } else {
      newPath := path[..first];
      newPath := newPath + [s.callsign + "*"];
      newPath := newPath + [FloodToken(f)];
      assert newPath == path[..first] + [s.callsign + "*", FloodToken(f)];
      newPath := newPath + path[first + 1..];
    }
    if |newPath| > MAX_PATH_HOPS {
      return None;
    }
    return Some(Relay(newPath, s.viscousDelay && f.counts.n == 1));
  }

  method DigipeatAction(f: Frame, s: Config) returns (r: Option<Action>)
    ensures r == Digipeat(f, s)
  {
    hide FindCall, FirstUnused, EncodeFrame, FloodPlan, IsUsed, PreemptPath, Upper;
    if s.callsign == "" || EqualFold(f.src, s.callsign) {
      return None;
    }
    var first, mine := ScanPath(f.path, Upper(s.callsign));
    var relay: Relay;
    if mine >= 0 {
      if IsUsed(f.path[mine]) || !s.preemptiveDigipeat {
        return None;
      }
      var newPath := BuildPreemptPath(f.path, mine, s.callsign);
      if |newPath| > MAX_PATH_HOPS {
        return None;
      }
      relay := Relay(newPath, false);
    } else {
      if first < 0 {
        return None;
      }
      var flood := FloodAction(f.path, first, s);
      if flood.None? {
        return None;
      }
      relay := flood.value;
    }
    var raw := EncodeUIFrame(f.src, f.dest, relay.path, f.info);
    if raw.Err? {
      return None;
    }
    return Some(RelayRF(raw.value, relay.viscous));
  }

  // ---- RF to APRS-IS ----

  function HopRefusal(hop: string): Option<DropReason> {
    var up := Upper(Bare(hop));
    if up == "NOGATE" || up == "RFONLY" then Some(OptedOut)
    else if up == "TCPIP" || up == "TCPXX" then Some(HeardViaIS)
    else if |up| == 3 && up[0] == 'Q' && up[1] == 'A' then Some(AlreadyGated)
    else None
  }

  function PathRefusal(path: seq<string>): Option<DropReason> {
    if path == [] then None
    else if HopRefusal(path[0]).Some? then HopRefusal(path[0])
    else PathRefusal(path[1..])
  }

  const QUESTION: byte := 63
  const CURLY: byte := 125
  const COLON: byte := 58

  predicate CanReturn(s: Config) {
    s.txEnable && s.gateIStoRF && s.passcode != "" && s.passcode != "-1"
  }

  function GatedHeader(f: Frame, s: Config): string {
    f.src + ">" + f.dest + Prefixed(f.path, ',') + (if CanReturn(s) then ",qAR," else ",qAO,") + s.callsign
  }

  /** The line sent to APRS-IS for a frame heard on the air. */
  function GatedTNC2(f: Frame, s: Config): seq<byte> {
    Octets(GatedHeader(f, s)) + [COLON] + f.info
  }

  function RFtoIS(p: Packet, s: Config): Action {
    if EqualFold(p.frame.src, s.callsign) then Drop(OwnCallsign)
    else if s.messagingOnly && !p.decoded.isMessage && !p.decoded.isAck && !p.decoded.isRej then
      Drop(MessagingOnlyMode)
    else
      match PathRefusal(p.frame.path)
      case Some(reason) => Drop(reason)
      case None =>
        if p.frame.info == [] then Drop(EmptyInfo)
        else if p.frame.info[0] == QUESTION then Drop(QueryPacket)
        else if p.frame.info[0] == CURLY then Drop(ThirdParty)
        else SendIS(GatedTNC2(p.frame, s))
  }

  /** The repeat of a frame heard on the air, if the station makes any. */
  function RelayOf(f: Frame, s: Config): Option<Action> {
    if (s.digipeatWide1 || s.digipeatWide2 || s.preemptiveDigipeat) && s.txEnable && f.raw.Some?
    then Digipeat(f, s) else None
  }

  function FromRF(p: Packet, s: Config): seq<Action> {
    var digi := RelayOf(p.frame, s);
    var relayed := if digi.Some? then [digi.value] else [];
    var gated := if s.gateRFtoIS then [RFtoIS(p, s)] else [];
    if relayed + gated == [] then [Drop(NoActions)] else relayed + gated
  }

  method BuildGatedTNC2(f: Frame, s: Config) returns (line: seq<byte>)
    ensures line == GatedTNC2(f, s)
  {
    var header := f.src + ">" + f.dest;
    ghost var start := header;
    for i := 0 to |f.path|
      invariant header == start + Prefixed(f.path[..i], ',')
    {
      PrefixedConcat(f.path[..i], [f.path[i]], ',');
      assert f.path[..i + 1] == f.path[..i] + [f.path[i]];
      header := header + [','] + f.path[i];
    }
    assert f.path[..|f.path|] == f.path;
    if s.txEnable && s.gateIStoRF && s.passcode != "" && s.passcode != "-1" {
      header := header + ",qAR,";
    } else {
      header := header + ",qAO,";
    }
    header := header + s.callsign;
    line := Octets(header) + [COLON] + f.info;
  }

  method RfToISAction(p: Packet, s: Config) returns (a: Action)
    ensures a == RFtoIS(p, s)
  {
    if EqualFold(p.frame.src, s.callsign) {
      return Drop(OwnCallsign);
    }
    if s.messagingOnly && !p.decoded.isMessage && !p.decoded.isAck && !p.decoded.isRej {
      return Drop(MessagingOnlyMode);
    }
    var path := p.frame.path;
    for i := 0 to |path|
      invariant PathRefusal(path) == PathRefusal(path[i..])
    {
      assert path[i..][1..] == path[i + 1..];
      var refusal := HopRefusal(path[i]);
      if refusal.Some? {
        return Drop(refusal.value);
      }
    }
    assert path[|path|..] == [];
    if |p.frame.info| == 0 {
      return Drop(EmptyInfo);
    }
    if p.frame.info[0] == QUESTION {
      return Drop(QueryPacket);
    }
    if p.frame.info[0] == CURLY {
      return Drop(ThirdParty);
    }
    var line := BuildGatedTNC2(p.frame, s);
    return SendIS(line);
  }

  method DecideFromRF(p: Packet, s: Config) returns (actions: seq<Action>)
    ensures actions == FromRF(p, s)
  {
    hide Digipeat, RFtoIS;
    actions := [];
    if (s.digipeatWide1 || s.digipeatWide2 || s.preemptiveDigipeat) && s.txEnable && p.frame.raw.Some? {
      var digi := DigipeatAction(p.frame, s);
      if digi.Some? {
        actions := actions + [digi.value];
      }
    }
    if s.gateRFtoIS {
      var gated := RfToISAction(p, s);
      actions := actions + [gated];
    }
    if |actions| == 0 {
      actions := actions + [Drop(NoActions)];
    }
  }

  // ---- APRS-IS to RF ----

  /** strings.Split on commas, trimmed, empty elements left out. */
  function NonEmptyTrimmed(parts: seq<string>): seq<string> {
    if parts == [] then []
    else (if TrimSpace(parts[0]) == "" then [] else [TrimSpace(parts[0])]) + NonEmptyTrimmed(parts[1..])
  }

  function TXPath(s: Config): seq<string> {
    if s.igateTXPath == "" then [] else NonEmptyTrimmed(Split(s.igateTXPath, ','))
  }

  function WrapHeader(src: string, dest: string, call: string): string {
    "}" + src + ">" + dest + ",TCPIP*," + call + "*"
  }

  /** The third-party form of a frame from APRS-IS. */
  function Wrapped(f: Frame, s: Config): seq<byte> {
    Octets(WrapHeader(f.src, f.dest, s.callsign)) + [COLON] + f.info
  }

  predicate WeatherSource(src: string) {
    var up := Upper(src);
    || HasPrefix(up, "NWS-") || HasPrefix(up, "NWS_") || HasPrefix(up, "SKY")
    || HasPrefix(up, "CWA") || HasPrefix(up, "WXSVR")
  }

  predicate TelemetryBody(body: string) {
    var up := Upper(body);
    HasPrefix(up, "PARM.") || HasPrefix(up, "UNIT.") || HasPrefix(up, "EQNS.") || HasPrefix(up, "BITS.")
  }

  /** Refusals that come before the tracker is asked. */
  function EarlyRefusal(p: Packet, s: Config): Option<DropReason> {
    if !s.gateIStoRF || !s.txEnable then Some(ISDisabled)
    else if s.callsign == "" then Some(NoCallsign)
    else if EqualFold(p.frame.src, s.callsign) then Some(OwnPacket)
    else if p.frame.info != [] && p.frame.info[0] == CURLY then Some(AlreadyWrapped)
    else None
  }

  /** Whether the tracker is asked about the sender. */
  predicate AsksTracker(p: Packet, s: Config) {
    EarlyRefusal(p, s).None? && !p.decoded.isMessage && p.decoded.fix.Some?
  }

  /** Why a message is not put on the air, if it is not. */
  function MessageRefusal(p: Packet, s: Config, heard: bool): Option<DropReason> {
    var d := p.decoded;
    if !d.isMessage then Some(NotAMessage)
    else if d.msgTo == "" then Some(NoRecipient)
    else if EqualFold(d.msgTo, s.callsign) then Some(ToUs)
    else if EqualFold(d.msgTo, p.frame.src) then Some(SelfAddressed)
    else if TelemetryBody(d.msgBody) then Some(TelemetryDeclaration)
    else if !WeatherSource(p.frame.src) && HasPrefix(Upper(d.msgTo), "BLN") then Some(Bulletin)
    else if !WeatherSource(p.frame.src) && !heard then Some(NotHeard)
    else None
  }

  /** The decision for a packet from APRS-IS, given whether its addressee was heard and
      whether the tracker granted the sender a position. */
  function FromIS(p: Packet, s: Config, heard: bool, granted: bool): Action {
    if EarlyRefusal(p, s).Some? then Drop(EarlyRefusal(p, s).value)
    else if AsksTracker(p, s) && granted then
      InjectRF(s.callsign, BEACON_DEST, TXPath(s), Wrapped(p.frame, s))
    else if MessageRefusal(p, s, heard).Some? then Drop(MessageRefusal(p, s, heard).value)
    else InjectRF(s.callsign, BEACON_DEST, [], Wrapped(p.frame, s))
  }

  /** The packet is a message that is put on the air. */
  predicate GatesMessage(p: Packet, s: Config, heard: bool) {
    EarlyRefusal(p, s).None? && MessageRefusal(p, s, heard).None?
  }
}
