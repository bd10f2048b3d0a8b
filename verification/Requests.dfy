/** Hop accounting over whole lineages: among stations that know the same aliases, a frame is
    repeated no more often than its path asks for. */
module RelayRequests {
  import opened GoText
  import opened Ax25
  import opened Gate
  import opened RelayNetwork
  import opened Lineages
  import opened LoopFreedom
  import opened HeardHops

  /** The relays that a hop asks for: one at least while it is unused, as it may name a station. */
  function Asked(hop: string, aliases: seq<string>): nat {
    if IsUsed(hop) then 0 else if Remaining(hop, aliases) == 0 then 1 else Remaining(hop, aliases)
  }

  function AskedTotal(path: seq<string>, aliases: seq<string>): nat {
    if path == [] then 0 else Asked(path[0], aliases) + AskedTotal(path[1..], aliases)
  }

  lemma {:induction false} AskedConcat(a: seq<string>, b: seq<string>, aliases: seq<string>)
    ensures AskedTotal(a + b, aliases) == AskedTotal(a, aliases) + AskedTotal(b, aliases)
  {
    hide Asked;
    if a == [] {
      assert a + b == b;
    } else {
      assert (a + b)[1..] == a[1..] + b;
      AskedConcat(a[1..], b, aliases);
    }
  }

  lemma AskedSingle(hop: string, aliases: seq<string>)
    ensures AskedTotal([hop], aliases) == Asked(hop, aliases)
  {
    hide Asked;
    assert [hop][1..] == [];
  }

  lemma AskedAround(before: seq<string>, middle: seq<string>, after: seq<string>, aliases: seq<string>)
    ensures AskedTotal(before + middle + after, aliases)
      == AskedTotal(before, aliases) + AskedTotal(middle, aliases) + AskedTotal(after, aliases)
  {
    hide AskedTotal;
    AskedConcat(before + middle, after, aliases);
    AskedConcat(before, middle, aliases);
  }

  lemma {:induction false} UsedAskNothing(path: seq<string>, aliases: seq<string>)
    requires forall i :: 0 <= i < |path| ==> IsUsed(path[i])
    ensures AskedTotal(path, aliases) == 0
  {
    hide IsUsed, Remaining;
    if path != [] {
      UsedAskNothing(path[1..], aliases);
    }
  }

  // ---- every repeat answers a request ----

  lemma ReplacementAsks(hop: string, call: string, f: Flood, aliases: seq<string>)
    requires !IsUsed(hop) && ParseFlood(hop, aliases) == Some(f)
    requires 1 <= f.counts.hops <= 2 && f.counts.n <= 7
    ensures AskedTotal(Replacement(call, f), aliases) + 1 == Asked(hop, aliases)
  {
    hide ParseFlood, FloodToken, AskedTotal, IsUsed;
    var mine := call + "*";
    MarkedIsUsed("", call);
    AskedSingle(mine, aliases);
    if f.counts.hops == 2 {
      TokenRemaining(hop, aliases);
      AskedSingle(FloodToken(f), aliases);
      AskedConcat([mine], [FloodToken(f)], aliases);
    }
  }

  lemma FloodAsks(path: seq<string>, s: Config, relay: Relay)
    requires FirstUnused(path) >= 0
    requires FloodPlan(path, FirstUnused(path), s) == Some(relay)
    ensures AskedTotal(relay.path, s.regionalAliases) + 1 == AskedTotal(path, s.regionalAliases)
  {
    hide ParseFlood, Eligible, AskedTotal, Asked, FirstUnused, FloodToken, FloodPath, Replacement, IsUsed;
    var first := FirstUnused(path);
    var f := ParseFlood(path[first], s.regionalAliases).value;
    EligibleCounts(f, s);
    FloodShape(path, first, s, relay, f);
    ReplacementAsks(path[first], s.callsign, f, s.regionalAliases);
    var before, after := path[..first], path[first + 1..];
    assert path == before + [path[first]] + after;
    AskedAround(before, Replacement(s.callsign, f), after, s.regionalAliases);
    AskedAround(before, [path[first]], after, s.regionalAliases);
    AskedSingle(path[first], s.regionalAliases);
  }

  lemma PreemptAsks(path: seq<string>, at: nat, out: seq<string>, aliases: seq<string>)
    requires at < |path| == |out| && !IsUsed(path[at])
    requires out[at + 1..] == path[at + 1..] && forall i :: 0 <= i <= at ==> IsUsed(out[i])
    ensures AskedTotal(out, aliases) + 1 <= AskedTotal(path, aliases)
  {
    hide AskedTotal, IsUsed, Remaining;
    UsedAskNothing(out[..at + 1], aliases);
    assert out == out[..at + 1] + out[at + 1..];
    AskedConcat(out[..at + 1], out[at + 1..], aliases);
    assert path == path[..at] + [path[at]] + path[at + 1..];
    AskedAround(path[..at], [path[at]], path[at + 1..], aliases);
    AskedSingle(path[at], aliases);
  }

  lemma PlanAsks(src: string, path: seq<string>, s: Config)
    requires Plan(src, path, s).Some?
    ensures AskedTotal(Plan(src, path, s).value.path, s.regionalAliases) + 1 <= AskedTotal(path, s.regionalAliases)
  {
    hide FloodPlan, FirstUnused, FindCall, AskedTotal, IsUsed, Names, Upper, PreemptPath, EqualFold;
    var mine := FindCall(path, Upper(s.callsign));
    if mine >= 0 {
      PreemptAccounting(path, mine, s.callsign);
      PreemptAsks(path, mine, PreemptPath(path, mine, s.callsign), s.regionalAliases);
    } else {
      FloodAsks(path, s, Plan(src, path, s).value);
    }
  }

  // ---- the air raises no request ----

  /** Numerals that read alike after the same base make the same token. */
  lemma SameAlias(base: string, t: string, u: string, key: string)
    requires '-' !in base && '-' !in t && '-' !in u && t != "" && u != "" && Atoi(t) == Atoi(u)
    ensures ParseAlias(base + ['-'] + t, key) == ParseAlias(base + ['-'] + u, key)
  {
    hide Atoi, ParseCounts, IndexOf;
    if |key| < |base| {
      InsideBase(base, t, key);
      InsideBase(base, u, key);
    } else {
      OutsideBase(base, t, key);
      OutsideBase(base, u, key);
    }
  }

  lemma InsideBase(base: string, t: string, key: string)
    requires '-' !in base && |key| < |base|
    ensures ParseAlias(base + ['-'] + t, key)
      == if key == "" || base[..|key|] != key then None else ParseCounts(base[|key|..] + ['-'] + t)
    ensures var n, hops := Atoi(base[|key|..]), Atoi(t);
      ParseCounts(base[|key|..] + ['-'] + t) ==
        if t == "" || n.None? || n.value < 1 || n.value > 7 || hops.None? || hops.value < 0 || hops.value > 7
        then None else Some(Counts(n.value, hops.value))
  {
    hide Atoi, ParseCounts;
    var h := base + ['-'] + t;
    assert h[..|key|] == base[..|key|] && h[|key|..] == base[|key|..] + ['-'] + t;
    CountsOfParts(base[|key|..], t);
  }

  lemma OutsideBase(base: string, t: string, key: string)
    requires '-' !in base && '-' !in t && |key| >= |base|
    ensures ParseAlias(base + ['-'] + t, key) == None
  {
    hide Atoi, IndexOf;
    var h := base + ['-'] + t;
    if |key| <= |h| {
      var rest := h[|key|..];
      assert |key| > |base| ==> forall i :: 0 <= i < |rest| ==> rest[i] == t[|key| - |base| - 1 + i];
      assert |key| == |base| ==> rest[0] == '-';
    }
  }

  lemma {:induction false} SameFind(h: string, g: string, aliases: seq<string>)
    requires forall key :: ParseAlias(h, key) == ParseAlias(g, key)
    ensures FindAlias(h, aliases) == FindAlias(g, aliases)
  {
    hide ParseAlias, AliasKey;
    if aliases != [] {
      SameFind(h, g, aliases[1..]);
    }
  }

  lemma SameFlood(base: string, t: string, u: string, aliases: seq<string>)
    requires '-' !in base && '-' !in t && '-' !in u && t != "" && u != "" && Atoi(t) == Atoi(u)
    requires var h, g := base + ['-'] + t, base + ['-'] + u;
      Upper(h) == h && Upper(g) == g && !IsUsed(h) && !IsUsed(g)
    ensures ParseFlood(base + ['-'] + t, aliases) == ParseFlood(base + ['-'] + u, aliases)
  {
    hide Atoi, ParseAlias, ParseWide, Upper, IsUsed, FindAlias;
    var h, g := base + ['-'] + t, base + ['-'] + u;
    forall key ensures ParseAlias(h, key) == ParseAlias(g, key) {
      SameAlias(base, t, u, key);
    }
    SameFind(h, g, aliases);
    WideAsAlias(h);
    WideAsAlias(g);
  }

  lemma NumeralForm(t: string)
    requires Atoi(t).Some?
    ensures Upper(t) == t && t != "" && IsDigit(t[|t| - 1])
  {
    AtoiChars(t);
    assert t[|t| - 1] != '+' && t[|t| - 1] != '-';
  }

  /** The canonical form of an acceptable hop asks for no more relays than the hop. */
  lemma CanonAsks(hop: string, aliases: seq<string>)
    requires ValidBaseCall(BaseCall(hop)) && !IsUsed(hop) && SplitCallSsid(hop).Ok?
    ensures Asked(Canon(hop), aliases) <= Asked(hop, aliases)
  {
    hide IndexOf, Atoi, SplitCallSsid, ParseFlood, Itoa, Upper;
    SendableExact(hop);
    var base, i := BaseCall(hop), IndexOf(hop, '-');
    var ssid := SplitCallSsid(hop).value.ssid;
    GoodBase(base);
    if ssid == 0 {
      NoDashNoFlood(base, aliases);
    } else {
      var t, u := hop[i + 1..], Itoa(ssid);
      assert hop == base + ['-'] + t;
      AtoiOfItoa(ssid);
      NumeralForm(t);
      NumeralForm(u);
      PositiveNumeral(t);
      PositiveNumeral(u);
      UpperDashed(base, t);
      UpperDashed(base, u);
      SameFlood(base, t, u, aliases);
    }
  }

  lemma GoodBase(base: string)
    requires ValidBaseCall(base)
    ensures '-' !in base && Upper(base) == base && !IsUsed(base)
  {
  }

  lemma NoDashNoFlood(base: string, aliases: seq<string>)
    requires '-' !in base && Upper(base) == base && !IsUsed(base)
    ensures ParseFlood(base, aliases).None?
  {
    hide IsUsed, Upper;
    if ParseFlood(base, aliases).Some? {
      var x, y := FloodSplit(base, aliases);
    }
  }

  /** Every unused hop has a base that the decoder accepts. */
  predicate GoodHops(path: seq<string>) {
    forall i :: 0 <= i < |path| && !IsUsed(path[i]) ==> ValidBaseCall(BaseCall(path[i]))
  }

  lemma {:induction false} CanonPathAsks(path: seq<string>, aliases: seq<string>)
    requires EncodablePath(path) && GoodHops(path)
    ensures AskedTotal(CanonPath(path), aliases) <= AskedTotal(path, aliases)
  {
    hide IsUsed, Bare, SplitCallSsid, Canon, BaseCall, ValidBaseCall, Remaining;
    if path != [] {
      CanonPathAsks(path[1..], aliases);
      assert CanonPath(path)[1..] == CanonPath(path[1..]);
      CanonHopAsks(path[0], aliases);
    }
  }

  lemma CanonHopAsks(hop: string, aliases: seq<string>)
    requires SplitCallSsid(Bare(hop)).Ok? && (!IsUsed(hop) ==> ValidBaseCall(BaseCall(hop)))
    ensures Asked(CanonHop(hop), aliases) <= Asked(hop, aliases)
  {
    hide SplitCallSsid, Canon, BaseCall, ValidBaseCall, Remaining;
    CanonHopShape(hop);
    if !IsUsed(hop) {
      CanonAsks(hop, aliases);
    }
  }

  /** The hops that a station plans are as good as those it heard. */
  lemma PlanGood(src: string, path: seq<string>, s: Config)
    requires Plan(src, path, s).Some? && forall i :: 0 <= i < |path| ==> Acceptable(path[i])
    ensures GoodHops(Plan(src, path, s).value.path)
  {
    hide FloodPlan, FirstUnused, FindCall, IsUsed, Names, Upper, PreemptPath, EqualFold, BaseCall, ValidBaseCall, Bare;
    var mine, first := FindCall(path, Upper(s.callsign)), FirstUnused(path);
    var out := Plan(src, path, s).value.path;
    if mine >= 0 {
      PreemptAccounting(path, mine, s.callsign);
      assert forall i :: mine < i < |path| ==> out[i] == out[mine + 1..][i - mine - 1] == path[mine + 1..][i - mine - 1];
    } else {
      FloodGood(path, first, s, out);
    }
  }

  lemma FloodGood(path: seq<string>, first: nat, s: Config, out: seq<string>)
    requires first < |path| && !IsUsed(path[first]) && forall i :: 0 <= i < |path| ==> Acceptable(path[i])
    requires FloodPlan(path, first, s).Some? && out == FloodPlan(path, first, s).value.path
    ensures GoodHops(out)
  {
    hide ParseFlood, FloodPath, IsUsed, Upper, BaseCall, ValidBaseCall, Eligible, FloodToken;
    var f := ParseFlood(path[first], s.regionalAliases).value;
    EligibleCounts(f, s);
    FloodShape(path, first, s, FloodPlan(path, first, s).value, f);
    RewrittenBase(path[first], s.regionalAliases);
    MarkedIsUsed("", s.callsign);
    var grown := |out| - |path|;
    assert forall i :: 0 <= i < first ==> out[i] == out[..first][i] == path[..first][i];
    assert forall i :: first + grown < i < |out| ==>
      out[i] == out[first + 1 + grown..][i - first - 1 - grown] == path[first + 1..][i - first - 1 - grown];
  }

  // ---- over a lineage ----

  /** The relays that a frame on the air asks for. */
  function AskedBy(from: Signal, aliases: seq<string>): nat {
    match from
    case Air(raw) => AskedTotal(PathOf(raw), aliases)
    case Net(_) => 0
  }

  lemma RepeatAnswers(raw: seq<byte>, t: Step, a: Action)
    requires AirStep(raw, t, a) && t.move == Repeat
    ensures AskedTotal(PathOf(a.raw), t.station.regionalAliases) + 1 <= AskedTotal(PathOf(raw), t.station.regionalAliases)
  {
    hide Plan, DecodeFrame, EncodeFrame, AirStep, AskedTotal, Acceptable, EncodablePath, CanonPath, GoodHops;
    StepReads(raw, t, a);
    RepeatOnWire(raw, t, a);
    var f := DecodeFrame(raw).value;
    PlanAsks(f.src, f.path, t.station);
    forall i | 0 <= i < |f.path| ensures Acceptable(f.path[i]) {
      HeardHop(raw, i);
    }
    PlanGood(f.src, f.path, t.station);
    CanonPathAsks(Plan(f.src, f.path, t.station).value.path, t.station.regionalAliases);
  }

  /** What the frames put on the air from APRS-IS ask for. */
  function Injected(steps: seq<Step>, aliases: seq<string>): nat {
    if steps == [] then 0
    else (if steps[0].move == ToRF then AskedBy(steps[0].next, aliases) else 0) + Injected(steps[1..], aliases)
  }

  lemma StepAnswers(from: Signal, t: Step)
    requires Emits(from, t)
    ensures var aliases := t.station.regionalAliases;
      && (t.move == Repeat ==> AskedBy(t.next, aliases) + 1 <= AskedBy(from, aliases))
      && (t.move == ToIS ==> AskedBy(t.next, aliases) == 0)
  {
    hide AirStep, NetStep, AskedTotal, PathOf;
    match from {
      case Air(raw) =>
        var a :| AirStep(raw, t, a);
        AirMoves(raw, t, a);
        if t.move == Repeat {
          RepeatAnswers(raw, t, a);
        }
      case Net(line) =>
        var a :| NetStep(line, t, a);
        NetMoves(line, t, a);
    }
  }

  /** Among stations with the same aliases, whatever their callsigns and roles, a transmission is
      repeated at most as often as its path asks for, and after a return from APRS-IS as often as
      the path asks for under which it was put on the air anew. */
  lemma {:induction false} RepeatsAsked(start: Signal, steps: seq<Step>, aliases: seq<string>)
    requires Lineage(start, steps) && forall i :: 0 <= i < |steps| ==> steps[i].station.regionalAliases == aliases
    ensures Count(steps, Repeat) <= AskedBy(start, aliases) + Injected(steps, aliases)
    decreases |steps|
  {
    hide Emits, AskedBy;
    if steps != [] {
      assert steps[0].station.regionalAliases == aliases;
      StepAnswers(start, steps[0]);
      RepeatsAsked(steps[0].next, steps[1..], aliases);
    }
  }

  /** In particular the repeats in a row are no more than the path asks for. */
  lemma RowAsked(start: Signal, steps: seq<Step>, aliases: seq<string>)
    requires Lineage(start, steps) && AllRepeats(steps)
    requires forall i :: 0 <= i < |steps| ==> steps[i].station.regionalAliases == aliases
    ensures |steps| <= AskedBy(start, aliases)
  {
    hide Lineage, AskedBy;
    RepeatsAsked(start, steps, aliases);
    RowCounts(steps, aliases);
  }

  lemma {:induction false} RowCounts(steps: seq<Step>, aliases: seq<string>)
    requires AllRepeats(steps)
    ensures Count(steps, Repeat) == |steps| && Injected(steps, aliases) == 0
  {
    hide AskedBy;
    if steps != [] {
      assert steps[0].move == Repeat;
      assert AllRepeats(steps[1..]);
      RowCounts(steps[1..], aliases);
    }
  }
}
