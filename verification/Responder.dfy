/** Deciding with the tracker in hand, and the budget of responder positions over whole runs. */
module Responder {
  import opened GoText
  import opened Packets
  import opened Gate
  import opened Tracker

  // ---- the decision, as the station runs it ----

  /** What deciding about a packet from APRS-IS does to the tracker's table, up to the choice the
      cap leaves among entries of equal age. */
  ghost predicate TrackerStep(p: Packet, s: Config, heard: bool, now: int, gcNow: int, ttl: int,
                              before: Expiries, after: Expiries)
  {
    var key := Upper(p.frame.src);
    if p.frame.src == "" then after == before
    else if AsksTracker(p, s) then after == before - {key}
    else if GatesMessage(p, s, heard) then Trimmed(Unexpired(before[key := now + ttl], gcNow), after)
    else after == before
  }

  /** Whether the sender is granted a position. */
  predicate Granted(p: Packet, now: int, m: Expiries) {
    p.frame.src != "" && Grants(m, Upper(p.frame.src), now)
  }

  method DecideFromIS(p: Packet, s: Config, heardOnRF: string -> bool,
                      tracker: MessagedRecipientTracker, now: int, gcNow: int)
    returns (a: Action)
    requires tracker.Valid()
    modifies tracker
    ensures tracker.Valid()
    ensures a == FromIS(p, s, heardOnRF(p.decoded.msgTo), Granted(p, now, old(tracker.m)))
    ensures TrackerStep(p, s, heardOnRF(p.decoded.msgTo), now, gcNow, tracker.ttl, old(tracker.m), tracker.m)
  {
    hide EqualFold, TelemetryBody, WeatherSource, Wrapped, TXPath, Trimmed, Unexpired, HasPrefix, Upper;
    var refusal := EarlyRefusal(p, s);
    if refusal.Some? {
      return Drop(refusal.value);
    }
    if !p.decoded.isMessage && p.decoded.fix.Some? {
      var granted := tracker.Consume(p.frame.src, now);
      if granted {
        return InjectRF(s.callsign, BEACON_DEST, TXPath(s), Wrapped(p.frame, s));
      }
    }
    if !p.decoded.isMessage {
      return Drop(NotAMessage);
    }
    if p.decoded.msgTo == "" {
      return Drop(NoRecipient);
    }
    if EqualFold(p.decoded.msgTo, s.callsign) {
      return Drop(ToUs);
    }
    if EqualFold(p.decoded.msgTo, p.frame.src) {
      return Drop(SelfAddressed);
    }
    if TelemetryBody(p.decoded.msgBody) {
      return Drop(TelemetryDeclaration);
    }
    var weather := WeatherSource(p.frame.src);
    if !weather && HasPrefix(Upper(p.decoded.msgTo), "BLN") {
      return Drop(Bulletin);
    }
    if !weather && !heardOnRF(p.decoded.msgTo) {
      return Drop(NotHeard);
    }
    tracker.Record(p.frame.src, now, gcNow);
    return InjectRF(s.callsign, BEACON_DEST, [], Wrapped(p.frame, s));
  }

  method Decide(p: Packet, s: Config, heardOnRF: string -> bool,
                tracker: MessagedRecipientTracker, now: int, gcNow: int)
    returns (actions: seq<Action>)
    requires tracker.Valid()
    modifies tracker
    ensures tracker.Valid()
    ensures p.frame.origin == SrcRF ==> actions == FromRF(p, s)
    ensures p.frame.origin == SrcIS ==>
      actions == [FromIS(p, s, heardOnRF(p.decoded.msgTo), Granted(p, now, old(tracker.m)))]
    ensures p.frame.origin == SrcIS ==>
      TrackerStep(p, s, heardOnRF(p.decoded.msgTo), now, gcNow, tracker.ttl, old(tracker.m), tracker.m)
    ensures p.frame.origin == SrcTX ==> actions == []
    ensures p.frame.origin == SrcOther ==> actions == [Drop(DropReason.UnknownOrigin)]
    ensures p.frame.origin != SrcIS ==> tracker.m == old(tracker.m)
  {
    hide FromRF, FromIS, TrackerStep;
    match p.frame.origin {
      case SrcRF =>
        actions := DecideFromRF(p, s);
      case SrcIS =>
        var a := DecideFromIS(p, s, heardOnRF, tracker, now, gcNow);
        actions := [a];
      case SrcTX =>
        actions := [];
      case SrcOther =>
        actions := [Drop(DropReason.UnknownOrigin)];
    }
  }

  // ---- runs ----

  /** One packet from APRS-IS, with what the decision about it depends on and the table after it. */
  datatype Arrival = Arrival(packet: Packet, config: Config, heard: bool, now: int, gcNow: int, after: Expiries)

  ghost predicate Run(m: Expiries, ttl: int, run: seq<Arrival>)
    decreases |run|
  {
    run == [] ||
    (var a := run[0];
     && TrackerStep(a.packet, a.config, a.heard, a.now, a.gcNow, ttl, m, a.after)
     && Run(a.after, ttl, run[1..]))
  }

  /** The decision taken about an arrival when the tracker's table is m. */
  function DecisionAt(a: Arrival, m: Expiries): Action {
    FromIS(a.packet, a.config, a.heard, Granted(a.packet, a.now, m))
  }

  /** A position of the station is put on the air. */
  predicate PositionGated(a: Arrival, m: Expiries, key: string) {
    Upper(a.packet.frame.src) == key && !a.packet.decoded.isMessage && DecisionAt(a, m).InjectRF?
  }

  /** A message of the station is put on the air. */
  predicate MessageGated(a: Arrival, m: Expiries, key: string) {
    Upper(a.packet.frame.src) == key && a.packet.decoded.isMessage && DecisionAt(a, m).InjectRF?
  }

  function Positions(m: Expiries, run: seq<Arrival>, key: string): nat
    decreases |run|
  {
    if run == [] then 0
    else (if PositionGated(run[0], m, key) then 1 else 0) + Positions(run[0].after, run[1..], key)
  }

  function Messages(m: Expiries, run: seq<Arrival>, key: string): nat
    decreases |run|
  {
    if run == [] then 0
    else (if MessageGated(run[0], m, key) then 1 else 0) + Messages(run[0].after, run[1..], key)
  }

  lemma GatedMeans(a: Arrival, m: Expiries, key: string)
    ensures PositionGated(a, m, key) <==>
      Upper(a.packet.frame.src) == key && AsksTracker(a.packet, a.config) && Granted(a.packet, a.now, m)
    ensures MessageGated(a, m, key) <==>
      Upper(a.packet.frame.src) == key && GatesMessage(a.packet, a.config, a.heard)
  {
    hide EqualFold, TelemetryBody, WeatherSource, Wrapped, TXPath, HasPrefix, Upper, Grants;
  }

  /** A position spends the tracker's entry; only a gated message makes one. */
  lemma StepBudget(a: Arrival, ttl: int, m: Expiries, key: string)
    requires TrackerStep(a.packet, a.config, a.heard, a.now, a.gcNow, ttl, m, a.after)
    ensures (if PositionGated(a, m, key) then 1 else 0) + (if key in a.after then 1 else 0)
      <= (if MessageGated(a, m, key) then 1 else 0) + (if key in m then 1 else 0)
  {
    hide EarlyRefusal, MessageRefusal, Upper, PositionGated, MessageGated;
    GatedMeans(a, m, key);
  }

  /** Over every run, a station has at most as many positions gated as messages before them,
      plus the one that may have been owed at the start. */
  lemma {:induction false} PositionBudget(m: Expiries, ttl: int, run: seq<Arrival>, key: string)
    requires Run(m, ttl, run)
    ensures Positions(m, run, key) <= Messages(m, run, key) + if key in m then 1 else 0
    decreases |run|
  {
    hide PositionGated, MessageGated, TrackerStep;
    if run != [] {
      StepBudget(run[0], ttl, m, key);
      PositionBudget(run[0].after, ttl, run[1..], key);
    }
  }

  /** Between two gated positions of a station lies a gated message of it. */
  lemma MessageBetweenPositions(m: Expiries, ttl: int, a: Arrival, middle: seq<Arrival>, key: string)
    requires Run(m, ttl, [a] + middle) && PositionGated(a, m, key)
    requires Positions(a.after, middle, key) > 0
    ensures Messages(a.after, middle, key) > 0
  {
    hide PositionGated, MessageGated, TrackerStep;
    assert ([a] + middle)[1..] == middle;
    StepBudget(a, ttl, m, key);
    assert key !in a.after by {
      assert TrackerStep(a.packet, a.config, a.heard, a.now, a.gcNow, ttl, m, a.after);
      PositionSpends(a, ttl, m, key);
    }
    PositionBudget(a.after, ttl, middle, key);
  }

  lemma PositionSpends(a: Arrival, ttl: int, m: Expiries, key: string)
    requires TrackerStep(a.packet, a.config, a.heard, a.now, a.gcNow, ttl, m, a.after)
    requires PositionGated(a, m, key)
    ensures key !in a.after
  {
    hide EarlyRefusal, MessageRefusal, Upper, PositionGated;
    GatedMeans(a, m, key);
  }

  // ---- sweeping is unobservable ----

  /** The tables agree on everything that has not expired by the given time. */
  predicate Agree(m: Expiries, plain: Expiries, now: int) {
    && (forall k :: k in m ==> k in plain && plain[k] == m[k])
    && (forall k :: k in plain && k !in m ==> plain[k] < now)
  }

  /** The step of a tracker with the same cap that never sweeps. */
  ghost predicate PlainStep(a: Arrival, ttl: int, before: Expiries, after: Expiries) {
    var key := Upper(a.packet.frame.src);
    if a.packet.frame.src == "" then after == before
    else if AsksTracker(a.packet, a.config) then after == before - {key}
    else if GatesMessage(a.packet, a.config, a.heard) then Trimmed(before[key := a.now + ttl], after)
    else after == before
  }

  ghost predicate PlainRun(m: Expiries, ttl: int, run: seq<Arrival>)
    decreases |run|
  {
    run == [] || (PlainStep(run[0], ttl, m, run[0].after) && PlainRun(run[0].after, ttl, run[1..]))
  }

  /** The clock never goes back, neither between arrivals nor within one. */
  predicate Timely(run: seq<Arrival>, now: int)
    decreases |run|
  {
    run == [] || (now <= run[0].now <= run[0].gcNow && Timely(run[1..], run[0].gcNow))
  }

  function Grantings(m: Expiries, run: seq<Arrival>): seq<bool>
    decreases |run|
  {
    if run == [] then [] else [Granted(run[0].packet, run[0].now, m)] + Grantings(run[0].after, run[1..])
  }

  /** The same arrivals, whatever the tables after them. */
  predicate SameArrivals(run: seq<Arrival>, other: seq<Arrival>) {
    |run| == |other| && forall i :: 0 <= i < |run| ==> other[i] == run[i].(after := other[i].after)
  }

  lemma FullyTrimmed(before: Expiries, after: Expiries)
    requires Trimmed(before, after) && |before| <= CAP
    ensures after == before
  {
    assert |after.Keys| == |after| && |before.Keys| == |before|;
    if after != before {
      var k :| k in before && k !in after;
      SubsetSize(after.Keys, before.Keys - {k});
    }
  }

  lemma OldestOf(m: Expiries) returns (key: string)
    requires m != map[]
    ensures key in m && forall k :: k in m ==> m[key] <= m[k]
    decreases |m|
  {
    key :| key in m;
    var rest := m - {key};
    assert forall k :: k in m && k != key ==> k in rest && rest[k] == m[k];
    if rest != map[] {
      WithoutSize(m, key);
      var other := OldestOf(rest);
      key := if m[other] < m[key] then other else key;
    }
  }

  /** One entry too many: dropping an oldest one is what the cap does. */
  lemma OldestTrimmed(m: Expiries, key: string)
    requires |m| == CAP + 1 && key in m && forall k :: k in m ==> m[key] <= m[k]
    ensures Trimmed(m, m - {key}) && |m - {key}| == CAP
  {
    WithoutSize(m, key);
  }

  lemma FewerEntries(m: Expiries, n: Expiries)
    requires m.Keys <= n.Keys
    ensures |m| <= |n|
  {
    assert |m.Keys| == |m| && |n.Keys| == |n|;
    SubsetSize(m.Keys, n.Keys);
  }

  lemma OneDropped(before: Expiries, after: Expiries, j: string, k: string)
    requires Trimmed(before, after) && |before| == CAP + 1
    requires j in before && j !in after && k in before
    ensures j == k || k in after
  {
    if j != k && k !in after {
      WithoutSize(before, j);
      WithoutSize(before - {j}, k);
      FewerEntries(after, before - {j} - {k});
    }
  }

  lemma AgreeLater(m: Expiries, plain: Expiries, now: int, later: int)
    requires Agree(m, plain, now) && now <= later
    ensures Agree(m, plain, later)
  {
  }

  /** Recording with a sweep, matched without: when the unswept table overflows and something in
      it has expired, the cap takes an expired entry. */
  lemma RecordMatched(m: Expiries, plain: Expiries, gcNow: int, after: Expiries) returns (next: Expiries)
    requires Agree(m, plain, gcNow) && |plain| <= CAP + 1
    requires Trimmed(Unexpired(m, gcNow), after)
    ensures Trimmed(plain, next) && Agree(after, next, gcNow) && |next| <= CAP
  {
    var swept := Unexpired(m, gcNow);
    if |plain| <= CAP {
      FewerEntries(swept, plain);
      FullyTrimmed(swept, after);
      TrimmedSelf(plain);
      next := plain;
    } else if swept == plain {
      next := after;
    } else {
      var oldest := OldestOf(plain);
      OldestTrimmed(plain, oldest);
      next := plain - {oldest};
      assert plain[oldest] < gcNow by {
        var k :| k in plain && (k !in swept || swept[k] != plain[k]);
      }
      FewerEntries(swept, next);
      FullyTrimmed(swept, after);
    }
  }

  /** Recording without a sweep, matched with one. */
  lemma PlainMatched(m: Expiries, plain: Expiries, gcNow: int, next: Expiries) returns (after: Expiries)
    requires Agree(m, plain, gcNow) && |plain| <= CAP + 1
    requires Trimmed(plain, next)
    ensures Trimmed(Unexpired(m, gcNow), after) && Agree(after, next, gcNow) && |next| <= CAP
  {
    var swept := Unexpired(m, gcNow);
    FewerEntries(swept, plain);
    if |plain| <= CAP {
      FullyTrimmed(plain, next);
      TrimmedSelf(swept);
      after := swept;
    } else if swept == plain {
      after := next;
    } else {
      var k :| k in plain && (k !in swept || swept[k] != plain[k]);
      forall j | j in plain && j !in next ensures plain[j] < gcNow {
        OneDropped(plain, next, j, k);
      }
      FewerEntries(swept, next);
      TrimmedSelf(swept);
      after := swept;
    }
  }

  lemma StepAgrees(a: Arrival, m: Expiries, plain: Expiries, now: int)
    requires Agree(m, plain, now) && now <= a.now
    ensures Granted(a.packet, a.now, m) == Granted(a.packet, a.now, plain)
  {
    hide Upper;
  }

  /** The tables with the new entry agree like the tables did. */
  lemma RecordAgrees(m: Expiries, plain: Expiries, now: int, gcNow: int, key: string, exp: int)
    requires Agree(m, plain, now) && now <= gcNow && |plain| <= CAP
    ensures Agree(m[key := exp], plain[key := exp], gcNow) && |plain[key := exp]| <= CAP + 1
  {
    InsertSize(plain, key, exp);
  }

  lemma InsertSize(m: Expiries, key: string, exp: int)
    ensures |m[key := exp]| <= |m| + 1
  {
    var more := m[key := exp];
    assert more.Keys == m.Keys + {key};
    assert |more.Keys| == |more| && |m.Keys| == |m|;
  }

  lemma ConsumeAgrees(m: Expiries, plain: Expiries, now: int, gcNow: int, key: string)
    requires Agree(m, plain, now) && now <= gcNow && |plain| <= CAP
    ensures Agree(m - {key}, plain - {key}, gcNow) && |plain - {key}| <= CAP
  {
    FewerEntries(plain - {key}, plain);
  }

  lemma StepMatched(a: Arrival, ttl: int, m: Expiries, plain: Expiries, now: int) returns (next: Expiries)
    requires TrackerStep(a.packet, a.config, a.heard, a.now, a.gcNow, ttl, m, a.after)
    requires Agree(m, plain, now) && now <= a.now <= a.gcNow && |plain| <= CAP
    ensures PlainStep(a, ttl, plain, next)
    ensures Agree(a.after, next, a.gcNow) && |next| <= CAP
  {
    hide AsksTracker, GatesMessage, Upper, Trimmed, Unexpired, Agree;
    var key := Upper(a.packet.frame.src);
    AgreeLater(m, plain, now, a.gcNow);
    if a.packet.frame.src == "" {
      next := plain;
    } else if AsksTracker(a.packet, a.config) {
      ConsumeAgrees(m, plain, now, a.gcNow, key);
      next := plain - {key};
    } else if GatesMessage(a.packet, a.config, a.heard) {
      RecordAgrees(m, plain, now, a.gcNow, key, a.now + ttl);
      next := RecordMatched(m[key := a.now + ttl], plain[key := a.now + ttl], a.gcNow, a.after);
    } else {
      next := plain;
    }
  }

  lemma PlainStepMatched(a: Arrival, ttl: int, m: Expiries, plain: Expiries, now: int) returns (after: Expiries)
    requires PlainStep(a, ttl, plain, a.after)
    requires Agree(m, plain, now) && now <= a.now <= a.gcNow && |plain| <= CAP
    ensures TrackerStep(a.packet, a.config, a.heard, a.now, a.gcNow, ttl, m, after)
    ensures Agree(after, a.after, a.gcNow) && |a.after| <= CAP
  {
    hide AsksTracker, GatesMessage, Upper, Trimmed, Unexpired, Agree;
    var key := Upper(a.packet.frame.src);
    AgreeLater(m, plain, now, a.gcNow);
    if a.packet.frame.src == "" {
      after := m;
    } else if AsksTracker(a.packet, a.config) {
      ConsumeAgrees(m, plain, now, a.gcNow, key);
      after := m - {key};
    } else if GatesMessage(a.packet, a.config, a.heard) {
      RecordAgrees(m, plain, now, a.gcNow, key, a.now + ttl);
      after := PlainMatched(m[key := a.now + ttl], plain[key := a.now + ttl], a.gcNow, a.after);
    } else {
      after := m;
    }
  }

  /** Every run is, answer for answer, one of a tracker with the same cap that never sweeps. */
  lemma {:induction false} SweepUnobservable(m: Expiries, plain: Expiries, ttl: int, run: seq<Arrival>, now: int)
    returns (other: seq<Arrival>)
    requires Run(m, ttl, run) && Timely(run, now)
    requires Agree(m, plain, now) && |plain| <= CAP
    ensures PlainRun(plain, ttl, other) && SameArrivals(run, other)
    ensures Grantings(plain, other) == Grantings(m, run)
    decreases |run|
  {
    hide TrackerStep, PlainStep, Agree, Granted;
    if run == [] {
      other := [];
    } else {
      var next := StepMatched(run[0], ttl, m, plain, now);
      StepAgrees(run[0], m, plain, now);
      var rest := SweepUnobservable(run[0].after, next, ttl, run[1..], run[0].gcNow);
      other := [run[0].(after := next)] + rest;
      assert other[1..] == rest;
      PlainStepOf(run[0], ttl, plain, next);
    }
  }

  /** And every run without sweeps is, answer for answer, one with them. */
  lemma {:induction false} SweepHarmless(m: Expiries, plain: Expiries, ttl: int, run: seq<Arrival>, now: int)
    returns (other: seq<Arrival>)
    requires PlainRun(plain, ttl, run) && Timely(run, now)
    requires Agree(m, plain, now) && |plain| <= CAP
    ensures Run(m, ttl, other) && SameArrivals(run, other)
    ensures Grantings(m, other) == Grantings(plain, run)
    decreases |run|
  {
    hide TrackerStep, PlainStep, Agree, Granted;
    if run == [] {
      other := [];
    } else {
      var after := PlainStepMatched(run[0], ttl, m, plain, now);
      StepAgrees(run[0], m, plain, now);
      var rest := SweepHarmless(after, run[0].after, ttl, run[1..], run[0].gcNow);
      other := [run[0].(after := after)] + rest;
      assert other[1..] == rest;
    }
  }

  /** A step does not look at the table recorded after it. */
  lemma PlainStepOf(a: Arrival, ttl: int, before: Expiries, next: Expiries)
    requires PlainStep(a, ttl, before, next)
    ensures PlainStep(a.(after := next), ttl, before, next)
  {
    hide AsksTracker, GatesMessage, Upper, Trimmed;
  }

  // ---- who is granted a position ----

  /** The table before the i-th arrival. */
  function TableAt(m: Expiries, run: seq<Arrival>, i: nat): Expiries
    requires i <= |run|
  {
    if i == 0 then m else run[i - 1].after
  }

  /** Until when a station is owed a position, without looking at any table: from a message of it that
      was gated until the tracker is asked about it again. */
  function DueAt(due: Option<int>, ttl: int, run: seq<Arrival>, key: string, i: nat): Option<int>
    requires i <= |run|
  {
    if i == 0 then due
    else
      var a, before := run[i - 1], DueAt(due, ttl, run, key, i - 1);
      if a.packet.frame.src == "" || Upper(a.packet.frame.src) != key then before
      else if AsksTracker(a.packet, a.config) then None
      else if GatesMessage(a.packet, a.config, a.heard) then Some(a.now + ttl)
      else before
  }

  /** The cap evicts nothing at this arrival. */
  predicate Roomy(a: Arrival, ttl: int, m: Expiries) {
    a.packet.frame.src != "" && !AsksTracker(a.packet, a.config) && GatesMessage(a.packet, a.config, a.heard) ==>
      |Unexpired(m[Upper(a.packet.frame.src) := a.now + ttl], a.gcNow)| <= 4096
  }

  /** It evicts nothing before the i-th. */
  predicate AllRoomy(m: Expiries, ttl: int, run: seq<Arrival>, i: nat)
    requires i <= |run|
  {
    i == 0 || (AllRoomy(m, ttl, run, i - 1) && Roomy(run[i - 1], ttl, TableAt(m, run, i - 1)))
  }

  predicate Fits(m: Expiries, key: string, due: Option<int>) {
    key in m ==> due == Some(m[key])
  }

  predicate Complete(m: Expiries, key: string, due: Option<int>, now: int) {
    due.Some? && key !in m ==> due.value < now
  }

  lemma {:induction false} StepOfRun(m: Expiries, ttl: int, run: seq<Arrival>, i: nat)
    requires Run(m, ttl, run) && i < |run|
    ensures TrackerStep(run[i].packet, run[i].config, run[i].heard, run[i].now, run[i].gcNow, ttl, TableAt(m, run, i), run[i].after)
    decreases i
  {
    hide TrackerStep;
    if i > 0 {
      StepOfRun(run[0].after, ttl, run[1..], i - 1);
    }
  }

  lemma {:induction false} TimeOfRun(run: seq<Arrival>, now: int, i: nat)
    requires Timely(run, now) && i < |run|
    ensures (if i == 0 then now else run[i - 1].gcNow) <= run[i].now <= run[i].gcNow
    decreases i
  {
    if i > 0 {
      TimeOfRun(run[1..], run[0].gcNow, i - 1);
    }
  }

  lemma StepFits(a: Arrival, ttl: int, m: Expiries, due: Option<int>, key: string)
    requires TrackerStep(a.packet, a.config, a.heard, a.now, a.gcNow, ttl, m, a.after) && Fits(m, key, due)
    ensures Fits(a.after, key, DueAt(due, ttl, [a], key, 1))
  {
    hide AsksTracker, GatesMessage, Upper;
    assert DueAt(due, ttl, [a], key, 0) == due;
  }

  lemma StepComplete(a: Arrival, ttl: int, m: Expiries, due: Option<int>, key: string, now: int)
    requires TrackerStep(a.packet, a.config, a.heard, a.now, a.gcNow, ttl, m, a.after) && Roomy(a, ttl, m)
    requires Fits(m, key, due) && Complete(m, key, due, now) && now <= a.gcNow
    ensures Complete(a.after, key, DueAt(due, ttl, [a], key, 1), a.gcNow)
  {
    hide AsksTracker, GatesMessage, Upper, Trimmed;
    assert DueAt(due, ttl, [a], key, 0) == due;
    var own := Upper(a.packet.frame.src);
    if a.packet.frame.src != "" && !AsksTracker(a.packet, a.config) && GatesMessage(a.packet, a.config, a.heard) {
      FullyTrimmed(Unexpired(m[own := a.now + ttl], a.gcNow), a.after);
    }
  }

  lemma DueStep(due: Option<int>, ttl: int, run: seq<Arrival>, key: string, i: nat)
    requires i < |run|
    ensures DueAt(due, ttl, run, key, i + 1) == DueAt(DueAt(due, ttl, run, key, i), ttl, [run[i]], key, 1)
  {
    hide AsksTracker, GatesMessage, Upper;
    assert DueAt(DueAt(due, ttl, run, key, i), ttl, [run[i]], key, 0) == DueAt(due, ttl, run, key, i);
  }

  lemma {:induction false} FitsAt(m: Expiries, ttl: int, run: seq<Arrival>, key: string, due: Option<int>, i: nat)
    requires Run(m, ttl, run) && Fits(m, key, due) && i <= |run|
    ensures Fits(TableAt(m, run, i), key, DueAt(due, ttl, run, key, i))
    decreases i
  {
    hide TrackerStep, Fits, DueAt, Run;
    if i == 0 {
      assert DueAt(due, ttl, run, key, 0) == due by { DueAtStart(due, ttl, run, key); }
    } else {
      FitsAt(m, ttl, run, key, due, i - 1);
      StepOfRun(m, ttl, run, i - 1);
      StepFits(run[i - 1], ttl, TableAt(m, run, i - 1), DueAt(due, ttl, run, key, i - 1), key);
      DueStep(due, ttl, run, key, i - 1);
    }
  }

  lemma DueAtStart(due: Option<int>, ttl: int, run: seq<Arrival>, key: string)
    ensures DueAt(due, ttl, run, key, 0) == due
  {
  }

  lemma {:induction false} CompleteAt(m: Expiries, ttl: int, run: seq<Arrival>, key: string, due: Option<int>, now: int, i: nat)
    requires Run(m, ttl, run) && Timely(run, now) && Fits(m, key, due) && Complete(m, key, due, now) && i <= |run|
    requires AllRoomy(m, ttl, run, i)
    ensures Complete(TableAt(m, run, i), key, DueAt(due, ttl, run, key, i), if i == 0 then now else run[i - 1].gcNow)
    decreases i
  {
    hide TrackerStep, Fits, Complete, Roomy, DueAt, Run, Timely;
    if i == 0 {
      DueAtStart(due, ttl, run, key);
    } else {
      var before, since := TableAt(m, run, i - 1), if i == 1 then now else run[i - 2].gcNow;
      CompleteAt(m, ttl, run, key, due, now, i - 1);
      FitsAt(m, ttl, run, key, due, i - 1);
      StepOfRun(m, ttl, run, i - 1);
      TimeOfRun(run, now, i - 1);
      StepComplete(run[i - 1], ttl, before, DueAt(due, ttl, run, key, i - 1), key, since);
      DueStep(due, ttl, run, key, i - 1);
    }
  }

  /** Over every run of a tracker that starts empty, a station is granted a position only while one
      is owed to it. Unless the cap evicted an entry, it is granted exactly then. */
  lemma GrantedExact(ttl: int, run: seq<Arrival>, now: int, i: nat)
    requires Run(map[], ttl, run) && Timely(run, now) && i < |run| && run[i].packet.frame.src != ""
    ensures var due := DueAt(None, ttl, run, Upper(run[i].packet.frame.src), i);
      && (Granted(run[i].packet, run[i].now, TableAt(map[], run, i)) ==> due.Some? && run[i].now < due.value)
      && (AllRoomy(map[], ttl, run, i) ==>
            (Granted(run[i].packet, run[i].now, TableAt(map[], run, i)) <==> due.Some? && run[i].now < due.value))
  {
    hide Run, Timely, Upper, AllRoomy, DueAt;
    var key := Upper(run[i].packet.frame.src);
    FitsAt(map[], ttl, run, key, None, i);
    TimeOfRun(run, now, i);
    if AllRoomy(map[], ttl, run, i) {
      CompleteAt(map[], ttl, run, key, None, now, i);
    }
  }
}
