/** How far the spacing of transmissions reaches: for which packets it fails, and that its bound is
    attained. */
module SpacingLimits {
  import opened GoText
  import opened Ax25
  import opened Gate
  import opened Content
  import opened Station
  import opened StationRuns
  import Dupe
  import RateLimit
  import Viscous

  // ---- one more step of a quiet station ----

  lemma Extend(clock: int, run: seq<Event>, e: Event)
    requires Valid(clock, run) && Enabled(At(clock, run), e)
    ensures Valid(clock, run + [e]) && At(clock, run + [e]) == Next(At(clock, run), e)
  {
    hide Next, Enabled;
    assert (run + [e])[..|run|] == run;
  }

  /** No source is blocked or has sent more than a few packets. */
  predicate Calm(l: RateLimit.Limiter, n: int) {
    forall k :: k in l.buckets ==> l.buckets[k].blockedUntil.None? && l.buckets[k].count <= n
  }

  lemma CalmAllows(l: RateLimit.Limiter, source: string, now: int, n: int)
    requires Calm(l, n) && 0 <= n < LIMITS.threshold
    ensures RateLimit.VerdictOn(l, source, now, LIMITS).ok
    ensures Calm(RateLimit.AfterAllow(l, source, now, LIMITS), n + 1)
  {
  }

  function Remember(seen: Dupe.Times, key: Key, now: int): Dupe.Times {
    if Dupe.IsDupe(seen, key, now, DUPE_WINDOW) then seen else seen[key := now]
  }

  /** A small table is not swept. */
  lemma SmallTable(t: Dupe.Table, key: Key, now: int)
    requires |t.seen| < Dupe.MIN_TRIGGER
    ensures Dupe.After(t, key, now, DUPE_WINDOW).seen == Remember(t.seen, key, now)
    ensures |Remember(t.seen, key, now)| <= |t.seen| + 1
  {
    var more := t.seen[key := now];
    assert more.Keys == t.seen.Keys + {key};
    assert |more.Keys| == |more| && |t.seen.Keys| == |t.seen|;
  }

  /** The packet as heard while holding is switched off. */
  function Prompt(raw: seq<byte>, s: Config, now: int): Heard
    requires DecodeFrame(raw).Ok?
  {
    Hearing(raw, s.(viscousDelay := false), now, false)
  }

  lemma PromptPlan(src: string, path: seq<string>, s: Config)
    ensures var relay := Plan(src, path, s);
      Plan(src, path, s.(viscousDelay := false))
        == if relay.None? then None else Some(relay.value.(viscous := false))
  {
    hide FindCall, FirstUnused, ParseFlood, Upper, EqualFold, FloodPath, PreemptPath, IsUsed;
  }

  lemma PromptRepeat(raw: seq<byte>, s: Config, now: int)
    requires Repeated(raw, s).Some?
    ensures DecodeFrame(raw).Ok? && Repeated(raw, s).value.RelayRF?
    ensures Genuine(Prompt(raw, s, now))
    ensures Prompt(raw, s, now).decision == RepeatNow(Repeated(raw, s).value.raw)
    ensures KeyOf(raw) == Some(Prompt(raw, s, now).key) && KeyOf(Repeated(raw, s).value.raw).Some?
  {
    hide Plan, EncodeFrame, DecodeFrame, ContentKey;
    RepeatedFields(raw, s);
    var f := DecodeFrame(raw).value;
    PromptPlan(f.src, f.path, s);
    var p := s.(viscousDelay := false);
    assert Repeated(raw, p) == Some(RelayRF(Repeated(raw, s).value.raw, false));
    assert Prompt(raw, s, now) == Hearing(raw, p, now, false);
  }

  lemma PromptFields(raw: seq<byte>, s: Config, now: int)
    requires DecodeFrame(raw).Ok?
    ensures var h := Prompt(raw, s, now);
      h.raw == raw && h.now == now && !h.tooFar
  {
    hide DecodeFrame, DecisionOn, ContentKey;
  }

  /** A fresh packet to be repeated at once is, and both its own content and that of its repeat are
      remembered. */
  lemma FreshSends(u: State, h: Heard, n: int)
    requires Enabled(u, Hear(h)) && h.decision.RepeatNow? && !h.tooFar && KeyOf(h.decision.raw).Some?
    requires !Dupe.IsDupe(Table(u).seen, h.key, h.now, DUPE_WINDOW)
    requires |Table(u).seen| < 100 && Calm(u.limiter, n) && 0 <= n < LIMITS.threshold
    ensures var v := Next(u, Hear(h));
      && v.sent == u.sent + [Sent(Job(|u.marks|, h.raw, h.decision.raw), h.now)]
      && Table(v).seen == Remember(Remember(Table(u).seen, h.key, h.now), KeyOf(h.decision.raw).value, h.now)
      && |Table(v).seen| <= |Table(u).seen| + 2
      && Calm(v.limiter, n + 1) && v.clock == h.now
  {
    hide Genuine, KeyOf, Table, Calm, RateLimit.VerdictOn, RateLimit.AfterAllow, Dupe.After, Dupe.IsDupe, Remember,
         HearMarks, QueueAfter;
    CalmAllows(u.limiter, h.source, h.now, n);
    TableFollows(u, h);
    var t := Dupe.After(Table(u), h.key, h.now, DUPE_WINDOW);
    SmallTable(Table(u), h.key, h.now);
    SmallTable(t, KeyOf(h.decision.raw).value, h.now);
    assert OutcomeOf(Table(u), u.limiter, h).Decided?;
  }

  // ---- two packets that go out as one content ----

  /** Two transmissions of the same content, of these two packets, closer than the hold explains. */
  ghost predicate Together(clock: int, run: seq<Event>, i: nat, j: nat, first: seq<byte>, second: seq<byte>) {
    && Valid(clock, run) && i < j < |At(clock, run).sent|
    && var a, b := At(clock, run).sent[i], At(clock, run).sent[j];
    && a.job.heard == first && b.job.heard == second
    && KeyOf(a.job.raw) == KeyOf(b.job.raw)
    && b.now - a.now < 25000
  }

  /** In no run is the second packet transmitted too soon after the first. */
  ghost predicate AlwaysSpaced(first: seq<byte>, second: seq<byte>) {
    forall clock, run, i, j :: !Together(clock, run, i, j, first, second)
  }

  /** Both are repeated by some station, under the same content. */
  predicate GoOutAlike(first: seq<byte>, s: Config, second: seq<byte>, t: Config) {
    && Repeated(first, s).Some? && Repeated(first, s).value.RelayRF?
    && Repeated(second, t).Some? && Repeated(second, t).value.RelayRF?
    && KeyOf(Repeated(first, s).value.raw) == KeyOf(Repeated(second, t).value.raw)
  }

  lemma AtStart(clock: int)
    ensures Valid(clock, []) && At(clock, []) == Start(clock)
    ensures Table(Start(clock)).seen == map[] && Calm(Start(clock).limiter, 0)
  {
  }

  lemma Hears(u: State, h: Heard)
    requires Genuine(h) && u.clock <= h.now
    ensures Enabled(u, Hear(h))
  {
    hide Genuine;
  }

  /** A run in which few packets were heard, goes on with a fresh one that is repeated at once. */
  lemma PromptAt(run: seq<Event>, raw: seq<byte>, s: Config, now: int, n: int) returns (longer: seq<Event>)
    requires Valid(0, run) && At(0, run).clock <= now && Repeated(raw, s).Some? && KeyOf(raw).Some?
    requires !Dupe.IsDupe(Table(At(0, run)).seen, KeyOf(raw).value, now, DUPE_WINDOW)
    requires |Table(At(0, run)).seen| < 100 && Calm(At(0, run).limiter, n) && 0 <= n < LIMITS.threshold
    ensures Valid(0, longer) && Repeated(raw, s).value.RelayRF? && KeyOf(Repeated(raw, s).value.raw).Some?
    ensures var u, v, out := At(0, run), At(0, longer), Repeated(raw, s).value.raw;
      && v.sent == u.sent + [Sent(Job(|u.marks|, raw, out), now)]
      && Table(v).seen == Remember(Remember(Table(u).seen, KeyOf(raw).value, now), KeyOf(out).value, now)
      && |Table(v).seen| <= |Table(u).seen| + 2
      && Calm(v.limiter, n + 1) && v.clock == now
  {
    hide Genuine, KeyOf, Table, Calm, Next, Enabled, Repeated, Prompt, DecodeFrame, Valid, At, Remember, Dupe.IsDupe;
    PromptRepeat(raw, s, now);
    PromptFields(raw, s, now);
    var h := Prompt(raw, s, now);
    Hears(At(0, run), h);
    FreshSends(At(0, run), h, n);
    Extend(0, run, Hear(h));
    longer := run + [Hear(h)];
  }

  lemma KeysExist(first: seq<byte>, s: Config, second: seq<byte>, t: Config)
    requires GoOutAlike(first, s, second, t)
    ensures KeyOf(first).Some? && KeyOf(second).Some?
    ensures KeyOf(Repeated(first, s).value.raw).Some? && KeyOf(Repeated(second, t).value.raw).Some?
  {
    hide KeyOf, Repeated, WellFormedEnds;
    RepeatKeepsKey(first, s);
    RepeatKeepsKey(second, t);
  }

  /** The second packet is neither the first's content nor the transmitted one: it is repeated a
      millisecond later. */
  lemma NewContent(first: seq<byte>, s: Config, second: seq<byte>, t: Config)
    requires GoOutAlike(first, s, second, t)
    requires KeyOf(second) != KeyOf(first) && KeyOf(second) != KeyOf(Repeated(first, s).value.raw)
    ensures !AlwaysSpaced(first, second)
  {
    hide KeyOf, Table, Calm, Repeated, Valid, At, Together;
    AtStart(0);
    KeysExist(first, s, second, t);
    var run1 := PromptAt([], first, s, 0, 0);
    var run2 := PromptAt(run1, second, t, 1, 1);
    assert Together(0, run2, 0, 1, first, second) by { TogetherAt(run2, 0, first, second); }
  }

  lemma TogetherAt(run: seq<Event>, i: nat, first: seq<byte>, second: seq<byte>)
    requires Valid(0, run) && i + 1 < |At(0, run).sent|
    requires var a, b := At(0, run).sent[i], At(0, run).sent[i + 1];
      a.job.heard == first && b.job.heard == second && KeyOf(a.job.raw) == KeyOf(b.job.raw) && b.now - a.now == 1
    ensures Together(0, run, i, i + 1, first, second)
  {
    hide KeyOf, Valid, At;
  }

  /** The second packet has the transmitted content, and was heard a duplicate window ago: hearing
      it again renews it right after the first goes out. */
  lemma OldContent(first: seq<byte>, s: Config, second: seq<byte>, t: Config)
    requires GoOutAlike(first, s, second, t)
    requires KeyOf(second) != KeyOf(first) && KeyOf(second) == KeyOf(Repeated(first, s).value.raw)
    ensures !AlwaysSpaced(first, second)
  {
    hide KeyOf, Table, Calm, Repeated, Valid, At, Together;
    AtStart(0);
    KeysExist(first, s, second, t);
    var run1 := PromptAt([], second, t, 0, 0);
    var run2 := PromptAt(run1, first, s, DUPE_WINDOW - 1, 1);
    var run3 := PromptAt(run2, second, t, DUPE_WINDOW, 2);
    assert Together(0, run3, 1, 2, first, second) by { TogetherAt(run3, 1, first, second); }
  }

  /** Of two packets that go out alike, the second is never transmitted too soon after the first if
      and only if they were heard with the same content. */
  lemma SpacingExact(first: seq<byte>, s: Config, second: seq<byte>, t: Config)
    requires GoOutAlike(first, s, second, t)
    ensures AlwaysSpaced(first, second) <==> KeyOf(first) == KeyOf(second)
  {
    hide KeyOf, Repeated, AlwaysSpaced, Valid, At;
    if KeyOf(first) == KeyOf(second) {
      SameSpaced(first, second);
    } else if KeyOf(second) == KeyOf(Repeated(first, s).value.raw) {
      OldContent(first, s, second, t);
    } else {
      NewContent(first, s, second, t);
    }
  }

  lemma SameSpaced(first: seq<byte>, second: seq<byte>)
    requires KeyOf(first) == KeyOf(second)
    ensures AlwaysSpaced(first, second)
  {
    hide KeyOf, Valid, At, Inv;
    forall clock, run, i, j ensures !Together(clock, run, i, j, first, second) {
      if Together(clock, run, i, j, first, second) {
        HeardContentSpaced(clock, run, i, j);
      }
    }
  }

  /** Against a packet that was heard well-formed, exactly the well-formed ones are always spaced. */
  lemma SpacedIffWellFormed(first: seq<byte>, s: Config, second: seq<byte>, t: Config)
    requires GoOutAlike(first, s, second, t) && WellFormedEnds(second)
    ensures AlwaysSpaced(first, second) <==> WellFormedEnds(first)
    ensures AlwaysSpaced(second, first) <==> WellFormedEnds(first)
  {
    hide KeyOf, Repeated, AlwaysSpaced, WellFormedEnds;
    RepeatKeepsKey(first, s);
    RepeatKeepsKey(second, t);
    SpacingExact(first, s, second, t);
    SpacingExact(second, t, first, s);
  }

  // ---- the least distance is attained ----

  /** A fresh packet whose repeat is to be held is held. */
  lemma FreshHeld(h: Heard)
    requires Enabled(Start(0), Hear(h)) && h.decision.RepeatLater? && !h.tooFar && h.now == 0
    ensures var v, x := Next(Start(0), Hear(h)), Job(0, h.raw, h.decision.raw);
      && v.marks == [Dupe.Mark(h.key, 0)] && v.sent == [] && v.owed == {} && v.clock == 0
      && v.queue == Viscous.Queue(map[h.key := x], false)
      && Calm(v.limiter, 1)
  {
    hide Genuine, KeyOf, Table, Calm, RateLimit.VerdictOn, RateLimit.AfterAllow;
    AtStart(0);
    CalmAllows(RateLimit.NEW, h.source, 0, 0);
    assert OutcomeOf(Table(Start(0)), RateLimit.NEW, h).Decided?;
  }

  /** The table after the packet and, five seconds later, its repeat. */
  lemma HeldTable(key: Key, raw: seq<byte>)
    ensures var u := Start(0).(marks := [Dupe.Mark(key, 0)] + DispatchMarks(raw, MAX_HOLD));
      |Table(u).seen| < 100 && !Dupe.IsDupe(Table(u).seen, key, DUPE_WINDOW, DUPE_WINDOW)
  {
    hide KeyOf, Dupe.After, Dupe.At;
    AtStart(0);
    var m := Dupe.Mark(key, 0);
    OneMark([], m);
    assert [] + [m] == [m];
    SmallTable(Table(Start(0)), key, 0);
    var t := Dupe.At([m], DUPE_WINDOW, 1);
    if KeyOf(raw).Some? {
      var d := Dupe.Mark(KeyOf(raw).value, MAX_HOLD);
      OneMark([m], d);
      SmallTable(t, d.key, MAX_HOLD);
    } else {
      assert [m] + DispatchMarks(raw, MAX_HOLD) == [m];
    }
  }

  /** Every packet whose repeat is held is, in some run, transmitted twice at the least distance:
      held for the longest time, then heard again just after the duplicate window. */
  lemma LeastSpacing(raw: seq<byte>, s: Config) returns (run: seq<Event>)
    requires Repeated(raw, s).Some? && Repeated(raw, s).value.RelayRF? && Repeated(raw, s).value.viscous
    ensures Valid(0, run)
    ensures var sent := At(0, run).sent;
      && |sent| == 2 && sent[0].job.heard == raw == sent[1].job.heard && sent[0].job.raw == sent[1].job.raw
      && sent[1].now - sent[0].now == 25000
  {
    hide Genuine, KeyOf, Table, Calm, Enabled, Repeated, Prompt, DecodeFrame, Next, DispatchMarks, Hearing, Dupe.IsDupe;
    AtStart(0);
    PromptRepeat(raw, s, DUPE_WINDOW);
    HeldHearing(raw, s);
    var h, x := Hearing(raw, s, 0, false), Job(0, raw, Repeated(raw, s).value.raw);
    Hears(Start(0), h);
    FreshHeld(h);
    var run1 := [] + [Hear(h)];
    Extend(0, [], Hear(h));
    HoldEnds(At(0, run1), x, h.key);
    var run2 := run1 + [Expire(x, MAX_HOLD)];
    Extend(0, run1, Expire(x, MAX_HOLD));
    var run3 := run2 + [Transmit(x, MAX_HOLD)];
    Extend(0, run2, Transmit(x, MAX_HOLD));
    HeldTable(h.key, x.raw);
    SameTable(At(0, run3), Start(0).(marks := [Dupe.Mark(h.key, 0)] + DispatchMarks(x.raw, MAX_HOLD)));
    run := PromptAt(run3, raw, s, DUPE_WINDOW, 1);
  }

  lemma HeldHearing(raw: seq<byte>, s: Config)
    requires DecodeFrame(raw).Ok? && Repeated(raw, s).Some?
    requires Repeated(raw, s).value.RelayRF? && Repeated(raw, s).value.viscous
    ensures var h := Hearing(raw, s, 0, false);
      && Genuine(h) && h.raw == raw && h.now == 0 && !h.tooFar && KeyOf(raw) == Some(h.key)
      && h.decision == RepeatLater(Repeated(raw, s).value.raw)
  {
    hide DecodeFrame, Repeated, ContentKey;
  }

  lemma SameTable(u: State, v: State)
    requires u.marks == v.marks
    ensures Table(u) == Table(v)
  {
  }

  lemma HoldEnds(u: State, x: Job, key: Key)
    requires u.marks == [Dupe.Mark(key, 0)] && u.sent == [] && u.owed == {} && u.clock == 0
    requires u.queue == Viscous.Queue(map[key := x], false) && x.origin == 0
    ensures Enabled(u, Expire(x, MAX_HOLD))
    ensures var v := Next(u, Expire(x, MAX_HOLD));
      && Enabled(v, Transmit(x, MAX_HOLD))
      && var w := Next(v, Transmit(x, MAX_HOLD));
      && w.marks == [Dupe.Mark(key, 0)] + DispatchMarks(x.raw, MAX_HOLD) && w.sent == [Sent(x, MAX_HOLD)]
      && w.clock == MAX_HOLD && w.limiter == u.limiter
  {
    hide Genuine, DispatchMarks;
  }
}
