/** What the station's filters do with a packet, stated over whole runs: when exactly it adds a
    repeat, how many repeats of one source there can be, that a held repeat is kept until it is due,
    and that the echo of a transmission is dropped. */
module StationRules {
  import opened GoText
  import opened Ax25
  import opened Content
  import opened Station
  import opened StationRuns
  import Dupe
  import RateLimit
  import Viscous

  // ---- when a packet adds a repeat ----

  /** No fresh mark of this content lies within the last 30 seconds. */
  predicate Unheard(s: State, h: Heard) {
    forall i :: 0 <= i < |s.marks| && s.marks[i].key == h.key && Dupe.Fresh(s.marks, 30000, i) ==>
      h.now - s.marks[i].now >= 30000
  }

  /** The packet is new, not too far away, and its source is within 30 packets a minute and not in a
      timeout of 15 minutes. */
  predicate Passes(s: State, h: Heard) {
    Unheard(s, h) && !h.tooFar && RateLimit.VerdictOn(s.limiter, h.source, h.now, RateLimit.Limits(30, 900000)).ok
  }

  function NewJob(s: State, h: Heard): Job {
    Job(|s.marks|, h.raw, match h.decision case NoRepeat => [] case RepeatNow(raw) => raw case RepeatLater(raw) => raw)
  }

  lemma FreshMeans(s: State, h: Heard)
    requires MarksTimely(s) && s.clock <= h.now
    ensures !Dupe.IsDupe(Table(s).seen, h.key, h.now, DUPE_WINDOW) <==> Unheard(s, h)
  {
    hide Dupe.IsDupe, Dupe.Fresh;
    var m := Dupe.Mark(h.key, h.now);
    var all := s.marks + [m];
    TablePrefix(s.marks, [m], |s.marks|);
    assert Dupe.Fresh(all, DUPE_WINDOW, |s.marks|) == !Dupe.IsDupe(Table(s).seen, h.key, h.now, DUPE_WINDOW) by {
      OwnFresh(s, m);
    }
    Dupe.FreshExact(all, DUPE_WINDOW, |s.marks|);
    forall i | 0 <= i < |s.marks| ensures Dupe.Fresh(all, DUPE_WINDOW, i) == Dupe.Fresh(s.marks, DUPE_WINDOW, i) {
      FreshPrefix(s.marks, [m], i);
    }
  }

  lemma OwnFresh(s: State, m: Dupe.Mark)
    ensures Dupe.Fresh(s.marks + [m], DUPE_WINDOW, |s.marks|)
      == !Dupe.IsDupe(Table(s).seen, m.key, m.now, DUPE_WINDOW)
  {
    hide Dupe.IsDupe;
    TablePrefix(s.marks, [m], |s.marks|);
  }

  lemma DecidedMeans(s: State, h: Heard)
    requires MarksTimely(s) && s.clock <= h.now
    ensures OutcomeOf(Table(s), s.limiter, h).Decided? <==> Passes(s, h)
  {
    hide Dupe.IsDupe, Unheard, Table, RateLimit.VerdictOn;
    FreshMeans(s, h);
  }

  /** A packet heard adds a transmission, or a held repeat, exactly if it passes and its repeat is
      decided as such; and it gives up the held repeat of its content in any case. */
  lemma HearAdds(s: State, h: Heard)
    requires MarksTimely(s) && Enabled(s, Hear(h))
    ensures var u := Next(s, Hear(h));
      && u.sent == (if Passes(s, h) && h.decision.RepeatNow? then s.sent + [Sent(NewJob(s, h), h.now)] else s.sent)
      && u.queue.entries == (if Passes(s, h) && h.decision.RepeatLater? && !s.queue.closed
           then s.queue.entries[h.key := NewJob(s, h)] else s.queue.entries - {h.key})
      && u.queue.closed == s.queue.closed && u.owed == s.owed
  {
    hide Passes, Table, OutcomeOf, Genuine, LimiterAfter, HearMarks, MarksTimely;
    DecidedMeans(s, h);
  }

  lemma LastStep(clock: int, run: seq<Event>, e: Event)
    requires Valid(clock, run + [e])
    ensures Valid(clock, run) && Enabled(At(clock, run), e) && At(clock, run + [e]) == Next(At(clock, run), e)
  {
    hide Next, Enabled;
    assert (run + [e])[..|run|] == run;
  }

  lemma HearAddsExact(clock: int, run: seq<Event>, h: Heard)
    requires Valid(clock, run + [Hear(h)])
    ensures Valid(clock, run)
    ensures var s, u := At(clock, run), At(clock, run + [Hear(h)]);
      && u.sent == (if Passes(s, h) && h.decision.RepeatNow? then s.sent + [Sent(NewJob(s, h), h.now)] else s.sent)
      && u.queue.entries == (if Passes(s, h) && h.decision.RepeatLater? && !s.queue.closed
           then s.queue.entries[h.key := NewJob(s, h)] else s.queue.entries - {h.key})
      && u.owed == s.owed
  {
    hide Passes, Inv, Next, Enabled, NewJob;
    LastStep(clock, run, Hear(h));
    InvAt(clock, run);
    InvMarks(At(clock, run));
    HearAdds(At(clock, run), h);
  }

  lemma InvMarks(s: State)
    requires Inv(s)
    ensures MarksTimely(s)
  {
    hide MarksTimely, HeldFine, OwedFine, SentFine, NotBoth;
  }

  // ---- how many repeats of one source ----

  /** The limiter is asked about what is new and not too far away. */
  function CallsNow(s: State, e: Event): seq<RateLimit.Call> {
    if e.Hear? && Unheard(s, e.h) && !e.h.tooFar then [RateLimit.Packet(e.h.source, e.h.now)] else []
  }

  /** What the run asked of it. */
  ghost function Calls(clock: int, run: seq<Event>): seq<RateLimit.Call>
    requires Valid(clock, run)
    decreases |run|
  {
    if run == [] then []
    else Calls(clock, run[..|run| - 1]) + CallsNow(At(clock, run[..|run| - 1]), run[|run| - 1])
  }

  lemma {:induction false} LimiterPrefix(run: seq<RateLimit.Call>, c: RateLimit.Call, n: nat)
    requires n <= |run|
    ensures RateLimit.At(run + [c], LIMITS, n) == RateLimit.At(run, LIMITS, n)
  {
    hide RateLimit.AfterAllow;
    if n > 0 {
      LimiterPrefix(run, c, n - 1);
    }
  }

  lemma {:induction false} AllowedPrefix(run: seq<RateLimit.Call>, c: RateLimit.Call, source: string, lo: int, hi: int, n: nat)
    requires n <= |run|
    ensures RateLimit.Allowed(run + [c], LIMITS, source, lo, hi, n) == RateLimit.Allowed(run, LIMITS, source, lo, hi, n)
  {
    hide RateLimit.At, RateLimit.VerdictOn, RateLimit.BlockedIn;
    if n > 0 {
      AllowedPrefix(run, c, source, lo, hi, n - 1);
      LimiterPrefix(run, c, n - 1);
    }
  }

  lemma OneCall(calls: seq<RateLimit.Call>, c: RateLimit.Call, source: string, lo: int, hi: int)
    requires c.Packet?
    ensures var more, l := calls + [c], RateLimit.At(calls, LIMITS, |calls|);
      && RateLimit.At(more, LIMITS, |more|) == RateLimit.AfterAllow(l, c.source, c.now, LIMITS)
      && RateLimit.Allowed(more, LIMITS, source, lo, hi, |more|)
        == RateLimit.Allowed(calls, LIMITS, source, lo, hi, |calls|)
          + if c.source == source && lo <= c.now < hi && RateLimit.VerdictOn(l, source, c.now, LIMITS).ok then 1 else 0
  {
    hide RateLimit.AfterAllow, RateLimit.VerdictOn, RateLimit.BlockedIn;
    LimiterPrefix(calls, c, |calls|);
    AllowedPrefix(calls, c, source, lo, hi, |calls|);
  }

  /** The packet of the source that is decided upon, named by its mark. */
  function DecidedNow(s: State, e: Event, source: string, lo: int, hi: int): (r: set<nat>)
    ensures |r| <= 1
  {
    if e.Hear? && Passes(s, e.h) && e.h.source == source && lo <= e.h.now < hi then {|s.marks|} else {}
  }

  ghost function Decided(clock: int, run: seq<Event>, source: string, lo: int, hi: int): set<nat>
    requires Valid(clock, run)
    decreases |run|
  {
    if run == [] then {}
    else
      Decided(clock, run[..|run| - 1], source, lo, hi)
      + DecidedNow(At(clock, run[..|run| - 1]), run[|run| - 1], source, lo, hi)
  }

  /** What an event does to the limiter. */
  lemma LimiterStep(s: State, e: Event)
    requires MarksTimely(s) && Enabled(s, e)
    ensures var u := Next(s, e);
      && s.clock <= u.clock == TimeOf(e)
      && u.limiter ==
        if e.Hear? && Unheard(s, e.h) && !e.h.tooFar
        then RateLimit.AfterAllow(s.limiter, e.h.source, e.h.now, LIMITS) else s.limiter
  {
    hide Dupe.IsDupe, Unheard, Table, RateLimit.VerdictOn, RateLimit.AfterAllow, Genuine, QueueAfter, HearMarks, DispatchMarks;
    if e.Hear? {
      FreshMeans(s, e.h);
    }
  }

  /** The limiter is in the state that the calls lead to, and none is younger than the clock. */
  predicate LimiterFits(s: State, calls: seq<RateLimit.Call>) {
    && s.limiter == RateLimit.At(calls, LIMITS, |calls|)
    && RateLimit.Timely(calls)
    && forall i :: 0 <= i < |calls| ==> calls[i].now <= s.clock
  }

  lemma LimiterFitsStep(s: State, e: Event, calls: seq<RateLimit.Call>)
    requires MarksTimely(s) && Enabled(s, e) && LimiterFits(s, calls)
    ensures LimiterFits(Next(s, e), calls + CallsNow(s, e))
  {
    hide Unheard, Next, Enabled, RateLimit.AfterAllow, RateLimit.VerdictOn, RateLimit.At, MarksTimely;
    LimiterStep(s, e);
    var more := CallsNow(s, e);
    if more == [] {
      assert calls + more == calls;
    } else {
      OneCall(calls, more[0], "", 0, 0);
      assert more == [more[0]];
    }
  }

  lemma {:induction false} LimiterIs(clock: int, run: seq<Event>)
    requires Valid(clock, run)
    ensures LimiterFits(At(clock, run), Calls(clock, run))
    decreases |run|
  {
    hide LimiterFits, Next, Enabled, Inv, CallsNow;
    if run == [] {
      LimiterNew(clock);
    } else {
      var before, e := run[..|run| - 1], run[|run| - 1];
      LimiterIs(clock, before);
      InvAt(clock, before);
      InvMarks(At(clock, before));
      assert Enabled(At(clock, before), e);
      LimiterFitsStep(At(clock, before), e, Calls(clock, before));
    }
  }

  lemma LimiterNew(clock: int)
    ensures LimiterFits(Start(clock), [])
  {
  }

  /** A decided packet is one that the limiter allows. */
  lemma DecidedAllowed(s: State, e: Event, calls: seq<RateLimit.Call>, source: string, lo: int, hi: int)
    requires LimiterFits(s, calls)
    ensures RateLimit.Allowed(calls + CallsNow(s, e), LIMITS, source, lo, hi, |calls + CallsNow(s, e)|)
      >= RateLimit.Allowed(calls, LIMITS, source, lo, hi, |calls|) + |DecidedNow(s, e, source, lo, hi)|
  {
    hide Unheard, RateLimit.AfterAllow, RateLimit.VerdictOn, RateLimit.At, RateLimit.Allowed;
    var more := CallsNow(s, e);
    if more == [] {
      assert calls + more == calls;
    } else {
      OneCall(calls, more[0], source, lo, hi);
      assert more == [more[0]];
    }
  }

  lemma {:induction false} DecidedBound(clock: int, run: seq<Event>, source: string, lo: int, hi: int)
    requires Valid(clock, run)
    ensures |Decided(clock, run, source, lo, hi)|
      <= RateLimit.Allowed(Calls(clock, run), LIMITS, source, lo, hi, |Calls(clock, run)|)
    decreases |run|
  {
    hide Next, Enabled, CallsNow, DecidedNow, LimiterFits, RateLimit.Allowed;
    if run == [] {
      NoneYet(source, lo, hi);
    } else {
      var before, e := run[..|run| - 1], run[|run| - 1];
      DecidedBound(clock, before, source, lo, hi);
      LimiterIs(clock, before);
      DecidedAllowed(At(clock, before), e, Calls(clock, before), source, lo, hi);
    }
  }

  lemma NoneYet(source: string, lo: int, hi: int)
    ensures RateLimit.Allowed([], LIMITS, source, lo, hi, 0) == 0
  {
  }

  function SourceOf(raw: seq<byte>): string {
    match DecodeFrame(raw)
    case Err(_) => ""
    case Ok(f) => f.src
  }

  /** The job repeats a packet heard from this source in this time. */
  predicate StemsFrom(marks: seq<Dupe.Mark>, x: Job, source: string, lo: int, hi: int) {
    x.origin < |marks| && SourceOf(x.heard) == source && lo <= marks[x.origin].now < hi
  }

  ghost predicate JobsIn(s: State, source: string, lo: int, hi: int, origins: set<nat>) {
    && (forall k :: k in s.queue.entries && StemsFrom(s.marks, s.queue.entries[k], source, lo, hi) ==>
          s.queue.entries[k].origin in origins)
    && (forall x :: x in s.owed && StemsFrom(s.marks, x, source, lo, hi) ==> x.origin in origins)
    && (forall i :: 0 <= i < |s.sent| && StemsFrom(s.marks, s.sent[i].job, source, lo, hi) ==>
          s.sent[i].job.origin in origins)
  }

  /** No job points beyond the marks. */
  predicate JobsKnown(s: State) {
    && (forall k :: k in s.queue.entries ==> s.queue.entries[k].origin < |s.marks|)
    && (forall x :: x in s.owed ==> x.origin < |s.marks|)
    && (forall i :: 0 <= i < |s.sent| ==> s.sent[i].job.origin < |s.marks|)
  }

  lemma InvJobs(s: State)
    requires Inv(s)
    ensures JobsKnown(s)
  {
    hide MarksTimely, NotBoth, Dupe.Fresh, Relayed, KeyOf;
  }

  lemma HeardSource(s: State, h: Heard)
    requires Enabled(s, Hear(h))
    ensures h.source == SourceOf(h.raw)
  {
    hide DecodeFrame, DecisionOn, ContentKey;
  }

  lemma HearMarksGrow(s: State, h: Heard)
    requires Enabled(s, Hear(h))
    ensures var u := Next(s, Hear(h));
      && |s.marks| < |u.marks| && u.marks[..|s.marks|] == s.marks && u.marks[|s.marks|].now == h.now
  {
    hide HearMarks, Genuine, LimiterAfter, QueueAfter, SendsNow;
  }

  lemma MarksGrow(s: State, e: Event)
    requires Enabled(s, e) && !e.Hear?
    ensures |s.marks| <= |Next(s, e).marks| && Next(s, e).marks[..|s.marks|] == s.marks
  {
    hide DispatchMarks, Genuine;
  }

  lemma StemsStay(marks: seq<Dupe.Mark>, more: seq<Dupe.Mark>, source: string, lo: int, hi: int)
    requires |marks| <= |more| && more[..|marks|] == marks
    ensures forall x: Job :: x.origin < |marks| ==> StemsFrom(more, x, source, lo, hi) == StemsFrom(marks, x, source, lo, hi)
  {
    hide SourceOf;
    assert forall i :: 0 <= i < |marks| ==> more[i] == more[..|marks|][i];
  }

  lemma HearKeepsJobs(s: State, h: Heard, source: string, lo: int, hi: int, origins: set<nat>)
    requires MarksTimely(s) && JobsKnown(s) && Enabled(s, Hear(h)) && JobsIn(s, source, lo, hi, origins)
    ensures JobsIn(Next(s, Hear(h)), source, lo, hi,
      origins + DecidedNow(s, Hear(h), source, lo, hi))
  {
    hide Passes, Next, SourceOf, MarksTimely, Enabled;
    var u := Next(s, Hear(h));
    HearAdds(s, h);
    HeardSource(s, h);
    HearMarksGrow(s, h);
    StemsStay(s.marks, u.marks, source, lo, hi);
  }

  lemma OtherKeepsJobs(s: State, e: Event, source: string, lo: int, hi: int, origins: set<nat>)
    requires JobsKnown(s) && Enabled(s, e) && !e.Hear? && JobsIn(s, source, lo, hi, origins)
    ensures JobsIn(Next(s, e), source, lo, hi, origins)
  {
    hide SourceOf, DispatchMarks, Genuine, StemsFrom;
    MarksGrow(s, e);
    StemsStay(s.marks, Next(s, e).marks, source, lo, hi);
  }

  lemma {:induction false} JobsDecided(clock: int, run: seq<Event>, source: string, lo: int, hi: int)
    requires Valid(clock, run)
    ensures JobsIn(At(clock, run), source, lo, hi, Decided(clock, run, source, lo, hi))
    decreases |run|
  {
    hide Passes, Next, Enabled, Inv, JobsIn, JobsKnown;
    if run == [] {
      NoJobs(clock, source, lo, hi);
    } else {
      var before, e := run[..|run| - 1], run[|run| - 1];
      var s := At(clock, before);
      JobsDecided(clock, before, source, lo, hi);
      InvAt(clock, before);
      InvMarks(s);
      InvJobs(s);
      assert Enabled(s, e);
      if e.Hear? {
        HearKeepsJobs(s, e.h, source, lo, hi, Decided(clock, before, source, lo, hi));
      } else {
        OtherKeepsJobs(s, e, source, lo, hi, Decided(clock, before, source, lo, hi));
        assert DecidedNow(s, e, source, lo, hi) == {};
      }
    }
  }

  lemma NoJobs(clock: int, source: string, lo: int, hi: int)
    ensures JobsIn(Start(clock), source, lo, hi, {})
  {
  }

  /** Transmissions among the first n that repeat packets heard from this source in this time. */
  function RepeatsFrom(s: State, source: string, lo: int, hi: int, n: nat): nat
    requires n <= |s.sent|
  {
    if n == 0 then 0
    else RepeatsFrom(s, source, lo, hi, n - 1) + if StemsFrom(s.marks, s.sent[n - 1].job, source, lo, hi) then 1 else 0
  }

  /** Different transmissions have different origins, so they are as many as these. */
  lemma {:induction false} OriginsCounted(s: State, source: string, lo: int, hi: int, n: nat, origins: set<nat>)
    requires n <= |s.sent|
    requires forall i, j :: 0 <= i < j < n ==> s.sent[i].job.origin != s.sent[j].job.origin
    requires forall i :: 0 <= i < n && StemsFrom(s.marks, s.sent[i].job, source, lo, hi) ==> s.sent[i].job.origin in origins
    ensures RepeatsFrom(s, source, lo, hi, n) <= |origins|
    decreases n
  {
    hide StemsFrom;
    if n > 0 {
      var x := s.sent[n - 1].job;
      if StemsFrom(s.marks, x, source, lo, hi) {
        OriginsCounted(s, source, lo, hi, n - 1, origins - {x.origin});
      } else {
        OriginsCounted(s, source, lo, hi, n - 1, origins);
      }
    }
  }

  lemma InvDistinct(s: State)
    requires Inv(s)
    ensures forall i, j :: 0 <= i < j < |s.sent| ==> s.sent[i].job.origin != s.sent[j].job.origin
  {
    hide MarksTimely, HeldFine, OwedFine, NotBoth, GoodJob;
  }

  /** In every run at most 59 of the packets heard from one source in any minute are repeated. */
  lemma RepeatRate(clock: int, run: seq<Event>, source: string, t: int)
    requires Valid(clock, run) && source != ""
    ensures RepeatsFrom(At(clock, run), source, t, t + 60000, |At(clock, run).sent|) <= 59
  {
    hide Inv, JobsIn, Calls, Decided, RateLimit.Allowed;
    var s := At(clock, run);
    var origins := Decided(clock, run, source, t, t + 60000);
    JobsDecided(clock, run, source, t, t + 60000);
    SentIn(s, source, t, t + 60000, origins);
    InvAt(clock, run);
    InvDistinct(s);
    OriginsCounted(s, source, t, t + 60000, |s.sent|, origins);
    DecidedBound(clock, run, source, t, t + 60000);
    LimiterIs(clock, run);
    RateLimit.RateBound(Calls(clock, run), LIMITS, source, |Calls(clock, run)|, t);
  }

  lemma SentIn(s: State, source: string, lo: int, hi: int, origins: set<nat>)
    requires JobsIn(s, source, lo, hi, origins)
    ensures forall i :: 0 <= i < |s.sent| && StemsFrom(s.marks, s.sent[i].job, source, lo, hi) ==>
      s.sent[i].job.origin in origins
  {
    hide StemsFrom;
  }

  // ---- a held repeat is kept until it is due ----

  lemma {:induction false} ClosedIsEmpty(clock: int, run: seq<Event>)
    requires Valid(clock, run)
    ensures At(clock, run).queue.closed ==> At(clock, run).queue.entries == map[]
    decreases |run|
  {
    hide Next, Enabled;
    if run != [] {
      ClosedIsEmpty(clock, run[..|run| - 1]);
      assert Enabled(At(clock, run[..|run| - 1]), run[|run| - 1]);
      ClosedStep(At(clock, run[..|run| - 1]), run[|run| - 1]);
    }
  }

  lemma ClosedStep(s: State, e: Event)
    requires Enabled(s, e) && (s.queue.closed ==> s.queue.entries == map[])
    ensures Next(s, e).queue.closed ==> Next(s, e).queue.entries == map[]
  {
    hide Genuine, HearMarks, DispatchMarks, LimiterAfter, OutcomeOf, Table;
  }

  /** The event does not touch what is held under the content: it is no packet of that content, no
      shutdown, and not the timer of this very job. */
  predicate LeavesAlone(e: Event, k: Key, x: Job) {
    match e
    case Hear(h) => h.key != k
    case Expire(y, _) => y != x
    case Shutdown(_) => false
    case _ => true
  }

  lemma HeldStep(s: State, e: Event, k: Key)
    requires Enabled(s, e) && k in s.queue.entries && LeavesAlone(e, k, s.queue.entries[k])
    ensures k in Next(s, e).queue.entries && Next(s, e).queue.entries[k] == s.queue.entries[k]
  {
    hide Genuine, HearMarks, DispatchMarks, LimiterAfter, OutcomeOf, Table;
  }

  lemma {:induction false} HeldStays(clock: int, before: seq<Event>, later: seq<Event>, k: Key, x: Job)
    requires Valid(clock, before + later) && Valid(clock, before)
    requires k in At(clock, before).queue.entries && At(clock, before).queue.entries[k] == x
    requires forall i :: 0 <= i < |later| ==> LeavesAlone(later[i], k, x)
    ensures k in At(clock, before + later).queue.entries && At(clock, before + later).queue.entries[k] == x
    decreases |later|
  {
    hide Next, Enabled, LeavesAlone;
    if later == [] {
      assert before + later == before;
    } else {
      var n := |later| - 1;
      assert before + later == before + later[..n] + [later[n]];
      LastStep(clock, before + later[..n], later[n]);
      HeldStays(clock, before, later[..n], k, x);
      HeldStep(At(clock, before + later[..n]), later[n], k);
    }
  }

  /** A held repeat whose content is not heard again, at a station that is not shut down, commits to
      transmit when its timer expires. */
  lemma HeldCommits(clock: int, before: seq<Event>, later: seq<Event>, k: Key, x: Job, now: int)
    requires Valid(clock, before) && k in At(clock, before).queue.entries && At(clock, before).queue.entries[k] == x
    requires Valid(clock, before + later + [Expire(x, now)])
    requires forall i :: 0 <= i < |later| ==> LeavesAlone(later[i], k, x)
    ensures var u := At(clock, before + later + [Expire(x, now)]);
      x in u.owed && k !in u.queue.entries
  {
    hide Next, Enabled, LeavesAlone, Inv;
    LastStep(clock, before + later, Expire(x, now));
    HeldStays(clock, before, later, k, x);
    ClosedIsEmpty(clock, before + later);
    InvAt(clock, before + later);
    DueCommits(At(clock, before + later), x, k, now);
  }

  lemma DueCommits(s: State, x: Job, k: Key, now: int)
    requires Inv(s) && Enabled(s, Expire(x, now)) && !s.queue.closed
    requires k in s.queue.entries && s.queue.entries[k] == x
    ensures x in Next(s, Expire(x, now)).owed && k !in Next(s, Expire(x, now)).queue.entries
  {
    hide Genuine, GoodJob, MarksTimely, OwedFine, SentFine, NotBoth;
  }

  // ---- the echo of a transmission ----

  /** A fresh mark of the content stands less than 30 seconds before the time. */
  predicate MarkedBefore(marks: seq<Dupe.Mark>, key: Key, now: int, p: nat) {
    && p < |marks| && Dupe.Fresh(marks, 30000, p) && marks[p].key == key
    && 0 <= now - marks[p].now < 30000
  }

  ghost predicate WasMarked(marks: seq<Dupe.Mark>, key: Key, now: int) {
    exists p :: MarkedBefore(marks, key, now, p)
  }

  lemma MarkedStays(marks: seq<Dupe.Mark>, more: seq<Dupe.Mark>, key: Key, now: int)
    requires WasMarked(marks, key, now)
    ensures WasMarked(marks + more, key, now)
  {
    hide Dupe.Fresh;
    var p :| MarkedBefore(marks, key, now, p);
    FreshPrefix(marks, more, p);
    assert MarkedBefore(marks + more, key, now, p);
  }

  lemma LastMarked(marks: seq<Dupe.Mark>, key: Key, now: int)
    requires Dupe.Timely(marks + [Dupe.Mark(key, now)])
    ensures WasMarked(marks + [Dupe.Mark(key, now)], key, now)
  {
    hide Dupe.Fresh;
    var all := marks + [Dupe.Mark(key, now)];
    if Dupe.Fresh(all, 30000, |marks|) {
      assert MarkedBefore(all, key, now, |marks|);
    } else {
      var i := Dupe.DupeWitness(all, 30000, |marks|);
      assert all[i].now <= all[|marks|].now;
      assert MarkedBefore(all, key, now, i);
    }
  }

  /** Every transmission was marked under the content of the bytes it sends. */
  ghost predicate AllMarked(s: State) {
    forall i :: 0 <= i < |s.sent| && KeyOf(s.sent[i].job.raw).Some? ==>
      WasMarked(s.marks, KeyOf(s.sent[i].job.raw).value, s.sent[i].now)
  }

  lemma OldMarked(s: State, u: State, more: seq<Dupe.Mark>)
    requires AllMarked(s) && u.marks == s.marks + more
    ensures forall i :: 0 <= i < |s.sent| && KeyOf(s.sent[i].job.raw).Some? ==>
      WasMarked(u.marks, KeyOf(s.sent[i].job.raw).value, s.sent[i].now)
  {
    hide KeyOf, WasMarked;
    forall i | 0 <= i < |s.sent| && KeyOf(s.sent[i].job.raw).Some?
      ensures WasMarked(u.marks, KeyOf(s.sent[i].job.raw).value, s.sent[i].now)
    {
      MarkedStays(s.marks, more, KeyOf(s.sent[i].job.raw).value, s.sent[i].now);
    }
  }

  lemma HearMarked(s: State, h: Heard)
    requires MarksTimely(s) && Enabled(s, Hear(h)) && AllMarked(s) && MarksTimely(Next(s, Hear(h)))
    ensures AllMarked(Next(s, Hear(h)))
  {
    hide Genuine, LimiterAfter, QueueAfter, KeyOf, WasMarked, Table, OutcomeOf;
    var u := Next(s, Hear(h));
    OldMarked(s, u, HearMarks(s, h));
    if SendsNow(Table(s), s.limiter, h) && KeyOf(h.decision.raw).Some? {
      var d := Dupe.Mark(KeyOf(h.decision.raw).value, h.now);
      assert u.marks == (s.marks + [Dupe.Mark(h.key, h.now)]) + [d];
      LastMarked(s.marks + [Dupe.Mark(h.key, h.now)], d.key, d.now);
    }
  }

  lemma OtherMarked(s: State, e: Event)
    requires Enabled(s, e) && !e.Hear? && AllMarked(s) && MarksTimely(Next(s, e))
    ensures AllMarked(Next(s, e))
  {
    hide Genuine, KeyOf, WasMarked;
    var u := Next(s, e);
    match e {
      case Transmit(x, now) =>
        OldMarked(s, u, DispatchMarks(x.raw, now));
        if KeyOf(x.raw).Some? {
          LastMarked(s.marks, KeyOf(x.raw).value, now);
        }
      case OtherMark(key, now) => OldMarked(s, u, [Dupe.Mark(key, now)]);
      case Expire(_, _) => OldMarked(s, u, []);
      case Shutdown(_) => OldMarked(s, u, []);
      case Hear(_) =>
    }
  }

  lemma {:induction false} AllMarkedAt(clock: int, run: seq<Event>)
    requires Valid(clock, run)
    ensures AllMarked(At(clock, run))
    decreases |run|
  {
    hide Next, Enabled, Inv, AllMarked, MarksTimely;
    InvAt(clock, run);
    InvMarks(At(clock, run));
    if run == [] {
      NothingSent(clock);
    } else {
      var before, e := run[..|run| - 1], run[|run| - 1];
      AllMarkedAt(clock, before);
      InvAt(clock, before);
      InvMarks(At(clock, before));
      assert Enabled(At(clock, before), e);
      if e.Hear? {
        HearMarked(At(clock, before), e.h);
      } else {
        OtherMarked(At(clock, before), e);
      }
    }
  }

  lemma NothingSent(clock: int)
    ensures AllMarked(Start(clock))
  {
  }

  /** For every transmission there is a mark less than 30 seconds before it from which on, for 30
      seconds, no packet of the transmitted content is repeated or held. */
  lemma EchoDropped(clock: int, run: seq<Event>, i: nat, h: Heard) returns (since: int)
    requires Valid(clock, run + [Hear(h)]) && Valid(clock, run) && i < |At(clock, run).sent|
    requires KeyOf(At(clock, run).sent[i].job.raw) == Some(h.key)
    ensures 0 <= At(clock, run).sent[i].now - since < 30000
    ensures var s, u := At(clock, run), At(clock, run + [Hear(h)]);
      h.now < since + 30000 ==> u.sent == s.sent && u.queue.entries == s.queue.entries - {h.key}
  {
    hide KeyOf, Passes, Valid, At, MarkedBefore, NewJob;
    AllMarkedAt(clock, run);
    HearAddsExact(clock, run, h);
    var s := At(clock, run);
    assert WasMarked(s.marks, h.key, s.sent[i].now);
    var p: nat :| MarkedBefore(s.marks, h.key, s.sent[i].now, p);
    MarkedRefuses(s, h, s.sent[i].now, p);
    since := s.marks[p].now;
  }

  lemma MarkedRefuses(s: State, h: Heard, now: int, p: nat)
    requires MarkedBefore(s.marks, h.key, now, p)
    ensures p < |s.marks| && 0 <= now - s.marks[p].now < 30000
    ensures h.now < s.marks[p].now + 30000 ==> !Passes(s, h)
  {
    hide Dupe.Fresh, RateLimit.VerdictOn;
  }
}
