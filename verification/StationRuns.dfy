/** Whole runs of the station's filters: how far apart two transmissions of the same content are,
    and when a held one is given up. */
module StationRuns {
  import opened GoText
  import opened Ax25
  import opened Content
  import opened Station
  import Dupe
  import RateLimit
  import Viscous

  /** A repeat to be made: the mark that its packet made, the bytes heard and those to transmit. */
  datatype Job = Job(origin: nat, heard: seq<byte>, raw: seq<byte>)

  /** A repeat handed to the transmitter. */
  datatype Sent = Sent(job: Job, now: int)

  /** Marks is the history of the duplicate table; owed are the jobs whose timer callback committed
      to transmit but has not done so yet. */
  datatype State = State(marks: seq<Dupe.Mark>, limiter: RateLimit.Limiter, queue: Viscous.Queue<Job>,
                         owed: set<Job>, sent: seq<Sent>, clock: int)

  datatype Event =
    | Hear(h: Heard)
      /** The hold timer's callback enters its critical section. */
    | Expire(job: Job, now: int)
      /** The callback goes on to transmit. */
    | Transmit(job: Job, now: int)
      /** Any other transmission of the station marks its own content. */
    | OtherMark(key: Key, now: int)
    | Shutdown(now: int)

  function Start(clock: int): State {
    State([], RateLimit.NEW, Viscous.Queue(map[], false), {}, [], clock)
  }

  function Table(s: State): Dupe.Table {
    Dupe.At(s.marks, DUPE_WINDOW, |s.marks|)
  }

  function TimeOf(e: Event): int {
    match e
    case Hear(h) => h.now
    case Expire(_, now) => now
    case Transmit(_, now) => now
    case OtherMark(_, now) => now
    case Shutdown(now) => now
  }

  /** The packet is one that some configuration of the station makes of readable bytes. */
  ghost predicate Genuine(h: Heard) {
    DecodeFrame(h.raw).Ok? && exists s :: h == Hearing(h.raw, s, h.now, h.tooFar)
  }

  /** Time does not go back, and the hold lasts between its two limits. */
  ghost predicate Enabled(s: State, e: Event) {
    && s.clock <= TimeOf(e)
    && match e
       case Hear(h) => Genuine(h)
       case Expire(x, now) => x.origin < |s.marks| && s.marks[x.origin].now + MIN_HOLD <= now
       case Transmit(x, now) => x in s.owed && x.origin < |s.marks| && now <= s.marks[x.origin].now + MAX_HOLD
       case _ => true
  }

  /** The mark that a transmission makes: the content of the bytes it sends. */
  function DispatchMarks(raw: seq<byte>, now: int): (marks: seq<Dupe.Mark>)
    ensures forall i :: 0 <= i < |marks| ==> marks[i].now == now
  {
    match KeyOf(raw)
    case None => []
    case Some(key) => [Dupe.Mark(key, now)]
  }

  function RawOf(d: Decision): seq<byte> {
    match d
    case NoRepeat => []
    case RepeatNow(raw) => raw
    case RepeatLater(raw) => raw
  }

  function JobOf(s: State, h: Heard): Job {
    Job(|s.marks|, h.raw, RawOf(h.decision))
  }

  function HearMarks(s: State, h: Heard): (marks: seq<Dupe.Mark>)
    ensures marks != [] && marks[0] == Dupe.Mark(h.key, h.now)
    ensures forall i :: 0 <= i < |marks| ==> marks[i].now == h.now
  {
    [Dupe.Mark(h.key, h.now)] + if SendsNow(Table(s), s.limiter, h) then DispatchMarks(h.decision.raw, h.now) else []
  }

  function Next(s: State, e: Event): State
    requires Enabled(s, e)
  {
    match e
    case Hear(h) =>
      State(s.marks + HearMarks(s, h),
            LimiterAfter(Table(s), s.limiter, h),
            QueueAfter(Table(s), s.limiter, s.queue, h, JobOf(s, h)),
            s.owed,
            if SendsNow(Table(s), s.limiter, h) then s.sent + [Sent(JobOf(s, h), h.now)] else s.sent,
            h.now)
    case Expire(x, now) =>
      var key := s.marks[x.origin].key;
      s.(queue := Viscous.Expired(s.queue, key, x),
         owed := if Viscous.Fires(s.queue, key, x) then s.owed + {x} else s.owed,
         clock := now)
    case Transmit(x, now) =>
      s.(marks := s.marks + DispatchMarks(x.raw, now), owed := s.owed - {x},
         sent := s.sent + [Sent(x, now)], clock := now)
    case OtherMark(key, now) => s.(marks := s.marks + [Dupe.Mark(key, now)], clock := now)
    case Shutdown(now) => s.(queue := Viscous.Stopped(s.queue), clock := now)
  }

  ghost predicate Valid(clock: int, run: seq<Event>)
    decreases |run|, 0
  {
    run == [] ||
    (Valid(clock, run[..|run| - 1]) && Enabled(At(clock, run[..|run| - 1]), run[|run| - 1]))
  }

  ghost function At(clock: int, run: seq<Event>): State
    requires Valid(clock, run)
    decreases |run|, 1
  {
    if run == [] then Start(clock) else Next(At(clock, run[..|run| - 1]), run[|run| - 1])
  }

  // ---- the duplicate table's answers do not depend on later marks ----

  lemma {:induction false} TablePrefix(marks: seq<Dupe.Mark>, more: seq<Dupe.Mark>, n: nat)
    requires n <= |marks|
    ensures Dupe.At(marks + more, DUPE_WINDOW, n) == Dupe.At(marks, DUPE_WINDOW, n)
  {
    hide Dupe.After;
    if n > 0 {
      TablePrefix(marks, more, n - 1);
    }
  }

  lemma FreshPrefix(marks: seq<Dupe.Mark>, more: seq<Dupe.Mark>, i: nat)
    requires i < |marks|
    ensures Dupe.Fresh(marks + more, DUPE_WINDOW, i) == Dupe.Fresh(marks, DUPE_WINDOW, i)
  {
    hide Dupe.IsDupe;
    TablePrefix(marks, more, i);
  }

  lemma OneMark(marks: seq<Dupe.Mark>, m: Dupe.Mark)
    ensures Dupe.At(marks + [m], DUPE_WINDOW, |marks| + 1)
      == Dupe.After(Dupe.At(marks, DUPE_WINDOW, |marks|), m.key, m.now, DUPE_WINDOW)
  {
    hide Dupe.After;
    TablePrefix(marks, [m], |marks|);
  }

  /** The history of marks gives the very table that one turn of the parse loop leaves. */
  lemma TableFollows(s: State, h: Heard)
    requires Enabled(s, Hear(h))
    ensures Table(Next(s, Hear(h))) == TableAfter(Table(s), s.limiter, h)
  {
    hide Dupe.After, Dupe.At, OutcomeOf, LimiterAfter, QueueAfter, Genuine, KeyOf;
    var m := Dupe.Mark(h.key, h.now);
    OneMark(s.marks, m);
    if SendsNow(Table(s), s.limiter, h) && KeyOf(h.decision.raw).Some? {
      var d := Dupe.Mark(KeyOf(h.decision.raw).value, h.now);
      OneMark(s.marks + [m], d);
      assert s.marks + [m] + [d] == s.marks + ([m] + [d]);
    } else {
      assert s.marks + [m] == s.marks + HearMarks(s, h);
    }
  }

  // ---- invariant ----

  /** A mark that was answered fresh, as every mark is whose packet was repeated. */
  predicate FreshMark(marks: seq<Dupe.Mark>, t: nat) {
    t < |marks| && Dupe.Fresh(marks, DUPE_WINDOW, t)
  }

  /** Some configuration of the station repeats the one as the other. */
  ghost predicate Relayed(heard: seq<byte>, raw: seq<byte>) {
    exists s :: Repeated(heard, s).Some? && Repeated(heard, s).value.RelayRF? && Repeated(heard, s).value.raw == raw
  }

  /** The job stems from a fresh mark of the content heard. */
  ghost predicate GoodJob(marks: seq<Dupe.Mark>, x: Job) {
    && FreshMark(marks, x.origin)
    && KeyOf(x.heard).Some? && KeyOf(x.heard).value == marks[x.origin].key
    && Relayed(x.heard, x.raw)
  }

  ghost predicate HeldFine(s: State) {
    forall k :: k in s.queue.entries ==>
      var x := s.queue.entries[k];
      GoodJob(s.marks, x) && s.marks[x.origin].key == k && forall y :: y in s.owed ==> y.origin != x.origin
  }

  ghost predicate OwedFine(s: State) {
    && (forall x :: x in s.owed ==> GoodJob(s.marks, x) && s.marks[x.origin].now + MIN_HOLD <= s.clock)
    && (forall x, y :: x in s.owed && y in s.owed && x.origin == y.origin ==> x == y)
  }

  predicate HoldFine(hold: int) {
    hold == 0 || MIN_HOLD <= hold <= MAX_HOLD
  }

  ghost predicate SentFine(s: State) {
    && (forall i :: 0 <= i < |s.sent| ==>
          var x := s.sent[i].job;
          && GoodJob(s.marks, x)
          && HoldFine(s.sent[i].now - s.marks[x.origin].now)
          && s.sent[i].now <= s.clock
          && forall y :: y in s.owed ==> y.origin != x.origin)
    && (forall i, j :: 0 <= i < j < |s.sent| ==>
          s.sent[i].now <= s.sent[j].now && s.sent[i].job.origin != s.sent[j].job.origin)
  }

  predicate NotBoth(s: State) {
    forall k, i :: k in s.queue.entries && 0 <= i < |s.sent| ==> s.queue.entries[k].origin != s.sent[i].job.origin
  }

  predicate MarksTimely(s: State) {
    Dupe.Timely(s.marks) && forall i :: 0 <= i < |s.marks| ==> s.marks[i].now <= s.clock
  }

  ghost predicate Inv(s: State) {
    MarksTimely(s) && HeldFine(s) && OwedFine(s) && SentFine(s) && NotBoth(s)
  }

  /** Adding marks leaves every good job good and its mark in place. */
  lemma JobsStay(marks: seq<Dupe.Mark>, more: seq<Dupe.Mark>)
    ensures forall x: Job :: GoodJob(marks, x) ==>
      GoodJob(marks + more, x) && x.origin < |marks| && (marks + more)[x.origin] == marks[x.origin]
  {
    hide Dupe.Fresh, Relayed, KeyOf;
    forall x: Job | GoodJob(marks, x) ensures GoodJob(marks + more, x) {
      FreshPrefix(marks, more, x.origin);
    }
  }

  /** A decided packet that is to be repeated makes a good job. */
  lemma OwnJob(s: State, h: Heard)
    requires Genuine(h) && OutcomeOf(Table(s), s.limiter, h).Decided? && !h.decision.NoRepeat?
    ensures GoodJob(s.marks + HearMarks(s, h), JobOf(s, h))
  {
    hide Dupe.IsDupe, DecodeFrame, RateLimit.VerdictOn, Repeated, ContentKey, HearMarks;
    TablePrefix(s.marks, HearMarks(s, h), |s.marks|);
    var c :| h == Hearing(h.raw, c, h.now, h.tooFar);
    assert DecisionOn(h.raw, c) == h.decision;
    assert Relayed(h.raw, RawOf(h.decision));
  }

  lemma HearKeepsMarks(s: State, h: Heard)
    requires MarksTimely(s) && Enabled(s, Hear(h))
    ensures MarksTimely(Next(s, Hear(h)))
  {
    hide HearMarks, LimiterAfter, QueueAfter, SendsNow, Genuine;
  }

  lemma HearKeepsQueue(s: State, h: Heard)
    requires Inv(s) && Enabled(s, Hear(h))
    ensures HeldFine(Next(s, Hear(h))) && OwedFine(Next(s, Hear(h)))
  {
    hide GoodJob, Table, LimiterAfter, OutcomeOf, SentFine, NotBoth, HearMarks, Genuine, MarksTimely;
    JobsStay(s.marks, HearMarks(s, h));
    assert forall x: Job :: GoodJob(s.marks, x) ==> x.origin < |s.marks|;
    if OutcomeOf(Table(s), s.limiter, h).Decided? && h.decision.RepeatLater? {
      OwnJob(s, h);
      assert (s.marks + HearMarks(s, h))[|s.marks|] == HearMarks(s, h)[0];
    }
  }

  lemma HearKeepsSent(s: State, h: Heard)
    requires Inv(s) && Enabled(s, Hear(h))
    ensures SentFine(Next(s, Hear(h)))
  {
    hide GoodJob, Table, LimiterAfter, OutcomeOf, MarksTimely, HearMarks, Genuine, HeldFine, NotBoth, QueueAfter;
    JobsStay(s.marks, HearMarks(s, h));
    assert forall x: Job :: GoodJob(s.marks, x) ==> x.origin < |s.marks|;
    if SendsNow(Table(s), s.limiter, h) {
      OwnJob(s, h);
      assert (s.marks + HearMarks(s, h))[|s.marks|] == HearMarks(s, h)[0];
    }
  }

  lemma HearKeepsApart(s: State, h: Heard)
    requires Inv(s) && Enabled(s, Hear(h))
    ensures NotBoth(Next(s, Hear(h)))
  {
    hide GoodJob, Table, LimiterAfter, OutcomeOf, MarksTimely, HearMarks, Genuine, OwedFine;
    JobsStay(s.marks, HearMarks(s, h));
    assert forall x: Job :: GoodJob(s.marks, x) ==> x.origin < |s.marks|;
  }

  lemma HearKeepsInv(s: State, h: Heard)
    requires Inv(s) && Enabled(s, Hear(h))
    ensures Inv(Next(s, Hear(h)))
  {
    hide MarksTimely, HeldFine, OwedFine, SentFine, NotBoth, Next, Enabled;
    HearKeepsMarks(s, h);
    HearKeepsQueue(s, h);
    HearKeepsSent(s, h);
    HearKeepsApart(s, h);
  }

  lemma ExpireKeepsInv(s: State, x: Job, now: int)
    requires Inv(s) && Enabled(s, Expire(x, now))
    ensures Inv(Next(s, Expire(x, now)))
  {
    hide GoodJob, MarksTimely, HeldFine, OwedFine, SentFine, NotBoth, Enabled;
    ExpireKeepsMarks(s, x, now);
    ExpireKeepsQueue(s, x, now);
    ExpireKeepsSent(s, x, now);
  }

  lemma ExpireKeepsMarks(s: State, x: Job, now: int)
    requires MarksTimely(s) && Enabled(s, Expire(x, now))
    ensures MarksTimely(Next(s, Expire(x, now)))
  {
    hide DecodeFrame;
  }

  lemma ExpireKeepsQueue(s: State, x: Job, now: int)
    requires Inv(s) && Enabled(s, Expire(x, now))
    ensures HeldFine(Next(s, Expire(x, now))) && OwedFine(Next(s, Expire(x, now)))
  {
    hide GoodJob, MarksTimely, SentFine, NotBoth, DecodeFrame;
  }

  lemma ExpireKeepsSent(s: State, x: Job, now: int)
    requires Inv(s) && Enabled(s, Expire(x, now))
    ensures SentFine(Next(s, Expire(x, now))) && NotBoth(Next(s, Expire(x, now)))
  {
    hide GoodJob, MarksTimely, HeldFine, OwedFine, DecodeFrame;
  }

  lemma TransmitKeepsInv(s: State, x: Job, now: int)
    requires Inv(s) && Enabled(s, Transmit(x, now))
    ensures Inv(Next(s, Transmit(x, now)))
  {
    hide MarksTimely, HeldFine, OwedFine, SentFine, NotBoth, Enabled, GoodJob, DispatchMarks;
    TransmitKeepsQueue(s, x, now);
    TransmitKeepsSent(s, x, now);
  }

  lemma TransmitKeepsQueue(s: State, x: Job, now: int)
    requires Inv(s) && Enabled(s, Transmit(x, now))
    ensures var u := Next(s, Transmit(x, now));
      MarksTimely(u) && HeldFine(u) && OwedFine(u)
  {
    hide GoodJob, DispatchMarks, SentFine, NotBoth, DecodeFrame;
    JobsStay(s.marks, DispatchMarks(x.raw, now));
  }

  lemma TransmitKeepsSent(s: State, x: Job, now: int)
    requires Inv(s) && Enabled(s, Transmit(x, now))
    ensures SentFine(Next(s, Transmit(x, now))) && NotBoth(Next(s, Transmit(x, now)))
  {
    hide GoodJob, DispatchMarks, MarksTimely, DecodeFrame;
    JobsStay(s.marks, DispatchMarks(x.raw, now));
  }

  lemma OtherKeepsInv(s: State, e: Event)
    requires Inv(s) && Enabled(s, e) && (e.OtherMark? || e.Shutdown?)
    ensures Inv(Next(s, e))
  {
    hide GoodJob, DecodeFrame;
    if e.OtherMark? {
      JobsStay(s.marks, [Dupe.Mark(e.key, e.now)]);
    }
  }

  lemma {:induction false} InvAt(clock: int, run: seq<Event>)
    requires Valid(clock, run)
    ensures Inv(At(clock, run))
    decreases |run|
  {
    hide Inv, Next, Enabled;
    if run == [] {
      StartInv(clock);
    } else {
      var s, e := At(clock, run[..|run| - 1]), run[|run| - 1];
      InvAt(clock, run[..|run| - 1]);
      match e {
        case Hear(h) => HearKeepsInv(s, h);
        case Expire(x, now) => ExpireKeepsInv(s, x, now);
        case Transmit(x, now) => TransmitKeepsInv(s, x, now);
        case OtherMark(_, _) => OtherKeepsInv(s, e);
        case Shutdown(_) => OtherKeepsInv(s, e);
      }
    }
  }

  lemma StartInv(clock: int)
    ensures Inv(Start(clock))
  {
    hide GoodJob;
  }

  // ---- spacing ----

  /** How long the packet of a transmission was held. */
  ghost function Hold(s: State, i: nat): int
    requires Inv(s) && i < |s.sent|
  {
    s.sent[i].now - s.marks[s.sent[i].job.origin].now
  }

  /** Two transmissions whose packets were heard with the same content are a duplicate window
      apart, up to how much longer the first was held than the second. */
  lemma Spacing(clock: int, run: seq<Event>, i: nat, j: nat)
    requires Valid(clock, run) && i < j < |At(clock, run).sent|
    requires KeyOf(At(clock, run).sent[i].job.heard) == KeyOf(At(clock, run).sent[j].job.heard)
    ensures Inv(At(clock, run))
    ensures var s := At(clock, run);
      s.sent[j].now - s.sent[i].now >= DUPE_WINDOW + Hold(s, j) - Hold(s, i)
  {
    hide Dupe.Fresh, Relayed, KeyOf;
    InvAt(clock, run);
    var s := At(clock, run);
    var a, b := s.sent[i].job.origin, s.sent[j].job.origin;
    if a < b {
      Dupe.FreshSpacing(s.marks, DUPE_WINDOW, a, b);
    } else {
      Dupe.FreshSpacing(s.marks, DUPE_WINDOW, b, a);
    }
  }

  lemma HeardContentSpaced(clock: int, run: seq<Event>, i: nat, j: nat)
    requires Valid(clock, run) && i < j < |At(clock, run).sent|
    requires KeyOf(At(clock, run).sent[i].job.heard) == KeyOf(At(clock, run).sent[j].job.heard)
    ensures var s := At(clock, run);
      && s.sent[j].now - s.sent[i].now >= 25000
      && (Inv(s) && Hold(s, i) == 0 ==> s.sent[j].now - s.sent[i].now >= 30000)
  {
    hide MarksTimely, HeldFine, OwedFine, NotBoth, GoodJob, KeyOf;
    Spacing(clock, run, i, j);
  }

  /** What a job transmits has the content that was heard exactly for well-formed ends. */
  lemma JobKeepsKey(marks: seq<Dupe.Mark>, x: Job)
    requires GoodJob(marks, x)
    ensures KeyOf(x.raw).Some? && (KeyOf(x.raw) == KeyOf(x.heard) <==> WellFormedEnds(x.heard))
  {
    hide FreshMark, KeyOf, Repeated, WellFormedEnds;
    var s :| Repeated(x.heard, s).Some? && Repeated(x.heard, s).value.RelayRF? && Repeated(x.heard, s).value.raw == x.raw;
    RepeatKeepsKey(x.heard, s);
  }

  /** In every run two transmissions of the same source, destination and information are at least
      25 seconds apart, and at least 30 seconds if the earlier one was not held, provided that
      source and destination were well-formed as heard. */
  lemma SameContentSpaced(clock: int, run: seq<Event>, i: nat, j: nat)
    requires Valid(clock, run) && i < j < |At(clock, run).sent|
    requires KeyOf(At(clock, run).sent[i].job.raw) == KeyOf(At(clock, run).sent[j].job.raw)
    requires WellFormedEnds(At(clock, run).sent[i].job.heard) && WellFormedEnds(At(clock, run).sent[j].job.heard)
    ensures var s := At(clock, run);
      && s.sent[j].now - s.sent[i].now >= 25000
      && (Inv(s) && Hold(s, i) == 0 ==> s.sent[j].now - s.sent[i].now >= 30000)
  {
    hide MarksTimely, HeldFine, OwedFine, NotBoth, GoodJob, KeyOf, WellFormedEnds;
    InvAt(clock, run);
    var s := At(clock, run);
    JobKeepsKey(s.marks, s.sent[i].job);
    JobKeepsKey(s.marks, s.sent[j].job);
    HeardContentSpaced(clock, run, i, j);
  }

  // ---- cancellation ----

  /** A held repeat that is neither waiting, nor committed, nor sent. */
  predicate Gone(s: State, x: Job) {
    && x.origin < |s.marks|
    && (forall k :: k in s.queue.entries ==> s.queue.entries[k] != x)
    && x !in s.owed
    && (forall i :: 0 <= i < |s.sent| ==> s.sent[i].job != x)
  }

  lemma StaysGone(s: State, e: Event, x: Job)
    requires Gone(s, x) && Enabled(s, e)
    ensures Gone(Next(s, e), x)
  {
    hide Table, LimiterAfter, OutcomeOf, Genuine, DispatchMarks, HearMarks;
  }

  /** Hearing the content of a held repeat gives it up at once; hearing another leaves it. */
  lemma HeardIsGone(s: State, h: Heard, k: Key)
    requires Inv(s) && Enabled(s, Hear(h)) && k in s.queue.entries
    ensures Gone(Next(s, Hear(h)), s.queue.entries[k]) <==> h.key == k
  {
    hide Table, LimiterAfter, OutcomeOf, Dupe.Fresh, Genuine, HearMarks, Relayed, KeyOf;
    var u := Next(s, Hear(h));
    assert k != h.key ==> k in u.queue.entries && u.queue.entries[k] == s.queue.entries[k];
  }

  lemma {:induction false} GoneForGood(clock: int, before: seq<Event>, later: seq<Event>, x: Job)
    requires Valid(clock, before + later) && Valid(clock, before) && Gone(At(clock, before), x)
    ensures Gone(At(clock, before + later), x)
    decreases |later|
  {
    hide Inv, Next, Enabled, Gone;
    var run := before + later;
    if later == [] {
      assert run == before;
    } else {
      var shorter := later[..|later| - 1];
      assert run[..|run| - 1] == before + shorter;
      GoneForGood(clock, before, shorter, x);
      StaysGone(At(clock, before + shorter), run[|run| - 1], x);
    }
  }

  /** Another station's copy of what a held repeat would transmit cancels it for good, whatever
      happens later, if and only if its source and destination were well-formed as heard. */
  lemma CancelledInHold(clock: int, before: seq<Event>, k: Key, h: Heard)
    requires Valid(clock, before) && k in At(clock, before).queue.entries
    requires Valid(clock, before + [Hear(h)])
    requires KeyOf(h.raw) == KeyOf(At(clock, before).queue.entries[k].raw)
    ensures var x := At(clock, before).queue.entries[k];
      WellFormedEnds(x.heard) <==>
      forall later {:trigger Valid(clock, before + [Hear(h)] + later)} ::
        Valid(clock, before + [Hear(h)] + later) ==> Gone(At(clock, before + [Hear(h)] + later), x)
  {
    hide Inv, Next, Enabled, Gone, Genuine, GoodJob, KeyOf, WellFormedEnds;
    var s := At(clock, before);
    var x := s.queue.entries[k];
    var run := before + [Hear(h)];
    assert run[..|run| - 1] == before;
    assert Enabled(s, Hear(h)) && At(clock, run) == Next(s, Hear(h));
    InvAt(clock, before);
    HeldJob(s, k);
    JobKeepsKey(s.marks, x);
    HeardIsGone(s, h, k);
    GenuineKey(s, h);
    if WellFormedEnds(x.heard) {
      forall later | Valid(clock, run + later) ensures Gone(At(clock, run + later), x) {
        GoneForGood(clock, run, later, x);
      }
    } else {
      assert run + [] == run;
      assert !Gone(At(clock, run + []), x);
    }
  }

  lemma HeldJob(s: State, k: Key)
    requires Inv(s) && k in s.queue.entries
    ensures GoodJob(s.marks, s.queue.entries[k]) && KeyOf(s.queue.entries[k].heard).Some?
    ensures KeyOf(s.queue.entries[k].heard).value == k
  {
    hide FreshMark, Relayed, KeyOf;
  }

  lemma GenuineKey(s: State, h: Heard)
    requires Enabled(s, Hear(h))
    ensures KeyOf(h.raw).Some? && KeyOf(h.raw).value == h.key
  {
    hide DecodeFrame, DecisionOn, ContentKey;
  }
}
