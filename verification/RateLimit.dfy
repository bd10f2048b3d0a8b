/** The per-source rate limiter. Times are explicit, in milliseconds. */
module RateLimit {
  import opened GoText

  const MINUTE: int := 60000
  const IDLE: int := 5 * MINUTE

  datatype Bucket = Bucket(count: int, window: int, blockedUntil: Option<int>)

  type Buckets = map<string, Bucket>

  datatype Limits = Limits(threshold: int, timeout: int)

  datatype Verdict = Verdict(ok: bool, justBlocked: bool)

  /** The bucket of a source after one more packet. */
  function Counted(b: Option<Bucket>, now: int, l: Limits): Bucket {
    match b
    case None => Bucket(1, now, None)
    case Some(b) =>
      if b.blockedUntil.Some? then
        if now < b.blockedUntil.value then b else Bucket(1, now, None)
      else if now - b.window >= MINUTE then Bucket(1, now, None)
      else if b.count + 1 > l.threshold then Bucket(b.count + 1, b.window, Some(now + l.timeout))
      else Bucket(b.count + 1, b.window, None)
  }

  /** What is said about that packet. */
  function Judged(b: Option<Bucket>, now: int, l: Limits): Verdict {
    match b
    case None => Verdict(true, false)
    case Some(b) =>
      if b.blockedUntil.Some? then Verdict(now >= b.blockedUntil.value, false)
      else if now - b.window >= MINUTE then Verdict(true, false)
      else if b.count + 1 > l.threshold then Verdict(false, true)
      else Verdict(true, false)
  }

  function Lookup(m: Buckets, source: string): Option<Bucket> {
    if source in m then Some(m[source]) else None
  }

  predicate Idle(b: Bucket, now: int) {
    b.blockedUntil.None? && now - b.window > IDLE
  }

  function Cleaned(m: Buckets, now: int): (r: Buckets)
    ensures r.Keys <= m.Keys
  {
    map k | k in m && !Idle(m[k], now) :: m[k]
  }

  predicate BlockedIn(m: Buckets, source: string, now: int) {
    source in m && m[source].blockedUntil.Some? && now < m[source].blockedUntil.value
  }

  /** Buckets and the time of the last cleanup; the zero time is long ago. */
  datatype Limiter = Limiter(buckets: Buckets, lastCleanup: Option<int>)

  const NEW: Limiter := Limiter(map[], None)

  function Tidied(l: Limiter, now: int): Limiter {
    if l.lastCleanup.None? || now - l.lastCleanup.value > MINUTE
    then Limiter(Cleaned(l.buckets, now), Some(now)) else l
  }

  function AfterAllow(l: Limiter, source: string, now: int, limits: Limits): Limiter {
    if source == "" then l
    else
      var t := Tidied(l, now);
      t.(buckets := t.buckets[source := Counted(Lookup(t.buckets, source), now, limits)])
  }

  function VerdictOn(l: Limiter, source: string, now: int, limits: Limits): Verdict {
    if source == "" then Verdict(true, false) else Judged(Lookup(Tidied(l, now).buckets, source), now, limits)
  }

  class SourceRateLimiter {
    var buckets: Buckets
    var lastCleanup: Option<int>
    const limits: Limits

    function State(): Limiter
      reads this
    {
      Limiter(buckets, lastCleanup)
    }

    constructor (threshold: int, timeout: int)
      ensures State() == NEW && limits == Limits(threshold, timeout)
    {
      buckets, lastCleanup := map[], None;
      limits := Limits(threshold, timeout);
    }

    method Allow(source: string, now: int) returns (ok: bool, justBlocked: bool)
      modifies this
      ensures Verdict(ok, justBlocked) == VerdictOn(old(State()), source, now, limits)
      ensures State() == AfterAllow(old(State()), source, now, limits)
    {
      if source == "" {
        return true, false;
      }
      if lastCleanup.None? || now - lastCleanup.value > MINUTE {
        MaybeCleanup(now);
        lastCleanup := Some(now);
      }
      if source !in buckets {
        buckets := buckets[source := Bucket(1, now, None)];
        return true, false;
      }
      var b := buckets[source];
      if b.blockedUntil.Some? {
        if now < b.blockedUntil.value {
          assert buckets[source := b] == buckets;
          return false, false;
        }
        buckets := buckets[source := Bucket(1, now, None)];
        return true, false;
      }
      if now - b.window >= MINUTE {
        buckets := buckets[source := Bucket(1, now, None)];
        return true, false;
      }
      b := b.(count := b.count + 1);
      if b.count > limits.threshold {
        buckets := buckets[source := b.(blockedUntil := Some(now + limits.timeout))];
        return false, true;
      }
      buckets := buckets[source := b];
      return true, false;
    }

    method MaybeCleanup(now: int)
      modifies this`buckets
      ensures buckets == Cleaned(old(buckets), now)
    {
      var todo := buckets.Keys;
      ghost var before := buckets;
      while todo != {}
        invariant todo <= buckets.Keys <= before.Keys && forall k :: k in buckets ==> buckets[k] == before[k]
        invariant forall k :: k in before && k !in todo ==> (k in buckets <==> !Idle(before[k], now))
        decreases |todo|
      {
        var k :| k in todo;
        if buckets[k].blockedUntil.None? && now - buckets[k].window > IDLE {
          buckets := buckets - {k};
        }
        todo := todo - {k};
      }
    }

    method IsBlocked(source: string, now: int) returns (blocked: bool)
      ensures blocked == (source != "" && BlockedIn(buckets, source, now))
    {
      if source == "" {
        return false;
      }
      if source !in buckets {
        return false;
      }
      var b := buckets[source];
      return b.blockedUntil.Some? && now < b.blockedUntil.value;
    }
  }

  // ---- runs ----

  /** A packet offered to the limiter, or a question from the stations page. */
  datatype Call = Packet(source: string, now: int) | Question(source: string, now: int)

  predicate Timely(run: seq<Call>) {
    forall i, j :: 0 <= i < j < |run| ==> run[i].now <= run[j].now
  }

  function At(run: seq<Call>, l: Limits, n: nat): Limiter
    requires n <= |run|
  {
    if n == 0 then NEW
    else if run[n - 1].Question? then At(run, l, n - 1)
    else AfterAllow(At(run, l, n - 1), run[n - 1].source, run[n - 1].now, l)
  }

  /** The buckets of a limiter that never cleans up. */
  function Kept(run: seq<Call>, l: Limits, n: nat): Buckets
    requires n <= |run|
  {
    if n == 0 then map[]
    else
      var before, c := Kept(run, l, n - 1), run[n - 1];
      if c.Question? || c.source == "" then before
      else before[c.source := Counted(Lookup(before, c.source), c.now, l)]
  }

  /** The answer to the i-th call, a packet's verdict or a question's. */
  function Answer(run: seq<Call>, l: Limits, i: nat): Verdict
    requires i < |run|
  {
    var c := run[i];
    if c.Question? then Verdict(c.source != "" && BlockedIn(At(run, l, i).buckets, c.source, c.now), false)
    else VerdictOn(At(run, l, i), c.source, c.now, l)
  }

  function KeptAnswer(run: seq<Call>, l: Limits, i: nat): Verdict
    requires i < |run|
  {
    var c := run[i];
    if c.Question? then Verdict(c.source != "" && BlockedIn(Kept(run, l, i), c.source, c.now), false)
    else if c.source == "" then Verdict(true, false)
    else Judged(Lookup(Kept(run, l, i), c.source), c.now, l)
  }

  /** Only buckets idle by now are missing. */
  predicate Agree(m: Buckets, kept: Buckets, now: int) {
    && (forall k :: k in m ==> k in kept && kept[k] == m[k])
    && (forall k :: k in kept && k !in m ==> Idle(kept[k], now))
  }

  lemma TidyAgrees(l: Limiter, kept: Buckets, before: int, now: int)
    requires Agree(l.buckets, kept, before) && before <= now
    ensures Agree(l.buckets, kept, now) && Agree(Tidied(l, now).buckets, kept, now)
  {
  }

  lemma CountAgrees(m: Buckets, kept: Buckets, source: string, now: int, l: Limits)
    requires Agree(m, kept, now)
    ensures Counted(Lookup(m, source), now, l) == Counted(Lookup(kept, source), now, l)
    ensures Judged(Lookup(m, source), now, l) == Judged(Lookup(kept, source), now, l)
    ensures BlockedIn(m, source, now) == BlockedIn(kept, source, now)
    ensures var b := Counted(Lookup(m, source), now, l);
      Agree(m[source := b], kept[source := b], now)
  {
  }

  lemma {:induction false} AgreeAt(run: seq<Call>, l: Limits, n: nat)
    requires Timely(run) && 0 < n <= |run|
    ensures Agree(At(run, l, n).buckets, Kept(run, l, n), run[n - 1].now)
  {
    hide Agree, Tidied, Counted, Judged;
    var c := run[n - 1];
    if n == 1 {
      EmptyAgrees(c.now);
    } else {
      AgreeAt(run, l, n - 1);
      TidyAgrees(At(run, l, n - 1), Kept(run, l, n - 1), run[n - 2].now, c.now);
    }
    var before, kept := At(run, l, n - 1), Kept(run, l, n - 1);
    if n == 1 {
      TidyAgrees(before, kept, c.now, c.now);
    }
    CountAgrees(Tidied(before, c.now).buckets, kept, c.source, c.now, l);
  }

  lemma EmptyAgrees(now: int)
    ensures Agree(map[], map[], now)
  {
  }

  /** Every packet and every question is answered as by a limiter that never cleans up. */
  lemma CleanupUnobservable(run: seq<Call>, l: Limits, i: nat)
    requires Timely(run) && i < |run|
    ensures Answer(run, l, i) == KeptAnswer(run, l, i)
  {
    hide Agree, Tidied, Counted, Judged, BlockedIn;
    var c := run[i];
    var before, kept := At(run, l, i), Kept(run, l, i);
    if i == 0 {
      EmptyAgrees(c.now);
      TidyAgrees(before, kept, c.now, c.now);
    } else {
      AgreeAt(run, l, i);
      TidyAgrees(before, kept, run[i - 1].now, c.now);
    }
    CountAgrees(Tidied(before, c.now).buckets, kept, c.source, c.now, l);
    CountAgrees(before.buckets, kept, c.source, c.now, l);
  }

  // ---- the rate that gets through ----

  predicate IsAllowed(run: seq<Call>, l: Limits, source: string, lo: int, hi: int, i: nat)
    requires i < |run|
  {
    run[i].Packet? && run[i].source == source && lo <= run[i].now < hi && Answer(run, l, i).ok
  }

  /** Packets of the source allowed among the first n calls, at times from lo up to hi. */
  function Allowed(run: seq<Call>, l: Limits, source: string, lo: int, hi: int, n: nat): nat
    requires n <= |run|
  {
    if n == 0 then 0
    else
      Allowed(run, l, source, lo, hi, n - 1) + if IsAllowed(run, l, source, lo, hi, n - 1) then 1 else 0
  }

  lemma {:induction false} AllowedSplit(run: seq<Call>, l: Limits, source: string, lo: int, mid: int, hi: int, n: nat)
    requires n <= |run| && lo <= mid <= hi
    ensures Allowed(run, l, source, lo, hi, n)
      == Allowed(run, l, source, lo, mid, n) + Allowed(run, l, source, mid, hi, n)
  {
    hide Answer;
    if n > 0 {
      AllowedSplit(run, l, source, lo, mid, hi, n - 1);
    }
  }

  lemma {:induction false} NoneAllowed(run: seq<Call>, l: Limits, source: string, lo: int, hi: int, n: nat)
    requires n <= |run| && forall i :: 0 <= i < n ==> !IsAllowed(run, l, source, lo, hi, i)
    ensures Allowed(run, l, source, lo, hi, n) == 0
  {
    hide IsAllowed;
    if n > 0 {
      NoneAllowed(run, l, source, lo, hi, n - 1);
    }
  }

  /** The call is a packet of the source. */
  predicate PacketOf(c: Call, source: string) {
    c.Packet? && c.source == source
  }

  /** Every allowed packet of the source so far came before the given time. */
  predicate AllowedBefore(run: seq<Call>, l: Limits, source: string, n: nat, end: int)
    requires n <= |run|
  {
    forall i :: 0 <= i < n && PacketOf(run[i], source) && Answer(run, l, i).ok ==> run[i].now < end
  }

  /** What the bucket of a source says about the packets allowed in its window. */
  ghost predicate WindowFacts(run: seq<Call>, l: Limits, source: string, n: nat)
    requires n <= |run|
  {
    if source !in Kept(run, l, n) then forall i :: 0 <= i < n ==> !PacketOf(run[i], source)
    else
      var b := Kept(run, l, n)[source];
      var inWindow := Allowed(run, l, source, b.window, b.window + MINUTE, n);
      && n > 0 && b.window <= run[n - 1].now
      && (b.blockedUntil.None? ==> b.count <= l.threshold)
      && (b.blockedUntil.Some? ==> b.blockedUntil.value >= b.window + MINUTE)
      && inWindow <= b.count && inWindow <= l.threshold
      && Allowed(run, l, source, b.window, b.window + 1, n) >= 1
      && AllowedBefore(run, l, source, n, b.window + MINUTE)
  }

  predicate Sound(l: Limits) {
    l.threshold >= 1 && l.timeout >= MINUTE
  }

  /** Calls that are not packets of the source change nothing about it. */
  lemma OtherCall(run: seq<Call>, l: Limits, source: string, n: nat)
    requires 0 < n <= |run| && !PacketOf(run[n - 1], source) && source != ""
    ensures Lookup(Kept(run, l, n), source) == Lookup(Kept(run, l, n - 1), source)
    ensures forall lo, hi :: Allowed(run, l, source, lo, hi, n) == Allowed(run, l, source, lo, hi, n - 1)
  {
    hide Answer, Counted;
  }

  /** A window opens: the packet is allowed, and no allowed one is younger. */
  lemma WindowOpens(run: seq<Call>, l: Limits, source: string, n: nat)
    requires 0 < n <= |run| && PacketOf(run[n - 1], source) && source != ""
    requires Sound(l) && Answer(run, l, n - 1).ok
    requires source in Kept(run, l, n) && Kept(run, l, n)[source] == Bucket(1, run[n - 1].now, None)
    requires AllowedBefore(run, l, source, n - 1, run[n - 1].now)
    ensures WindowFacts(run, l, source, n)
  {
    hide Answer, Kept;
    var now := run[n - 1].now;
    NoneAfter(run, l, source, n - 1, now, now, now + MINUTE);
    NoneAfter(run, l, source, n - 1, now, now, now + 1);
  }

  lemma NoneAfter(run: seq<Call>, l: Limits, source: string, n: nat, end: int, lo: int, hi: int)
    requires n <= |run| && AllowedBefore(run, l, source, n, end) && end <= lo
    ensures Allowed(run, l, source, lo, hi, n) == 0
  {
    hide Answer;
    NoneAllowed(run, l, source, lo, hi, n);
  }

  /** A packet within the window, allowed or the one that trips the limit or one while blocked. */
  lemma WindowGoesOn(run: seq<Call>, l: Limits, source: string, n: nat)
    requires 0 < n <= |run| && PacketOf(run[n - 1], source) && source != "" && Timely(run)
    requires Sound(l) && WindowFacts(run, l, source, n - 1)
    requires source in Kept(run, l, n - 1) && source in Kept(run, l, n)
    requires Kept(run, l, n)[source].window == Kept(run, l, n - 1)[source].window
    requires Kept(run, l, n)[source] == Counted(Some(Kept(run, l, n - 1)[source]), run[n - 1].now, l)
    requires Answer(run, l, n - 1) == Judged(Some(Kept(run, l, n - 1)[source]), run[n - 1].now, l)
    requires run[n - 1].now - Kept(run, l, n - 1)[source].window < MINUTE || !Answer(run, l, n - 1).ok
    ensures WindowFacts(run, l, source, n)
  {
    hide Answer, Kept;
    var b := Kept(run, l, n - 1)[source];
    assert run[n - 2].now <= run[n - 1].now;
    assert Allowed(run, l, source, b.window, b.window + 1, n) >= Allowed(run, l, source, b.window, b.window + 1, n - 1);
  }

  lemma {:induction false} WindowFactsHold(run: seq<Call>, l: Limits, source: string, n: nat)
    requires n <= |run| && Timely(run) && Sound(l) && source != ""
    ensures WindowFacts(run, l, source, n)
  {
    if n > 0 {
      WindowFactsHold(run, l, source, n - 1);
      if PacketOf(run[n - 1], source) {
        CleanupUnobservable(run, l, n - 1);
        PacketKeepsFacts(run, l, source, n);
      } else {
        OtherKeepsFacts(run, l, source, n);
      }
    }
  }

  lemma OtherKeepsFacts(run: seq<Call>, l: Limits, source: string, n: nat)
    requires 0 < n <= |run| && !PacketOf(run[n - 1], source) && source != "" && Timely(run)
    requires WindowFacts(run, l, source, n - 1)
    ensures WindowFacts(run, l, source, n)
  {
    hide Answer, Kept, Allowed;
    OtherCall(run, l, source, n);
    if n > 1 {
      assert run[n - 2].now <= run[n - 1].now;
    }
  }

  lemma PacketKeepsFacts(run: seq<Call>, l: Limits, source: string, n: nat)
    requires 0 < n <= |run| && PacketOf(run[n - 1], source) && source != "" && Timely(run)
    requires Sound(l) && WindowFacts(run, l, source, n - 1)
    requires Answer(run, l, n - 1) == KeptAnswer(run, l, n - 1)
    ensures WindowFacts(run, l, source, n)
  {
    hide Answer, Allowed;
    var kept, now := Kept(run, l, n - 1), run[n - 1].now;
    assert Kept(run, l, n) == kept[source := Counted(Lookup(kept, source), now, l)];
    if Opens(Lookup(kept, source), now) {
      OpensAfterAll(run, l, source, n);
      WindowOpens(run, l, source, n);
    } else {
      WindowGoesOn(run, l, source, n);
    }
  }

  /** A packet at this time starts a new window. */
  predicate Opens(b: Option<Bucket>, now: int) {
    match b
    case None => true
    case Some(b) => if b.blockedUntil.Some? then now >= b.blockedUntil.value else now - b.window >= MINUTE
  }

  /** A new window starts only when all allowed packets are at least a minute from the start of
      the old one. */
  lemma OpensAfterAll(run: seq<Call>, l: Limits, source: string, n: nat)
    requires 0 < n <= |run| && WindowFacts(run, l, source, n - 1)
    requires Opens(Lookup(Kept(run, l, n - 1), source), run[n - 1].now)
    ensures AllowedBefore(run, l, source, n - 1, run[n - 1].now)
    ensures source in Kept(run, l, n - 1) ==> Kept(run, l, n - 1)[source].window + MINUTE <= run[n - 1].now
  {
    hide Answer, Kept, Allowed;
  }

  /** Of the packets allowed in a window, the first lies at its start. */
  lemma AfterOpener(run: seq<Call>, l: Limits, source: string, n: nat, t: int, end: int)
    requires n <= |run| && WindowFacts(run, l, source, n) && Sound(l)
    requires source in Kept(run, l, n) && Kept(run, l, n)[source].window < t <= end
    ensures Allowed(run, l, source, t, end, n) <= l.threshold - 1
  {
    hide Answer, Kept, Allowed;
    var w := Kept(run, l, n)[source].window;
    var last := w + MINUTE;
    if t >= last {
      NoneAfter(run, l, source, n, last, t, end);
    } else {
      AllowedSplit(run, l, source, w, w + 1, last, n);
      AllowedSplit(run, l, source, w + 1, t, last, n);
      if end <= last {
        AllowedSplit(run, l, source, t, end, last, n);
      } else {
        AllowedSplit(run, l, source, t, last, end, n);
        NoneAfter(run, l, source, n, last, last, end);
      }
    }
  }

  /** In the minute before a window opened, fewer than the threshold got through. */
  lemma {:induction false} BeforeWindow(run: seq<Call>, l: Limits, source: string, n: nat, t: int)
    requires n <= |run| && Timely(run) && Sound(l) && source != ""
    requires source in Kept(run, l, n)
    requires Kept(run, l, n)[source].window - MINUTE < t <= Kept(run, l, n)[source].window
    ensures Allowed(run, l, source, t, Kept(run, l, n)[source].window, n) <= l.threshold - 1
  {
    hide Answer, WindowFacts;
    WindowFactsHold(run, l, source, n - 1);
    var now, w := run[n - 1].now, Kept(run, l, n)[source].window;
    if !PacketOf(run[n - 1], source) {
      OtherCall(run, l, source, n);
      BeforeWindow(run, l, source, n - 1, t);
    } else if Opens(Lookup(Kept(run, l, n - 1), source), now) {
      assert w == now;
      OpensAfterAll(run, l, source, n);
      if source in Kept(run, l, n - 1) {
        AfterOpener(run, l, source, n - 1, t, w);
      } else {
        NoneYet(run, l, source, n - 1, t, w);
      }
    } else {
      WindowStart(run, l, source, n - 1);
      assert run[n - 2].now <= now;
      BeforeWindow(run, l, source, n - 1, t);
    }
  }

  lemma NoneYet(run: seq<Call>, l: Limits, source: string, n: nat, lo: int, hi: int)
    requires n <= |run| && WindowFacts(run, l, source, n) && source !in Kept(run, l, n)
    ensures Allowed(run, l, source, lo, hi, n) == 0
  {
    hide Answer, Kept, Allowed;
    NoneAllowed(run, l, source, lo, hi, n);
  }

  lemma WindowStart(run: seq<Call>, l: Limits, source: string, n: nat)
    requires n <= |run| && WindowFacts(run, l, source, n) && source in Kept(run, l, n)
    ensures n > 0 && Kept(run, l, n)[source].window <= run[n - 1].now
    ensures var w := Kept(run, l, n)[source].window;
      Allowed(run, l, source, w, w + MINUTE, n) <= l.threshold
  {
    hide Answer, Kept, Allowed;
  }

  /** At most twice the threshold less one of a source's packets get through in any minute. */
  lemma {:induction false} RateBound(run: seq<Call>, l: Limits, source: string, n: nat, t: int)
    requires n <= |run| && Timely(run) && Sound(l) && source != ""
    ensures Allowed(run, l, source, t, t + MINUTE, n) <= 2 * l.threshold - 1
  {
    hide Answer, WindowFacts, Counted;
    if n > 0 {
      RateBound(run, l, source, n - 1, t);
      if IsAllowed(run, l, source, t, t + MINUTE, n - 1) {
        WindowFactsHold(run, l, source, n);
        WindowStart(run, l, source, n);
        var w := Kept(run, l, n)[source].window;
        var end := t + MINUTE;
        assert w < end;
        if t > w {
          AfterOpener(run, l, source, n, t, end);
        } else {
          LateInWindow(run, l, source, n, end);
          BeforeWindow(run, l, source, n, t);
          AllowedSplit(run, l, source, t, w, end, n);
        }
      }
    }
  }

  lemma LateInWindow(run: seq<Call>, l: Limits, source: string, n: nat, end: int)
    requires n <= |run| && WindowFacts(run, l, source, n) && source in Kept(run, l, n)
    requires Kept(run, l, n)[source].window <= end <= Kept(run, l, n)[source].window + MINUTE
    ensures Allowed(run, l, source, Kept(run, l, n)[source].window, end, n) <= l.threshold
  {
    hide Answer, Kept, Allowed;
    var w := Kept(run, l, n)[source].window;
    AllowedSplit(run, l, source, w, end, w + MINUTE, n);
  }

  /** A run that lets exactly that many through: one packet, the rest of the threshold just before
      its minute ends, and a whole threshold more as the next minute begins. */
  function Burst(l: Limits): (r: seq<Call>)
    requires l.threshold >= 1
    ensures |r| == 2 * l.threshold
  {
    seq(2 * l.threshold, i =>
      Packet("A", if i == 0 then 0 else if i < l.threshold then MINUTE - 1 else MINUTE))
  }

  lemma {:induction false} BurstAllowed(l: Limits, n: nat)
    requires Sound(l) && 1 <= n <= 2 * l.threshold
    ensures Lookup(Kept(Burst(l), l, n), "A") ==
      Some(if n <= l.threshold then Bucket(n, 0, None) else Bucket(n - l.threshold, MINUTE, None))
    ensures Allowed(Burst(l), l, "A", 1, 1 + MINUTE, n) == n - 1
  {
    hide Answer;
    CleanupUnobservable(Burst(l), l, n - 1);
    if n > 1 {
      BurstAllowed(l, n - 1);
    }
  }

  /** The bound on the rate is attained for every threshold. */
  lemma RateBoundTight(l: Limits)
    requires Sound(l)
    ensures Timely(Burst(l))
    ensures Allowed(Burst(l), l, "A", 1, 1 + MINUTE, 2 * l.threshold) == 2 * l.threshold - 1
  {
    BurstAllowed(l, 2 * l.threshold);
  }

  lemma {:induction false} BlockLasts(run: seq<Call>, l: Limits, source: string, i: nat, n: nat)
    requires Timely(run) && source != "" && i < n < |run|
    requires PacketOf(run[i], source) && Answer(run, l, i).justBlocked
    requires run[n].now < run[i].now + l.timeout
    ensures source in Kept(run, l, n) && Kept(run, l, n)[source].blockedUntil == Some(run[i].now + l.timeout)
    decreases n
  {
    hide Answer;
    CleanupUnobservable(run, l, i);
    if n > i + 1 {
      assert run[n - 1].now <= run[n].now;
      BlockLasts(run, l, source, i, n - 1);
    }
  }

  /** From the packet that trips the limit until the timeout is over, nothing of the source is
      allowed, and the block is announced only once. */
  lemma BlockSilences(run: seq<Call>, l: Limits, source: string, i: nat, j: nat)
    requires Timely(run) && source != "" && i < j < |run|
    requires PacketOf(run[i], source) && Answer(run, l, i).justBlocked
    requires PacketOf(run[j], source) && run[j].now < run[i].now + l.timeout
    ensures Answer(run, l, j) == Verdict(false, false)
  {
    hide Answer;
    BlockLasts(run, l, source, i, j);
    CleanupUnobservable(run, l, j);
  }

  // ---- what is refused and why ----

  /** The packet that trips the limit. */
  predicate Trips(run: seq<Call>, l: Limits, source: string, i: nat)
    requires i < |run|
  {
    PacketOf(run[i], source) && Answer(run, l, i).justBlocked
  }

  /** Packets of the source among the first n calls, at times from lo up to hi, allowed or not. */
  function Offered(run: seq<Call>, source: string, lo: int, hi: int, n: nat): nat
    requires n <= |run|
  {
    if n == 0 then 0
    else Offered(run, source, lo, hi, n - 1) + if PacketOf(run[n - 1], source) && lo <= run[n - 1].now < hi then 1 else 0
  }

  lemma {:induction false} OfferedWithin(run: seq<Call>, source: string, lo: int, hi: int, from: int, to: int, n: nat)
    requires n <= |run| && forall i :: 0 <= i < n && lo <= run[i].now < hi ==> from <= run[i].now < to
    ensures Offered(run, source, lo, hi, n) <= Offered(run, source, from, to, n)
  {
    if n > 0 {
      OfferedWithin(run, source, lo, hi, from, to, n - 1);
    }
  }

  /** In the minute up to and including the i-th call, more packets came than the threshold. */
  predicate Crowded(run: seq<Call>, l: Limits, source: string, i: nat)
    requires i < |run|
  {
    Offered(run, source, run[i].now - 59999, run[i].now + 1, i + 1) > l.threshold
  }

  /** An open window counts no more packets than came; a block was set by a packet that came in a
      crowded minute. */
  ghost predicate CountFacts(run: seq<Call>, l: Limits, source: string, n: nat)
    requires n <= |run|
  {
    source in Kept(run, l, n) ==>
      var b := Kept(run, l, n)[source];
      && n > 0 && b.window <= run[n - 1].now
      && (b.blockedUntil.None? ==> b.count <= Offered(run, source, b.window, b.window + 60000, n))
      && (b.blockedUntil.Some? ==>
            exists i :: 0 <= i < n && Trips(run, l, source, i) && Crowded(run, l, source, i)
              && b.blockedUntil.value == run[i].now + l.timeout)
  }

  lemma OtherCounts(run: seq<Call>, l: Limits, source: string, n: nat)
    requires 0 < n <= |run| && !PacketOf(run[n - 1], source) && source != "" && Timely(run)
    requires CountFacts(run, l, source, n - 1)
    ensures CountFacts(run, l, source, n)
  {
    hide Trips, Crowded, Counted;
    if n > 1 {
      assert run[n - 2].now <= run[n - 1].now;
    }
  }

  lemma PacketCounts(run: seq<Call>, l: Limits, source: string, n: nat)
    requires 0 < n <= |run| && PacketOf(run[n - 1], source) && source != "" && Timely(run)
    requires CountFacts(run, l, source, n - 1)
    ensures CountFacts(run, l, source, n)
    ensures Trips(run, l, source, n - 1) ==> Crowded(run, l, source, n - 1)
  {
    hide Answer, Kept, Crowded;
    CleanupUnobservable(run, l, n - 1);
    KeptStep(run, l, source, n);
    var was, now := Lookup(Kept(run, l, n - 1), source), run[n - 1].now;
    if was.Some? && was.value.blockedUntil.None? && now - was.value.window < MINUTE {
      var b := was.value;
      assert b.window <= run[n - 2].now <= now;
      CrowdedIf(run, l, source, b, n);
      assert b.count + 1 > l.threshold ==> Trips(run, l, source, n - 1);
    }
  }

  lemma KeptStep(run: seq<Call>, l: Limits, source: string, n: nat)
    requires 0 < n <= |run| && PacketOf(run[n - 1], source) && source != ""
    ensures source in Kept(run, l, n)
    ensures Kept(run, l, n)[source] == Counted(Lookup(Kept(run, l, n - 1), source), run[n - 1].now, l)
    ensures KeptAnswer(run, l, n - 1) == Judged(Lookup(Kept(run, l, n - 1), source), run[n - 1].now, l)
  {
    hide Counted, Judged;
  }

  lemma CrowdedIf(run: seq<Call>, l: Limits, source: string, b: Bucket, n: nat)
    requires 0 < n <= |run| && PacketOf(run[n - 1], source) && Timely(run)
    requires run[n - 1].now - b.window < MINUTE
    requires b.count <= Offered(run, source, b.window, b.window + 60000, n - 1)
    ensures b.count + 1 > l.threshold ==> Crowded(run, l, source, n - 1)
  {
    var now := run[n - 1].now;
    assert forall i :: 0 <= i < n - 1 ==> run[i].now <= now;
    OfferedWithin(run, source, b.window, b.window + 60000, now - 59999, now + 1, n - 1);
  }

  lemma {:induction false} CountFactsHold(run: seq<Call>, l: Limits, source: string, n: nat)
    requires n <= |run| && Timely(run) && source != ""
    ensures CountFacts(run, l, source, n)
  {
    hide CountFacts;
    if n == 0 {
      NothingCounted(run, l, source);
    } else {
      CountFactsHold(run, l, source, n - 1);
      if PacketOf(run[n - 1], source) {
        PacketCounts(run, l, source, n);
      } else {
        OtherCounts(run, l, source, n);
      }
    }
  }

  lemma NothingCounted(run: seq<Call>, l: Limits, source: string)
    ensures CountFacts(run, l, source, 0)
  {
  }

  /** A packet is refused only because it, or an earlier one within the timeout, came in a minute
      with more packets than the threshold: a source that keeps to it is never refused. */
  lemma RefusedMeans(run: seq<Call>, l: Limits, source: string, j: nat)
    requires Timely(run) && source != "" && j < |run| && PacketOf(run[j], source) && !Answer(run, l, j).ok
    ensures exists i :: 0 <= i <= j && (Trips(run, l, source, i) && Crowded(run, l, source, i)
                                        && (i == j || run[j].now < run[i].now + l.timeout))
  {
    hide Crowded, Answer, Kept;
    CleanupUnobservable(run, l, j);
    CountFactsHold(run, l, source, j);
    PacketCounts(run, l, source, j + 1);
    KeptStep(run, l, source, j + 1);
    if Trips(run, l, source, j) {
    } else {
      var b := Kept(run, l, j)[source];
      assert b.blockedUntil.Some?;
    }
  }

  /** The stations page shows a source as blocked exactly from a packet that trips the limit until
      the timeout is over. */
  lemma BlockedExact(run: seq<Call>, l: Limits, j: nat)
    requires Timely(run) && j < |run| && run[j].Question? && run[j].source != ""
    ensures Answer(run, l, j).ok <==>
      exists i :: 0 <= i < j && Trips(run, l, run[j].source, i) && run[j].now < run[i].now + l.timeout
  {
    hide Crowded, Answer, Kept;
    var source := run[j].source;
    CleanupUnobservable(run, l, j);
    CountFactsHold(run, l, source, j);
    forall i | 0 <= i < j && Trips(run, l, source, i) && run[j].now < run[i].now + l.timeout
      ensures KeptAnswer(run, l, j).ok
    {
      BlockLasts(run, l, source, i, j);
    }
  }

  /** A block stands until the first packet at or after its end. */
  lemma {:induction false} BlockStands(run: seq<Call>, l: Limits, source: string, i: nat, n: nat)
    requires Timely(run) && source != "" && i < n <= |run| && Trips(run, l, source, i)
    requires forall k :: i < k < n && PacketOf(run[k], source) ==> run[k].now < run[i].now + l.timeout
    ensures source in Kept(run, l, n) && Kept(run, l, n)[source].blockedUntil == Some(run[i].now + l.timeout)
    decreases n
  {
    hide Answer;
    CleanupUnobservable(run, l, i);
    if n > i + 1 {
      BlockStands(run, l, source, i, n - 1);
    }
  }

  /** That packet is allowed. */
  lemma AllowedAgain(run: seq<Call>, l: Limits, source: string, i: nat, j: nat)
    requires Timely(run) && source != "" && i < j < |run| && Trips(run, l, source, i)
    requires PacketOf(run[j], source) && run[j].now >= run[i].now + l.timeout
    requires forall k :: i < k < j && PacketOf(run[k], source) ==> run[k].now < run[i].now + l.timeout
    ensures Answer(run, l, j) == Verdict(true, false)
  {
    hide Answer, Trips;
    BlockStands(run, l, source, i, j);
    CleanupUnobservable(run, l, j);
  }
}
