/** The dashboard's live feed: a ring of the last 200 packets with running IDs, read by clients
    that poll with the last ID they saw. Times are explicit, in milliseconds. */
module Feed {
  import opened GoText

  const RECENT_CAP: nat := 200
  const MAX_AGE: int := 30 * 60000
  const U64: nat := 0x1_0000_0000_0000_0000
  const I64: nat := 0x8000_0000_0000_0000

  datatype Entry = Entry(rxAt: int, line: seq<byte>)

  datatype Numbered = Numbered(entry: Entry, id: nat)

  /** The entries with IDs above lo and up to hi that are not too old; the first entry ever
      logged has ID 1. */
  function Visible(log: seq<Entry>, lo: nat, hi: nat, cutoff: int): seq<Numbered>
    requires hi <= |log|
  {
    if hi <= lo then []
    else
      Visible(log, lo, hi - 1, cutoff)
      + if log[hi - 1].rxAt < cutoff then [] else [Numbered(log[hi - 1], hi)]
  }

  /** Where reading starts for a client that last saw this ID, in 64-bit arithmetic: at the
      cursor, or at the start of the window when the cursor lies before it, is the largest
      number of all, or is so far ahead that the difference reads as negative. */
  function StartAfter(cursor: nat, base: nat): nat
    requires base >= 1
  {
    if (cursor + 1) % U64 < base || cursor + 1 >= base + I64 then base - 1 else cursor
  }

  class LiveFeed {
    ghost var log: seq<Entry>
    var recent: seq<Entry>
    var recentNextID: nat

    ghost predicate Valid()
      reads this
    {
      && recentNextID == |log| < U64
      && |recent| == (if |log| < RECENT_CAP then |log| else RECENT_CAP)
      && recent == log[|log| - |recent|..]
    }

    constructor ()
      ensures Valid() && log == []
    {
      log, recent, recentNextID := [], [], 0;
    }

    method Append(e: Entry)
      requires Valid() && recentNextID + 1 < U64
      modifies this
      ensures Valid() && log == old(log) + [e]
    {
      if |recent| == RECENT_CAP {
        recent := recent[1..];
      }
      recent := recent + [e];
      recentNextID := recentNextID + 1;
      log := log + [e];
    }

    method RecentSince(cursor: nat, now: int) returns (found: seq<Numbered>, head: nat)
      requires Valid() && cursor < U64
      ensures head == |log|
      ensures found == Visible(log, StartAfter(cursor, |log| - |recent| + 1), |log|, now - MAX_AGE)
    {
      head := recentNextID;
      if |recent| == 0 {
        return [], head;
      }
      var base := head - |recent| + 1;
      var from := cursor;
      if (from + 1) % U64 < base {
        from := base - 1;
      }
      var offset := (from + 1 - base) % U64;
      var startIdx := if offset >= I64 then offset - U64 else offset;
      if startIdx < 0 {
        startIdx := 0;
      }
      ghost var start := StartAfter(cursor, base);
      assert startIdx == start + 1 - base;
      if startIdx >= |recent| {
        return [], head;
      }
      var cutoff := now - MAX_AGE;
      found := [];
      for i := startIdx to |recent|
        invariant found == Visible(log, start, base - 1 + i, cutoff)
      {
        assert recent[i] == log[base - 1 + i];
        if !(recent[i].rxAt < cutoff) {
          found := found + [Numbered(recent[i], base + i)];
        }
      }
    }
  }

  // ---- what a poll returns ----

  /** A poll returns exactly the entries in range that are young enough, under their own IDs. */
  lemma {:induction false} VisibleExact(log: seq<Entry>, lo: nat, hi: nat, cutoff: int, x: Numbered)
    requires hi <= |log|
    ensures x in Visible(log, lo, hi, cutoff) <==>
      lo < x.id <= hi && log[x.id - 1] == x.entry && x.entry.rxAt >= cutoff
  {
    if hi > lo {
      VisibleExact(log, lo, hi - 1, cutoff, x);
    }
  }

  predicate Increasing(s: seq<Numbered>) {
    forall i, j :: 0 <= i < j < |s| ==> s[i].id < s[j].id
  }

  predicate IdsWithin(s: seq<Numbered>, lo: nat, hi: nat) {
    forall i :: 0 <= i < |s| ==> lo < s[i].id <= hi
  }

  lemma {:induction false} VisibleIncreasing(log: seq<Entry>, lo: nat, hi: nat, cutoff: int)
    requires hi <= |log|
    ensures Increasing(Visible(log, lo, hi, cutoff)) && IdsWithin(Visible(log, lo, hi, cutoff), lo, hi)
  {
    if hi > lo {
      VisibleIncreasing(log, lo, hi - 1, cutoff);
    }
  }

  /** For an honest cursor, reading starts at it or at the oldest entry still in the ring. */
  lemma HonestCursor(cursor: nat, head: nat, size: nat)
    requires cursor <= head < I64 && size <= head
    ensures StartAfter(cursor, head - size + 1) == if cursor < head - size then head - size else cursor
  {
  }

  // ---- polling clients ----

  datatype Event = Arrive(e: Entry) | Poll(now: int)

  /** The log, a client's cursor, and everything the client was given. */
  datatype Session = Session(log: seq<Entry>, cursor: nat, received: seq<Numbered>)

  function Window(log: seq<Entry>): nat {
    if |log| < RECENT_CAP then |log| else RECENT_CAP
  }

  function Polled(s: Session, now: int): seq<Numbered> {
    Visible(s.log, StartAfter(s.cursor, |s.log| - Window(s.log) + 1), |s.log|, now - MAX_AGE)
  }

  function Next(s: Session, e: Event): Session {
    match e
    case Arrive(entry) => s.(log := s.log + [entry])
    case Poll(now) => Session(s.log, |s.log|, s.received + Polled(s, now))
  }

  function At(first: Session, run: seq<Event>, n: nat): Session
    requires n <= |run|
  {
    if n == 0 then first else Next(At(first, run, n - 1), run[n - 1])
  }

  /** A client that starts at some point of a log with nothing received. */
  predicate Begins(s: Session) {
    s.cursor <= |s.log| && s.received == []
  }

  lemma {:induction false} CursorAt(first: Session, run: seq<Event>, n: nat)
    requires Begins(first) && n <= |run| && |first.log| + |run| < I64
    ensures At(first, run, n).cursor <= |At(first, run, n).log| <= |first.log| + n
  {
    if n > 0 {
      CursorAt(first, run, n - 1);
    }
  }

  /** Whatever happens, a client is never given a packet twice, and gets them in order. */
  lemma {:induction false} NeverTwice(first: Session, run: seq<Event>, n: nat)
    requires Begins(first) && n <= |run| && |first.log| + |run| < I64
    ensures Increasing(At(first, run, n).received)
    ensures forall i :: 0 <= i < |At(first, run, n).received| ==> At(first, run, n).received[i].id <= At(first, run, n).cursor
  {
    hide Visible, StartAfter;
    if n > 0 {
      NeverTwice(first, run, n - 1);
      CursorAt(first, run, n - 1);
      var s := At(first, run, n - 1);
      if run[n - 1].Poll? {
        HonestCursor(s.cursor, |s.log|, Window(s.log));
        VisibleIncreasing(s.log, StartAfter(s.cursor, |s.log| - Window(s.log) + 1), |s.log|, run[n - 1].now - MAX_AGE);
      }
    }
  }

  /** All entries with IDs above lo and up to hi. */
  function All(log: seq<Entry>, lo: nat, hi: nat): (r: seq<Numbered>)
    requires lo <= hi <= |log|
    ensures |r| == hi - lo
  {
    seq(hi - lo, i requires 0 <= i < hi - lo => Numbered(log[lo + i], lo + i + 1))
  }

  lemma {:induction false} VisibleAll(log: seq<Entry>, lo: nat, hi: nat, cutoff: int)
    requires lo <= hi <= |log|
    requires forall i :: lo <= i < hi ==> log[i].rxAt >= cutoff
    ensures Visible(log, lo, hi, cutoff) == All(log, lo, hi)
  {
    if lo < hi {
      VisibleAll(log, lo, hi - 1, cutoff);
      assert All(log, lo, hi) == All(log, lo, hi - 1) + [Numbered(log[hi - 1], hi)];
    }
  }

  lemma AllSplit(log: seq<Entry>, lo: nat, mid: nat, hi: nat)
    requires lo <= mid <= hi <= |log|
    ensures All(log, lo, hi) == All(log, lo, mid) + All(log, mid, hi)
  {
  }

  lemma AllStays(log: seq<Entry>, e: Entry, lo: nat, hi: nat)
    requires lo <= hi <= |log|
    ensures All(log + [e], lo, hi) == All(log, lo, hi)
  {
  }

  /** The client polls often enough: at most a ring's worth of packets arrived since its last
      poll, and none of them has grown too old. */
  predicate KeepsUp(s: Session, now: int) {
    && |s.log| - s.cursor <= RECENT_CAP
    && forall i :: s.cursor <= i < |s.log| ==> s.log[i].rxAt >= now - MAX_AGE
  }

  predicate AlwaysKeepsUp(first: Session, run: seq<Event>, n: nat)
    requires n <= |run|
  {
    n == 0 ||
    (AlwaysKeepsUp(first, run, n - 1)
     && (run[n - 1].Poll? ==> KeepsUp(At(first, run, n - 1), run[n - 1].now)))
  }

  predicate Complete(s: Session, start: nat) {
    start <= s.cursor <= |s.log| && s.received == All(s.log, start, s.cursor)
  }

  lemma StepComplete(s: Session, e: Event, start: nat)
    requires Complete(s, start) && |s.log| < I64
    requires e.Poll? ==> KeepsUp(s, e.now)
    ensures Complete(Next(s, e), start)
  {
    hide Visible, StartAfter, All;
    if e.Poll? {
      HonestCursor(s.cursor, |s.log|, Window(s.log));
      VisibleAll(s.log, s.cursor, |s.log|, e.now - MAX_AGE);
      AllSplit(s.log, start, s.cursor, |s.log|);
    } else {
      AllStays(s.log, e.e, start, s.cursor);
    }
  }

  /** A client that keeps up at every poll is given every packet exactly once, with its ID. */
  lemma {:induction false} SeesEverything(first: Session, run: seq<Event>, n: nat)
    requires Begins(first) && n <= |run| && |first.log| + |run| < I64
    requires AlwaysKeepsUp(first, run, n)
    ensures Complete(At(first, run, n), first.cursor)
  {
    hide Complete, KeepsUp, Next;
    if n == 0 {
      NothingYet(first);
    } else {
      SeesEverything(first, run, n - 1);
      CursorAt(first, run, n - 1);
      StepComplete(At(first, run, n - 1), run[n - 1], first.cursor);
    }
  }

  lemma NothingYet(first: Session)
    requires Begins(first)
    ensures Complete(first, first.cursor)
  {
  }

  /** A client with a cursor not beyond the log is given exactly the packets after it that are among
      the last 200 and at most half an hour old. */
  lemma PolledExact(s: Session, now: int, x: Numbered)
    requires s.cursor <= |s.log| < I64
    ensures x in Polled(s, now) <==>
      && s.cursor < x.id <= |s.log| && x.id > |s.log| - 200
      && s.log[x.id - 1] == x.entry && now - x.entry.rxAt <= 1800000
  {
    hide Visible, StartAfter;
    HonestCursor(s.cursor, |s.log|, Window(s.log));
    VisibleExact(s.log, StartAfter(s.cursor, |s.log| - Window(s.log) + 1), |s.log|, now - MAX_AGE, x);
  }

  /** A cursor beyond the log gets nothing, unless it is so far beyond that it reads as one from
      before the log: then everything that is kept. */
  lemma ForeignCursor(log: seq<Entry>, cursor: nat, size: nat, cutoff: int)
    requires 0 < size <= |log| < I64 && |log| < cursor < 0x1_0000_0000_0000_0000
    ensures Visible(log, StartAfter(cursor, |log| - size + 1), |log|, cutoff) ==
      if cursor < |log| - size + 0x8000_0000_0000_0000 then [] else Visible(log, |log| - size, |log|, cutoff)
  {
  }
}
