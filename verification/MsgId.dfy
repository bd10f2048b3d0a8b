/** The allocator of outbound message IDs: blocks of IDs are reserved on disk and handed out from
    memory, so that a crash skips IDs instead of repeating them. Every save is taken to succeed. */
module MsgId {

  const LAST: int := 99999
  const BLOCK: int := 100

  /** The watermark on disk and the block in memory. */
  datatype Ids = Ids(persisted: int, cur: int, end: int)

  /** The watermark as it is read: anything out of range counts as 1. */
  function Watermark(persisted: int): int {
    if persisted <= 0 || persisted > LAST then 1 else persisted
  }

  predicate Exhausted(s: Ids) {
    s.cur >= s.end || s.cur <= 0 || s.cur > LAST
  }

  function Reserved(s: Ids): Ids {
    var start := Watermark(s.persisted);
    var end := if start + BLOCK > LAST + 1 then LAST + 1 else start + BLOCK;
    Ids(if end >= LAST + 1 then 1 else end, start, end)
  }

  function Ready(s: Ids): Ids {
    if Exhausted(s) then Reserved(s) else s
  }

  function Allocated(s: Ids): Ids {
    var r := Ready(s);
    if r.cur + 1 > LAST then r.(cur := 0, end := 0) else r.(cur := r.cur + 1)
  }

  /** A crash or restart loses the block. */
  function Restarted(s: Ids): Ids {
    Ids(s.persisted, 0, 0)
  }

  class Store {
    var nextMsgID: int
    var msgIDCur: int
    var msgIDEnd: int

    function State(): Ids
      reads this
    {
      Ids(nextMsgID, msgIDCur, msgIDEnd)
    }

    /** Opening the store after a restart finds what was saved last. */
    constructor Open(saved: int)
      ensures State() == Ids(saved, 0, 0)
    {
      nextMsgID, msgIDCur, msgIDEnd := saved, 0, 0;
    }

    method NextOutboundMsgID() returns (n: int)
      modifies this
      ensures n == Ready(old(State())).cur
      ensures State() == Allocated(old(State()))
    {
      if msgIDCur >= msgIDEnd || msgIDCur <= 0 || msgIDCur > LAST {
        ReserveMsgIDBlock();
      }
      n := msgIDCur;
      msgIDCur := msgIDCur + 1;
      if msgIDCur > LAST {
        msgIDCur := 0;
        msgIDEnd := 0;
      }
    }

    method ReserveMsgIDBlock()
      modifies this
      ensures State() == Reserved(old(State()))
    {
      var persisted := nextMsgID;
      if persisted <= 0 || persisted > LAST {
        persisted := 1;
      }
      msgIDCur := persisted;
      var end := persisted + BLOCK;
      if end > LAST + 1 {
        end := LAST + 1;
      }
      msgIDEnd := end;
      if end >= LAST + 1 {
        nextMsgID := 1;
      } else {
        nextMsgID := end;
      }
    }
  }

  // ---- runs ----

  datatype Event = Alloc | Restart

  function At(saved: int, run: seq<Event>, n: nat): Ids
    requires n <= |run|
  {
    if n == 0 then Ids(saved, 0, 0)
    else
      var s := At(saved, run, n - 1);
      if run[n - 1].Alloc? then Allocated(s) else Restarted(s)
  }

  /** The ID that the n-th event hands out. */
  function IdAt(saved: int, run: seq<Event>, n: nat): int
    requires n < |run| && run[n].Alloc?
  {
    Ready(At(saved, run, n)).cur
  }

  /** The unbounded counter behind the IDs: the next value to hand out, and the first value not
      reserved yet. */
  datatype Counter = Counter(next: nat, reserved: nat)

  function Count(saved: int, run: seq<Event>, n: nat): Counter
    requires n <= |run|
  {
    if n == 0 then Counter(Watermark(saved) - 1, Watermark(saved) - 1)
    else
      var s, c := At(saved, run, n - 1), Count(saved, run, n - 1);
      if run[n - 1].Restart? then Counter(c.reserved, c.reserved)
      else if Exhausted(s) then Counter(c.next + 1, c.next + Reserved(s).end - Reserved(s).cur)
      else Counter(c.next + 1, c.reserved)
  }

  function IdOf(v: nat): int {
    v % LAST + 1
  }

  /** How the stored numbers represent the counter. */
  predicate Represents(s: Ids, c: Counter) {
    && Watermark(s.persisted) == IdOf(c.reserved)
    && c.next <= c.reserved <= c.next + BLOCK - 1
    && (if Exhausted(s) then c.next == c.reserved
        else s.cur == IdOf(c.next) && s.end - s.cur == c.reserved - c.next && s.end <= LAST + 1)
  }

  lemma IdStep(v: nat, k: nat)
    ensures IdOf(v) + k <= LAST ==> IdOf(v + k) == IdOf(v) + k
    ensures IdOf(v) + k == LAST + 1 ==> IdOf(v + k) == 1
  {
    var q := v / LAST;
    assert v == q * LAST + v % LAST;
    if IdOf(v) + k <= LAST {
      ModUnique(v + k, q, v % LAST + k);
    } else if IdOf(v) + k == LAST + 1 {
      assert v + k == (q + 1) * LAST + 0;
      ModUnique(v + k, q + 1, 0);
    }
  }

  lemma ModUnique(x: nat, q: nat, r: nat)
    requires x == q * LAST + r && r < LAST
    ensures x % LAST == r
  {
  }

  lemma AllocRepresents(s: Ids, c: Counter)
    requires Represents(s, c)
    ensures Ready(s).cur == IdOf(c.next)
    ensures Represents(Allocated(s),
      if Exhausted(s) then Counter(c.next + 1, c.next + Reserved(s).end - Reserved(s).cur) else Counter(c.next + 1, c.reserved))
  {
    IdStep(c.next, 1);
    if Exhausted(s) {
      IdStep(c.next, Reserved(s).end - Reserved(s).cur);
    }
  }

  lemma {:induction false} RepresentsAt(saved: int, run: seq<Event>, n: nat)
    requires n <= |run|
    ensures Represents(At(saved, run, n), Count(saved, run, n))
  {
    hide Allocated;
    if n > 0 {
      RepresentsAt(saved, run, n - 1);
      if run[n - 1].Alloc? {
        AllocRepresents(At(saved, run, n - 1), Count(saved, run, n - 1));
      }
    }
  }

  /** Every ID handed out is the counter modulo the size of the name space, plus one. */
  lemma IdIsCounter(saved: int, run: seq<Event>, n: nat)
    requires n < |run| && run[n].Alloc?
    ensures IdAt(saved, run, n) == Count(saved, run, n).next % 99999 + 1
    ensures 1 <= IdAt(saved, run, n) <= 99999
  {
    hide Allocated, Represents;
    RepresentsAt(saved, run, n);
    AllocRepresents(At(saved, run, n), Count(saved, run, n));
  }

  /** An allocation moves the counter by one, a restart by at most one less than a block. */
  lemma CounterStep(saved: int, run: seq<Event>, n: nat)
    requires n < |run|
    ensures run[n].Alloc? ==> Count(saved, run, n + 1).next == Count(saved, run, n).next + 1
    ensures run[n].Restart? ==>
      0 <= Count(saved, run, n + 1).next - Count(saved, run, n).next <= 99
  {
    hide Allocated;
    RepresentsAt(saved, run, n);
  }

  /** The cost of the events from i up to j: one per allocation, a block less one per restart. */
  function Cost(run: seq<Event>, i: nat, j: nat): nat
    requires i <= j <= |run|
  {
    if i == j then 0 else Cost(run, i, j - 1) + if run[j - 1].Alloc? then 1 else BLOCK - 1
  }

  lemma {:induction false} CounterAdvance(saved: int, run: seq<Event>, i: nat, j: nat)
    requires i <= j <= |run|
    ensures 0 <= Count(saved, run, j).next - Count(saved, run, i).next <= Cost(run, i, j)
    ensures i < j && run[i].Alloc? ==> Count(saved, run, i).next < Count(saved, run, j).next
    decreases j - i
  {
    hide Count;
    if i < j {
      CounterAdvance(saved, run, i, j - 1);
      CounterStep(saved, run, j - 1);
      if j == i + 1 {
        CounterAdvance(saved, run, i, i);
      }
    }
  }

  /** No two allocations get the same ID, however often the station restarts, until allocations
      and skipped IDs together have used up the name space. */
  lemma NoReuse(saved: int, run: seq<Event>, i: nat, j: nat)
    requires i < j < |run| && run[i].Alloc? && run[j].Alloc?
    requires Cost(run, i, j) < LAST
    ensures IdAt(saved, run, i) != IdAt(saved, run, j)
  {
    hide Count, IdAt;
    IdIsCounter(saved, run, i);
    IdIsCounter(saved, run, j);
    CounterAdvance(saved, run, i, j);
    var v, w := Count(saved, run, i).next, Count(saved, run, j).next;
    Distinct(v, w);
  }

  lemma Distinct(v: nat, w: nat)
    requires v < w < v + LAST
    ensures IdOf(v) != IdOf(w)
  {
    var k := w - v;
    IdStep(v, if IdOf(v) + k <= LAST then k else LAST + 1 - IdOf(v));
    if IdOf(v) + k > LAST {
      var m := LAST + 1 - IdOf(v);
      IdStep(v + m, k - m);
    }
  }

  /** Without a restart between them, one ID follows the other cyclically. */
  lemma Successor(saved: int, run: seq<Event>, n: nat)
    requires n + 1 < |run| && run[n].Alloc? && run[n + 1].Alloc?
    ensures IdAt(saved, run, n + 1) == if IdAt(saved, run, n) == 99999 then 1 else IdAt(saved, run, n) + 1
  {
    hide Count, IdAt;
    IdIsCounter(saved, run, n);
    IdIsCounter(saved, run, n + 1);
    CounterStep(saved, run, n);
    IdStep(Count(saved, run, n).next, 1);
  }

  /** A reservation takes the hundred IDs from the watermark on, or those up to 99999 if there are
      fewer, and saves the one after them, or 1. */
  lemma ReservedExact(s: Ids)
    ensures var r, start := Reserved(s), if 1 <= s.persisted <= 99999 then s.persisted else 1;
      && r.cur == start
      && r.end == (if start <= 99900 then start + 100 else 100000)
      && r.persisted == (if start <= 99899 then start + 100 else 1)
  {
  }

  /** A restart right after the first ID of a full block skips the other 99. */
  lemma SkipAttained(saved: int)
    requires 1 <= saved <= 99800
    ensures var run := [Alloc, Restart, Alloc];
      IdAt(saved, run, 0) == saved && IdAt(saved, run, 2) == saved + 100
  {
    var run := [Alloc, Restart, Alloc];
    assert At(saved, run, 0) == Ids(saved, 0, 0);
    assert At(saved, run, 1) == Ids(saved + 100, saved + 1, saved + 100);
    assert At(saved, run, 2) == Ids(saved + 100, 0, 0);
  }
}
