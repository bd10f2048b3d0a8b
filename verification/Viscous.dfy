/** The queue that holds fill-in digipeats for a few seconds and drops them when another station
    is heard repeating the same content. Timers race cancellation and shutdown: every critical
    section is one step, and steps interleave freely. */
module Viscous {
  import opened GoText

  type Key = seq<byte>

  /** The map under the mutex; E stands for the identity of an entry. */
  datatype Queue<E> = Queue(entries: map<Key, E>, closed: bool)

  predicate Accepts<E>(q: Queue<E>, key: Key) {
    !q.closed && key !in q.entries
  }

  function Enqueued<E>(q: Queue<E>, key: Key, e: E): Queue<E> {
    if Accepts(q, key) then q.(entries := q.entries[key := e]) else q
  }

  /** The entry is still the one stored under its key. */
  predicate Holds<E(==)>(q: Queue<E>, key: Key, e: E) {
    key in q.entries && q.entries[key] == e
  }

  /** The critical section of an entry's timer callback. */
  function Expired<E(==)>(q: Queue<E>, key: Key, e: E): Queue<E> {
    if Holds(q, key, e) then q.(entries := q.entries - {key}) else q
  }

  predicate Fires<E(==)>(q: Queue<E>, key: Key, e: E) {
    Holds(q, key, e) && !q.closed
  }

  function Cancelled<E>(q: Queue<E>, key: Key): Queue<E> {
    q.(entries := q.entries - {key})
  }

  function Stopped<E>(q: Queue<E>): Queue<E> {
    Queue(map[], true)
  }

  /** A queued digipeat; entries are compared by identity. */
  class ViscousEntry {
    const action: seq<byte>

    constructor (action: seq<byte>)
      ensures this.action == action
    {
      this.action := action;
    }
  }

  class ViscousQueue {
    var entries: map<Key, ViscousEntry>
    var closed: bool

    function State(): Queue<ViscousEntry>
      reads this
    {
      Queue(entries, closed)
    }

    constructor ()
      ensures State() == Queue(map[], false)
    {
      entries, closed := map[], false;
    }

    method Enqueue(key: Key, action: seq<byte>) returns (queued: bool, entry: ViscousEntry)
      modifies this
      ensures fresh(entry) && entry.action == action
      ensures queued == Accepts(old(State()), key)
      ensures State() == Enqueued(old(State()), key, entry)
    {
      entry := new ViscousEntry(action);
      if closed {
        return false, entry;
      }
      if key in entries {
        return false, entry;
      }
      entries := entries[key := entry];
      return true, entry;
    }

    /** The timer callback; the result says whether the caller goes on to transmit. */
    method TimerCallback(key: Key, entry: ViscousEntry) returns (fires: bool)
      modifies this
      ensures fires == Fires(old(State()), key, entry)
      ensures State() == Expired(old(State()), key, entry)
    {
      var ok := key in entries;
      var wasClosed := closed;
      var same := ok && entries[key] == entry;
      if same {
        entries := entries - {key};
      }
      return same && !wasClosed;
    }

    method CancelIfQueued(key: Key) returns (hit: bool)
      modifies this
      ensures hit == (key in old(entries))
      ensures State() == Cancelled(old(State()), key)
    {
      if key !in entries {
        assert entries - {key} == entries;
        return false;
      }
      entries := entries - {key};
      return true;
    }

    method Stop()
      modifies this
      ensures State() == Stopped(old(State()))
    {
      closed := true;
      var todo := entries.Keys;
      while todo != {}
        invariant closed && todo == entries.Keys
        decreases |todo|
      {
        var k :| k in todo;
        entries := entries - {k};
        todo := todo - {k};
      }
    }
  }

  // ---- all interleavings ----

  /** An entry, named by the order of acceptance. */
  type Ticket = nat

  /** A timer is armed, or its callback is on the way to the lock, or it is over. */
  datatype Timer = Armed | Running | Over

  /** Owed holds the entries whose callback committed to transmit but has not done so yet. */
  datatype State = State(queue: Queue<Ticket>, next: Ticket, keys: map<Ticket, Key>,
                         timers: map<Ticket, Timer>, owed: set<Ticket>)

  const START: State := State(Queue(map[], false), 0, map[], map[], {})

  datatype Event =
    | Enqueue(key: Key, accepted: bool)
    | Expire(ticket: Ticket)
    | Callback(ticket: Ticket, fires: bool)
    | Fire(ticket: Ticket)
    | Cancel(key: Key, hit: Option<Ticket>)
    | Stop(cut: set<Ticket>)

  function Lookup(q: Queue<Ticket>, key: Key): Option<Ticket> {
    if key in q.entries then Some(q.entries[key]) else None
  }

  /** The event can happen now, with the outcome it carries. */
  predicate Enabled(s: State, e: Event) {
    match e
    case Enqueue(key, accepted) => accepted == Accepts(s.queue, key)
    case Expire(t) => t in s.timers && s.timers[t] == Armed
    case Callback(t, fires) =>
      t in s.timers && s.timers[t] == Running && t in s.keys && fires == Fires(s.queue, s.keys[t], t)
    case Fire(t) => t in s.owed
    case Cancel(key, hit) => hit == Lookup(s.queue, key)
    case Stop(cut) => cut == s.queue.entries.Values
  }

  /** Stopping a timer prevents its callback unless that is already on the way. */
  function Disarmed(timers: map<Ticket, Timer>, cut: set<Ticket>): map<Ticket, Timer> {
    map t | t in timers :: if t in cut && timers[t] == Armed then Over else timers[t]
  }

  function Next(s: State, e: Event): State {
    match e
    case Enqueue(key, accepted) =>
      if accepted then
        State(Enqueued(s.queue, key, s.next), s.next + 1, s.keys[s.next := key], s.timers[s.next := Armed], s.owed)
      else s
    case Expire(t) => s.(timers := s.timers[t := Running])
    case Callback(t, fires) =>
      if t in s.keys then
        s.(queue := Expired(s.queue, s.keys[t], t), timers := s.timers[t := Over],
           owed := if fires then s.owed + {t} else s.owed)
      else s
    case Fire(t) => s.(owed := s.owed - {t})
    case Cancel(key, hit) =>
      s.(queue := Cancelled(s.queue, key),
         timers := Disarmed(s.timers, if hit.Some? then {hit.value} else {}))
    case Stop(cut) => s.(queue := Stopped(s.queue), timers := Disarmed(s.timers, cut))
  }

  function At(run: seq<Event>, n: nat): State
    requires n <= |run|
  {
    if n == 0 then START else Next(At(run, n - 1), run[n - 1])
  }

  predicate Valid(run: seq<Event>) {
    forall i :: 0 <= i < |run| ==> Enabled(At(run, i), run[i])
  }

  /** The entry waits in the queue. */
  predicate Pending(s: State, t: Ticket) {
    t in s.keys && Holds(s.queue, s.keys[t], t)
  }

  /** What holds between any two steps. */
  ghost predicate Inv(s: State) {
    && (forall t: Ticket :: t in s.keys <==> t < s.next)
    && s.timers.Keys == s.keys.Keys
    && (forall k :: k in s.queue.entries ==> s.queue.entries[k] < s.next && s.keys[s.queue.entries[k]] == k)
    && (forall t :: t in s.keys && Pending(s, t) ==> s.timers[t] != Over)
    && (s.queue.closed ==> s.queue.entries == map[])
  }

  lemma StepInv(s: State, e: Event)
    requires Inv(s) && Enabled(s, e)
    ensures Inv(Next(s, e))
  {
    hide Inv, Next, Enabled;
    match e {
      case Enqueue(_, _) => EnqueueInv(s, e);
      case Callback(_, _) => CallbackInv(s, e);
      case Cancel(_, _) => CancelInv(s, e);
      case Stop(_) => StopInv(s, e);
      case _ => TimerInv(s, e);
    }
  }

  lemma EnqueueInv(s: State, e: Event)
    requires Inv(s) && Enabled(s, e) && e.Enqueue?
    ensures Inv(Next(s, e))
  {
  }

  lemma CallbackInv(s: State, e: Event)
    requires Inv(s) && Enabled(s, e) && e.Callback?
    ensures Inv(Next(s, e))
  {
  }

  lemma CancelInv(s: State, e: Event)
    requires Inv(s) && Enabled(s, e) && e.Cancel?
    ensures Inv(Next(s, e))
  {
  }

  lemma StopInv(s: State, e: Event)
    requires Inv(s) && Enabled(s, e) && e.Stop?
    ensures Inv(Next(s, e))
  {
    assert forall t :: t in s.keys ==> !Pending(Next(s, e), t);
  }

  lemma TimerInv(s: State, e: Event)
    requires Inv(s) && Enabled(s, e) && (e.Expire? || e.Fire?)
    ensures Inv(Next(s, e))
  {
  }

  lemma {:induction false} InvAt(run: seq<Event>, n: nat)
    requires Valid(run) && n <= |run|
    ensures Inv(At(run, n))
  {
    hide Inv, Next, Enabled;
    if n == 0 {
      StartInv();
    } else {
      InvAt(run, n - 1);
      StepInv(At(run, n - 1), run[n - 1]);
    }
  }

  lemma StartInv()
    ensures Inv(START)
  {
    assert START.timers.Keys == {} && START.keys.Keys == {};
  }

  // ---- every entry is resolved once ----

  /** The event settles what becomes of the entry: committed to fire, cancelled, or stopped. */
  predicate Resolves(e: Event, t: Ticket) {
    match e
    case Callback(u, fires) => fires && u == t
    case Cancel(_, hit) => hit == Some(t)
    case Stop(cut) => t in cut
    case _ => false
  }

  function Resolutions(run: seq<Event>, t: Ticket, n: nat): nat
    requires n <= |run|
  {
    if n == 0 then 0 else Resolutions(run, t, n - 1) + if Resolves(run[n - 1], t) then 1 else 0
  }

  lemma StepResolves(s: State, e: Event, t: Ticket)
    requires Inv(s) && Enabled(s, e)
    ensures (if t < s.next && !Pending(s, t) then 1 else 0) + (if Resolves(e, t) then 1 else 0)
      == if t < Next(s, e).next && !Pending(Next(s, e), t) then 1 else 0
  {
    if e.Stop? && t in e.cut {
      var k :| k in s.queue.entries && s.queue.entries[k] == t;
      assert Pending(s, t);
    }
    if e.Stop? && Pending(s, t) {
      assert s.keys[t] in s.queue.entries;
      assert t in s.queue.entries.Values;
    }
  }

  /** In every interleaving each accepted entry is resolved exactly once or still pending, and
      nothing that was not accepted is resolved. */
  lemma {:induction false} ResolvedOnce(run: seq<Event>, t: Ticket, n: nat)
    requires Valid(run) && n <= |run|
    ensures Resolutions(run, t, n) == if t < At(run, n).next && !Pending(At(run, n), t) then 1 else 0
  {
    hide Inv, Next, Enabled, Resolves, Pending;
    if n == 0 {
    } else {
      ResolvedOnce(run, t, n - 1);
      InvAt(run, n - 1);
      StepResolves(At(run, n - 1), run[n - 1], t);
    }
  }

  // ---- what fires ----

  function Commits(run: seq<Event>, t: Ticket, n: nat): nat
    requires n <= |run|
  {
    if n == 0 then 0 else Commits(run, t, n - 1) + if run[n - 1] == Callback(t, true) then 1 else 0
  }

  function Transmissions(run: seq<Event>, t: Ticket, n: nat): nat
    requires n <= |run|
  {
    if n == 0 then 0 else Transmissions(run, t, n - 1) + if run[n - 1] == Fire(t) then 1 else 0
  }

  lemma StepOwed(s: State, e: Event, t: Ticket)
    requires Inv(s) && Enabled(s, e)
    ensures (if t in Next(s, e).owed then 1 else 0) + (if e == Fire(t) then 1 else 0)
      <= (if t in s.owed then 1 else 0) + (if e == Callback(t, true) then 1 else 0)
  {
  }

  /** Only what was committed is transmitted. */
  lemma {:induction false} FiresCommitted(run: seq<Event>, t: Ticket, n: nat)
    requires Valid(run) && n <= |run|
    ensures Transmissions(run, t, n) + (if t in At(run, n).owed then 1 else 0) <= Commits(run, t, n)
  {
    hide Inv, Next, Enabled;
    if n > 0 {
      FiresCommitted(run, t, n - 1);
      InvAt(run, n - 1);
      StepOwed(At(run, n - 1), run[n - 1], t);
    }
  }

  lemma {:induction false} OtherResolution(run: seq<Event>, t: Ticket, i: nat, n: nat)
    requires i < n <= |run| && Resolves(run[i], t) && run[i] != Callback(t, true)
    ensures Commits(run, t, n) + 1 <= Resolutions(run, t, n)
    decreases n
  {
    if n == i + 1 {
      CommitsResolve(run, t, i);
    } else {
      OtherResolution(run, t, i, n - 1);
    }
  }

  lemma {:induction false} CommitsResolve(run: seq<Event>, t: Ticket, n: nat)
    requires n <= |run|
    ensures Commits(run, t, n) <= Resolutions(run, t, n)
  {
    if n > 0 {
      CommitsResolve(run, t, n - 1);
    }
  }

  /** An entry that a cancellation hit is not transmitted, neither later nor earlier. */
  lemma CancelledNeverFires(run: seq<Event>, i: nat, t: Ticket)
    requires Valid(run) && i < |run|
    requires run[i].Cancel? && run[i].hit == Some(t)
    ensures forall j :: 0 <= j < |run| ==> run[j] != Fire(t)
  {
    hide Inv, Next, Enabled, Valid;
    ResolvedOnce(run, t, |run|);
    OtherResolution(run, t, i, |run|);
    FiresCommitted(run, t, |run|);
    NoFires(run, t, |run|);
  }

  lemma {:induction false} NoFires(run: seq<Event>, t: Ticket, n: nat)
    requires n <= |run| && Transmissions(run, t, n) == 0
    ensures forall j :: 0 <= j < n ==> run[j] != Fire(t)
  {
    if n > 0 {
      NoFires(run, t, n - 1);
    }
  }

  /** Every entry is transmitted at most once. */
  lemma FiresAtMostOnce(run: seq<Event>, t: Ticket)
    requires Valid(run)
    ensures Transmissions(run, t, |run|) <= 1
  {
    hide Inv, Next, Enabled, Valid;
    ResolvedOnce(run, t, |run|);
    CommitsResolve(run, t, |run|);
    FiresCommitted(run, t, |run|);
  }

  /** A callback takes nothing but its own entry out of the queue. In particular one that comes
      too late neither removes nor fires a newer entry under the same key. */
  lemma CallbackTouchesOwn(run: seq<Event>, i: nat)
    requires Valid(run) && i < |run| && run[i].Callback?
    ensures forall k :: k in At(run, i).queue.entries && At(run, i).queue.entries[k] != run[i].ticket ==>
      k in At(run, i + 1).queue.entries && At(run, i + 1).queue.entries[k] == At(run, i).queue.entries[k]
    ensures !Pending(At(run, i), run[i].ticket) ==> !run[i].fires && At(run, i + 1).queue == At(run, i).queue
    ensures !Pending(At(run, i + 1), run[i].ticket)
  {
    InvAt(run, i);
  }

  // ---- shutdown ----

  lemma {:induction false} StaysClosed(run: seq<Event>, i: nat, n: nat)
    requires Valid(run) && i < n <= |run| && run[i].Stop?
    ensures At(run, n).queue.closed
    decreases n
  {
    hide Next, Enabled;
    StepClosed(At(run, n - 1), run[n - 1]);
    if n > i + 1 {
      StaysClosed(run, i, n - 1);
    }
  }

  lemma StepClosed(s: State, e: Event)
    ensures s.queue.closed || e.Stop? ==> Next(s, e).queue.closed
  {
  }

  /** After Stop nothing is accepted and no callback commits to transmit. */
  lemma NothingAfterStop(run: seq<Event>, i: nat, j: nat)
    requires Valid(run) && i < j < |run| && run[i].Stop?
    ensures run[j].Enqueue? ==> !run[j].accepted
    ensures run[j].Callback? ==> !run[j].fires
  {
    StaysClosed(run, i, j);
  }

  // ---- what is accepted ----

  lemma {:induction false} ClosedMeans(run: seq<Event>, n: nat)
    requires n <= |run|
    ensures At(run, n).queue.closed <==> exists i :: 0 <= i < n && run[i].Stop?
  {
    hide Next;
    if n > 0 {
      ClosedMeans(run, n - 1);
      ClosedStep(At(run, n - 1), run[n - 1]);
    }
  }

  lemma ClosedStep(s: State, e: Event)
    ensures Next(s, e).queue.closed <==> s.queue.closed || e.Stop?
  {
  }

  /** The entry that an accepted Enqueue makes. */
  function TicketOf(run: seq<Event>, j: nat): Ticket
    requires j < |run|
  {
    At(run, j).next
  }

  predicate AcceptedUnder(e: Event, key: Key) {
    e.Enqueue? && e.accepted && e.key == key
  }

  lemma {:induction false} TicketHasKey(run: seq<Event>, j: nat, key: Key, n: nat)
    requires Valid(run) && j < n <= |run| && AcceptedUnder(run[j], key)
    ensures var t := TicketOf(run, j);
      t < At(run, n).next && t in At(run, n).keys && At(run, n).keys[t] == key
    decreases n
  {
    hide Next, Enabled, Inv;
    InvAt(run, n - 1);
    assert Enabled(At(run, n - 1), run[n - 1]);
    KeysStep(At(run, n - 1), run[n - 1]);
    if n > j + 1 {
      TicketHasKey(run, j, key, n - 1);
    }
  }

  lemma {:induction false} KeyHasTicket(run: seq<Event>, t: Ticket, n: nat) returns (j: nat)
    requires Valid(run) && n <= |run| && t in At(run, n).keys
    ensures j < n && AcceptedUnder(run[j], At(run, n).keys[t]) && TicketOf(run, j) == t
  {
    hide Next, Enabled, Inv;
    InvAt(run, n - 1);
    var s := At(run, n - 1);
    assert Enabled(s, run[n - 1]);
    KeysStep(s, run[n - 1]);
    if t in s.keys {
      j := KeyHasTicket(run, t, n - 1);
    } else {
      j := n - 1;
    }
  }

  lemma KeysStep(s: State, e: Event)
    requires Inv(s) && Enabled(s, e)
    ensures s.next <= Next(s, e).next
    ensures forall t :: t in s.keys ==> t in Next(s, e).keys && Next(s, e).keys[t] == s.keys[t]
    ensures forall t :: t in Next(s, e).keys && t !in s.keys ==>
      e.Enqueue? && e.accepted && t == s.next && Next(s, e).keys[t] == e.key
    ensures e.Enqueue? && e.accepted ==>
      s.next in Next(s, e).keys && Next(s, e).keys[s.next] == e.key && s.next < Next(s, e).next
  {
  }

  /** In every interleaving an entry is accepted exactly if the queue was never stopped and every
      earlier entry under the same content has been committed, cancelled or stopped. */
  lemma AcceptedExact(run: seq<Event>, i: nat)
    requires Valid(run) && i < |run| && run[i].Enqueue?
    ensures run[i].accepted <==>
      && (forall j :: 0 <= j < i ==> !run[j].Stop?)
      && (forall j :: 0 <= j < i && AcceptedUnder(run[j], run[i].key) ==> Resolutions(run, TicketOf(run, j), i) == 1)
  {
    hide Next, Resolves, Inv, AcceptedUnder, Resolutions, Pending, At;
    var s, key := At(run, i), run[i].key;
    assert Enabled(s, run[i]);
    ClosedMeans(run, i);
    InvAt(run, i);
    forall j | 0 <= j < i && AcceptedUnder(run[j], key)
      ensures Resolutions(run, TicketOf(run, j), i) == if key in s.queue.entries && s.queue.entries[key] == TicketOf(run, j) then 0 else 1
    {
      TicketHasKey(run, j, key, i);
      ResolvedOnce(run, TicketOf(run, j), i);
      PendingMeans(s, TicketOf(run, j));
    }
    if key in s.queue.entries {
      EntryKnown(s, key);
      var j := KeyHasTicket(run, s.queue.entries[key], i);
    }
  }

  /** A callback commits to transmit exactly if its entry has not been resolved before. */
  lemma FiresExact(run: seq<Event>, i: nat)
    requires Valid(run) && i < |run| && run[i].Callback?
    ensures run[i].fires <==> Resolutions(run, run[i].ticket, i) == 0
  {
    hide Next, Resolutions, At;
    var s, t := At(run, i), run[i].ticket;
    assert Enabled(s, run[i]);
    InvAt(run, i);
    ResolvedOnce(run, t, i);
    TicketKnown(s, t);
  }

  lemma TicketKnown(s: State, t: Ticket)
    requires Inv(s) && t in s.keys
    ensures t < s.next && (Pending(s, t) ==> !s.queue.closed)
  {
  }

  lemma PendingMeans(s: State, t: Ticket)
    requires t in s.keys
    ensures Pending(s, t) <==> s.keys[t] in s.queue.entries && s.queue.entries[s.keys[t]] == t
  {
  }

  lemma EntryKnown(s: State, key: Key)
    requires Inv(s) && key in s.queue.entries
    ensures s.queue.entries[key] in s.keys && s.keys[s.queue.entries[key]] == key
  {
  }

  /** A callback that committed before Stop may still transmit after it. */
  lemma CommittedMayOutliveStop(key: Key)
    ensures var run := [Enqueue(key, true), Expire(0), Callback(0, true), Stop({}), Fire(0)];
      Valid(run)
  {
    var run := [Enqueue(key, true), Expire(0), Callback(0, true), Stop({}), Fire(0)];
    hide Next, Enabled;
    var s1 := State(Queue(map[key := 0], false), 1, map[0 := key], map[0 := Armed], {});
    var s2 := s1.(timers := map[0 := Running]);
    var s3 := State(Queue(map[], false), 1, map[0 := key], map[0 := Over], {0});
    var s4 := s3.(queue := Queue(map[], true));
    OneHeld(key, s1, s2, s3, s4);
    assert At(run, 1) == s1;
    assert At(run, 2) == s2;
    assert At(run, 3) == s3;
    assert At(run, 4) == s4;
  }

  lemma OneHeld(key: Key, s1: State, s2: State, s3: State, s4: State)
    requires s1 == State(Queue(map[key := 0], false), 1, map[0 := key], map[0 := Armed], {})
    requires s2 == s1.(timers := map[0 := Running])
    requires s3 == State(Queue(map[], false), 1, map[0 := key], map[0 := Over], {0})
    requires s4 == s3.(queue := Queue(map[], true))
    ensures Enabled(START, Enqueue(key, true)) && Next(START, Enqueue(key, true)) == s1
    ensures Enabled(s1, Expire(0)) && Next(s1, Expire(0)) == s2
    ensures Enabled(s2, Callback(0, true)) && Next(s2, Callback(0, true)) == s3
    ensures Enabled(s3, Stop({})) && Next(s3, Stop({})) == s4
    ensures Enabled(s4, Fire(0))
  {
    assert s3.queue.entries.Values == {};
    assert Next(s3, Stop({})).timers == s3.timers;
  }
}
