/** The station's filters put together in the order of the parse loop: the viscous queue is
    cancelled first, then the duplicate table is asked, then the distance and rate filters, then
    the decision is carried out. Times are explicit, in milliseconds. */
module Station {
  import opened GoText
  import opened Packets
  import opened Ax25
  import opened Gate
  import opened Content
  import Lineages
  import Dupe
  import RateLimit
  import Viscous

  type Key = seq<byte>

  const DUPE_WINDOW: int := 30000
  const MIN_HOLD: int := 3000
  const MAX_HOLD: int := 5000
  const LIMITS: RateLimit.Limits := RateLimit.Limits(30, 15 * RateLimit.MINUTE)

  /** What the gate says about repeating the packet, with the bytes to transmit. */
  datatype Decision = NoRepeat | RepeatNow(raw: seq<byte>) | RepeatLater(raw: seq<byte>)

  /** A packet heard on the air, as far as the filters look at it. */
  datatype Heard = Heard(raw: seq<byte>, key: Key, source: string, now: int, tooFar: bool, decision: Decision)

  /** What became of it. */
  datatype Outcome = Duplicate | TooFar | RateLimited | Decided

  function DecisionOn(raw: seq<byte>, s: Config): Decision {
    match Repeated(raw, s)
    case Some(RelayRF(out, viscous)) => if viscous then RepeatLater(out) else RepeatNow(out)
    case _ => NoRepeat
  }

  /** The packet that a station with this configuration makes of bytes it can read. */
  function Hearing(raw: seq<byte>, s: Config, now: int, tooFar: bool): Heard
    requires DecodeFrame(raw).Ok?
  {
    var f := DecodeFrame(raw).value;
    Heard(raw, ContentKey(f.src, f.dest, f.info), f.src, now, tooFar, DecisionOn(raw, s))
  }

  predicate IsFresh(t: Dupe.Table, h: Heard) {
    !Dupe.IsDupe(t.seen, h.key, h.now, DUPE_WINDOW)
  }

  function OutcomeOf(t: Dupe.Table, l: RateLimit.Limiter, h: Heard): Outcome {
    if !IsFresh(t, h) then Duplicate
    else if h.tooFar then TooFar
    else if !RateLimit.VerdictOn(l, h.source, h.now, LIMITS).ok then RateLimited
    else Decided
  }

  predicate SendsNow(t: Dupe.Table, l: RateLimit.Limiter, h: Heard) {
    OutcomeOf(t, l, h).Decided? && h.decision.RepeatNow?
  }

  /** A transmission marks the content of the very bytes it sends, whatever the table answers. */
  function AfterDispatch(t: Dupe.Table, raw: seq<byte>, now: int): Dupe.Table {
    match KeyOf(raw)
    case None => t
    case Some(key) => Dupe.After(t, key, now, DUPE_WINDOW)
  }

  function TableAfter(t: Dupe.Table, l: RateLimit.Limiter, h: Heard): Dupe.Table {
    var marked := Dupe.After(t, h.key, h.now, DUPE_WINDOW);
    if SendsNow(t, l, h) then AfterDispatch(marked, h.decision.raw, h.now) else marked
  }

  function LimiterAfter(t: Dupe.Table, l: RateLimit.Limiter, h: Heard): RateLimit.Limiter {
    var o := OutcomeOf(t, l, h);
    if o.Duplicate? || o.TooFar? then l else RateLimit.AfterAllow(l, h.source, h.now, LIMITS)
  }

  function QueueAfter<E>(t: Dupe.Table, l: RateLimit.Limiter, q: Viscous.Queue<E>, h: Heard, e: E): Viscous.Queue<E> {
    var cancelled := Viscous.Cancelled(q, h.key);
    if OutcomeOf(t, l, h).Decided? && h.decision.RepeatLater?
    then Viscous.Enqueued(cancelled, h.key, e) else cancelled
  }

  /** The actions decided for a frame hold its repeat in front, and no other. */
  lemma RepeatInFront(raw: seq<byte>, d: Decoded, s: Config)
    requires DecodeFrame(raw).Ok?
    ensures var actions := FromRF(Packet(Lineages.AirFrame(raw), d), s);
      && actions != []
      && (forall i :: 0 < i < |actions| ==> !actions[i].RelayRF?)
      && DecisionOn(raw, s) == if !actions[0].RelayRF? then NoRepeat
           else if actions[0].viscous then RepeatLater(actions[0].raw) else RepeatNow(actions[0].raw)
  {
    hide DecodeFrame, Digipeat, RFtoIS;
    var p := Packet(Lineages.AirFrame(raw), d);
    Lineages.GatingIsNotRelaying(p, s);
    Lineages.DigipeatRelays(p.frame, s);
  }

  /** The part of the server that the parse loop works on. */
  class Filters {
    const dupe: Dupe.DupeTable
    const limiter: RateLimit.SourceRateLimiter
    const viscous: Viscous.ViscousQueue

    predicate Configured() {
      dupe.window == DUPE_WINDOW && limiter.limits == LIMITS
    }

    constructor ()
      ensures Configured()
      ensures dupe.State() == Dupe.EMPTY && limiter.State() == RateLimit.NEW
      ensures viscous.State() == Viscous.Queue(map[], false)
      ensures fresh(dupe) && fresh(limiter) && fresh(viscous)
    {
      dupe := new Dupe.DupeTable(DUPE_WINDOW);
      limiter := new RateLimit.SourceRateLimiter(LIMITS.threshold, LIMITS.timeout);
      viscous := new Viscous.ViscousQueue();
    }

    /** The marking done by dispatchSendRF before the bytes go to the transmitter. */
    method Dispatch(raw: seq<byte>, now: int)
      requires Configured()
      modifies dupe
      ensures dupe.State() == AfterDispatch(old(dupe.State()), raw, now)
    {
      hide Dupe.After, DecodeFrame, ContentKey;
      var frame := DecodeUIFrame(raw);
      if frame.Ok? {
        var dup := dupe.CheckAndMark(ContentKey(frame.value.src, frame.value.dest, frame.value.info), now);
      }
    }

    /** One turn of the parse loop for bytes heard on the air that decode; decoded is what the
        information field reads as, and tooFar what the distance filter says of it. */
    method HearRF(raw: seq<byte>, decoded: Decoded, s: Config, now: int, tooFar: bool)
      returns (sent: Option<seq<byte>>, outcome: Outcome, entry: Viscous.ViscousEntry)
      requires Configured() && DecodeFrame(raw).Ok?
      modifies dupe, limiter, viscous
      ensures var h := Hearing(raw, s, now, tooFar);
        && outcome == OutcomeOf(old(dupe.State()), old(limiter.State()), h)
        && sent == (if SendsNow(old(dupe.State()), old(limiter.State()), h) then Some(h.decision.raw) else None)
        && dupe.State() == TableAfter(old(dupe.State()), old(limiter.State()), h)
        && limiter.State() == LimiterAfter(old(dupe.State()), old(limiter.State()), h)
        && viscous.State() == QueueAfter(old(dupe.State()), old(limiter.State()), old(viscous.State()), h, entry)
        && fresh(entry) && (h.decision.RepeatLater? && outcome.Decided? ==> entry.action == h.decision.raw)
    {
      hide Dupe.After, Dupe.IsDupe, RateLimit.VerdictOn, RateLimit.AfterAllow, Viscous.Cancelled, Viscous.Enqueued,
           DecodeFrame, FromRF, DecisionOn, ContentKey, AfterDispatch;
      ghost var h := Hearing(raw, s, now, tooFar);
      sent := None;
      entry := new Viscous.ViscousEntry([]);
      var decodedFrame := DecodeUIFrame(raw);
      var f := decodedFrame.value;
      var key := ContentKey(f.src, f.dest, f.info);
      var hit := viscous.CancelIfQueued(key);
      var dup := dupe.CheckAndMark(key, now);
      if dup {
        return None, Duplicate, entry;
      }
      if tooFar {
        return None, TooFar, entry;
      }
      var ok, justBlocked := limiter.Allow(f.src, now);
      assert ok == RateLimit.VerdictOn(old(limiter.State()), f.src, now, LIMITS).ok by {
        assert RateLimit.Verdict(ok, justBlocked).ok == ok;
      }
      if !ok {
        return None, RateLimited, entry;
      }
      sent, entry := CarryOut(raw, decoded, s, key, now);
      return sent, Decided, entry;
    }

    /** The loop over the decided actions; what goes to APRS-IS does not touch the filters. */
    method CarryOut(raw: seq<byte>, decoded: Decoded, s: Config, key: Key, now: int)
      returns (sent: Option<seq<byte>>, entry: Viscous.ViscousEntry)
      requires Configured() && DecodeFrame(raw).Ok?
      modifies dupe, viscous
      ensures var d := DecisionOn(raw, s);
        && sent == (if d.RepeatNow? then Some(d.raw) else None)
        && dupe.State() == (if d.RepeatNow? then AfterDispatch(old(dupe.State()), d.raw, now) else old(dupe.State()))
        && viscous.State() == (if d.RepeatLater? then Viscous.Enqueued(old(viscous.State()), key, entry) else old(viscous.State()))
        && fresh(entry) && (d.RepeatLater? ==> entry.action == d.raw)
    {
      hide Viscous.Enqueued, DecodeFrame, FromRF, DecisionOn, AfterDispatch;
      RepeatInFront(raw, decoded, s);
      ghost var d := DecisionOn(raw, s);
      sent := None;
      entry := new Viscous.ViscousEntry([]);
      var actions := DecideFromRF(Packet(Lineages.AirFrame(raw), decoded), s);
      for i := 0 to |actions|
        invariant fresh(entry)
        invariant i == 0 ==> sent.None? && dupe.State() == old(dupe.State()) && viscous.State() == old(viscous.State())
        invariant i > 0 ==>
          && sent == (if d.RepeatNow? then Some(d.raw) else None)
          && dupe.State() == (if d.RepeatNow? then AfterDispatch(old(dupe.State()), d.raw, now) else old(dupe.State()))
          && viscous.State() == (if d.RepeatLater? then Viscous.Enqueued(old(viscous.State()), key, entry) else old(viscous.State()))
          && (d.RepeatLater? ==> entry.action == d.raw)
      {
        var a := actions[i];
        if a.RelayRF? {
          if a.viscous {
            var queued;
            queued, entry := viscous.Enqueue(key, a.raw);
          } else {
            Dispatch(a.raw, now);
            sent := Some(a.raw);
          }
        }
      }
    }
  }
}
