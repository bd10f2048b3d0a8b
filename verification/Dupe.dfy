/** The table of recently seen contents that suppresses repeats. The code's SHA-1 digests are
    modelled as the contents themselves. Times are explicit, in any fixed unit. */
module Dupe {
  import opened GoText

  type Key = seq<byte>
  type Times = map<Key, int>

  const MIN_TRIGGER: nat := 512

  datatype Table = Table(seen: Times, lastGCSize: nat)

  const EMPTY: Table := Table(map[], 0)

  predicate IsDupe(seen: Times, key: Key, now: int, window: int) {
    key in seen && now - seen[key] < window
  }

  function Trigger(lastGCSize: nat): nat {
    if 2 * lastGCSize < MIN_TRIGGER then MIN_TRIGGER else 2 * lastGCSize
  }

  /** What a sweep leaves. */
  function Swept(seen: Times, now: int, window: int): (r: Times)
    ensures r.Keys <= seen.Keys
  {
    map k | k in seen && now - seen[k] <= window :: seen[k]
  }

  predicate Sweeps(t: Table, key: Key, now: int, window: int) {
    !IsDupe(t.seen, key, now, window) && |t.seen[key := now]| > Trigger(t.lastGCSize)
  }

  function After(t: Table, key: Key, now: int, window: int): Table {
    if IsDupe(t.seen, key, now, window) then t
    else
      var marked := t.seen[key := now];
      if Sweeps(t, key, now, window) then
        var left := Swept(marked, now, window);
        Table(left, |left|)
      else Table(marked, t.lastGCSize)
  }

  class DupeTable {
    var seen: Times
    var lastGCSize: nat
    const window: int

    function State(): Table
      reads this
    {
      Table(seen, lastGCSize)
    }

    constructor (window: int)
      ensures State() == EMPTY && this.window == window
    {
      this.window := window;
      seen, lastGCSize := map[], 0;
    }

    method CheckAndMark(key: Key, now: int) returns (dupe: bool)
      modifies this
      ensures dupe == IsDupe(old(seen), key, now, window)
      ensures State() == After(old(State()), key, now, window)
    {
      if key in seen && now - seen[key] < window {
        return true;
      }
      seen := seen[key := now];
      var trigger := lastGCSize * 2;
      if trigger < MIN_TRIGGER {
        trigger := MIN_TRIGGER;
      }
      if |seen| > trigger {
        Sweep(now);
        lastGCSize := |seen|;
      }
      return false;
    }

    method Sweep(now: int)
      modifies this`seen
      ensures seen == Swept(old(seen), now, window)
    {
      var todo := seen.Keys;
      ghost var before := seen;
      while todo != {}
        invariant todo <= seen.Keys <= before.Keys && forall k :: k in seen ==> seen[k] == before[k]
        invariant forall k :: k in before && k !in todo ==> (k in seen <==> now - before[k] <= window)
        decreases |todo|
      {
        var k :| k in todo;
        if now - seen[k] > window {
          seen := seen - {k};
        }
        todo := todo - {k};
      }
    }
  }

  // ---- runs ----

  datatype Mark = Mark(key: Key, now: int)

  predicate Timely(run: seq<Mark>) {
    forall i, j :: 0 <= i < j < |run| ==> run[i].now <= run[j].now
  }

  /** The table after the first n marks. */
  function At(run: seq<Mark>, window: int, n: nat): Table
    requires n <= |run|
  {
    if n == 0 then EMPTY
    else After(At(run, window, n - 1), run[n - 1].key, run[n - 1].now, window)
  }

  /** The same without ever sweeping: the time of each content's last fresh mark. */
  function Ideal(run: seq<Mark>, window: int, n: nat): Times
    requires n <= |run|
  {
    if n == 0 then map[]
    else
      var before, m := Ideal(run, window, n - 1), run[n - 1];
      if IsDupe(before, m.key, m.now, window) then before else before[m.key := m.now]
  }

  /** The answer to the i-th mark. */
  predicate Fresh(run: seq<Mark>, window: int, i: nat)
    requires i < |run|
  {
    !IsDupe(At(run, window, i).seen, run[i].key, run[i].now, window)
  }

  predicate IdealFresh(run: seq<Mark>, window: int, i: nat)
    requires i < |run|
  {
    !IsDupe(Ideal(run, window, i), run[i].key, run[i].now, window)
  }

  /** What a sweep dropped is too old to matter from then on. */
  predicate Agree(seen: Times, ideal: Times, now: int, window: int) {
    && (forall k :: k in seen ==> k in ideal && ideal[k] == seen[k])
    && (forall k :: k in ideal && k !in seen ==> now - ideal[k] > window)
  }

  lemma MarkAgrees(t: Table, ideal: Times, key: Key, before: int, now: int, window: int)
    requires Agree(t.seen, ideal, before, window) && before <= now
    ensures IsDupe(t.seen, key, now, window) == IsDupe(ideal, key, now, window)
    ensures Agree(After(t, key, now, window).seen,
                  if IsDupe(ideal, key, now, window) then ideal else ideal[key := now], now, window)
  {
    hide Trigger;
  }

  lemma {:induction false} AgreeAt(run: seq<Mark>, window: int, n: nat)
    requires Timely(run) && n <= |run|
    ensures Agree(At(run, window, n).seen, Ideal(run, window, n), if n == 0 then 0 else run[n - 1].now, window)
  {
    hide After, Agree, IsDupe;
    if n == 1 {
      assert Agree(map[], map[], run[0].now, window) by { AgreeEmpty(run[0].now, window); }
      MarkAgrees(EMPTY, map[], run[0].key, run[0].now, run[0].now, window);
    } else if n > 1 {
      AgreeAt(run, window, n - 1);
      MarkAgrees(At(run, window, n - 1), Ideal(run, window, n - 1), run[n - 1].key, run[n - 2].now, run[n - 1].now, window);
    } else {
      AgreeEmpty(0, window);
    }
  }

  lemma AgreeEmpty(now: int, window: int)
    ensures Agree(map[], map[], now, window)
  {
  }

  /** Sweeping changes no answer. */
  lemma SweepUnobservable(run: seq<Mark>, window: int, i: nat)
    requires Timely(run) && i < |run|
    ensures Fresh(run, window, i) == IdealFresh(run, window, i)
  {
    hide After, Agree;
    AgreeAt(run, window, i);
    if i > 0 {
      MarkAgrees(At(run, window, i), Ideal(run, window, i), run[i].key, run[i - 1].now, run[i].now, window);
    }
  }

  /** The last fresh mark of a content, if it was ever marked. */
  lemma {:induction false} LastFresh(run: seq<Mark>, window: int, n: nat, key: Key) returns (l: int)
    requires n <= |run|
    ensures -1 <= l < n
    ensures l >= 0 <==> key in Ideal(run, window, n)
    ensures l < 0 ==> forall i :: 0 <= i < n ==> run[i].key != key
    ensures l >= 0 ==> run[l].key == key && IdealFresh(run, window, l) && Ideal(run, window, n)[key] == run[l].now
    ensures l >= 0 ==> forall i :: l < i < n && run[i].key == key ==> !IdealFresh(run, window, i)
  {
    if n == 0 {
      l := -1;
    } else {
      l := LastFresh(run, window, n - 1, key);
      if run[n - 1].key == key && IdealFresh(run, window, n - 1) {
        l := n - 1;
      }
    }
  }

  /** Two fresh answers for one content are at least the window apart. */
  lemma FreshSpacing(run: seq<Mark>, window: int, i: nat, j: nat)
    requires Timely(run) && i < j < |run| && run[i].key == run[j].key
    requires Fresh(run, window, i) && Fresh(run, window, j)
    ensures run[j].now - run[i].now >= window
  {
    hide At, Ideal, Fresh, IdealFresh;
    SweepUnobservable(run, window, i);
    SweepUnobservable(run, window, j);
    var l := LastFresh(run, window, j, run[j].key);
    assert l >= i;
    assert run[j].now - run[l].now >= window by {
      FreshIsOld(run, window, j, l);
    }
  }

  lemma FreshIsOld(run: seq<Mark>, window: int, j: nat, l: nat)
    requires l < j < |run| && IdealFresh(run, window, j)
    requires run[j].key in Ideal(run, window, j) && Ideal(run, window, j)[run[j].key] == run[l].now
    ensures run[j].now - run[l].now >= window
  {
  }

  /** A duplicate answer always has a fresh one less than the window before it. */
  lemma DupeWitness(run: seq<Mark>, window: int, j: nat) returns (i: nat)
    requires Timely(run) && j < |run| && !Fresh(run, window, j)
    ensures i < j && run[i].key == run[j].key && Fresh(run, window, i)
    ensures run[j].now - run[i].now < window
  {
    SweepUnobservable(run, window, j);
    i := LastFresh(run, window, j, run[j].key);
    SweepUnobservable(run, window, i);
  }

  /** A mark is answered fresh exactly if every earlier fresh one of its content is at least the
      window before it. */
  lemma FreshExact(run: seq<Mark>, window: int, j: nat)
    requires Timely(run) && j < |run|
    ensures Fresh(run, window, j) <==>
      forall i :: 0 <= i < j && run[i].key == run[j].key && Fresh(run, window, i) ==> run[j].now - run[i].now >= window
  {
    hide Fresh;
    if Fresh(run, window, j) {
      forall i | 0 <= i < j && run[i].key == run[j].key && Fresh(run, window, i)
        ensures run[j].now - run[i].now >= window
      {
        FreshSpacing(run, window, i, j);
      }
    } else {
      var i := DupeWitness(run, window, j);
    }
  }

  // ---- how large the table gets and what its sweeps cost ----

  lemma {:induction false} SizeBound(run: seq<Mark>, window: int, n: nat)
    requires n <= |run|
    ensures var t := At(run, window, n);
      && t.lastGCSize <= |t.seen|
      && (|t.seen| <= 512 || |t.seen| <= 2 * t.lastGCSize)
  {
    if n > 0 {
      SizeBound(run, window, n - 1);
    }
  }

  /** Entries visited by the sweeps of the first n marks. */
  function Walked(run: seq<Mark>, window: int, n: nat): nat
    requires n <= |run|
  {
    if n == 0 then 0
    else
      var t, m := At(run, window, n - 1), run[n - 1];
      Walked(run, window, n - 1) + if Sweeps(t, m.key, m.now, window) then |t.seen[m.key := m.now]| else 0
  }

  /** Marks that added a key to the table. */
  function Inserted(run: seq<Mark>, window: int, n: nat): nat
    requires n <= |run|
  {
    if n == 0 then 0
    else
      Inserted(run, window, n - 1) + if run[n - 1].key in At(run, window, n - 1).seen then 0 else 1
  }

  lemma MarkCost(t: Table, key: Key, now: int, window: int)
    requires t.lastGCSize <= |t.seen|
    ensures var u := After(t, key, now, window);
      var walked := if Sweeps(t, key, now, window) then |t.seen[key := now]| else 0;
      var inserted := if key in t.seen then 0 else 1;
      walked + 2 * (|u.seen| - u.lastGCSize) <= 2 * (|t.seen| - t.lastGCSize) + 2 * inserted
  {
    hide Swept;
    var marked := t.seen[key := now];
    assert marked.Keys == t.seen.Keys + {key};
    assert |marked| == |marked.Keys| && |t.seen| == |t.seen.Keys|;
    assert |marked| == |t.seen| + if key in t.seen then 0 else 1;
    if IsDupe(t.seen, key, now, window) {
      assert key in t.seen;
    }
  }

  /** All sweeps together visit at most two entries for every key ever inserted. */
  lemma {:induction false} SweepsAmortized(run: seq<Mark>, window: int, n: nat)
    requires n <= |run|
    ensures Walked(run, window, n) + 2 * (|At(run, window, n).seen| - At(run, window, n).lastGCSize)
      <= 2 * Inserted(run, window, n)
    ensures Walked(run, window, n) <= 2 * Inserted(run, window, n)
  {
    hide After, Sweeps;
    SizeBound(run, window, n);
    if n > 0 {
      SweepsAmortized(run, window, n - 1);
      SizeBound(run, window, n - 1);
      MarkCost(At(run, window, n - 1), run[n - 1].key, run[n - 1].now, window);
    }
  }
}
