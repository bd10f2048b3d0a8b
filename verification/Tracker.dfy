/** The tracker of stations whose message was gated to the air: each may have one position
    gated after it. Times are explicit and in any fixed unit. */
module Tracker {
  import opened GoText

  const CAP: nat := 4096

  type Expiries = map<string, int>

  /** What a sweep at a given time leaves. */
  function Unexpired(m: Expiries, now: int): (r: Expiries)
    ensures r.Keys <= m.Keys
  {
    map k | k in m && now <= m[k] :: m[k]
  }

  /** The answer that consuming a key gives. */
  predicate Grants(m: Expiries, key: string, now: int) {
    key in m && now < m[key]
  }

  /** The cap keeps as many entries as it can, and drops only entries that expire no later than
      any that stay. */
  ghost predicate Trimmed(before: Expiries, after: Expiries) {
    && after.Keys <= before.Keys
    && (forall k :: k in after ==> after[k] == before[k])
    && |after| == (if |before| <= CAP then |before| else CAP)
    && (forall k, j :: k in before && k !in after && j in after ==> before[k] <= after[j])
  }

  lemma TrimmedSelf(m: Expiries)
    requires |m| <= CAP
    ensures Trimmed(m, m)
  {
  }

  lemma WithoutSize(m: Expiries, key: string)
    requires key in m
    ensures |m - {key}| == |m| - 1
  {
    assert (m - {key}).Keys == m.Keys - {key};
    assert |m - {key}| == |(m - {key}).Keys| && |m| == |m.Keys|;
  }

  class MessagedRecipientTracker {
    var m: Expiries
    const ttl: int

    ghost predicate Valid()
      reads this
    {
      |m| <= CAP && "" !in m
    }

    constructor (ttl: int)
      ensures Valid() && m == map[] && this.ttl == ttl
    {
      this.ttl := ttl;
      m := map[];
    }

    method Record(call: string, now: int, gcNow: int)
      requires Valid()
      modifies this
      ensures Valid() && |m| <= 4096
      ensures call == "" ==> m == old(m)
      ensures call != "" ==> Trimmed(Unexpired(old(m)[Upper(call) := now + ttl], gcNow), m)
    {
      if call == "" {
        return;
      }
      var key := Upper(call);
      m := m[key := now + ttl];
      Gc(gcNow);
      ghost var swept := m;
      assert |swept| <= CAP + 1 by {
        assert swept.Keys <= old(m).Keys + {key};
        SubsetSize(swept.Keys, old(m).Keys + {key});
      }
      if |m| <= CAP {
        TrimmedSelf(m);
      }
      while |m| > CAP
        invariant "" !in m
        invariant if |m| > CAP then m == swept && |m| == CAP + 1 else Trimmed(swept, m)
        decreases |m|
      {
        var oldest := Oldest();
        WithoutSize(m, oldest);
        m := m - {oldest};
      }
    }

    /** The inner loop of the eviction: a key of minimal expiry. */
    method Oldest() returns (key: string)
      requires |m| > 0 && "" !in m
      ensures key in m && forall k :: k in m ==> m[key] <= m[k]
    {
      key := "";
      var exp := 0;
      var todo := m.Keys;
      while todo != {}
        invariant todo <= m.Keys
        invariant key == "" ==> todo == m.Keys
        invariant key != "" ==> key in m && exp == m[key] && forall k :: k in m && k !in todo ==> exp <= m[k]
        decreases |todo|
      {
        var k :| k in todo;
        if key == "" || m[k] < exp {
          key, exp := k, m[k];
        }
        todo := todo - {k};
      }
      assert |m.Keys| == |m|;
    }

    method Consume(call: string, now: int) returns (ok: bool)
      requires Valid()
      modifies this
      ensures Valid()
      ensures call == "" ==> !ok && m == old(m)
      ensures call != "" ==> ok == Grants(old(m), Upper(call), now) && m == old(m) - {Upper(call)}
    {
      if call == "" {
        return false;
      }
      var key := Upper(call);
      if key !in m {
        assert m - {key} == m;
        return false;
      }
      var exp := m[key];
      WithoutSize(m, key);
      m := m - {key};
      return now < exp;
    }

    /** The sweep, entry by entry. */
    method Gc(now: int)
      modifies this
      ensures m == Unexpired(old(m), now)
    {
      var todo := m.Keys;
      ghost var before := m;
      while todo != {}
        invariant m.Keys <= before.Keys && forall k :: k in m ==> m[k] == before[k]
        invariant todo <= m.Keys
        invariant forall k :: k in before && k !in todo ==> (k in m <==> now <= before[k])
        decreases |todo|
      {
        var k :| k in todo;
        if now > m[k] {
          m := m - {k};
        }
        todo := todo - {k};
      }
    }
  }

  lemma SubsetSize<T>(a: set<T>, b: set<T>)
    requires a <= b
    ensures |a| <= |b|
  {
    if a != {} {
      var x :| x in a;
      SubsetSize(a - {x}, b - {x});
    }
  }
}
