/** What one digipeat does to a path: how hops are accounted for, in which order used and unused
    ones stand, and which marks it sets and keeps. */
module RelayNetwork {
  import opened GoText
  import opened Ax25
  import opened Gate

  // ---- used hops ----

  function UsedCount(path: seq<string>): (n: nat)
    ensures n <= |path|
  {
    if path == [] then 0 else (if IsUsed(path[0]) then 1 else 0) + UsedCount(path[1..])
  }

  lemma {:induction false} UsedCountConcat(a: seq<string>, b: seq<string>)
    ensures UsedCount(a + b) == UsedCount(a) + UsedCount(b)
  {
    if a == [] {
      assert a + b == b;
    } else {
      assert (a + b)[1..] == a[1..] + b;
      UsedCountConcat(a[1..], b);
    }
  }

  /** More hops used wherever they were used before. */
  lemma {:induction false} UsedCountGrows(a: seq<string>, b: seq<string>)
    requires |a| == |b|
    requires forall i :: 0 <= i < |a| && IsUsed(a[i]) ==> IsUsed(b[i])
    ensures UsedCount(a) <= UsedCount(b)
  {
    if a != [] {
      assert forall i :: 0 <= i < |a[1..]| ==> a[1..][i] == a[i + 1] && b[1..][i] == b[i + 1];
      UsedCountGrows(a[1..], b[1..]);
    }
  }

  lemma UsedCountSingle(hop: string)
    ensures UsedCount([hop]) == if IsUsed(hop) then 1 else 0
  {
    assert [hop][1..] == [];
  }

  lemma MarkedIsUsed(hop: string, call: string)
    ensures IsUsed(Marked(hop)) && Bare(Marked(hop)) == Bare(hop)
    ensures IsUsed(call + "*") && Bare(call + "*") == call
  {
    assert (call + "*")[..|call|] == call;
    assert (hop + "*")[..|hop|] == hop;
  }

  // ---- exact accounting of a flood digipeat ----

  /** How many relays the hop still asks for, as a station with these aliases reads it. */
  function Remaining(hop: string, aliases: seq<string>): nat {
    if IsUsed(hop) then 0
    else
      match ParseFlood(hop, aliases)
      case None => 0
      case Some(f) => f.counts.hops
  }

  function TotalRemaining(path: seq<string>, aliases: seq<string>): nat {
    if path == [] then 0 else Remaining(path[0], aliases) + TotalRemaining(path[1..], aliases)
  }

  lemma {:induction false} TotalConcat(a: seq<string>, b: seq<string>, aliases: seq<string>)
    ensures TotalRemaining(a + b, aliases) == TotalRemaining(a, aliases) + TotalRemaining(b, aliases)
  {
    hide Remaining;
    if a == [] {
      assert a + b == b;
    } else {
      assert (a + b)[1..] == a[1..] + b;
      TotalConcat(a[1..], b, aliases);
    }
  }

  lemma TotalSingle(hop: string, aliases: seq<string>)
    ensures TotalRemaining([hop], aliases) == Remaining(hop, aliases)
  {
    hide Remaining;
    assert [hop][1..] == [];
  }

  /** The two numerals are the only way to read the end of a rewritten token. */
  lemma TokenSuffix(token: string, rest: string, d: char, m: char)
    requires |token| >= 3 && token[|token| - 3..] == [d, '-', m] && IsDigit(d) && IsDigit(m)
    requires |rest| <= |token| && rest == token[|token| - |rest|..]
    requires ParseCounts(rest).Some?
    ensures ParseCounts(rest).value == Counts(DigitValue(d), DigitValue(m))
  {
    hide IndexOf, Numeral;
    var dash := IndexOf(rest, '-');
    var x, t := rest[..dash], rest[dash + 1..];
    var n := |token|;
    assert token[n - 3] == d && token[n - 2] == '-' && token[n - 1] == m;
    assert forall i :: 0 <= i < |t| ==> t[i] == token[n - |t| + i];
    assert rest[dash] == token[n - |t| - 1];
    AtoiChars(t);
    assert |t| == 1 && t == [m];
    OneDigit(m);
    assert x[|x| - 1] == token[n - 3];
    SmallNumeral(x);
  }

  lemma OneDigit(m: char)
    requires IsDigit(m)
    ensures Atoi([m]) == Some(DigitValue(m))
  {
    AtoiOfItoa(DigitValue(m));
    assert Itoa(DigitValue(m)) == [m];
  }

  lemma CountsOfToken(d: char, m: char)
    requires IsDigit(d) && IsDigit(m) && 1 <= DigitValue(d) <= 7 && DigitValue(m) <= 7
    ensures ParseCounts([d, '-', m]) == Some(Counts(DigitValue(d), DigitValue(m)))
  {
    hide IndexOf, Atoi;
    var rest := [d, '-', m];
    assert rest == [d] + ['-'] + [m];
    IndexOfFirst([d], '-', [m]);
    assert rest[..1] == [d] && rest[2..] == [m];
    OneDigit(d);
    OneDigit(m);
  }

  lemma {:induction false} FindAliasComplete(hopUp: string, aliases: seq<string>, a: string)
    requires a in aliases && ParseAlias(hopUp, AliasKey(a)).Some?
    ensures FindAlias(hopUp, aliases).Some?
  {
    hide ParseAlias, AliasKey;
    if a != aliases[0] {
      FindAliasComplete(hopUp, aliases[1..], a);
    }
  }

  /** A token rewritten for one hop less is again a flood token, of the same width and asking for
      exactly one less. */
  lemma TokenRemaining(hop: string, aliases: seq<string>)
    requires ParseFlood(hop, aliases).Some?
    requires 1 <= ParseFlood(hop, aliases).value.counts.hops
    ensures var f := ParseFlood(hop, aliases).value;
      && !IsUsed(FloodToken(f))
      && ParseFlood(FloodToken(f), aliases).Some?
      && ParseFlood(FloodToken(f), aliases).value.counts == Counts(f.counts.n, f.counts.hops - 1)
  {
    hide FindAlias, ParseCounts, ParseWide, IndexOf, TrimSpace;
    var f := ParseFlood(hop, aliases).value;
    FloodCounts(hop, aliases);
    var d, m := DigitChar(f.counts.n), DigitChar(f.counts.hops - 1);
    var token := FloodToken(f);
    assert token == f.prefix + [d, '-', m];
    assert token[|f.prefix|..] == [d, '-', m];
    if f.wide {
      WideToken(token, d, m);
    } else {
      AliasToken(token, f.prefix, d, m, aliases);
    }
  }

  lemma FloodCounts(hop: string, aliases: seq<string>)
    requires ParseFlood(hop, aliases).Some?
    ensures var f := ParseFlood(hop, aliases).value;
      && 1 <= f.counts.n <= 7 && f.counts.hops <= 7
      && (f.wide ==> f.prefix == "WIDE")
      && (!f.wide ==> f.prefix != "" && exists a :: a in aliases && f.prefix == AliasKey(a))
  {
    hide FindAlias, ParseCounts, AliasKey;
  }

  lemma WideToken(token: string, d: char, m: char)
    requires token == "WIDE" + [d, '-', m] && IsDigit(d) && IsDigit(m)
    requires 1 <= DigitValue(d) <= 7 && DigitValue(m) <= 7
    ensures !IsUsed(token)
    ensures ParseWide(token) == Some(Counts(DigitValue(d), DigitValue(m)))
  {
    hide ParseCounts;
    CountsOfToken(d, m);
    assert Upper(token)[..4] == "WIDE";
    assert token[4..] == [d, '-', m];
  }

  lemma AliasToken(token: string, key: string, d: char, m: char, aliases: seq<string>)
    requires token == key + [d, '-', m] && IsDigit(d) && IsDigit(m) && key != ""
    requires 1 <= DigitValue(d) <= 7 && DigitValue(m) <= 7
    requires exists a :: a in aliases && key == AliasKey(a)
    ensures !IsUsed(token)
    ensures ParseFlood(token, aliases).Some?
    ensures ParseFlood(token, aliases).value.counts == Counts(DigitValue(d), DigitValue(m))
  {
    hide ParseCounts, FindAlias, TrimSpace;
    var a :| a in aliases && key == AliasKey(a);
    CountsOfToken(d, m);
    UpperTwice(TrimSpace(a));
    assert Upper(token) == token;
    assert token[..|key|] == key && token[|key|..] == [d, '-', m];
    assert token[|token| - 3..] == [d, '-', m];
    FindAliasComplete(token, aliases, a);
    if ParseWide(token).Some? {
      TokenSuffix(token, token[4..], d, m);
    }
    var g := FindAlias(token, aliases).value;
    TokenSuffix(token, token[|g.prefix|..], d, m);
  }

  /** The hops written in the place of the token. */
  function Replacement(call: string, f: Flood): seq<string>
    requires f.counts.n <= 7 && 1 <= f.counts.hops <= 7
  {
    if f.counts.hops == 1 then [call + "*"] else [call + "*"] + [FloodToken(f)]
  }

  lemma FloodShape(path: seq<string>, first: nat, s: Config, relay: Relay, f: Flood)
    requires first < |path| && f.counts.n <= 7 && 1 <= f.counts.hops <= 2
    requires relay.path == FloodPath(path, first, s.callsign, f)
    ensures relay.path == path[..first] + Replacement(s.callsign, f) + path[first + 1..]
    ensures var grown := |relay.path| - |path|;
      && 0 <= grown <= 1
      && relay.path[..first] == path[..first]
      && relay.path[first] == s.callsign + "*"
      && relay.path[first + 1 + grown..] == path[first + 1..]
      && (grown == 1 ==> relay.path[first + 1] == FloodToken(f))
  {
    hide FloodToken;
    var middle := Replacement(s.callsign, f);
    if f.counts.hops == 2 {
      assert middle == [s.callsign + "*", FloodToken(f)];
    }
    assert relay.path == path[..first] + middle + path[first + 1..];
  }

  /** They ask for one relay less than the token did and hold one used mark. */
  lemma ReplacementCounts(hop: string, call: string, f: Flood, aliases: seq<string>)
    requires !IsUsed(hop) && ParseFlood(hop, aliases) == Some(f)
    requires 1 <= f.counts.hops <= 2 && f.counts.n <= 7
    ensures UsedCount(Replacement(call, f)) == 1
    ensures TotalRemaining(Replacement(call, f), aliases) + 1 == Remaining(hop, aliases)
  {
    hide ParseFlood, FloodToken, UsedCount, TotalRemaining, IsUsed;
    var mine := call + "*";
    MarkedIsUsed("", call);
    TokenRemaining(hop, aliases);
    UsedCountSingle(mine);
    TotalSingle(mine, aliases);
    if f.counts.hops == 2 {
      var token := FloodToken(f);
      UsedCountSingle(token);
      TotalSingle(token, aliases);
      UsedCountConcat([mine], [token]);
      TotalConcat([mine], [token], aliases);
    }
  }

  lemma CountsAround(before: seq<string>, middle: seq<string>, after: seq<string>, aliases: seq<string>)
    ensures TotalRemaining(before + middle + after, aliases)
      == TotalRemaining(before, aliases) + TotalRemaining(middle, aliases) + TotalRemaining(after, aliases)
    ensures UsedCount(before + middle + after) == UsedCount(before) + UsedCount(middle) + UsedCount(after)
  {
    hide TotalRemaining, UsedCount;
    TotalConcat(before + middle, after, aliases);
    TotalConcat(before, middle, aliases);
    UsedCountConcat(before + middle, after);
    UsedCountConcat(before, middle);
  }

  /** What a flood digipeat does to a path: nothing before the token or after it changes, our
      used mark takes the token's place, exactly one more hop is used, and the relays still
      asked for go down by exactly one. */
  lemma FloodAccounting(path: seq<string>, s: Config, relay: Relay)
    requires FirstUnused(path) >= 0
    requires FloodPlan(path, FirstUnused(path), s) == Some(relay)
    ensures var first, grown := FirstUnused(path), |relay.path| - |path|;
      && 0 <= grown <= 1 && |relay.path| <= MAX_PATH_HOPS
      && relay.path[..first] == path[..first]
      && relay.path[first] == s.callsign + "*"
      && relay.path[first + 1 + grown..] == path[first + 1..]
      && (grown == 1 ==> !IsUsed(relay.path[first + 1]))
    ensures UsedCount(relay.path) == UsedCount(path) + 1
    ensures TotalRemaining(relay.path, s.regionalAliases) + 1 == TotalRemaining(path, s.regionalAliases)
  {
    hide ParseFlood, Eligible, TotalRemaining, UsedCount, FirstUnused, FloodToken, FloodPath, Remaining, Replacement, IsUsed;
    var first := FirstUnused(path);
    var f := ParseFlood(path[first], s.regionalAliases).value;
    EligibleCounts(f, s);
    FloodShape(path, first, s, relay, f);
    TokenRemaining(path[first], s.regionalAliases);
    ReplacementCounts(path[first], s.callsign, f, s.regionalAliases);
    var before, after := path[..first], path[first + 1..];
    assert path == before + [path[first]] + after;
    CountsAround(before, Replacement(s.callsign, f), after, s.regionalAliases);
    CountsAround(before, [path[first]], after, s.regionalAliases);
    TotalSingle(path[first], s.regionalAliases);
    UsedCountSingle(path[first]);
  }

  /** The path grows exactly for a token of two relays; the token that stays has the same width
      and asks for one relay less. */
  lemma WidthKept(path: seq<string>, s: Config, relay: Relay)
    requires FirstUnused(path) >= 0
    requires FloodPlan(path, FirstUnused(path), s) == Some(relay)
    ensures var first := FirstUnused(path);
      && ParseFlood(path[first], s.regionalAliases).Some?
      && var c := ParseFlood(path[first], s.regionalAliases).value.counts;
      && |relay.path| == |path| + c.hops - 1
      && (|relay.path| > |path| ==>
            && ParseFlood(relay.path[first + 1], s.regionalAliases).Some?
            && ParseFlood(relay.path[first + 1], s.regionalAliases).value.counts == Counts(c.n, c.hops - 1))
  {
    hide ParseFlood, Eligible, FirstUnused, FloodToken, FloodPath, IsUsed;
    var first := FirstUnused(path);
    var f := ParseFlood(path[first], s.regionalAliases).value;
    EligibleCounts(f, s);
    FloodShape(path, first, s, relay, f);
    TokenRemaining(path[first], s.regionalAliases);
    GrowsBy(path, first, s.callsign, f);
  }

  lemma GrowsBy(path: seq<string>, first: nat, call: string, f: Flood)
    requires first < |path| && f.counts.n <= 7 && 1 <= f.counts.hops <= 2
    ensures |FloodPath(path, first, call, f)| == |path| + f.counts.hops - 1
  {
    hide FloodToken;
  }

  // ---- exact accounting of a preemptive digipeat ----

  /** A preemptive digipeat marks everything up to our own slot as used and leaves every name
      and everything behind the slot alone. */
  lemma PreemptAccounting(path: seq<string>, at: nat, call: string)
    requires at < |path| && !IsUsed(path[at]) && Names(path[at], Upper(call))
    ensures var out := PreemptPath(path, at, call);
      && out[at + 1..] == path[at + 1..]
      && (forall i :: 0 <= i <= at ==> IsUsed(out[i]))
      && (forall i :: 0 <= i < at ==> Bare(out[i]) == Bare(path[i]))
      && Bare(out[at]) == call
      && UsedCount(out) == at + 1 + UsedCount(path[at + 1..])
      && UsedCount(out) >= UsedCount(path) + 1
  {
    hide UsedCount, Names, IsUsed, Bare, Upper, Marked;
    var out := PreemptPath(path, at, call);
    forall i | 0 <= i <= at
      ensures IsUsed(out[i]) && (i < at ==> Bare(out[i]) == Bare(path[i])) && (i == at ==> Bare(out[i]) == call)
    {
      MarkedIsUsed(path[i], call);
    }
    assert out[at + 1..] == path[at + 1..];
    CountsUpTo(path, at, out);
  }

  lemma CountsUpTo(path: seq<string>, at: nat, out: seq<string>)
    requires at < |path| == |out| && !IsUsed(path[at])
    requires out[at + 1..] == path[at + 1..] && forall i :: 0 <= i <= at ==> IsUsed(out[i])
    ensures UsedCount(out) == at + 1 + UsedCount(path[at + 1..])
    ensures UsedCount(out) >= UsedCount(path) + 1
  {
    hide UsedCount, IsUsed;
    AllUsed(out[..at + 1]);
    assert out == out[..at + 1] + out[at + 1..];
    UsedCountConcat(out[..at + 1], out[at + 1..]);
    assert path == path[..at] + [path[at]] + path[at + 1..];
    CountsAround(path[..at], [path[at]], path[at + 1..], []);
    UsedCountSingle(path[at]);
  }

  lemma {:induction false} AllUsed(path: seq<string>)
    requires forall i :: 0 <= i < |path| ==> IsUsed(path[i])
    ensures UsedCount(path) == |path|
  {
    hide IsUsed;
    if path != [] {
      AllUsed(path[1..]);
    }
  }

  // ---- what every digipeat keeps ----

  /** Used hops come before unused ones. */
  predicate UsedFirst(path: seq<string>) {
    forall i, j :: 0 <= i < j < |path| && IsUsed(path[j]) ==> IsUsed(path[i])
  }

  /** Every digipeat uses at least one more hop, stays within the cap and keeps the order. */
  lemma PlanUsesHop(src: string, path: seq<string>, s: Config)
    requires Plan(src, path, s).Some?
    ensures var relay := Plan(src, path, s).value;
      && UsedCount(path) < UsedCount(relay.path) <= |relay.path| <= MAX_PATH_HOPS
      && (UsedFirst(path) ==> UsedFirst(relay.path))
  {
    hide FloodPlan, FirstUnused, FindCall, UsedCount, IsUsed, Names, Upper, PreemptPath, UsedFirst, EqualFold;
    var relay := Plan(src, path, s).value;
    var mine, first := FindCall(path, Upper(s.callsign)), FirstUnused(path);
    MarkedIsUsed("", s.callsign);
    if mine >= 0 {
      PreemptAccounting(path, mine, s.callsign);
      PreemptKeepsOrder(path, mine, PreemptPath(path, mine, s.callsign));
    } else {
      FloodAccounting(path, s, relay);
      FloodKeepsOrder(path, first, relay.path);
    }
  }

  lemma PreemptKeepsOrder(path: seq<string>, at: nat, out: seq<string>)
    requires at < |path| == |out| && !IsUsed(path[at])
    requires out[at + 1..] == path[at + 1..] && forall i :: 0 <= i <= at ==> IsUsed(out[i])
    ensures UsedFirst(path) ==> UsedFirst(out)
  {
    hide IsUsed;
    assert forall i :: at < i < |path| ==> out[i] == out[at + 1..][i - at - 1] == path[at + 1..][i - at - 1];
  }

  lemma FloodKeepsOrder(path: seq<string>, first: nat, out: seq<string>)
    requires first < |path| && !IsUsed(path[first])
    requires forall i :: 0 <= i < first ==> IsUsed(path[i])
    requires |path| <= |out| <= |path| + 1
    requires out[..first] == path[..first] && IsUsed(out[first])
    requires out[first + 1 + |out| - |path|..] == path[first + 1..]
    ensures UsedFirst(path) ==> UsedFirst(out)
  {
    hide IsUsed;
    var grown := |out| - |path|;
    if UsedFirst(path) {
      assert forall i :: first < i < |path| ==> !IsUsed(path[i]);
      assert forall i :: 0 <= i < first ==> out[..first][i] == out[i] && path[..first][i] == path[i];
      assert forall j :: first + grown < j < |out| ==>
        out[j] == out[first + 1 + grown..][j - first - 1 - grown] == path[first + 1..][j - first - 1 - grown];
      assert forall j :: first + grown < j < |out| ==> !IsUsed(out[j]);
    }
  }

  // ---- stations do not repeat their own repeats ----

  /** The named station's used mark stands in the path with only used hops before it. */
  predicate Stamped(path: seq<string>, callUp: string) {
    exists k :: 0 <= k < |path| && StampAt(path, callUp, k)
  }

  predicate StampAt(path: seq<string>, callUp: string, k: nat)
    requires k < |path|
  {
    Names(path[k], callUp) && forall i :: 0 <= i <= k ==> IsUsed(path[i])
  }

  /** A station that repeats a frame leaves its stamp. */
  lemma PlanStamps(src: string, path: seq<string>, s: Config)
    requires Plan(src, path, s).Some?
    ensures Stamped(Plan(src, path, s).value.path, Upper(s.callsign))
  {
    hide FloodPlan, FirstUnused, FindCall, IsUsed, Upper, PreemptPath, Bare;
    var out := Plan(src, path, s).value.path;
    var mine, first := FindCall(path, Upper(s.callsign)), FirstUnused(path);
    MarkedIsUsed("", s.callsign);
    if mine >= 0 {
      PreemptAccounting(path, mine, s.callsign);
      assert StampAt(out, Upper(s.callsign), mine);
    } else {
      FloodAccounting(path, s, Plan(src, path, s).value);
      assert forall i :: 0 <= i < first ==> out[..first][i] == out[i] && path[..first][i] == path[i];
      assert StampAt(out, Upper(s.callsign), first);
    }
  }

  /** No digipeat by anyone removes a stamp. */
  lemma PlanKeepsStamp(src: string, path: seq<string>, s: Config, callUp: string)
    requires Plan(src, path, s).Some? && Stamped(path, callUp)
    ensures Stamped(Plan(src, path, s).value.path, callUp)
  {
    hide FloodPlan, FirstUnused, FindCall, IsUsed, Upper, PreemptPath, Bare;
    var out := Plan(src, path, s).value.path;
    var k :| 0 <= k < |path| && StampAt(path, callUp, k);
    var mine, first := FindCall(path, Upper(s.callsign)), FirstUnused(path);
    if mine >= 0 {
      PreemptAccounting(path, mine, s.callsign);
      assert StampAt(out, callUp, k);
    } else {
      FloodAccounting(path, s, Plan(src, path, s).value);
      assert k < first;
      assert forall i :: 0 <= i < first ==> out[..first][i] == out[i] && path[..first][i] == path[i];
      assert StampAt(out, callUp, k);
    }
  }

  /** A station refuses what bears its stamp. */
  lemma StampRefused(src: string, path: seq<string>, s: Config)
    requires Stamped(path, Upper(s.callsign))
    ensures Plan(src, path, s).None?
  {
    hide FloodPlan, FirstUnused, FindCall, IsUsed, Upper, PreemptPath, Bare;
    var k :| 0 <= k < |path| && StampAt(path, Upper(s.callsign), k);
    assert Names(path[k], Upper(s.callsign));
  }
}
