/** The hops of frames heard on the air: what they look like, how flood tokens among them are taken
    apart, and when they can be sent again. */
module HeardHops {
  import opened GoText
  import opened Ax25
  import opened Gate
  import RelayNetwork

  // ---- what the decoder lets through ----

  /** What a decoded hop is made of: up to six characters of seven bits, none of them a small
      letter, and an SSID. */
  predicate IsForm(h: string, text: string, ssid: nat) {
    && |text| <= 6 && ssid <= 15
    && (forall i :: 0 <= i < |text| ==> text[i] as int < 128 && !('a' <= text[i] <= 'z'))
    && (h == WithSsid(text, ssid) || h == WithSsid(text, ssid) + "*")
  }

  /** A callsign or token with capital letters and a base that the decoder accepts. */
  predicate Acceptable(h: string) {
    ValidBaseCall(BaseCall(h)) && Upper(h) == h
  }

  lemma {:induction false} ScanValid(table: seq<Hop>, i: nat, last: bool)
    requires i <= |table| && ScanHops(table, i, last).Ok?
    ensures forall k :: i <= k < ScanHops(table, i, last).value.count ==> table[k].valid
    decreases |table| - i
  {
    if !last && i < |table| && i < MAX_DIGIPEATERS {
      ScanValid(table, i + 1, table[i].last);
    }
  }

  lemma HeardField(raw: seq<byte>, k: nat)
    requires DecodeFrame(raw).Ok? && k < |DecodeFrame(raw).value.path|
    ensures 14 + 7 * k + 7 <= |raw|
    ensures DecodeFrame(raw).value.path[k] == HopText(FieldAt(raw, k))
    ensures ValidBaseCall(BaseCall(DecodeFrame(raw).value.path[k]))
  {
    hide ScanHops, ValidBaseCall, BaseCall, HopText, CallText;
    var table := HopTable(raw);
    ScanValid(table, 0, EndsAddress(raw[7..14]));
    assert table[k] == ReadHop(FieldAt(raw, k));
  }

  lemma TextForm(field: seq<byte>)
    requires |field| == 7
    ensures exists text, ssid :: IsForm(HopText(field), text, ssid)
  {
    hide TrimRight;
    var text, ssid := TrimRight(AddressText(field), {' '}), (field[6] as int / 2) % 16;
    assert forall i :: 0 <= i < 6 ==> AddressText(field)[i] as int < 128;
    assert IsForm(HopText(field), text, ssid);
  }

  lemma FormIsUpper(h: string, text: string, ssid: nat)
    requires IsForm(h, text, ssid)
    ensures Upper(h) == h
  {
    assert forall i :: 0 <= i < |h| ==> !('a' <= h[i] <= 'z');
  }

  lemma HeardHop(raw: seq<byte>, k: nat)
    requires DecodeFrame(raw).Ok? && k < |DecodeFrame(raw).value.path|
    ensures Acceptable(DecodeFrame(raw).value.path[k])
    ensures exists text, ssid :: IsForm(DecodeFrame(raw).value.path[k], text, ssid)
  {
    hide DecodeFrame, HopText, IsForm, ValidBaseCall, BaseCall, Upper;
    HeardField(raw, k);
    TextForm(FieldAt(raw, k));
    var h := HopText(FieldAt(raw, k));
    var text, ssid :| IsForm(h, text, ssid);
    FormIsUpper(h, text, ssid);
  }

  // ---- taking flood tokens apart ----

  /** For capitals a WIDE token is read like one of an alias. */
  lemma WideAsAlias(h: string)
    requires Upper(h) == h
    ensures ParseWide(h) == ParseAlias(h, "WIDE")
  {
    hide ParseCounts, Upper;
  }

  /** Counts are two numerals around the first dash. */
  lemma CountsOfParts(x: string, y: string)
    requires '-' !in x
    ensures var n, hops := Atoi(x), Atoi(y);
      ParseCounts(x + ['-'] + y) ==
        if x == "" || y == "" || n.None? || n.value < 1 || n.value > 7 || hops.None? || hops.value < 0 || hops.value > 7
        then None else Some(Counts(n.value, hops.value))
  {
    hide IndexOf, Atoi;
    var rest := x + ['-'] + y;
    IndexOfFirst(x, '-', y);
    assert rest[..|x|] == x && rest[|x| + 1..] == y;
  }

  lemma CountsParts(rest: string) returns (x: string, y: string)
    requires ParseCounts(rest).Some?
    ensures rest == x + ['-'] + y && '-' !in x && x != "" && y != ""
    ensures Atoi(x) == Some(ParseCounts(rest).value.n) && Atoi(y) == Some(ParseCounts(rest).value.hops)
  {
    hide IndexOf, Atoi;
    var dash := IndexOf(rest, '-');
    x, y := rest[..dash], rest[dash + 1..];
    assert forall i :: 0 <= i < |x| ==> x[i] == rest[i];
  }

  lemma FloodSplit(h: string, aliases: seq<string>) returns (x: string, y: string)
    requires Upper(h) == h && !IsUsed(h) && ParseFlood(h, aliases).Some?
    ensures var f := ParseFlood(h, aliases).value;
      && h == f.prefix + (x + ['-'] + y) && '-' !in x && x != "" && y != ""
      && Atoi(x) == Some(f.counts.n) && Atoi(y) == Some(f.counts.hops)
      && f.prefix != "" && Upper(f.prefix) == f.prefix
      && 1 <= f.counts.n <= 7 && f.counts.hops <= 7
  {
    hide ParseCounts, Atoi, Upper, IsUsed, FindAlias;
    WideAsAlias(h);
    var f := ParseFlood(h, aliases).value;
    assert HasPrefix(h, f.prefix) && ParseCounts(h[|f.prefix|..]) == Some(f.counts);
    x, y := CountsParts(h[|f.prefix|..]);
    PrefixUpper(h, |f.prefix|);
  }

  lemma PrefixUpper(h: string, n: nat)
    requires Upper(h) == h && n <= |h|
    ensures Upper(h[..n]) == h[..n]
  {
    assert forall i :: 0 <= i < |h| ==> Upper(h)[i] == UpperChar(h[i]);
  }

  /** A numeral of at least one holds no dash. */
  lemma PositiveNumeral(y: string)
    requires Atoi(y).Some? && Atoi(y).value >= 1
    ensures '-' !in y
  {
    hide Numeral;
    AtoiChars(y);
  }

  // ---- bases ----

  /** Where the base of a token ends: before the first dash of the alias, or before the last one. */
  lemma TokenBase(key: string, x: string, y: string)
    requires '-' !in x
    ensures var h := key + (x + ['-'] + y);
      BaseCall(h) == if '-' in key then key[..IndexOf(key, '-')] else key + x
  {
    hide IndexOf;
    var h := key + (x + ['-'] + y);
    var i := IndexOf(key, '-');
    if i >= 0 {
      var after := key[i + 1..] + (x + ['-'] + y);
      assert '-' !in key[..i];
      assert h == key[..i] + ['-'] + after;
      IndexOfFirst(key[..i], '-', after);
      assert h[..i] == key[..i];
    } else {
      assert h == (key + x) + ['-'] + y;
      IndexOfFirst(key + x, '-', y);
      assert h[..|key + x|] == key + x;
    }
  }

  /** The token rewritten for one hop less has a base as good as the token's. */
  lemma RewrittenBase(h: string, aliases: seq<string>)
    requires Acceptable(h) && !IsUsed(h) && ParseFlood(h, aliases).Some?
    requires ParseFlood(h, aliases).value.counts.hops >= 1
    ensures var f := ParseFlood(h, aliases).value;
      && f.counts.n <= 7 && f.counts.hops <= 7 && ValidBaseCall(BaseCall(FloodToken(f)))
  {
    hide ParseFlood, Upper, IsUsed, BaseCall, IndexOf, Atoi, DigitChar;
    var f := ParseFlood(h, aliases).value;
    var x, y := FloodSplit(h, aliases);
    var d, m := Itoa(f.counts.n), Itoa(f.counts.hops - 1);
    TokenBase(f.prefix, x, y);
    assert d == [DigitChar(f.counts.n)];
    TokenBase(f.prefix, d, m);
    assert FloodToken(f) == f.prefix + (d + ['-'] + m);
    if '-' !in f.prefix {
      var base := f.prefix + x;
      assert forall i :: 0 <= i < |f.prefix| ==> f.prefix[i] == base[i];
    }
  }

  // ---- sending a token again ----

  /** What stands behind the base, read as an SSID. */
  function SsidOf(h: string): (r: Option<nat>)
    ensures r.Some? ==> r.value <= 15
  {
    var i := IndexOf(h, '-');
    if i < 0 then Some(0)
    else
      match Atoi(h[i + 1..])
      case None => None
      case Some(v) => if v < 0 || v > 15 then None else Some(v)
  }

  /** A callsign or token with a good base can be sent exactly if nothing follows the base, or a
      dash and an SSID. */
  lemma SendableExact(h: string)
    requires ValidBaseCall(BaseCall(h)) && !IsUsed(h)
    ensures SplitCallSsid(h)
      == match SsidOf(h) case None => Err(BadSsid) case Some(ssid) => Ok(Address(BaseCall(h), ssid))
  {
    hide IndexOf, Atoi, TrimSpace, Upper;
    BaseHasNoSpace(BaseCall(h));
  }

  /** A token of an alias without a dash can be sent, one of an alias with a dash cannot. */
  lemma TokenSendable(key: string, x: string, y: string)
    requires '-' !in x && x != "" && ValidBaseCall(BaseCall(key + (x + ['-'] + y)))
    requires Atoi(y).Some? && 0 <= Atoi(y).value <= 15 && y != "" && y[|y| - 1] != '*'
    ensures SplitCallSsid(key + (x + ['-'] + y)).Ok? <==> '-' !in key
  {
    hide IndexOf, Atoi, BaseCall, ValidBaseCall, SplitCallSsid;
    var h := key + (x + ['-'] + y);
    assert h[|h| - 1] == y[|y| - 1];
    SendableExact(h);
    if '-' in key {
      DashInKey(key, x, y);
    } else {
      assert h == (key + x) + ['-'] + y;
      IndexOfFirst(key + x, '-', y);
      assert h[|key + x| + 1..] == y;
    }
  }

  lemma DashInKey(key: string, x: string, y: string)
    requires '-' in key && x != ""
    ensures var h := key + (x + ['-'] + y);
      IndexOf(h, '-') >= 0 && Atoi(h[IndexOf(h, '-') + 1..]).None?
  {
    hide IndexOf, Atoi;
    var i := IndexOf(key, '-');
    var front, mid := key[..i], key[i + 1..] + x;
    var after := mid + ['-'] + y;
    assert key + (x + ['-'] + y) == front + ['-'] + after;
    IndexOfFirst(front, '-', after);
    assert (front + ['-'] + after)[i + 1..] == after;
    assert after[|mid|] == '-';
    InnerDash(after, |mid|);
  }

  lemma InnerDash(s: string, i: nat)
    requires 0 < i < |s| && s[i] == '-'
    ensures Atoi(s).None?
  {
    if Atoi(s).Some? {
      AtoiChars(s);
    }
  }

  /** A token that asks for two relays can be sent exactly if it can be once rewritten. */
  lemma RewrittenSendable(h: string, aliases: seq<string>)
    requires Acceptable(h) && !IsUsed(h) && ParseFlood(h, aliases).Some?
    requires 1 <= ParseFlood(h, aliases).value.counts.hops
    ensures var f := ParseFlood(h, aliases).value;
      && f.counts.n <= 7 && f.counts.hops <= 7
      && (SplitCallSsid(FloodToken(f)).Ok? <==> SplitCallSsid(h).Ok?)
  {
    hide ParseFlood, Upper, BaseCall, IndexOf, Numeral, SplitCallSsid, ValidBaseCall;
    var f := ParseFlood(h, aliases).value;
    RewrittenBase(h, aliases);
    var x, y := FloodSplit(h, aliases);
    AtoiChars(y);
    TokenSendable(f.prefix, x, y);
    var d, m := Itoa(f.counts.n), Itoa(f.counts.hops - 1);
    AtoiOfItoa(f.counts.hops - 1);
    assert FloodToken(f) == f.prefix + (d + ['-'] + m);
    TokenSendable(f.prefix, d, m);
  }

  // ---- what is written in a token's place ----

  /** Read as a token of an alias that ends in a letter, a hop is one of no other alias. */
  lemma LetterPrefix(h: string, alias: string, d: char, m: char, aliases: seq<string>)
    requires Upper(h) == h && !IsUsed(h) && ParseFlood(h, aliases).Some?
    requires h == alias + [d, '-', m] && IsDigit(d) && IsDigit(m)
    requires alias != "" && 'A' <= alias[|alias| - 1] <= 'Z'
    ensures ParseFlood(h, aliases).value.prefix == alias
    ensures ParseFlood(h, aliases).value.counts == Counts(DigitValue(d), DigitValue(m))
  {
    hide ParseFlood, Upper, IsUsed, Numeral;
    var f := ParseFlood(h, aliases).value;
    var x, y := FloodSplit(h, aliases);
    var n, p := |h|, |f.prefix| + |x|;
    assert h[n - 4] == alias[|alias| - 1] && h[n - 3] == d && h[n - 2] == '-' && h[n - 1] == m;
    assert h[p] == '-';
    AtoiChars(x);
    AtoiChars(y);
    assert forall i :: 0 <= i < |y| ==> y[i] == h[p + 1 + i];
    assert p == n - 2;
    assert forall i :: 0 <= i < |x| ==> x[i] == h[|f.prefix| + i];
    assert |x| == 1;
    assert f.prefix == h[..n - 3] == alias;
    SmallNumeral(x);
    assert y == [m];
    RelayNetwork.OneDigit(m);
  }

  /** WIDE2-2 is followed up as WIDE2-1, and the token of an alias that ends in a letter likewise:
      the name and the width stay as they are written. */
  lemma TokenFollowedUp(path: seq<string>, s: Config, relay: Relay, alias: string, d: char)
    requires FirstUnused(path) >= 0
    requires FloodPlan(path, FirstUnused(path), s) == Some(relay)
    requires path[FirstUnused(path)] == alias + [d, '-', '2'] && IsDigit(d) && Upper(alias) == alias
    requires alias != "" && 'A' <= alias[|alias| - 1] <= 'Z'
    ensures relay.path ==
      path[..FirstUnused(path)] + [s.callsign + "*", alias + [d, '-', '1']] + path[FirstUnused(path) + 1..]
  {
    hide ParseFlood, FirstUnused, Upper, Eligible, DigitChar, DigitValue;
    var first := FirstUnused(path);
    var h := path[first];
    UpperDigits(d, '2');
    UpperConcat(alias, [d, '-', '2']);
    LetterPrefix(h, alias, d, '2', s.regionalAliases);
    var f := ParseFlood(h, s.regionalAliases).value;
    EligibleCounts(f, s);
    DigitsBack(d);
    assert FloodToken(f) == alias + [d, '-', '1'];
  }

  lemma UpperDigits(d: char, m: char)
    requires IsDigit(d) && IsDigit(m)
    ensures Upper([d, '-', m]) == [d, '-', m]
  {
  }

  lemma DigitsBack(d: char)
    requires IsDigit(d)
    ensures DigitChar(DigitValue(d)) == d && DigitValue('2') == 2 && DigitChar(1) == '1'
  {
  }
}
