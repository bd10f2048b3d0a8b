/** Which configurations of a station hold back repeats of regional aliases. */
module HeldAliases {
  import opened GoText
  import opened Ax25
  import opened Gate
  import opened Content
  import opened HeardHops
  import opened GateRules
  import RelayNetwork
  import LoopFreedom

  /** Some bytes that can be heard are repeated, the repeat is held, and it answers a token that is
      not a WIDE one. */
  ghost predicate HoldsAliases(s: Config) {
    exists raw :: HoldsAlias(raw, s)
  }

  predicate HoldsAlias(raw: seq<byte>, s: Config) {
    && DecodeFrame(raw).Ok? && Repeated(raw, s).Some?
    && Repeated(raw, s).value.RelayRF? && Repeated(raw, s).value.viscous
    && var path := DecodeFrame(raw).value.path;
    && FirstUnused(path) >= 0
    && var f := ParseFlood(path[FirstUnused(path)], s.regionalAliases);
    && f.Some? && !f.value.wide
  }

  /** What stands before the first dash. */
  function Head(key: string): string {
    var i := IndexOf(key, '-');
    if i < 0 then key else key[..i]
  }

  /** An alias, as it is compared, that leaves room for its width in an address field and that some
      callsign field can start with. The tokens of WIDE and WIDE0 are WIDE tokens. */
  predicate UsableKey(key: string) {
    && 1 <= |key| <= 5 && key != "WIDE" && key != "WIDE0"
    && (forall i :: 0 <= i < |key| ==> key[i] as int < 128)
    && Head(key) != "" && forall i :: 0 <= i < |Head(key)| ==> IsUpperAlnum(Head(key)[i])
  }

  ghost predicate HasUsableAlias(aliases: seq<string>) {
    exists a :: a in aliases && UsableKey(AliasKey(a))
  }

  /** A station holds repeats of aliases exactly if it transmits under a callsign that can be sent,
      holding and full digipeating are on, and some alias is usable. */
  lemma AliasesHeldExact(s: Config)
    ensures HoldsAliases(s) <==>
      && s.txEnable && s.viscousDelay && s.digipeatWide2 && SplitCallSsid(s.callsign).Ok?
      && HasUsableAlias(s.regionalAliases)
  {
    hide HoldsAlias, SplitCallSsid, UsableKey, AliasKey;
    if HoldsAliases(s) {
      var raw :| HoldsAlias(raw, s);
      HeldAliasMeans(raw, s);
    }
    if s.txEnable && s.viscousDelay && s.digipeatWide2 && SplitCallSsid(s.callsign).Ok? && HasUsableAlias(s.regionalAliases) {
      var a :| a in s.regionalAliases && UsableKey(AliasKey(a));
      var raw := AliasHeld(a, s);
    }
  }

  // ---- what a held alias shows ----

  /** A held repeat is that of a plan that is held. */
  lemma HeldPlan(raw: seq<byte>, s: Config)
    requires Repeated(raw, s).Some?
    ensures DecodeFrame(raw).Ok? && Repeated(raw, s).value.RelayRF?
    ensures var f := DecodeFrame(raw).value;
      && Plan(f.src, f.path, s).Some? && Repeated(raw, s).value.viscous == Plan(f.src, f.path, s).value.viscous
  {
    hide DecodeFrame, EncodeFrame, Plan;
  }

  lemma HeldAliasMeans(raw: seq<byte>, s: Config)
    requires HoldsAlias(raw, s)
    ensures s.txEnable && s.viscousDelay && s.digipeatWide2 && SplitCallSsid(s.callsign).Ok?
    ensures HasUsableAlias(s.regionalAliases)
  {
    hide DecodeFrame, Repeated, Plan, ParseFlood, FindCall, FirstUnused, SplitCallSsid, IsUsed, UsableKey, AliasKey, EqualFold, Turn;
    HeldPlan(raw, s);
    RepeatedExact(raw, s);
    var h := DecodeFrame(raw).value;
    HeldExact(h.src, h.path, s);
    var first := FirstUnused(h.path);
    HeardHop(raw, first);
    RoleNeeded(h.src, h.path, s);
    KeyOfHeld(h.path[first], s.regionalAliases);
  }

  lemma RoleNeeded(src: string, path: seq<string>, s: Config)
    requires Plan(src, path, s).Some? && FindCall(path, Upper(s.callsign)) < 0 && FirstUnused(path) >= 0
    requires ParseFlood(path[FirstUnused(path)], s.regionalAliases).Some?
    requires !ParseFlood(path[FirstUnused(path)], s.regionalAliases).value.wide
    ensures s.digipeatWide2
  {
    hide ParseFlood, FindCall, FirstUnused, Upper, EqualFold, FloodPath;
  }

  /** A heard alias token of width 1 is one of a usable alias. */
  lemma KeyOfHeld(hop: string, aliases: seq<string>)
    requires Acceptable(hop) && !IsUsed(hop) && exists text, ssid :: IsForm(hop, text, ssid)
    requires ParseFlood(hop, aliases).Some?
    requires var f := ParseFlood(hop, aliases).value; !f.wide && f.counts.n == 1
    ensures HasUsableAlias(aliases)
  {
    hide ParseFlood, IsUsed, Upper, AliasKey, Atoi, IsForm, IndexOf, BaseCall, UsableKey;
    var f := ParseFlood(hop, aliases).value;
    var x, y := FloodSplit(hop, aliases);
    var text, ssid :| IsForm(hop, text, ssid);
    NotMarked(hop, text, ssid);
    AliasFound(hop, aliases);
    var a :| a in aliases && f.prefix == AliasKey(a);
    KeyFits(hop, text, ssid, f.prefix, x, y);
    KeyHead(f.prefix, x, y);
    NoWideKey(hop, f.prefix, x, y, aliases);
    assert UsableKey(f.prefix) by { UsableFacts(f.prefix); }
  }

  lemma UsableFacts(key: string)
    requires 1 <= |key| <= 5 && key != "WIDE" && key != "WIDE0"
    requires forall i :: 0 <= i < |key| ==> key[i] as int < 128
    requires Head(key) != "" && forall i :: 0 <= i < |Head(key)| ==> IsUpperAlnum(Head(key)[i])
    ensures UsableKey(key)
  {
    hide Head;
  }

  lemma AliasFound(hop: string, aliases: seq<string>)
    requires ParseFlood(hop, aliases).Some? && !ParseFlood(hop, aliases).value.wide
    ensures exists a :: a in aliases && ParseFlood(hop, aliases).value.prefix == AliasKey(a)
  {
    hide ParseWide, AliasKey;
  }

  lemma NotMarked(hop: string, text: string, ssid: nat)
    requires IsForm(hop, text, ssid) && !IsUsed(hop)
    ensures |text| <= 6 && ssid <= 15 && hop == WithSsid(text, ssid)
    ensures forall i :: 0 <= i < |hop| ==> hop[i] as int < 128
  {
    RelayNetwork.MarkedIsUsed("", WithSsid(text, ssid));
  }

  /** The alias and the width stand in the six characters of the field. */
  lemma KeyFits(hop: string, text: string, ssid: nat, key: string, x: string, y: string)
    requires |text| <= 6 && ssid <= 15 && hop == WithSsid(text, ssid)
    requires hop == key + (x + ['-'] + y)
    ensures |key| + |x| <= 6 && forall i :: 0 <= i < |key| ==> key[i] == hop[i]
  {
    hide Itoa;
    var p := |key| + |x|;
    assert hop[p] == '-';
    if ssid > 0 {
      AtoiOfItoa(ssid);
      assert forall i :: |text| < i < |hop| ==> hop[i] == Itoa(ssid)[i - |text| - 1];
    }
  }

  lemma KeyHead(key: string, x: string, y: string)
    requires '-' !in x && key != "" && ValidBaseCall(BaseCall(key + (x + ['-'] + y)))
    ensures Head(key) != "" && forall i :: 0 <= i < |Head(key)| ==> IsUpperAlnum(Head(key)[i])
  {
    hide IndexOf, BaseCall;
    TokenBase(key, x, y);
    if '-' !in key {
      assert forall i :: 0 <= i < |key| ==> key[i] == (key + x)[i];
    }
  }

  /** Tokens of WIDE and WIDE0 of width 1 are WIDE tokens. */
  lemma NoWideKey(hop: string, key: string, x: string, y: string, aliases: seq<string>)
    requires Upper(hop) == hop && ParseFlood(hop, aliases).Some? && !ParseFlood(hop, aliases).value.wide
    requires hop == key + (x + ['-'] + y) && '-' !in x && x != "" && y != "" && |key| + |x| <= 6
    requires Atoi(x) == Some(1) && Atoi(y).Some? && 0 <= Atoi(y).value <= 7
    ensures key != "WIDE" && key != "WIDE0"
  {
    hide Upper, Atoi, ParseCounts, FindAlias, IndexOf;
    WideAsAlias(hop);
    if key == "WIDE" {
      assert hop[..4] == key && hop[4..] == x + ['-'] + y;
      CountsOfParts(x, y);
    } else if key == "WIDE0" {
      OneDigitOne(x);
      WideZero(hop, y);
    }
  }

  lemma WideZero(hop: string, y: string)
    requires hop == "WIDE0" + ("1" + ['-'] + y) && y != "" && Atoi(y).Some? && 0 <= Atoi(y).value <= 7
    ensures ParseAlias(hop, "WIDE").Some?
  {
    hide Atoi, ParseCounts;
    assert hop[..4] == "WIDE";
    assert hop[4..] == "01" + ['-'] + y;
    ZeroOne();
    CountsOfParts("01", y);
  }

  lemma OneDigitOne(x: string)
    requires |x| == 1 && Atoi(x) == Some(1)
    ensures x == "1"
  {
    assert x[..0] == "";
    assert AllDigits(x) ==> Numeral(x[..0]) == 0 && Numeral(x) == DigitValue(x[0]);
  }

  lemma ZeroOne()
    ensures Atoi("01") == Some(1) && Atoi("1") == Some(1) && Atoi("2") == Some(2)
  {
    assert "01"[..1] == "0" && "0"[..0] == "" && "1"[..0] == "" && "2"[..0] == "";
    assert Numeral("") == 0;
    assert Numeral("0") == 0 && Numeral("1") == 1 && Numeral("2") == 2;
    assert Numeral("01") == 1;
  }

  // ---- a frame whose alias is held ----

  function TokenOf(key: string, m: char): string {
    key + ("1" + ['-'] + [m])
  }

  /** The address field of a token whose width is the last of its characters. */
  function TokenField(text: string, ssid: nat): (field: seq<byte>)
    requires ssid <= 15
    ensures |field| == 7
  {
    seq(6, i requires 0 <= i < 6 => if i < |text| then (2 * (text[i] as int % 128)) as byte else 64)
    + [SsidByte(ssid, true, false)]
  }

  lemma TokenFieldReads(text: string, ssid: nat)
    requires 1 <= |text| <= 6 && ssid <= 15 && text[|text| - 1] != ' '
    requires forall i :: 0 <= i < |text| ==> text[i] as int < 128 && !('a' <= text[i] <= 'z')
    ensures CallText(TokenField(text, ssid)) == WithSsid(text, ssid)
    ensures EndsAddress(TokenField(text, ssid)) && TokenField(text, ssid)[6] < 0x80
  {
    hide SsidByte, TrimRight, AddressText;
    var field := TokenField(text, ssid);
    var pad := seq(6 - |text|, i => ' ');
    var padded := text + pad;
    forall i | 0 <= i < 6 ensures field[i] as int == 2 * padded[i] as int {
    }
    ShiftedChars(padded, field);
    TrimRightKeeps(text, pad, {' '});
    SsidBits(ssid, true, false);
    assert field[6] == SsidByte(ssid, true, false);
  }

  function TokenFrame(src: string, text: string, ssid: nat): seq<byte>
    requires ssid <= 15 && ValidBaseCall(src)
  {
    AddressField(Address("APRGO", 0), false, false) + AddressField(Address(src, 0), false, false)
    + TokenField(text, ssid) + [0x03, 0xF0] + []
  }

  lemma PlainField(call: string)
    requires ValidBaseCall(call)
    ensures Address(call, 0).Encodable()
    ensures var field := AddressField(Address(call, 0), false, false);
      CallText(field) == call && !EndsAddress(field) && ValidBaseCall(BaseCall(call)) && SplitCallSsid(call).Ok?
  {
    hide AddressField, CallText, BaseCall, WellFormedCall, EndsAddress, SplitCallSsid;
    AddressRoundTrip(Address(call, 0), false, false);
    LoopFreedom.PlainCall(call);
    WellFormedBase(call);
    CanonFixpoints(call);
  }

  lemma TokenFrameReads(src: string, text: string, ssid: nat)
    requires ssid <= 15 && ValidBaseCall(src)
    requires 1 <= |text| <= 6 && text[|text| - 1] != ' '
    requires forall i :: 0 <= i < |text| ==> text[i] as int < 128 && !('a' <= text[i] <= 'z')
    requires ValidBaseCall(BaseCall(WithSsid(text, ssid)))
    ensures DecodeFrame(TokenFrame(src, text, ssid)) == Ok(Fields(src, "APRGO", [WithSsid(text, ssid)], []))
  {
    hide AddressField, CallText, BaseCall, ValidBaseCall, EndsAddress, DecodeFrame, TokenField, SplitCallSsid;
    DestinationValid();
    PlainField("APRGO");
    PlainField(src);
    TokenFieldReads(text, ssid);
    OneHop(AddressField(Address("APRGO", 0), false, false), AddressField(Address(src, 0), false, false),
           TokenField(text, ssid), Hop(WithSsid(text, ssid), true, true));
  }

  lemma DestinationValid()
    ensures ValidBaseCall("APRGO") && ValidBaseCall("AA") && ValidBaseCall("BB")
  {
  }

  /** The token of a usable alias as it is heard. */
  lemma TokenShape(key: string, m: char)
    requires UsableKey(key) && Upper(key) == key && (m == '1' || m == '2')
    ensures var h := TokenOf(key, m);
      && h == WithSsid(key + "1", DigitValue(m)) && Upper(h) == h && !IsUsed(h)
      && ValidBaseCall(BaseCall(h))
  {
    hide IndexOf, BaseCall, Upper;
    var h := TokenOf(key, m);
    assert Itoa(DigitValue(m)) == [m];
    assert h == (key + "1") + "-" + [m];
    TokenBase(key, "1", [m]);
    if '-' in key {
      assert |Head(key)| <= 5;
    } else {
      assert forall i :: 0 <= i < |key + "1"| ==> IsUpperAlnum((key + "1")[i]);
    }
    UpperConcat(key, "1" + ['-'] + [m]);
    assert Upper("1" + ['-'] + [m]) == "1" + ['-'] + [m] by { DigitsAreUpper(m); }
    assert h[|h| - 1] == m;
  }

  lemma DigitsAreUpper(m: char)
    requires m == '1' || m == '2'
    ensures Upper("1" + ['-'] + [m]) == "1" + ['-'] + [m]
  {
  }

  /** However such a token is taken apart, its width and its hops are the same. */
  lemma TokenSplit(key: string, m: char, other: string, x: string, y: string)
    requires m == '1' || m == '2'
    requires TokenOf(key, m) == other + (x + ['-'] + y) && x != "" && y != "" && '-' !in x
    requires Atoi(x).Some? && Atoi(y).Some? && 1 <= Atoi(x).value <= 7
    ensures Atoi(x) == Some(1) && Atoi(y) == Some(DigitValue(m))
  {
    hide Numeral;
    var h, p := TokenOf(key, m), |other| + |x|;
    var n := |h|;
    assert h[n - 3] == '1' && h[n - 2] == '-' && h[n - 1] == m;
    assert h[p] == '-';
    assert forall i :: 0 <= i < |y| ==> y[i] == h[p + 1 + i];
    AtoiChars(y);
    assert p == n - 2;
    assert y == [m];
    assert x[|x| - 1] == h[p - 1];
    SmallNumeral(x);
    ZeroOne();
  }

  lemma TokenParses(a: string, m: char, aliases: seq<string>)
    requires a in aliases && UsableKey(AliasKey(a)) && (m == '1' || m == '2')
    ensures var h := TokenOf(AliasKey(a), m);
      && ParseFlood(h, aliases).Some?
      && var f := ParseFlood(h, aliases).value;
      && !f.wide && f.counts == Counts(1, DigitValue(m))
  {
    hide ParseCounts, FindAlias, AliasKey, Upper, Atoi, IsUsed, ParseWide, UsableKey, TokenOf;
    var key := AliasKey(a);
    var h := TokenOf(key, m);
    KeyIsUpper(a);
    TokenShape(key, m);
    TokenNotWide(key, m);
    OwnAlias(key, m);
    RelayNetwork.FindAliasComplete(h, aliases, a);
    assert Bare(h) == h;
    assert ParseFlood(h, aliases) == FindAlias(h, aliases);
    var x, y := FloodSplit(h, aliases);
    TokenSplit(key, m, ParseFlood(h, aliases).value.prefix, x, y);
  }

  lemma OwnAlias(key: string, m: char)
    requires UsableKey(key) && (m == '1' || m == '2')
    ensures ParseAlias(TokenOf(key, m), key).Some?
  {
    hide Atoi, ParseCounts, Head;
    var h := TokenOf(key, m);
    assert h[..|key|] == key && h[|key|..] == "1" + ['-'] + [m];
    ZeroOne();
    CountsOfParts("1", [m]);
  }

  lemma TokenNotWide(key: string, m: char)
    requires UsableKey(key) && Upper(key) == key && (m == '1' || m == '2')
    ensures ParseWide(TokenOf(key, m)).None?
  {
    hide ParseCounts, Upper, Atoi, IndexOf, Head, IsUsed, BaseCall, ValidBaseCall;
    var h := TokenOf(key, m);
    TokenShape(key, m);
    WideAsAlias(h);
    if |key| == 5 && key[..4] == "WIDE" {
      var c := key[4];
      assert h[4..] == [c] + "1" + ['-'] + [m];
      WideRest(key, c, m);
    } else {
      assert |key| < 4 ==> h[|key|] == '1';
      assert |key| >= 4 ==> h[..4] == key[..4];
      assert |key| == 4 ==> key[..4] == key;
    }
  }

  lemma WideRest(key: string, c: char, m: char)
    requires UsableKey(key) && |key| == 5 && key[..4] == "WIDE" && key[4] == c && (m == '1' || m == '2')
    ensures ParseCounts([c] + "1" + ['-'] + [m]).None?
  {
    hide ParseCounts, IndexOf;
    assert key == "WIDE" + [c];
    if c == '-' {
      var after := "1" + ['-'] + [m];
      assert [c] + "1" + ['-'] + [m] == "" + ['-'] + after;
      CountsOfParts("", after);
    } else {
      assert IsUpperAlnum(c) by { WideDigit(key, c); }
      CountsOfParts([c] + "1", [m]);
      TwoDigits(c);
    }
  }

  lemma WideDigit(key: string, c: char)
    requires UsableKey(key) && key == "WIDE" + [c] && c != '-'
    ensures IsUpperAlnum(c)
  {
    hide IndexOf;
    assert '-' !in key;
    assert Head(key) == key && key[4] == c;
  }

  /** Two characters of which the second is 1 and the first is not 0 are no width. */
  lemma TwoDigits(c: char)
    requires IsUpperAlnum(c) && c != '0'
    ensures Atoi([c] + "1").Some? ==> Atoi([c] + "1").value > 7
  {
    var x := [c] + "1";
    assert x == [c, '1'] && x[..1] == [c] && [c][..0] == "";
    if IsDigit(c) {
      assert Numeral("") == 0;
      assert Numeral([c]) == DigitValue(c);
      assert Numeral(x) == 10 * DigitValue(c) + 1;
    } else {
      assert !IsDigit(x[0]) && x[0] != '+' && x[0] != '-';
    }
  }

  lemma KeyIsUpper(a: string)
    ensures Upper(AliasKey(a)) == AliasKey(a)
  {
    UpperTwice(TrimSpace(a));
  }

  /** The callsign is not a token of an alias with a dash. */
  lemma DashedIsNoCall(key: string, m: char, call: string)
    requires '-' in key && SplitCallSsid(call).Ok?
    ensures TokenOf(key, m) != Upper(call)
  {
    hide IndexOf, Atoi, TrimSpace, Upper;
    DashInKey(key, "1", [m]);
    LoopFreedom.UpperDash(call);
    var h, i := TokenOf(key, m), IndexOf(call, '-');
    if h == Upper(call) {
      NumeralKeepsCase(call[i + 1..]);
      UpperTail(call, i + 1);
    }
  }

  lemma NumeralKeepsCase(t: string)
    requires Atoi(t).Some?
    ensures Upper(t) == t
  {
    AtoiChars(t);
  }

  lemma UpperTail(s: string, n: nat)
    requires n <= |s|
    ensures Upper(s)[n..] == Upper(s[n..])
  {
  }

  /** A station with a usable alias holds a token of it; if one of them is its callsign, another. */
  lemma AliasHeld(a: string, s: Config) returns (raw: seq<byte>)
    requires s.txEnable && s.viscousDelay && s.digipeatWide2 && SplitCallSsid(s.callsign).Ok?
    requires a in s.regionalAliases && UsableKey(AliasKey(a))
    ensures HoldsAlias(raw, s)
  {
    hide SplitCallSsid, UsableKey, AliasKey, Upper, TokenOf, HoldsAlias;
    var key := AliasKey(a);
    if TokenOf(key, '1') == Upper(s.callsign) {
      if '-' in key {
        DashedIsNoCall(key, '1', s.callsign);
      }
      TokensDiffer(key);
      raw := TokenHeld(a, '2', s);
    } else {
      raw := TokenHeld(a, '1', s);
    }
  }

  lemma TokensDiffer(key: string)
    ensures TokenOf(key, '1') != TokenOf(key, '2')
  {
    assert TokenOf(key, '1')[|key| + 2] != TokenOf(key, '2')[|key| + 2];
  }

  lemma TokenHeld(a: string, m: char, s: Config) returns (raw: seq<byte>)
    requires s.txEnable && s.viscousDelay && s.digipeatWide2 && SplitCallSsid(s.callsign).Ok?
    requires a in s.regionalAliases && UsableKey(AliasKey(a)) && (m == '1' || m == '2')
    requires TokenOf(AliasKey(a), m) != Upper(s.callsign) && (m == '2' ==> '-' !in AliasKey(a))
    ensures HoldsAlias(raw, s)
  {
    hide SplitCallSsid, UsableKey, AliasKey, Upper, TokenOf, ParseFlood, TokenFrame, DecodeFrame, BaseCall, IsUsed, Repeated,
         EqualFold, FirstUnused, FindCall, Plan, OwnTurn, FloodTurn;
    var key := AliasKey(a);
    var h := TokenOf(key, m);
    KeyIsUpper(a);
    TokenShape(key, m);
    TokenParses(a, m, s.regionalAliases);
    var src := OtherCall(s.callsign);
    UsableText(key);
    TokenFrameReads(src, key + "1", DigitValue(m));
    raw := TokenFrame(src, key + "1", DigitValue(m));
    TokenTurn(a, m, s);
    SendableEnds(src);
    assert Turn([h], 0, s);
    RepeatedExact(raw, s);
    HeldPlan(raw, s);
    HeldExact(src, [h], s);
    OneHopPath(h, s.callsign);
    assert HoldsAlias(raw, s);
  }

  lemma OtherCall(call: string) returns (src: string)
    ensures (src == "AA" || src == "BB") && !EqualFold(src, call)
  {
    src := if EqualFold("AA", call) then "BB" else "AA";
    assert Upper("AA")[0] == 'A' && Upper("BB")[0] == 'B';
  }

  lemma SendableEnds(src: string)
    requires src == "AA" || src == "BB"
    ensures ValidBaseCall(src) && SplitCallSsid(src).Ok? && SplitCallSsid("APRGO").Ok?
  {
    hide SplitCallSsid, CallText, AddressField;
    DestinationValid();
    PlainField(src);
    PlainField("APRGO");
  }

  lemma UsableText(key: string)
    requires UsableKey(key) && Upper(key) == key
    ensures var text := key + "1";
      && 1 <= |text| <= 6 && text[|text| - 1] != ' '
      && forall i :: 0 <= i < |text| ==> text[i] as int < 128 && !('a' <= text[i] <= 'z')
  {
    hide Head;
    assert forall i :: 0 <= i < |key| ==> key[i] == Upper(key)[i];
  }

  lemma OneHopPath(h: string, call: string)
    requires !IsUsed(h) && Upper(h) == h && h != Upper(call)
    ensures FirstUnused([h]) == 0 && FindCall([h], Upper(call)) < 0
  {
    hide FirstUnused, FindCall, IsUsed, Upper;
    var path := [h];
    assert path[0] == h && Bare(h) == h;
  }

  lemma TokenTurn(a: string, m: char, s: Config)
    requires s.digipeatWide2 && a in s.regionalAliases && UsableKey(AliasKey(a)) && (m == '1' || m == '2')
    requires TokenOf(AliasKey(a), m) != Upper(s.callsign) && (m == '2' ==> '-' !in AliasKey(a))
    ensures Turn([TokenOf(AliasKey(a), m)], 0, s)
  {
    hide SplitCallSsid, UsableKey, AliasKey, Upper, ParseFlood, BaseCall, IsUsed, Atoi, OwnTurn;
    var key := AliasKey(a);
    var h := TokenOf(key, m);
    KeyIsUpper(a);
    TokenShape(key, m);
    TokenParses(a, m, s.regionalAliases);
    OneHopPath(h, s.callsign);
    assert Bare(h) == h;
    ZeroOne();
    if m == '2' {
      TokenSendable(key, "1", [m]);
    }
    var path := [h];
    assert path[0] == h;
    assert FloodTurn(path, 0, s);
  }
}
