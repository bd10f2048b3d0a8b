/** AX.25 UI frames: encoding from TNC2 fields to the wire and decoding back. */
module Ax25 {
  import opened GoText

  const MAX_DIGIPEATERS: nat := 8

  datatype Error =
    | TooManyDigipeaters
    | EmptyCallsign
    | CallsignTooLong
    | InvalidChar
    | BadSsid
    | FrameTooShort
    | NoSourceAddress
    | InvalidCallsign
    | AddressFieldUnterminated
    | NoControl
    | NotUI

  /** The fields of a decoded frame; each path hop may end in the used mark '*'. */
  datatype Fields = Fields(src: string, dest: string, path: seq<string>, info: seq<byte>)

  // ---- callsigns ----

  predicate IsUpperAlnum(c: char) { 'A' <= c <= 'Z' || '0' <= c <= '9' }

  predicate IsAlnum(c: char) { IsUpperAlnum(c) || 'a' <= c <= 'z' }

  /** strings.SplitN(s, "-", 2). */
  function DashSplit(s: string): (string, Option<string>) {
    var i := IndexOf(s, '-');
    if i < 0 then (s, None) else (s[..i], Some(s[i + 1..]))
  }

  /** A callsign taken apart. */
  datatype Address = Address(call: string, ssid: nat) {
    predicate Encodable() {
      1 <= |call| <= 6 && ssid <= 15 && forall i :: 0 <= i < |call| ==> IsAlnum(call[i])
    }

    /** How the callsign reads after a trip over the air. */
    function Canonical(): string
      requires Encodable()
    {
      WithSsid(Upper(call), ssid)
    }
  }

  function WithSsid(call: string, ssid: nat): string
    requires ssid <= 15
  {
    if ssid == 0 then call else call + "-" + Itoa(ssid)
  }

  function SplitCallSsid(s: string): (r: Result<Address, Error>)
    ensures r.Ok? ==> r.value.Encodable()
  {
    var (base, suffix) := DashSplit(s);
    ParseParts(TrimSpace(base), suffix)
  }

  function ParseParts(call: string, suffix: Option<string>): (r: Result<Address, Error>)
    ensures r.Ok? ==> r.value.Encodable()
  {
    if call == "" then Err(EmptyCallsign)
    else if |call| > 6 then Err(CallsignTooLong)
    else if exists i :: 0 <= i < |call| && !IsAlnum(call[i]) then Err(InvalidChar)
    else
      match suffix
      case None => Ok(Address(call, 0))
      case Some(text) =>
        match Atoi(text)
        case Some(v) => if v < 0 || v > 15 then Err(BadSsid) else Ok(Address(call, v))
        case None => Err(BadSsid)
  }

  function Canon(s: string): string
    requires SplitCallSsid(s).Ok?
  {
    SplitCallSsid(s).value.Canonical()
  }

  predicate IsUsed(hop: string) {
    hop != "" && hop[|hop| - 1] == '*'
  }

  /** strings.TrimSuffix(hop, "*"). */
  function Bare(hop: string): string {
    if IsUsed(hop) then hop[..|hop| - 1] else hop
  }

  function CanonHop(hop: string): string
    requires SplitCallSsid(Bare(hop)).Ok?
  {
    if IsUsed(hop) then Canon(Bare(hop)) + "*" else Canon(Bare(hop))
  }

  // ---- encoding ----

  function Pad(s: string, n: nat): (r: string)
    ensures |s| <= n ==> |r| == n
  {
    s + seq(if |s| <= n then n - |s| else 0, i => ' ')
  }

  function SsidByte(ssid: nat, last: bool, used: bool): byte
    requires ssid <= 15
  {
    (0x60 + 2 * ssid + (if last then 1 else 0) + (if used then 0x80 else 0)) as byte
  }

  /** The seven-byte shifted address field. */
  function AddressField(a: Address, last: bool, used: bool): (r: seq<byte>)
    requires a.Encodable()
    ensures |r| == 7
  {
    var padded := Upper(Pad(a.call, 6));
    seq(6, i requires 0 <= i < 6 => (2 * (padded[i] as int % 128)) as byte) + [SsidByte(a.ssid, last, used)]
  }

  function EncodeCallsign(callSsid: string, last: bool, used: bool): Result<seq<byte>, Error> {
    match SplitCallSsid(callSsid)
    case Err(e) => Err(e)
    case Ok(a) => Ok(AddressField(a, last, used))
  }

  function HopFields(path: seq<string>): (r: seq<Result<seq<byte>, Error>>)
    ensures |r| == |path|
  {
    seq(|path|, i requires 0 <= i < |path| => EncodeCallsign(Bare(path[i]), i == |path| - 1, IsUsed(path[i])))
  }

  /** All fields in a row, or the first error. */
  function Collect(fields: seq<Result<seq<byte>, Error>>): Result<seq<byte>, Error> {
    if fields == [] then Ok([])
    else
      match fields[0]
      case Err(e) => Err(e)
      case Ok(field) =>
        match Collect(fields[1..])
        case Err(e) => Err(e)
        case Ok(rest) => Ok(field + rest)
  }

  lemma {:induction false} CollectPrefix(fields: seq<Result<seq<byte>, Error>>, n: nat, front: seq<byte>)
    requires n < |fields| && Collect(fields[..n]) == Ok(front)
    ensures fields[n].Ok? ==> Collect(fields[..n + 1]) == Ok(front + fields[n].value)
    ensures fields[n].Err? ==> Collect(fields) == Err(fields[n].error)
    decreases n
  {
    assert fields[..n + 1][1..] == fields[1..][..n];
    if n == 0 {
      assert Collect(fields[..1][1..]) == Ok([]);
      assert fields[n].Ok? ==> fields[n].value + [] == [] + fields[n].value;
    } else {
      assert fields[..n][1..] == fields[1..][..n - 1];
      var rest := Collect(fields[1..][..n - 1]).value;
      CollectPrefix(fields[1..], n - 1, rest);
      if fields[n].Ok? {
        ConcatAssoc(fields[0].value, rest, fields[n].value);
      }
    }
  }

  function EncodeFrame(src: string, dest: string, path: seq<string>, info: seq<byte>): Result<seq<byte>, Error> {
    if |path| > MAX_DIGIPEATERS then Err(TooManyDigipeaters)
    else
      match EncodeCallsign(dest, false, false)
      case Err(e) => Err(e)
      case Ok(d) =>
        match EncodeCallsign(src, path == [], false)
        case Err(e) => Err(e)
        case Ok(s) =>
          match Collect(HopFields(path))
          case Err(e) => Err(e)
          case Ok(hops) => Ok(d + s + hops + [0x03, 0xF0] + info)
  }

  method EncodeUIFrame(src: string, dest: string, digis: seq<string>, info: seq<byte>)
    returns (r: Result<seq<byte>, Error>)
    ensures r == EncodeFrame(src, dest, digis, info)
  {
    if |digis| > MAX_DIGIPEATERS {
      return Err(TooManyDigipeaters);
    }
    var d := EncodeCallsign(dest, false, false);
    if d.Err? {
      return Err(d.error);
    }
    var s := EncodeCallsign(src, |digis| == 0, false);
    if s.Err? {
      return Err(s.error);
    }
    var hops := EncodeDigis(digis);
    if hops.Err? {
      return Err(hops.error);
    }
    r := Ok(d.value + s.value + hops.value + [0x03, 0xF0] + info);
  }

  method EncodeDigis(digis: seq<string>) returns (r: Result<seq<byte>, Error>)
    ensures r == Collect(HopFields(digis))
  {
    var hops: seq<byte> := [];
    ghost var fields := HopFields(digis);
    for i := 0 to |digis|
      invariant Collect(fields[..i]) == Ok(hops)
    {
      var b := EncodeCallsign(Bare(digis[i]), i == |digis| - 1, IsUsed(digis[i]));
      CollectPrefix(fields, i, hops);
      if b.Err? {
        return Err(b.error);
      }
      hops := hops + b.value;
    }
    assert fields[..|digis|] == fields;
    r := Ok(hops);
  }

  // ---- decoding ----

  /** One shifted address character, upper-cased. */
  function AddressChar(b: byte): char {
    UpperChar((b / 2) as char)
  }

  function AddressText(b: seq<byte>): string
    requires |b| >= 6
  {
    seq(6, i requires 0 <= i < 6 => AddressChar(b[i]))
  }

  /** The callsign of an address field, upper-cased and without its padding. */
  function CallText(b: seq<byte>): string
    requires |b| == 7
  {
    WithSsid(TrimRight(AddressText(b), {' '}), (b[6] as int / 2) % 16)
  }

  predicate EndsAddress(b: seq<byte>)
    requires |b| == 7
  {
    b[6] % 2 == 1
  }

  /** A hop with its used mark restored. */
  function HopText(field: seq<byte>): string
    requires |field| == 7
  {
    if field[6] >= 0x80 then CallText(field) + "*" else CallText(field)
  }

  predicate ValidBaseCall(s: string) {
    1 <= |s| <= 6 && forall i :: 0 <= i < |s| ==> IsUpperAlnum(s[i])
  }

  function BaseCall(s: string): string {
    var i := IndexOf(s, '-');
    if i >= 0 then s[..i] else Bare(s)
  }

  /** The k-th hop's address field. */
  function FieldAt(b: seq<byte>, k: nat): (r: seq<byte>)
    requires 14 + 7 * k + 7 <= |b|
    ensures |r| == 7
  {
    b[14 + 7 * k..14 + 7 * k + 7]
  }

  /** One address field of the path, read. */
  datatype Hop = Hop(text: string, valid: bool, last: bool)

  function ReadHop(field: seq<byte>): Hop
    requires |field| == 7
  {
    var text := HopText(field);
    Hop(text, ValidBaseCall(BaseCall(text)), EndsAddress(field))
  }

  datatype Scan = Scan(count: nat, ended: bool)

  /** All complete address fields after the source's. */
  function HopTable(b: seq<byte>): (r: seq<Hop>)
    requires |b| >= 14
    ensures |r| == (|b| - 14) / 7
  {
    seq((|b| - 14) / 7, k requires 0 <= k < (|b| - 14) / 7 => ReadHop(FieldAt(b, k)))
  }

  /** How many hops there are from position i on: up to the end-of-address bit, the end of the
      frame or the limit, and whether the bit was seen. */
  function ScanHops(table: seq<Hop>, i: nat, last: bool): (r: Result<Scan, Error>)
    requires i <= |table|
    ensures r.Ok? ==> i <= r.value.count <= |table|
    decreases |table| - i
  {
    if last || i == |table| || i >= MAX_DIGIPEATERS then Ok(Scan(i, last))
    else if !table[i].valid then Err(InvalidCallsign)
    else ScanHops(table, i + 1, table[i].last)
  }

  function Texts(table: seq<Hop>): (r: seq<string>)
    ensures |r| == |table|
  {
    seq(|table|, i requires 0 <= i < |table| => table[i].text)
  }

  lemma TextsStep(table: seq<Hop>, n: nat)
    requires n < |table|
    ensures Texts(table[..n + 1]) == Texts(table[..n]) + [table[n].text]
  {
  }

  function Finish(b: seq<byte>, src: string, dest: string, path: seq<string>, last: bool): Result<Fields, Error> {
    var pos := 14 + 7 * |path|;
    if !last then Err(AddressFieldUnterminated)
    else if pos + 2 > |b| then Err(NoControl)
    else if (b[pos] != 0x03 && b[pos] != 0x13) || b[pos + 1] != 0xF0 then Err(NotUI)
    else Ok(Fields(src, dest, path, b[pos + 2..]))
  }

  function DecodeFrame(b: seq<byte>): Result<Fields, Error> {
    if |b| < 16 then Err(FrameTooShort) else Parsed(b, b[0..7], b[7..14], HopTable(b))
  }

  function Parsed(b: seq<byte>, d: seq<byte>, s: seq<byte>, table: seq<Hop>): Result<Fields, Error>
    requires |d| == |s| == 7
  {
    if EndsAddress(d) then Err(NoSourceAddress)
    else if !ValidBaseCall(BaseCall(CallText(d))) then Err(InvalidCallsign)
    else if !ValidBaseCall(BaseCall(CallText(s))) then Err(InvalidCallsign)
    else
      match ScanHops(table, 0, EndsAddress(s))
      case Err(e) => Err(e)
      case Ok(scan) => Finish(b, CallText(s), CallText(d), Texts(table[..scan.count]), scan.ended)
  }

  method DecodeUIFrame(b: seq<byte>) returns (r: Result<Fields, Error>)
    ensures r == DecodeFrame(b)
  {
    if |b| < 16 {
      return Err(FrameTooShort);
    }
    var dest := CallText(b[0..7]);
    if EndsAddress(b[0..7]) {
      return Err(NoSourceAddress);
    }
    if !ValidBaseCall(BaseCall(dest)) {
      return Err(InvalidCallsign);
    }
    var src := CallText(b[7..14]);
    if !ValidBaseCall(BaseCall(src)) {
      return Err(InvalidCallsign);
    }
    var ok, digis, last := DecodeDigis(b, EndsAddress(b[7..14]));
    if !ok {
      return Err(InvalidCallsign);
    }
    r := Finish(b, src, dest, digis, last);
  }

  /** The decoder's loop over the path. */
  method DecodeDigis(b: seq<byte>, srcLast: bool) returns (ok: bool, digis: seq<string>, last: bool)
    requires |b| >= 14
    ensures match ScanHops(HopTable(b), 0, srcLast)
      case Err(e) => !ok && e == InvalidCallsign
      case Ok(scan) => ok && digis == Texts(HopTable(b)[..scan.count]) && last == scan.ended
  {
    hide ReadHop;
    ghost var table := HopTable(b);
    var pos := 14;
    digis, last := [], srcLast;
    while !last && pos + 7 <= |b| && |digis| < MAX_DIGIPEATERS
      invariant pos == 14 + 7 * |digis| && |digis| <= |table|
      invariant digis == Texts(table[..|digis|])
      invariant ScanHops(table, 0, srcLast) == ScanHops(table, |digis|, last)
      decreases |b| - pos
    {
      var field := b[pos..pos + 7];
      assert field == FieldAt(b, |digis|);
      var hop := ReadHop(field);
      TextsStep(table, |digis|);
      if !hop.valid {
        return false, [], false;
      }
      digis := digis + [hop.text];
      last := hop.last;
      pos := pos + 7;
    }
    ok := true;
  }

  // ---- round trips ----

  lemma AddressChars(call: string)
    requires 1 <= |call| <= 6 && forall i :: 0 <= i < |call| ==> IsAlnum(call[i])
    ensures var padded := Upper(Pad(call, 6));
      && (forall i :: 0 <= i < 6 ==> padded[i] as int < 128)
      && TrimRight(padded, {' '}) == Upper(call)
  {
    var pad := seq(6 - |call|, i => ' ');
    UpperConcat(call, pad);
    assert Upper(pad) == pad;
    assert Upper(call)[|call| - 1] != ' ';
    TrimRightKeeps(Upper(call), pad, {' '});
  }

  lemma ShiftedChars(padded: string, field: seq<byte>)
    requires |padded| == 6 <= |field|
    requires forall i :: 0 <= i < 6 ==> padded[i] as int < 128 && !('a' <= padded[i] <= 'z')
    requires forall i :: 0 <= i < 6 ==> field[i] as int == 2 * padded[i] as int
    ensures AddressText(field) == padded
  {
    forall i | 0 <= i < 6 ensures AddressChar(field[i]) == padded[i] {
      assert (field[i] / 2) as int == padded[i] as int;
    }
  }

  lemma AddressRoundTrip(a: Address, last: bool, used: bool)
    requires a.Encodable()
    ensures CallText(AddressField(a, last, used)) == a.Canonical() && EndsAddress(AddressField(a, last, used)) == last
    ensures (AddressField(a, last, used)[6] >= 0x80) == used
  {
    hide AddressText, Pad, SsidByte, Upper;
    var b := AddressField(a, last, used);
    AddressChars(a.call);
    ShiftedChars(Upper(Pad(a.call, 6)), b);
    assert b[6] == SsidByte(a.ssid, last, used);
    SsidBits(a.ssid, last, used);
  }

  lemma SsidBits(ssid: nat, last: bool, used: bool)
    requires ssid <= 15
    ensures var b := SsidByte(ssid, last, used);
      (b as int / 2) % 16 == ssid && (b % 2 == 1) == last && (b >= 0x80) == used
  {
  }

  /** A callsign as the AX.25 address field can carry it: one to six capital letters and digits,
      and an SSID of 1 to 15 written without a sign or leading zero. */
  predicate WellFormedCall(c: string) {
    var i := IndexOf(c, '-');
    ValidBaseCall(if i < 0 then c else c[..i]) && (i < 0 || SsidText(c[i + 1..]))
  }

  predicate SsidText(t: string) {
    || (|t| == 1 && '1' <= t[0] <= '9')
    || (|t| == 2 && t[0] == '1' && '0' <= t[1] <= '5')
  }

  lemma CanonShape(a: Address)
    requires a.Encodable()
    ensures WellFormedCall(a.Canonical()) && !IsUsed(a.Canonical())
  {
    hide IndexOf, Itoa, SsidText, IsUsed;
    var up := Upper(a.call);
    assert ValidBaseCall(up);
    NoMarkNoDash(up);
    if a.ssid > 0 {
      ItoaSsid(a.ssid);
      DashedShape(up, Itoa(a.ssid));
    }
  }

  lemma NoMarkNoDash(base: string)
    requires ValidBaseCall(base)
    ensures '-' !in base && !IsUsed(base)
  {
  }

  lemma DashedShape(base: string, t: string)
    requires ValidBaseCall(base) && SsidText(t)
    ensures WellFormedCall(base + "-" + t) && !IsUsed(base + "-" + t)
  {
    hide IndexOf, ValidBaseCall;
    var c := base + ['-'] + t;
    NoMarkNoDash(base);
    IndexOfFirst(base, '-', t);
    assert c[..|base|] == base && c[|base| + 1..] == t;
    assert c[|c| - 1] == t[|t| - 1];
  }

  lemma ItoaSsid(n: nat)
    requires 1 <= n <= 15
    ensures SsidText(Itoa(n)) && IsDigit(Itoa(n)[|Itoa(n)| - 1])
  {
  }

  lemma BaseOfUsed(c: string)
    requires !IsUsed(c)
    ensures BaseCall(c + "*") == BaseCall(c)
  {
    hide IndexOf;
    var i := IndexOf(c, '-');
    if i < 0 {
      assert '-' !in c + "*";
      assert (c + "*")[..|c|] == c;
    } else {
      IndexOfFirst(c[..i], '-', c[i + 1..] + "*");
      assert c + "*" == c[..i] + ['-'] + (c[i + 1..] + "*");
      assert (c + "*")[..i] == c[..i];
    }
  }

  lemma WellFormedBase(c: string)
    requires WellFormedCall(c)
    ensures ValidBaseCall(BaseCall(c)) && !IsUsed(c)
  {
  }

  // ---- whole frames ----

  predicate EncodablePath(path: seq<string>) {
    forall i :: 0 <= i < |path| ==> SplitCallSsid(Bare(path[i])).Ok?
  }

  function CanonPath(path: seq<string>): (r: seq<string>)
    requires EncodablePath(path)
    ensures |r| == |path|
  {
    seq(|path|, i requires 0 <= i < |path| => CanonHop(path[i]))
  }

  /** The fields stand in the output one after the other. */
  lemma {:induction false} CollectLayout(fields: seq<Result<seq<byte>, Error>>, i: nat)
    requires Collect(fields).Ok? && i < |fields|
    requires forall k :: 0 <= k < |fields| && fields[k].Ok? ==> |fields[k].value| == 7
    ensures fields[i].Ok?
    ensures |Collect(fields).value| == 7 * |fields|
    ensures Collect(fields).value[7 * i..7 * i + 7] == fields[i].value
    decreases |fields|
  {
    var field, rest := fields[0].value, Collect(fields[1..]).value;
    if |fields| > 1 {
      CollectLayout(fields[1..], if i == 0 then 0 else i - 1);
      assert (field + rest)[7..] == rest;
      if i > 0 {
        var m := 7 * (i - 1);
        assert (field + rest)[m + 7..m + 14] == rest[m..m + 7];
      }
    } else {
      assert fields[1..] == [];
    }
  }

  lemma MarkedCall(c: string)
    requires WellFormedCall(c)
    ensures ValidBaseCall(BaseCall(c)) && !IsUsed(c) && Bare(c) == c
    ensures ValidBaseCall(BaseCall(c + "*")) && IsUsed(c + "*") && Bare(c + "*") == c
  {
    WellFormedBase(c);
    BaseOfUsed(c);
    assert (c + "*")[..|c|] == c;
  }

  lemma CanonHopShape(hop: string)
    requires SplitCallSsid(Bare(hop)).Ok?
    ensures ValidBaseCall(BaseCall(CanonHop(hop)))
    ensures IsUsed(CanonHop(hop)) == IsUsed(hop) && Bare(CanonHop(hop)) == Canon(Bare(hop))
    ensures WellFormedCall(Bare(CanonHop(hop)))
  {
    var c := Canon(Bare(hop));
    CanonShape(SplitCallSsid(Bare(hop)).value);
    MarkedCall(c);
  }

  lemma HopRoundTrip(hop: string, last: bool)
    requires SplitCallSsid(Bare(hop)).Ok?
    ensures var field := EncodeCallsign(Bare(hop), last, IsUsed(hop)).value;
      |field| == 7 && EndsAddress(field) == last && HopText(field) == CanonHop(hop)
  {
    AddressRoundTrip(SplitCallSsid(Bare(hop)).value, last, IsUsed(hop));
  }

  /** The decoder's scan goes over n valid fields of which only the last ends the address. */
  lemma {:induction false} ScanAll(table: seq<Hop>, n: nat, i: nat)
    requires i <= n <= |table| && n <= MAX_DIGIPEATERS
    requires forall k :: 0 <= k < n ==> table[k].valid && table[k].last == (k == n - 1)
    ensures ScanHops(table, i, i == n) == Ok(Scan(n, true))
    decreases n - i
  {
    if i < n {
      ScanAll(table, n, i + 1);
    }
  }

  /** Where the pieces of an encoded frame stand. */
  lemma FrameLayout(d: seq<byte>, s: seq<byte>, hops: seq<byte>, info: seq<byte>)
    requires |d| == |s| == 7
    ensures var b := d + s + hops + [0x03, 0xF0] + info;
      && b[0..7] == d && b[7..14] == s && b[14..14 + |hops|] == hops
      && b[14 + |hops|] == 0x03 && b[14 + |hops| + 1] == 0xF0 && b[14 + |hops| + 2..] == info
  {
  }

  lemma SliceOfSlice(b: seq<byte>, hops: seq<byte>, k: nat)
    requires 7 * k + 7 <= |hops| && 14 + |hops| <= |b| && b[14..14 + |hops|] == hops
    ensures FieldAt(b, k) == hops[7 * k..7 * k + 7]
  {
    forall j | 0 <= j < 7 ensures FieldAt(b, k)[j] == hops[7 * k + j] {
      assert b[14..14 + |hops|][7 * k + j] == b[14 + 7 * k + j];
    }
  }

  lemma FieldsInPlace(fields: seq<Result<seq<byte>, Error>>, b: seq<byte>, hops: seq<byte>)
    requires forall k :: 0 <= k < |fields| && fields[k].Ok? ==> |fields[k].value| == 7
    requires Collect(fields) == Ok(hops)
    requires |b| >= 14 + |hops| && b[14..14 + |hops|] == hops
    ensures |hops| == 7 * |fields|
    ensures forall k :: 0 <= k < |fields| ==> fields[k].Ok? && FieldAt(b, k) == fields[k].value
  {
    assert fields == [] ==> hops == [];
    forall k | 0 <= k < |fields|
      ensures fields[k].Ok? && |hops| == 7 * |fields| && FieldAt(b, k) == fields[k].value
    {
      CollectLayout(fields, k);
      SliceOfSlice(b, hops, k);
    }
  }

  /** What the decoder reads in the place of an encoded hop. */
  lemma HopReads(hop: string, last: bool)
    requires SplitCallSsid(Bare(hop)).Ok?
    ensures ReadHop(EncodeCallsign(Bare(hop), last, IsUsed(hop)).value) == Hop(CanonHop(hop), true, last)
  {
    HopRoundTrip(hop, last);
    CanonHopShape(hop);
  }

  lemma PathDecode(path: seq<string>, b: seq<byte>)
    requires |path| <= MAX_DIGIPEATERS && EncodablePath(path) && 14 + 7 * |path| <= |b|
    requires forall k :: 0 <= k < |path| ==> FieldAt(b, k) == HopFields(path)[k].value
    ensures ScanHops(HopTable(b), 0, path == []) == Ok(Scan(|path|, true))
    ensures Texts(HopTable(b)[..|path|]) == CanonPath(path)
  {
    var table := HopTable(b);
    forall k | 0 <= k < |path|
      ensures table[k] == Hop(CanonHop(path[k]), true, k == |path| - 1)
    {
      HopReads(path[k], k == |path| - 1);
    }
    ScanAll(table, |path|, 0);
  }

  /** The pieces an encoded frame is made of. */
  lemma EncodedParts(src: string, dest: string, path: seq<string>, info: seq<byte>)
    returns (b: seq<byte>, d: seq<byte>, s: seq<byte>, hops: seq<byte>)
    requires EncodeFrame(src, dest, path, info).Ok?
    ensures |path| <= MAX_DIGIPEATERS && SplitCallSsid(src).Ok? && SplitCallSsid(dest).Ok?
    ensures b == EncodeFrame(src, dest, path, info).value == d + s + hops + [0x03, 0xF0] + info
    ensures EncodeCallsign(dest, false, false) == Ok(d) && EncodeCallsign(src, path == [], false) == Ok(s)
    ensures Collect(HopFields(path)) == Ok(hops)
    ensures |d| == |s| == 7
  {
    d, s := EncodeCallsign(dest, false, false).value, EncodeCallsign(src, path == [], false).value;
    hops := Collect(HopFields(path)).value;
    b := d + s + hops + [0x03, 0xF0] + info;
  }

  lemma HopsInPlace(path: seq<string>, b: seq<byte>, hops: seq<byte>)
    requires Collect(HopFields(path)) == Ok(hops)
    requires |b| >= 14 + |hops| && b[14..14 + |hops|] == hops
    ensures EncodablePath(path) && |hops| == 7 * |path|
    ensures forall k :: 0 <= k < |path| ==> FieldAt(b, k) == HopFields(path)[k].value
  {
    HopFieldsShape(path);
    var fields := HopFields(path);
    FieldsInPlace(fields, b, hops);
    assert forall k :: 0 <= k < |path| ==> fields[k].Ok?;
  }

  lemma HopFieldsShape(path: seq<string>)
    ensures forall k :: 0 <= k < |path| && HopFields(path)[k].Ok? ==>
      |HopFields(path)[k].value| == 7 && SplitCallSsid(Bare(path[k])).Ok?
  {
  }

  /** Whatever is encoded comes back from the wire: the callsigns in canonical form, every used
      mark, and the very same information bytes. */
  lemma FrameRoundTrip(src: string, dest: string, path: seq<string>, info: seq<byte>)
    requires EncodeFrame(src, dest, path, info).Ok?
    ensures |path| <= MAX_DIGIPEATERS
    ensures SplitCallSsid(src).Ok? && SplitCallSsid(dest).Ok? && EncodablePath(path)
    ensures DecodeFrame(EncodeFrame(src, dest, path, info).value)
      == Ok(Fields(Canon(src), Canon(dest), CanonPath(path), info))
  {
    hide SplitCallSsid, Canon, Collect, CallText, BaseCall, ValidBaseCall, EndsAddress, ScanHops, Parsed, ReadHop;
    var b, d, s, hops := EncodedParts(src, dest, path, info);
    FrameLayout(d, s, hops, info);
    HopsInPlace(path, b, hops);
    AddressOk(dest, false);
    AddressOk(src, path == []);
    PathDecode(path, b);
    ParsedOk(b, d, s, HopTable(b), |path|, info);
  }

  lemma ParsedOk(b: seq<byte>, d: seq<byte>, s: seq<byte>, table: seq<Hop>, n: nat, info: seq<byte>)
    requires |d| == |s| == 7 && !EndsAddress(d)
    requires ValidBaseCall(BaseCall(CallText(d))) && ValidBaseCall(BaseCall(CallText(s)))
    requires ScanHops(table, 0, EndsAddress(s)) == Ok(Scan(n, true))
    requires |b| == 14 + 7 * n + 2 + |info|
    requires b[14 + 7 * n] == 0x03 && b[14 + 7 * n + 1] == 0xF0 && b[14 + 7 * n + 2..] == info
    ensures Parsed(b, d, s, table) == Ok(Fields(CallText(s), CallText(d), Texts(table[..n]), info))
  {
  }

  /** A frame with one hop. */
  lemma OneHop(d: seq<byte>, s: seq<byte>, field: seq<byte>, h: Hop)
    requires |d| == |s| == |field| == 7 && !EndsAddress(d) && !EndsAddress(s)
    requires ValidBaseCall(BaseCall(CallText(d))) && ValidBaseCall(BaseCall(CallText(s)))
    requires ReadHop(field) == h && h.valid && h.last
    ensures DecodeFrame(d + s + field + [0x03, 0xF0] + []) == Ok(Fields(CallText(s), CallText(d), [h.text], []))
  {
    hide CallText, BaseCall, ValidBaseCall, ScanHops, Finish, EndsAddress, ReadHop, Parsed;
    var b := d + s + field + [0x03, 0xF0] + [];
    FrameLayout(d, s, field, []);
    assert |b| == 23 && FieldAt(b, 0) == field;
    var table := HopTable(b);
    assert table == [h];
    ScanAll(table, 1, 0);
    ParsedOk(b, d, s, table, 1, []);
    assert Texts(table[..1]) == [h.text];
  }

  lemma AddressOk(call: string, last: bool)
    requires SplitCallSsid(call).Ok?
    ensures CallText(EncodeCallsign(call, last, false).value) == Canon(call)
    ensures EndsAddress(EncodeCallsign(call, last, false).value) == last
    ensures ValidBaseCall(BaseCall(Canon(call)))
  {
    var a := SplitCallSsid(call).value;
    AddressRoundTrip(a, last, false);
    CanonShape(a);
    WellFormedBase(a.Canonical());
  }

  // ---- which decoded frames survive being encoded again ----

  lemma SsidTextExact(t: string)
    ensures SsidText(t) <==> exists n :: 1 <= n <= 15 && t == Itoa(n)
    ensures SsidText(t) ==> Atoi(t).Some? && 1 <= Atoi(t).value <= 15 && Itoa(Atoi(t).value) == t
  {
    if SsidText(t) {
      var n := if |t| == 1 then DigitValue(t[0]) else 10 + DigitValue(t[1]);
      assert Itoa(n) == t;
      AtoiOfItoa(n);
    }
  }

  /** The address field carries exactly the well-formed callsigns unchanged. */
  lemma CanonFixpoints(c: string)
    ensures WellFormedCall(c) <==> SplitCallSsid(c).Ok? && Canon(c) == c
  {
    if WellFormedCall(c) {
      WellFormedSplit(c);
    } else if SplitCallSsid(c).Ok? {
      CanonShape(SplitCallSsid(c).value);
    }
  }

  lemma WellFormedSplit(c: string)
    requires WellFormedCall(c)
    ensures SplitCallSsid(c).Ok? && Canon(c) == c
  {
    hide TrimSpace, ParseParts, SsidText, ValidBaseCall, IndexOf;
    var i := IndexOf(c, '-');
    var base := if i < 0 then c else c[..i];
    BaseHasNoSpace(base);
    if i < 0 {
      PartsUnchanged(base, None);
    } else {
      PartsUnchanged(base, Some(c[i + 1..]));
      assert c == base + "-" + c[i + 1..];
    }
  }

  lemma BaseHasNoSpace(base: string)
    requires ValidBaseCall(base)
    ensures TrimSpace(base) == base
  {
    hide TrimSpace;
    TrimSpaceKeeps(base);
  }

  lemma PartsUnchanged(base: string, suffix: Option<string>)
    requires ValidBaseCall(base)
    requires suffix.Some? ==> SsidText(suffix.value)
    ensures ParseParts(base, suffix).Ok?
    ensures ParseParts(base, suffix).value.Canonical()
      == (if suffix.None? then base else base + "-" + suffix.value)
  {
    assert Upper(base) == base;
    if suffix.Some? {
      SsidTextExact(suffix.value);
    }
  }

  predicate WellFormedFields(f: Fields) {
    && WellFormedCall(f.src) && WellFormedCall(f.dest)
    && forall i :: 0 <= i < |f.path| ==> WellFormedCall(Bare(f.path[i]))
  }

  lemma {:induction false} CollectOk(fields: seq<Result<seq<byte>, Error>>)
    requires forall k :: 0 <= k < |fields| ==> fields[k].Ok?
    ensures Collect(fields).Ok?
  {
    if fields != [] {
      CollectOk(fields[1..]);
    }
  }

  lemma WellFormedPath(path: seq<string>)
    requires forall i :: 0 <= i < |path| ==> WellFormedCall(Bare(path[i]))
    ensures EncodablePath(path) && CanonPath(path) == path
    ensures Collect(HopFields(path)).Ok?
  {
    hide SplitCallSsid, WellFormedCall, Canon, Collect;
    forall i | 0 <= i < |path|
      ensures SplitCallSsid(Bare(path[i])).Ok? && CanonHop(path[i]) == path[i]
    {
      CanonFixpoints(Bare(path[i]));
    }
    CollectOk(HopFields(path));
  }

  lemma EncodableFields(f: Fields)
    requires WellFormedFields(f) && |f.path| <= MAX_DIGIPEATERS
    ensures EncodeFrame(f.src, f.dest, f.path, f.info).Ok?
    ensures DecodeFrame(EncodeFrame(f.src, f.dest, f.path, f.info).value) == Ok(f)
  {
    hide SplitCallSsid, WellFormedCall, DecodeFrame, Canon;
    CanonFixpoints(f.src);
    CanonFixpoints(f.dest);
    WellFormedPath(f.path);
    assert EncodeFrame(f.src, f.dest, f.path, f.info).Ok?;
    FrameRoundTrip(f.src, f.dest, f.path, f.info);
  }

  /** Encoding fails only on too long a path or a callsign that cannot be sent. */
  lemma EncodeSucceeds(src: string, dest: string, path: seq<string>, info: seq<byte>)
    requires SplitCallSsid(src).Ok? && SplitCallSsid(dest).Ok?
    requires |path| <= MAX_DIGIPEATERS && EncodablePath(path)
    ensures EncodeFrame(src, dest, path, info).Ok?
  {
    hide SplitCallSsid, Collect;
    CollectOk(HopFields(path));
  }

  lemma {:induction false} ScanLimit(table: seq<Hop>, i: nat, last: bool)
    requires i <= |table| && i <= MAX_DIGIPEATERS
    ensures ScanHops(table, i, last).Ok? ==> ScanHops(table, i, last).value.count <= MAX_DIGIPEATERS
    decreases |table| - i
  {
    if !last && i < |table| && i < MAX_DIGIPEATERS {
      ScanLimit(table, i + 1, table[i].last);
    }
  }

  lemma DecodedPathLimit(b: seq<byte>)
    requires DecodeFrame(b).Ok?
    ensures |DecodeFrame(b).value.path| <= MAX_DIGIPEATERS
  {
    ScanLimit(HopTable(b), 0, EndsAddress(b[7..14]));
  }

  /** Decoding, encoding and decoding again gives the same fields exactly when every callsign
      that was decoded is well-formed. */
  lemma ReencodeExact(b: seq<byte>)
    requires DecodeFrame(b).Ok?
    ensures var f := DecodeFrame(b).value;
      WellFormedFields(f) <==>
      (var again := EncodeFrame(f.src, f.dest, f.path, f.info);
       again.Ok? && DecodeFrame(again.value) == DecodeFrame(b))
  {
    var f := DecodeFrame(b).value;
    DecodedPathLimit(b);
    if WellFormedFields(f) {
      EncodableFields(f);
    } else if EncodeFrame(f.src, f.dest, f.path, f.info).Ok? {
      FrameRoundTrip(f.src, f.dest, f.path, f.info);
      CanonFixpoints(f.src);
      CanonFixpoints(f.dest);
      forall i | 0 <= i < |f.path| && CanonPath(f.path)[i] == f.path[i]
        ensures WellFormedCall(Bare(f.path[i]))
      {
        CanonHopShape(f.path[i]);
      }
    }
  }

  /** A frame heard from a careless transmitter: the dash and digits of "AB-03" stand in the
      callsign characters. It decodes, but reads "AB-3" after being encoded again. */
  lemma ReencodeCanDiffer()
    ensures var b: seq<byte> := [130, 160, 164, 142, 158, 64, 0x60, 130, 132, 90, 96, 102, 64, 0x61, 0x03, 0xF0];
      && DecodeFrame(b) == Ok(Fields("AB-03", "APRGO", [], []))
      && !WellFormedFields(DecodeFrame(b).value)
  {
    hide CallText, BaseCall, ValidBaseCall, WellFormedCall, ScanHops, Finish;
    var b: seq<byte> := [130, 160, 164, 142, 158, 64, 0x60, 130, 132, 90, 96, 102, 64, 0x61, 0x03, 0xF0];
    var d, s := b[0..7], b[7..14];
    assert d == [130, 160, 164, 142, 158, 64, 0x60] && s == [130, 132, 90, 96, 102, 64, 0x61];
    CarelessAddresses();
    assert HopTable(b) == [];
    CarelessScan(s);
    ParsedOk(b, d, s, [], 0, []);
    assert Texts([]) == [];
    WellFormedOrNot();
  }

  lemma CarelessScan(s: seq<byte>)
    requires |s| == 7 && s[6] == 0x61
    ensures ScanHops([], 0, EndsAddress(s)) == Ok(Scan(0, true))
  {
  }

  lemma CarelessAddresses()
    ensures CallText([130, 160, 164, 142, 158, 64, 0x60]) == "APRGO"
    ensures CallText([130, 132, 90, 96, 102, 64, 0x61]) == "AB-03"
    ensures ValidBaseCall(BaseCall("APRGO")) && ValidBaseCall(BaseCall("AB-03"))
  {
    hide ValidBaseCall, BaseCall, CallText;
    DestinationText([130, 160, 164, 142, 158, 64, 0x60]);
    SenderText([130, 132, 90, 96, 102, 64, 0x61]);
    WellFormedOrNot();
  }

  lemma DestinationText(d: seq<byte>)
    requires |d| == 7 && d[..6] == [130, 160, 164, 142, 158, 64] && d[6] == 0x60
    ensures CallText(d) == "APRGO"
  {
    hide CallText;
    assert d[0] == 130 && d[1] == 160 && d[2] == 164 && d[3] == 142 && d[4] == 158 && d[5] == 64;
    PaddedText(d, "APRGO");
  }

  lemma SenderText(s: seq<byte>)
    requires |s| == 7 && s[..6] == [130, 132, 90, 96, 102, 64] && s[6] as int / 2 % 16 == 0
    ensures CallText(s) == "AB-03"
  {
    hide CallText;
    assert s[0] == 130 && s[1] == 132 && s[2] == 90 && s[3] == 96 && s[4] == 102 && s[5] == 64;
    PaddedText(s, "AB-03");
  }

  lemma PaddedText(field: seq<byte>, call: string)
    requires |field| == 7 && |call| == 5 && call[4] != ' '
    requires forall i :: 0 <= i < 5 ==> AddressChar(field[i]) == call[i]
    requires field[5] == 64
    ensures CallText(field) == WithSsid(call, (field[6] as int / 2) % 16)
  {
    hide TrimRight;
    assert AddressText(field) == call + " ";
    TrimRightKeeps(call, " ", {' '});
  }

  lemma WellFormedOrNot()
    ensures ValidBaseCall(BaseCall("APRGO")) && ValidBaseCall(BaseCall("AB-03"))
    ensures !WellFormedCall("AB-03")
  {
    hide IndexOf;
    assert '-' !in "APRGO";
    assert "AB-03" == "AB" + ['-'] + "03";
    IndexOfFirst("AB", '-', "03");
    assert "AB-03"[..2] == "AB" && "AB-03"[3..] == "03";
  }
}
