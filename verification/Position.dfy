/** Positions in the uncompressed format: composing a beacon's information field and decoding it.
    Coordinates are in hundredths of a minute; printing rounds halves up. */
module Position {
  import opened GoText
  import opened Packets

  const DEGREE: int := 6000

  datatype Beacon = Beacon(symbol: string, messages: bool, ambiguityLevel: int, comment: string)

  // ---- composing ----

  function Two(n: nat): (s: string)
    requires n < 100
    ensures |s| == 2 && IsDigit(s[0]) && IsDigit(s[1])
    ensures 10 * DigitValue(s[0]) + DigitValue(s[1]) == n
  {
    [DigitChar(n / 10), DigitChar(n % 10)]
  }

  /** The %02d and %03d forms; a number that needs more digits is not cut. */
  function Padded(n: nat, width: nat): string {
    if n < 10 && width <= 1 then [DigitChar(n)]
    else Padded(n / 10, if width > 0 then width - 1 else 0) + [DigitChar(n % 10)]
  }

  /** Whole degrees and hundredths of a minute of a coordinate's magnitude; just under a full
      degree the minutes are held at 59.99. */
  function Degrees(h: real): int {
    (h / DEGREE as real).Floor
  }

  function Hundredths(h: real): int {
    var rest := h - (DEGREE * Degrees(h)) as real;
    if rest >= 5999.5 then 5999 else (rest + 0.5).Floor
  }

  function Magnitude(x: real): real {
    if x < 0.0 then -x else x
  }

  lemma HundredthsRange(h: real)
    requires h >= 0.0
    ensures Degrees(h) >= 0 && 0 <= Hundredths(h) <= 5999
    ensures -1.0 <= (DEGREE * Degrees(h) + Hundredths(h)) as real - h <= 0.5
  {
    var d := Degrees(h);
    var q := h / DEGREE as real;
    assert d as real <= q < d as real + 1.0;
    assert q * 6000.0 == h;
  }

  /** Degrees, minutes and hundredths, without the hemisphere. */
  function AxisText(h: real, width: nat): string
    requires h >= 0.0
  {
    HundredthsRange(h);
    var m := Hundredths(h);
    Padded(Degrees(h), width) + Two(m / 100) + "." + Two(m % 100)
  }

  function LatText(lat: real): string {
    AxisText(Magnitude(lat), 2) + if lat < 0.0 then "S" else "N"
  }

  function LonText(lon: real): string {
    AxisText(Magnitude(lon), 3) + if lon < 0.0 then "W" else "E"
  }

  const LAT_BLANKS: seq<nat> := [6, 5, 3, 2]
  const LON_BLANKS: seq<nat> := [7, 6, 4, 3]

  function Clamped(level: int): nat {
    if level <= 0 then 0 else if level > 4 then 4 else level
  }

  /** The first k of the given positions blanked. */
  function Blanked(s: string, positions: seq<nat>, k: nat): (r: string)
    requires k <= |positions| && forall i :: 0 <= i < |positions| ==> positions[i] < |s|
    ensures |r| == |s|
  {
    if k == 0 then s else Blanked(s, positions, k - 1)[positions[k - 1] := ' ']
  }

  function Ambiguous(lat: string, lon: string, level: int): (string, string) {
    if |lat| != 8 || |lon| != 9 then (lat, lon)
    else (Blanked(lat, LAT_BLANKS, Clamped(level)), Blanked(lon, LON_BLANKS, Clamped(level)))
  }

  method ApplyAmbiguity(lat: string, lon: string, level: int) returns (latOut: string, lonOut: string)
    ensures (latOut, lonOut) == Ambiguous(lat, lon, level)
  {
    if level <= 0 {
      return lat, lon;
    }
    var n := level;
    if n > 4 {
      n := 4;
    }
    if |lat| != 8 || |lon| != 9 {
      return lat, lon;
    }
    var latB := new char[8](i requires 0 <= i < 8 => lat[i]);
    var lonB := new char[9](i requires 0 <= i < 9 => lon[i]);
    assert latB[..] == lat && lonB[..] == lon;
    for i := 0 to n
      invariant latB[..] == Blanked(lat, LAT_BLANKS, i) && lonB[..] == Blanked(lon, LON_BLANKS, i)
    {
      latB[LAT_BLANKS[i]] := ' ';
      lonB[LON_BLANKS[i]] := ' ';
    }
    return latB[..], lonB[..];
  }

  /** Control characters and the two reserved ones are dropped, and what is left is cut. */
  function Kept(s: string): string {
    if s == "" then ""
    else (if s[0] < ' ' || s[0] == 0x7F as char || s[0] == '|' || s[0] == '~' then "" else [s[0]]) + Kept(s[1..])
  }

  function BeaconComment(s: string): string {
    if |Kept(s)| > 43 then Kept(s)[..43] else Kept(s)
  }

  function SymbolOf(b: Beacon): string {
    if |b.symbol| != 2 then "I&" else b.symbol
  }

  /** The %c form of an octet: the character of that number in UTF-8. */
  function CharText(c: char): string {
    if c as int < 128 then [c] else [(0xC0 + c as int / 64 % 32) as char, (0x80 + c as int % 64) as char]
  }

  function ComposeInfo(b: Beacon, lat: real, lon: real): string {
    if lat == 0.0 && lon == 0.0 then ""
    else
      var sym := SymbolOf(b);
      var (latS, lonS) := Ambiguous(LatText(lat), LonText(lon), b.ambiguityLevel);
      (if b.messages then "=" else "!") + latS + CharText(sym[0]) + lonS + CharText(sym[1]) + BeaconComment(b.comment)
  }

  // ---- decoding ----

  predicate ValidSymTable(c: char) {
    c == '/' || c == '\\' || '0' <= c <= '9' || 'A' <= c <= 'Z'
  }

  /** A blank reads as the digit in the middle of what it may stand for. */
  function Filled(c: char, digit: char): char {
    if c == ' ' then digit else c
  }

  function FilledIn(s: string): (r: string)
    requires |s| >= 19
    ensures |r| == 19
  {
    s[..19][2 := Filled(s[2], '3')][3 := Filled(s[3], '5')][5 := Filled(s[5], '5')][6 := Filled(s[6], '5')]
      [12 := Filled(s[12], '3')][13 := Filled(s[13], '5')][15 := Filled(s[15], '5')][16 := Filled(s[16], '5')]
  }

  function AmbiguityOf(s: string): nat
    requires |s| >= 19
  {
    if s[2] == ' ' then 4 else if s[3] == ' ' then 3 else if s[5] == ' ' then 2 else if s[6] == ' ' then 1 else 0
  }

  function Pair(a: char, b: char): nat
    requires IsDigit(a) && IsDigit(b)
  {
    10 * DigitValue(a) + DigitValue(b)
  }

  /** The digits and points of the format are where they belong, and the symbol code is no octet
      that scanning a character into a byte refuses. */
  predicate Scans(p: string)
    requires |p| == 19
  {
    && IsDigit(p[0]) && IsDigit(p[1]) && IsDigit(p[2]) && IsDigit(p[3]) && p[4] == '.' && IsDigit(p[5]) && IsDigit(p[6])
    && IsDigit(p[9]) && IsDigit(p[10]) && IsDigit(p[11]) && IsDigit(p[12]) && IsDigit(p[13]) && p[14] == '.'
    && IsDigit(p[15]) && IsDigit(p[16]) && p[18] as int < 128
  }

  predicate IsSouth(c: char) { c == 'S' || c == 's' }

  predicate IsWest(c: char) { c == 'W' || c == 'w' }

  function LatOf(p: string): int
    requires |p| == 19 && Scans(p)
  {
    var h := DEGREE * Pair(p[0], p[1]) + 100 * Pair(p[2], p[3]) + Pair(p[5], p[6]);
    if IsSouth(p[7]) then -h else h
  }

  function LonOf(p: string): int
    requires |p| == 19 && Scans(p)
  {
    var h := DEGREE * (100 * DigitValue(p[9]) + Pair(p[10], p[11])) + 100 * Pair(p[12], p[13]) + Pair(p[15], p[16]);
    if IsWest(p[17]) then -h else h
  }

  predicate InRange(p: string)
    requires |p| == 19 && Scans(p)
  {
    && ValidSymTable(p[8])
    && (p[7] == 'N' || p[7] == 'n' || IsSouth(p[7]))
    && (p[17] == 'E' || p[17] == 'e' || IsWest(p[17]))
    && Pair(p[0], p[1]) <= 90 && 100 * DigitValue(p[9]) + Pair(p[10], p[11]) <= 180
    && Pair(p[2], p[3]) < 60 && Pair(p[12], p[13]) < 60
  }

  function DecodeUncompressed(s: string, d: Decoded): Decoded {
    if |s| < 19 then d
    else
      var p := FilledIn(s);
      var e := d.(ambiguity := AmbiguityOf(s));
      if !Scans(p) || !InRange(p) then e
      else
        e.(fix := Some(Fix(LatOf(p), LonOf(p))), symbol := [p[8], p[18]],
           comment := if |s| > 19 then TrimRight(s[19..], CRLF) else d.comment)
  }

  // ---- digits in and out ----

  /** The eight characters of a latitude. */
  function LatForm(d: nat, m: nat, hemisphere: char): (s: string)
    requires d < 100 && m < 6000
    ensures |s| == 8
  {
    Two(d) + Two(m / 100) + "." + Two(m % 100) + [hemisphere]
  }

  /** The nine characters of a longitude. */
  function LonForm(d: nat, m: nat, hemisphere: char): (s: string)
    requires d < 1000 && m < 6000
    ensures |s| == 9
  {
    [DigitChar(d / 100)] + Two(d % 100) + Two(m / 100) + "." + Two(m % 100) + [hemisphere]
  }

  /** The minutes that a reader takes for minutes whose last k digits are blank. */
  function FilledMinutes(m: nat, k: nat): (r: nat)
    requires m < 6000 && k <= 4
    ensures r < 6000
  {
    if k == 0 then m
    else if k == 1 then m - m % 10 + 5
    else if k == 2 then m - m % 100 + 55
    else if k == 3 then m - m % 1000 + 555
    else 3555
  }

  /** How far, in hundredths of a minute, blanking k digits can move a coordinate. */
  function BlankError(k: nat): nat {
    if k == 0 then 0 else if k == 1 then 5 else if k == 2 then 55 else if k == 3 then 555 else 3555
  }

  lemma FilledError(m: nat, k: nat)
    requires m < 6000 && k <= 4
    ensures FilledMinutes(m, k) <= m + BlankError(k) && m <= FilledMinutes(m, k) + BlankError(k)
  {
  }

  lemma LatBlanks(d: nat, m: nat, hemisphere: char, k: nat)
    requires d < 100 && m < 6000 && k <= 4
    ensures Blanked(LatForm(d, m, hemisphere), LAT_BLANKS, k) ==
      Two(d) + [if k >= 4 then ' ' else Two(m / 100)[0], if k >= 3 then ' ' else Two(m / 100)[1], '.',
                if k >= 2 then ' ' else Two(m % 100)[0], if k >= 1 then ' ' else Two(m % 100)[1], hemisphere]
  {
    hide Two;
    if k > 0 {
      LatBlanks(d, m, hemisphere, k - 1);
    }
  }

  lemma LonBlanks(d: nat, m: nat, hemisphere: char, k: nat)
    requires d < 1000 && m < 6000 && k <= 4
    ensures Blanked(LonForm(d, m, hemisphere), LON_BLANKS, k) ==
      [DigitChar(d / 100)] + Two(d % 100)
      + [if k >= 4 then ' ' else Two(m / 100)[0], if k >= 3 then ' ' else Two(m / 100)[1], '.',
         if k >= 2 then ' ' else Two(m % 100)[0], if k >= 1 then ' ' else Two(m % 100)[1], hemisphere]
  {
    hide Two, DigitChar;
    if k > 0 {
      LonBlanks(d, m, hemisphere, k - 1);
    }
  }

  /** The filled digits, read as minutes and hundredths. */
  lemma FilledDigits(m: nat, k: nat, a: char, b: char, c: char, e: char)
    requires m < 6000 && k <= 4
    requires a == (if k >= 4 then '3' else Two(m / 100)[0]) && b == (if k >= 3 then '5' else Two(m / 100)[1])
    requires c == (if k >= 2 then '5' else Two(m % 100)[0]) && e == (if k >= 1 then '5' else Two(m % 100)[1])
    ensures IsDigit(a) && IsDigit(b) && IsDigit(c) && IsDigit(e)
    ensures 100 * Pair(a, b) + Pair(c, e) == FilledMinutes(m, k) && Pair(a, b) < 60
  {
    hide DigitChar, Two;
    var h, l := Two(m / 100), Two(m % 100);
    var h1, h0, l1, l0 := DigitValue(h[0]), DigitValue(h[1]), DigitValue(l[0]), DigitValue(l[1]);
    assert 10 * h1 + h0 == m / 100 && 10 * l1 + l0 == m % 100;
    DigitsOf(m, h1, h0, l1, l0);
    assert DigitValue('3') == 3 && DigitValue('5') == 5;
  }

  lemma DigitsOf(m: nat, h1: nat, h0: nat, l1: nat, l0: nat)
    requires h1 <= 9 && h0 <= 9 && l1 <= 9 && l0 <= 9
    requires 10 * h1 + h0 == m / 100 && 10 * l1 + l0 == m % 100
    ensures m == 1000 * h1 + 100 * h0 + 10 * l1 + l0
    ensures m % 10 == l0 && m % 100 == 10 * l1 + l0 && m % 1000 == 100 * h0 + 10 * l1 + l0
  {
    assert m == 100 * (m / 100) + m % 100;
  }

  /** A position field with k digits blanked on each axis. */
  function Field(dLat: nat, mLat: nat, hLat: char, table: string, dLon: nat, mLon: nat, hLon: char, code: string,
                 k: nat, comment: string): string
    requires dLat < 100 && mLat < 6000 && dLon < 1000 && mLon < 6000 && k <= 4
  {
    Blanked(LatForm(dLat, mLat, hLat), LAT_BLANKS, k) + table
    + Blanked(LonForm(dLon, mLon, hLon), LON_BLANKS, k) + code + comment
  }

  lemma FieldScans(dLat: nat, mLat: nat, hLat: char, table: char, dLon: nat, mLon: nat, hLon: char, code: char,
                   k: nat, comment: string)
    requires dLat < 100 && mLat < 6000 && dLon < 1000 && mLon < 6000 && k <= 4 && code as int < 128
    ensures var s := Field(dLat, mLat, hLat, [table], dLon, mLon, hLon, [code], k, comment);
      var p := FilledIn(s);
      && |s| == 19 + |comment| && s[19..] == comment && AmbiguityOf(s) == k && Scans(p)
      && p[7] == hLat && p[8] == table && p[17] == hLon && p[18] == code
      && Pair(p[0], p[1]) == dLat && 100 * DigitValue(p[9]) + Pair(p[10], p[11]) == dLon
      && Pair(p[2], p[3]) < 60 && Pair(p[12], p[13]) < 60
      && 100 * Pair(p[2], p[3]) + Pair(p[5], p[6]) == FilledMinutes(mLat, k)
      && 100 * Pair(p[12], p[13]) + Pair(p[15], p[16]) == FilledMinutes(mLon, k)
  {
    hide Blanked, FilledMinutes, Two, DigitChar, DigitValue;
    var s := Field(dLat, mLat, hLat, [table], dLon, mLon, hLon, [code], k, comment);
    LatBlanks(dLat, mLat, hLat, k);
    LonBlanks(dLon, mLon, hLon, k);
    assert s[19..] == comment;
    var p := FilledIn(s);
    FilledDigits(mLat, k, p[2], p[3], p[5], p[6]);
    FilledDigits(mLon, k, p[12], p[13], p[15], p[16]);
  }

  // ---- composing and decoding ----

  lemma PaddedForm(n: nat)
    ensures n < 100 ==> Padded(n, 2) == Two(n)
    ensures n < 1000 ==> Padded(n, 3) == [DigitChar(n / 100)] + Two(n % 100)
  {
    hide DigitChar;
    assert Padded(n / 10, 1) == if n / 10 < 10 then [DigitChar(n / 10)] else Padded(n / 10 / 10, 0) + [DigitChar(n / 10 % 10)];
    assert n / 10 / 10 == n / 100;
    assert n / 10 % 10 == n % 100 / 10 && n % 100 % 10 == n % 10;
    if n < 100 {
      assert Padded(n, 2) == Padded(n / 10, 1) + [DigitChar(n % 10)];
    }
    if n < 1000 {
      assert Padded(n, 3) == Padded(n / 10, 2) + [DigitChar(n % 10)];
      assert Padded(n / 10, 2) == Padded(n / 100, 1) + [DigitChar(n / 10 % 10)];
    }
  }

  /** The coordinate is one that exists on earth. */
  predicate OnEarth(lat: real, lon: real) {
    && -90.0 * DEGREE as real <= lat <= 90.0 * DEGREE as real
    && -180.0 * DEGREE as real <= lon <= 180.0 * DEGREE as real
  }

  /** The degrees print in two and three digits. */
  predicate Printable(lat: real, lon: real) {
    Magnitude(lat) < (100 * DEGREE) as real && Magnitude(lon) < (1000 * DEGREE) as real
  }

  lemma DegreesUpTo(h: real, limit: nat)
    requires 0.0 <= h < (DEGREE * limit) as real
    ensures 0 <= Degrees(h) < limit
  {
    HundredthsRange(h);
    assert h / DEGREE as real < limit as real;
  }

  function South(lat: real): char { if lat < 0.0 then 'S' else 'N' }

  function West(lon: real): char { if lon < 0.0 then 'W' else 'E' }

  lemma AxisForms(lat: real, lon: real)
    requires Printable(lat, lon)
    ensures 0 <= Degrees(Magnitude(lat)) < 100 && 0 <= Hundredths(Magnitude(lat)) < 6000
    ensures 0 <= Degrees(Magnitude(lon)) < 1000 && 0 <= Hundredths(Magnitude(lon)) < 6000
    ensures LatText(lat) == LatForm(Degrees(Magnitude(lat)), Hundredths(Magnitude(lat)), South(lat))
    ensures LonText(lon) == LonForm(Degrees(Magnitude(lon)), Hundredths(Magnitude(lon)), West(lon))
  {
    hide Padded, Two, Hundredths, Degrees;
    HundredthsRange(Magnitude(lat));
    HundredthsRange(Magnitude(lon));
    DegreesUpTo(Magnitude(lat), 100);
    DegreesUpTo(Magnitude(lon), 1000);
    PaddedForm(Degrees(Magnitude(lat)));
    PaddedForm(Degrees(Magnitude(lon)));
  }

  lemma {:induction false} KeptPlain(s: string)
    ensures forall i :: 0 <= i < |Kept(s)| ==> Kept(s)[i] >= ' '
  {
    if s != "" {
      KeptPlain(s[1..]);
    }
  }

  /** A beacon's comment has no line end for the decoder to trim. */
  lemma CommentSurvives(s: string)
    ensures TrimRight(BeaconComment(s), CRLF) == BeaconComment(s)
  {
    hide Kept;
    KeptPlain(s);
  }

  predicate ValidSymbol(sym: string) {
    |sym| == 2 && ValidSymTable(sym[0]) && sym[1] as int < 128
  }

  /** The composed field after the data type character. */
  lemma ComposedField(b: Beacon, lat: real, lon: real)
    requires Printable(lat, lon) && !(lat == 0.0 && lon == 0.0)
    ensures ComposeInfo(b, lat, lon) != ""
    ensures 0 <= Degrees(Magnitude(lat)) < 100 && 0 <= Hundredths(Magnitude(lat)) < 6000
    ensures 0 <= Degrees(Magnitude(lon)) < 1000 && 0 <= Hundredths(Magnitude(lon)) < 6000
    ensures ComposeInfo(b, lat, lon)[1..] ==
      Field(Degrees(Magnitude(lat)), Hundredths(Magnitude(lat)), South(lat), CharText(SymbolOf(b)[0]),
            Degrees(Magnitude(lon)), Hundredths(Magnitude(lon)), West(lon), CharText(SymbolOf(b)[1]),
            Clamped(b.ambiguityLevel), BeaconComment(b.comment))
  {
    hide BeaconComment, Blanked, LatForm, LonForm, LatText, LonText, Degrees, Hundredths, Clamped;
    AxisForms(lat, lon);
    ClampedRange(b.ambiguityLevel);
  }

  lemma ClampedRange(level: int)
    ensures Clamped(level) <= 4
  {
  }

  /** How far a decoded coordinate may be from the composed one. */
  function Tolerance(level: int): real {
    (BlankError(Clamped(level)) + 1) as real
  }

  /** One axis: degrees, filled minutes and sign against the coordinate. */
  lemma AxisError(x: real, level: int)
    requires 0 <= Hundredths(Magnitude(x)) < 6000 && Degrees(Magnitude(x)) >= 0
    ensures var h := DEGREE * Degrees(Magnitude(x)) + FilledMinutes(Hundredths(Magnitude(x)), Clamped(level));
      && h >= 0
      && -Tolerance(level) <= h as real - Magnitude(x) <= Tolerance(level)
  {
    hide Degrees, Hundredths, FilledMinutes, BlankError;
    HundredthsRange(Magnitude(x));
    ClampedRange(level);
    FilledError(Hundredths(Magnitude(x)), Clamped(level));
  }

  /** Decoding a composed position gives back the symbol, the clamped ambiguity and the comment,
      each hemisphere, and each coordinate up to the digits that were blanked plus a hundredth of
      a minute. */
  lemma ComposeDecode(b: Beacon, lat: real, lon: real)
    requires OnEarth(lat, lon) && !(lat == 0.0 && lon == 0.0) && ValidSymbol(b.symbol)
    ensures ComposeInfo(b, lat, lon) != ""
    ensures var d := DecodeUncompressed(ComposeInfo(b, lat, lon)[1..], NOTHING_DECODED);
      && d.fix.Some? && d.ambiguity == Clamped(b.ambiguityLevel)
      && d.symbol == b.symbol && d.comment == BeaconComment(b.comment)
      && (if lat < 0.0 then d.fix.value.lat <= 0 else d.fix.value.lat >= 0)
      && (if lon < 0.0 then d.fix.value.lon <= 0 else d.fix.value.lon >= 0)
      && -Tolerance(b.ambiguityLevel) <= d.fix.value.lat as real - lat <= Tolerance(b.ambiguityLevel)
      && -Tolerance(b.ambiguityLevel) <= d.fix.value.lon as real - lon <= Tolerance(b.ambiguityLevel)
  {
    hide ComposeInfo, Degrees, Hundredths, FilledMinutes, Tolerance, BeaconComment, Field, FilledIn, Scans, AmbiguityOf,
         Pair, DigitValue, OnEarth, Clamped, TrimRight, Magnitude;
    EarthDegrees(lat, lon);
    ComposedField(b, lat, lon);
    ClampedRange(b.ambiguityLevel);
    var mLat, mLon := Magnitude(lat), Magnitude(lon);
    FieldScans(Degrees(mLat), Hundredths(mLat), South(lat), b.symbol[0],
               Degrees(mLon), Hundredths(mLon), West(lon), b.symbol[1],
               Clamped(b.ambiguityLevel), BeaconComment(b.comment));
    CommentSurvives(b.comment);
    AxisError(lat, b.ambiguityLevel);
    AxisError(lon, b.ambiguityLevel);
    SignedAxis(lat);
    SignedAxis(lon);
  }

  lemma EarthDegrees(lat: real, lon: real)
    requires OnEarth(lat, lon)
    ensures Printable(lat, lon) && Degrees(Magnitude(lat)) <= 90 && Degrees(Magnitude(lon)) <= 180
  {
    hide Degrees;
    DegreesUpTo(Magnitude(lat), 91);
    DegreesUpTo(Magnitude(lon), 181);
  }

  lemma SignedAxis(x: real)
    ensures Magnitude(x) == if x < 0.0 then -x else x
  {
  }

  // ---- decoding and composing again ----

  lemma TwoOfPair(a: char, b: char)
    requires IsDigit(a) && IsDigit(b)
    ensures Pair(a, b) < 100 && Two(Pair(a, b)) == [a, b]
  {
    CharOfValue(a);
    CharOfValue(b);
  }

  lemma CharOfValue(a: char)
    requires IsDigit(a)
    ensures DigitChar(DigitValue(a)) == a
  {
  }

  /** A coordinate made of whole hundredths splits into the same degrees and hundredths. */
  lemma ExactAxis(d: nat, m: nat)
    requires m < 6000
    ensures Degrees((DEGREE * d + m) as real) == d && Hundredths((DEGREE * d + m) as real) == m
  {
    var h := (DEGREE * d + m) as real;
    var q := h / DEGREE as real;
    assert q * 6000.0 == h;
    assert d as real <= q < d as real + 1.0;
    assert q.Floor == d;
  }

  /** The digits of a scanned latitude, printed again. */
  lemma LatFormOfDigits(p: string, hemisphere: char)
    requires |p| == 19 && Scans(p)
    ensures 100 * Pair(p[2], p[3]) + Pair(p[5], p[6]) < 10000 && Pair(p[0], p[1]) < 100
    ensures Pair(p[2], p[3]) < 60 ==>
      LatForm(Pair(p[0], p[1]), 100 * Pair(p[2], p[3]) + Pair(p[5], p[6]), hemisphere) == p[..7] + [hemisphere]
  {
    hide Two, Pair;
    TwoOfPair(p[0], p[1]);
    TwoOfPair(p[2], p[3]);
    TwoOfPair(p[5], p[6]);
    HundredSplit(Pair(p[2], p[3]), Pair(p[5], p[6]));
    assert p[..7] == [p[0], p[1]] + [p[2], p[3]] + "." + [p[5], p[6]];
  }

  lemma LonFormOfDigits(p: string, hemisphere: char)
    requires |p| == 19 && Scans(p)
    ensures 100 * DigitValue(p[9]) + Pair(p[10], p[11]) < 1000
    ensures Pair(p[12], p[13]) < 60 ==>
      100 * Pair(p[12], p[13]) + Pair(p[15], p[16]) < 6000
      && LonForm(100 * DigitValue(p[9]) + Pair(p[10], p[11]), 100 * Pair(p[12], p[13]) + Pair(p[15], p[16]), hemisphere)
        == p[9..17] + [hemisphere]
  {
    hide Two, Pair, DigitValue, DigitChar;
    TwoOfPair(p[10], p[11]);
    TwoOfPair(p[12], p[13]);
    TwoOfPair(p[15], p[16]);
    CharOfValue(p[9]);
    HundredSplit(DigitValue(p[9]), Pair(p[10], p[11]));
    HundredSplit(Pair(p[12], p[13]), Pair(p[15], p[16]));
    assert p[9..17] == [p[9]] + [p[10], p[11]] + [p[12], p[13]] + "." + [p[15], p[16]];
  }

  lemma HundredSplit(a: nat, b: nat)
    requires b < 100
    ensures (100 * a + b) / 100 == a && (100 * a + b) % 100 == b
  {
  }

  /** The field printed for a decoded position: the decoded digits, capital hemispheres, and N or
      E for zero. */
  lemma ComposedAgain(p: string, messages: bool, comment: string)
    requires |p| == 19 && Scans(p) && InRange(p) && !(LatOf(p) == 0 && LonOf(p) == 0)
    ensures var again := ComposeInfo(Beacon([p[8], p[18]], messages, 0, comment), LatOf(p) as real, LonOf(p) as real);
      && |again| >= 20
      && again[1..20] == p[7 := South(LatOf(p) as real)][17 := West(LonOf(p) as real)]
  {
    hide Two, Pair, DigitValue, LatForm, LonForm, Degrees, Hundredths, ComposeInfo, BeaconComment;
    var lat, lon := LatOf(p) as real, LonOf(p) as real;
    LatFormOfDigits(p, South(lat));
    LonFormOfDigits(p, West(lon));
    var dLat, mLat := Pair(p[0], p[1]), 100 * Pair(p[2], p[3]) + Pair(p[5], p[6]);
    var dLon, mLon := 100 * DigitValue(p[9]) + Pair(p[10], p[11]), 100 * Pair(p[12], p[13]) + Pair(p[15], p[16]);
    TwoOfPair(p[5], p[6]);
    assert Magnitude(lat) == (DEGREE * dLat + mLat) as real;
    assert Magnitude(lon) == (DEGREE * dLon + mLon) as real;
    ExactAxis(dLat, mLat);
    ExactAxis(dLon, mLon);
    var b := Beacon([p[8], p[18]], messages, 0, comment);
    ComposedField(b, lat, lon);
    FieldHead(dLat, mLat, South(lat), p[8], dLon, mLon, West(lon), p[18], BeaconComment(comment));
    var again := ComposeInfo(b, lat, lon);
    assert again[1..][..19] == again[1..20];
    assert p[7 := South(lat)][17 := West(lon)] == p[..7] + [South(lat)] + [p[8]] + p[9..17] + [West(lon)] + [p[18]];
  }

  lemma FieldHead(dLat: nat, mLat: nat, hLat: char, table: char, dLon: nat, mLon: nat, hLon: char, code: char, comment: string)
    requires dLat < 100 && mLat < 6000 && dLon < 1000 && mLon < 6000
    ensures |Field(dLat, mLat, hLat, [table], dLon, mLon, hLon, [code], 0, comment)| >= 19
    ensures Field(dLat, mLat, hLat, [table], dLon, mLon, hLon, [code], 0, comment)[..19]
      == LatForm(dLat, mLat, hLat) + [table] + LonForm(dLon, mLon, hLon) + [code]
  {
    hide LatForm, LonForm;
  }

  /** A position that decodes is printed again with the same nineteen characters exactly when it
      has no blanks, is not the point 0,0, and writes its hemispheres in capitals, zero as N or E. */
  lemma ReencodeExact(s: string, messages: bool, comment: string)
    requires |s| >= 19 && DecodeUncompressed(s, NOTHING_DECODED).fix.Some?
    ensures var d := DecodeUncompressed(s, NOTHING_DECODED);
      var lat, lon := d.fix.value.lat as real, d.fix.value.lon as real;
      var again := ComposeInfo(Beacon(d.symbol, messages, 0, comment), lat, lon);
      (|again| >= 20 && again[1..20] == s[..19]) <==>
      && FilledIn(s) == s[..19]
      && !(lat == 0.0 && lon == 0.0)
      && s[7] == South(lat) && s[17] == West(lon)
  {
    hide ComposeInfo, Scans, InRange, LatOf, LonOf;
    var p := FilledIn(s);
    var lat, lon := LatOf(p) as real, LonOf(p) as real;
    if lat == 0.0 && lon == 0.0 {
      NothingComposed(Beacon([p[8], p[18]], messages, 0, comment));
    } else {
      ComposedAgain(p, messages, comment);
      var out := p[7 := South(lat)][17 := West(lon)];
      if out == s[..19] {
        assert s[7] == out[7] && s[17] == out[17];
        assert forall i :: 0 <= i < 19 && i != 7 && i != 17 ==> p[i] == out[i] == s[i];
        assert p == s[..19];
      }
    }
  }

  lemma NothingComposed(b: Beacon)
    ensures ComposeInfo(b, 0.0, 0.0) == ""
  {
  }

  // ---- what is printed before and after the field ----

  /** The data type character says whether the station takes messages. */
  lemma DataType(b: Beacon, lat: real, lon: real)
    requires !(lat == 0.0 && lon == 0.0)
    ensures ComposeInfo(b, lat, lon) != "" && ComposeInfo(b, lat, lon)[0] == if b.messages then '=' else '!'
  {
    hide Ambiguous, LatText, LonText, BeaconComment, CharText;
  }

  predicate PlainChar(c: char) {
    c as int >= 0x20 && c as int != 0x7F && c != '|' && c != '~'
  }

  lemma {:induction false} KeptExact(s: string)
    ensures |Kept(s)| <= |s|
    ensures Kept(s) == s <==> forall i :: 0 <= i < |s| ==> PlainChar(s[i])
  {
    if s != "" {
      KeptExact(s[1..]);
      assert s == [s[0]] + s[1..];
      if PlainChar(s[0]) {
        assert Kept(s)[1..] == Kept(s[1..]);
      }
    }
  }

  /** A comment is printed unchanged exactly if it has at most 43 characters and none of them is a
      control or reserved. */
  lemma CommentExact(s: string)
    ensures BeaconComment(s) == s <==> |s| <= 43 && forall i :: 0 <= i < |s| ==> PlainChar(s[i])
  {
    hide Kept;
    KeptExact(s);
  }

  // ---- exactly what is accepted ----

  /** The nineteen characters are those of a position on earth with no blanks, under either case of
      the hemispheres. */
  predicate IsForm(p: string, dLat: nat, mLat: nat, dLon: nat, mLon: nat) {
    && dLat <= 90 && mLat < 6000 && dLon <= 180 && mLon < 6000
    && |p| == 19 && p[7] in "NnSs" && p[17] in "EeWw" && ValidSymTable(p[8]) && p[18] as int < 128
    && p == LatForm(dLat, mLat, p[7]) + [p[8]] + LonForm(dLon, mLon, p[17]) + [p[18]]
  }

  /** A field is accepted exactly if it is such a form once its blanks are filled in. */
  lemma AcceptedExact(s: string)
    requires |s| >= 19
    ensures DecodeUncompressed(s, NOTHING_DECODED).fix.Some? <==>
      exists dLat: nat, mLat: nat, dLon: nat, mLon: nat :: IsForm(FilledIn(s), dLat, mLat, dLon, mLon)
  {
    hide LatOf, LonOf, Scans, InRange, IsForm, FilledIn;
    var p := FilledIn(s);
    if Scans(p) && InRange(p) {
      FormOfScan(p);
    }
    forall dLat: nat, mLat: nat, dLon: nat, mLon: nat | IsForm(p, dLat, mLat, dLon, mLon) ensures Scans(p) && InRange(p) {
      ScanOfForm(p, dLat, mLat, dLon, mLon);
    }
  }

  /** Its coordinates are those of the form, south and west negative. */
  lemma AcceptedFix(s: string, dLat: nat, mLat: nat, dLon: nat, mLon: nat)
    requires |s| >= 19 && IsForm(FilledIn(s), dLat, mLat, dLon, mLon)
    ensures var p := FilledIn(s);
      DecodeUncompressed(s, NOTHING_DECODED).fix == Some(Fix(
        if p[7] in "Ss" then -(6000 * dLat + mLat) else 6000 * dLat + mLat,
        if p[17] in "Ww" then -(6000 * dLon + mLon) else 6000 * dLon + mLon))
  {
    hide LatOf, LonOf, Scans, InRange, FilledIn, LatForm, LonForm;
    ScanOfForm(FilledIn(s), dLat, mLat, dLon, mLon);
  }

  lemma FormOfScan(p: string)
    requires |p| == 19 && Scans(p) && InRange(p)
    ensures exists dLat: nat, mLat: nat, dLon: nat, mLon: nat :: IsForm(p, dLat, mLat, dLon, mLon)
  {
    hide Two, Pair, DigitValue, LatForm, LonForm, LatOf, LonOf;
    LatFormOfDigits(p, p[7]);
    LonFormOfDigits(p, p[17]);
    PairRange(p[5], p[6]);
    var dLat, mLat := Pair(p[0], p[1]), 100 * Pair(p[2], p[3]) + Pair(p[5], p[6]);
    var dLon, mLon := 100 * DigitValue(p[9]) + Pair(p[10], p[11]), 100 * Pair(p[12], p[13]) + Pair(p[15], p[16]);
    assert p == p[..7] + [p[7]] + [p[8]] + (p[9..17] + [p[17]]) + [p[18]];
    assert IsForm(p, dLat, mLat, dLon, mLon);
  }

  lemma PairRange(a: char, b: char)
    requires IsDigit(a) && IsDigit(b)
    ensures Pair(a, b) < 100
  {
  }

  lemma ScanOfForm(p: string, dLat: nat, mLat: nat, dLon: nat, mLon: nat)
    requires IsForm(p, dLat, mLat, dLon, mLon)
    ensures Scans(p) && InRange(p)
    ensures LatOf(p) == if p[7] in "Ss" then -(6000 * dLat + mLat) else 6000 * dLat + mLat
    ensures LonOf(p) == if p[17] in "Ww" then -(6000 * dLon + mLon) else 6000 * dLon + mLon
  {
    hide DigitChar, DigitValue, Two, LatOf, LonOf, InRange, Scans;
    LatDigits(p, dLat, mLat);
    LonDigits(p, dLon, mLon);
    FormMeans(p, dLat, mLat, dLon, mLon);
  }

  lemma FormMeans(p: string, dLat: nat, mLat: nat, dLon: nat, mLon: nat)
    requires |p| == 19 && p[7] in "NnSs" && p[17] in "EeWw" && ValidSymTable(p[8]) && p[18] as int < 128
    requires dLat <= 90 && mLat < 6000 && dLon <= 180 && mLon < 6000
    requires IsDigit(p[0]) && IsDigit(p[1]) && IsDigit(p[2]) && IsDigit(p[3]) && p[4] == '.' && IsDigit(p[5]) && IsDigit(p[6])
    requires IsDigit(p[9]) && IsDigit(p[10]) && IsDigit(p[11]) && IsDigit(p[12]) && IsDigit(p[13]) && p[14] == '.'
    requires IsDigit(p[15]) && IsDigit(p[16])
    requires Pair(p[0], p[1]) == dLat && Pair(p[2], p[3]) == mLat / 100 && Pair(p[5], p[6]) == mLat % 100
    requires 100 * DigitValue(p[9]) + Pair(p[10], p[11]) == dLon
    requires Pair(p[12], p[13]) == mLon / 100 && Pair(p[15], p[16]) == mLon % 100
    ensures Scans(p) && InRange(p)
    ensures LatOf(p) == if p[7] in "Ss" then -(6000 * dLat + mLat) else 6000 * dLat + mLat
    ensures LonOf(p) == if p[17] in "Ww" then -(6000 * dLon + mLon) else 6000 * dLon + mLon
  {
    hide DigitValue, Pair;
  }

  lemma LatDigits(p: string, d: nat, m: nat)
    requires |p| == 19 && d <= 90 && m < 6000 && p[..8] == LatForm(d, m, p[7])
    ensures IsDigit(p[0]) && IsDigit(p[1]) && IsDigit(p[2]) && IsDigit(p[3]) && p[4] == '.' && IsDigit(p[5]) && IsDigit(p[6])
    ensures Pair(p[0], p[1]) == d && Pair(p[2], p[3]) == m / 100 && Pair(p[5], p[6]) == m % 100
  {
    hide DigitChar, DigitValue, Two;
    assert forall i :: 0 <= i < 8 ==> p[i] == p[..8][i];
  }

  lemma LonDigits(p: string, d: nat, m: nat)
    requires |p| == 19 && d <= 180 && m < 6000 && p[9..18] == LonForm(d, m, p[17])
    ensures IsDigit(p[9]) && IsDigit(p[10]) && IsDigit(p[11]) && IsDigit(p[12]) && IsDigit(p[13]) && p[14] == '.'
    ensures IsDigit(p[15]) && IsDigit(p[16])
    ensures 100 * DigitValue(p[9]) + Pair(p[10], p[11]) == d && Pair(p[12], p[13]) == m / 100 && Pair(p[15], p[16]) == m % 100
  {
    hide DigitValue, Two;
    assert forall i :: 0 <= i < 9 ==> p[9 + i] == p[9..18][i];
    assert p[9] == DigitChar(d / 100);
  }

  /** Minutes are printed to the nearest hundredth, halves up, except that just under a full degree
      they stay at 59.99. */
  lemma RoundedExact(d: nat, rest: real, n: nat)
    requires 0.0 <= rest < 6000.0 && n as real - 0.5 <= rest < n as real + 0.5
    ensures var h := (6000 * d) as real + rest;
      Degrees(h) == d && Hundredths(h) == if n == 6000 then 5999 else n
  {
    var h := (6000 * d) as real + rest;
    var q := h / DEGREE as real;
    assert q * 6000.0 == h;
    assert d as real <= q < d as real + 1.0;
    assert q.Floor == d;
    assert (rest + 0.5).Floor == n;
  }

  /** A symbol that is not two characters is replaced, and an octet above 127 is printed as two. */
  lemma SymbolPrinted(b: Beacon, c: char)
    ensures |b.symbol| != 2 ==> SymbolOf(b) == "I&"
    ensures |b.symbol| == 2 ==> SymbolOf(b) == b.symbol
    ensures c as int < 128 ==> CharText(c) == [c]
    ensures 128 <= c as int < 192 ==> CharText(c) == [0xC2 as char, c]
    ensures 192 <= c as int < 256 ==> CharText(c) == [0xC3 as char, (c as int - 64) as char]
  {
  }
}
