/** The content key under which the duplicate table and the viscous queue know a packet, and when a
    repeat keeps it. */
module Content {
  import opened GoText
  import opened Ax25
  import opened Gate
  import opened Lineages

  /** Source, destination and information; the path does not take part. */
  function ContentKey(src: string, dest: string, info: seq<byte>): seq<byte> {
    Octets(src + ">" + dest + ":") + info
  }

  function KeyOf(raw: seq<byte>): Option<seq<byte>> {
    match DecodeFrame(raw)
    case Err(_) => None
    case Ok(f) => Some(ContentKey(f.src, f.dest, f.info))
  }

  /** The repeat that a station makes of the bytes it hears, before any filter. */
  function Repeated(raw: seq<byte>, s: Config): Option<Action> {
    if DecodeFrame(raw).Err? then None else RelayOf(AirFrame(raw), s)
  }

  /** The frame can be read, and its source and destination are well-formed as heard. */
  predicate WellFormedEnds(raw: seq<byte>) {
    DecodeFrame(raw).Ok? && WellFormedCall(DecodeFrame(raw).value.src) && WellFormedCall(DecodeFrame(raw).value.dest)
  }

  // ---- a repeat goes out under the canonical callsigns ----

  lemma RepeatedFields(raw: seq<byte>, s: Config)
    requires Repeated(raw, s).Some?
    ensures DecodeFrame(raw).Ok? && Repeated(raw, s).value.RelayRF?
    ensures var f, out := DecodeFrame(raw).value, Repeated(raw, s).value.raw;
      && SplitCallSsid(f.src).Ok? && SplitCallSsid(f.dest).Ok?
      && KeyOf(out) == Some(ContentKey(Canon(f.src), Canon(f.dest), f.info))
  {
    hide Plan, EncodeFrame, DecodeFrame, SplitCallSsid, Canon, EncodablePath, CanonPath, ContentKey;
    var f := DecodeFrame(raw).value;
    assert Digipeat(AirFrame(raw), s) == Repeated(raw, s);
    FrameRoundTrip(f.src, f.dest, Plan(f.src, f.path, s).value.path, f.info);
  }

  lemma NumeralNotShorter(t: string, n: nat)
    requires n <= 15 && Atoi(t) == Some(n)
    ensures |Itoa(n)| <= |t|
  {
    var signed := t != [] && (t[0] == '-' || t[0] == '+');
    var digits := if signed then t[1..] else t;
    assert |digits| == 1 ==> digits[..0] == [] && Numeral(digits[..0]) == 0 && Numeral(digits) == DigitValue(digits[0]);
  }

  lemma TrimmedNotLonger(s: string)
    ensures |TrimSpace(s)| <= |s|
  {
  }

  /** The canonical form of a callsign is never longer. */
  lemma CanonNotLonger(c: string)
    requires SplitCallSsid(c).Ok?
    ensures |Canon(c)| <= |c|
  {
    hide IndexOf, Atoi, TrimSpace, Itoa;
    var i := IndexOf(c, '-');
    TrimmedNotLonger(if i < 0 then c else c[..i]);
    if i >= 0 {
      NumeralNotShorter(c[i + 1..], SplitCallSsid(c).value.ssid);
    }
  }

  /** The canonical form of the two ends gives the same key exactly if they already had it. */
  lemma CanonKeyExact(src: string, dest: string, info: seq<byte>)
    requires SplitCallSsid(src).Ok? && SplitCallSsid(dest).Ok?
    requires OctetString(src) && OctetString(dest)
    ensures ContentKey(Canon(src), Canon(dest), info) == ContentKey(src, dest, info) <==>
      Canon(src) == src && Canon(dest) == dest
  {
    hide SplitCallSsid, Canon;
    CanonNotLonger(src);
    CanonNotLonger(dest);
    var a, b := Canon(src) + ">" + Canon(dest) + ":", src + ">" + dest + ":";
    if ContentKey(Canon(src), Canon(dest), info) == ContentKey(src, dest, info) {
      assert |Octets(a) + info| == |a| + |info| && |Octets(b) + info| == |b| + |info|;
      assert |a| == |b| && |Canon(src)| == |src| && |Canon(dest)| == |dest|;
      CanonOctets(src);
      CanonOctets(dest);
      assert Octets(a) == (Octets(a) + info)[..|a|] && Octets(b) == (Octets(b) + info)[..|b|];
      TextOfOctets(a);
      TextOfOctets(b);
      assert a[..|src|] == Canon(src) && b[..|src|] == src;
      assert a[|src| + 1..|a| - 1] == Canon(dest) && b[|src| + 1..|b| - 1] == dest;
    }
  }

  lemma CanonOctets(c: string)
    requires SplitCallSsid(c).Ok?
    ensures OctetString(Canon(c))
  {
    hide SplitCallSsid;
    var a := SplitCallSsid(c).value;
    assert forall i :: 0 <= i < |a.call| ==> IsAlnum(a.call[i]);
  }

  lemma ReadCallOctets(raw: seq<byte>)
    requires DecodeFrame(raw).Ok?
    ensures OctetString(DecodeFrame(raw).value.src) && OctetString(DecodeFrame(raw).value.dest)
  {
    hide ScanHops, ValidBaseCall, BaseCall, CallText, HopTable;
    CallOctets(raw[0..7]);
    CallOctets(raw[7..14]);
    assert DecodeFrame(raw).value.src == CallText(raw[7..14]) && DecodeFrame(raw).value.dest == CallText(raw[0..7]);
  }

  lemma CallOctets(field: seq<byte>)
    requires |field| == 7
    ensures OctetString(CallText(field))
  {
    hide TrimRight;
    var text := AddressText(field);
    assert OctetString(text);
    assert OctetString(TrimRight(text, {' '}));
  }

  /** A repeat is marked under the key its packet was heard under if and only if source and
      destination were well-formed as heard. */
  lemma RepeatKeepsKey(raw: seq<byte>, s: Config)
    requires Repeated(raw, s).Some?
    ensures Repeated(raw, s).value.RelayRF? && KeyOf(raw).Some? && KeyOf(Repeated(raw, s).value.raw).Some?
    ensures KeyOf(Repeated(raw, s).value.raw) == KeyOf(raw) <==> WellFormedEnds(raw)
  {
    hide DecodeFrame, WellFormedCall, SplitCallSsid, Canon, ContentKey, Repeated;
    RepeatedFields(raw, s);
    var f := DecodeFrame(raw).value;
    ReadCallOctets(raw);
    CanonKeyExact(f.src, f.dest, f.info);
    CanonFixpoints(f.src);
    CanonFixpoints(f.dest);
  }

  /** Different packets have different keys, as long as no separator occurs in the callsigns. */
  lemma KeyExact(src: string, dest: string, info: seq<byte>, src2: string, dest2: string, info2: seq<byte>)
    requires OctetString(src) && OctetString(dest) && OctetString(src2) && OctetString(dest2)
    requires '>' !in src && '>' !in src2
    requires ':' !in src && ':' !in dest && ':' !in src2 && ':' !in dest2
    ensures ContentKey(src, dest, info) == ContentKey(src2, dest2, info2) <==>
      src == src2 && dest == dest2 && info == info2
  {
    hide IndexOf;
    KeyParts(src, dest, info);
    KeyParts(src2, dest2, info2);
  }

  /** The first colon ends the destination, and the first angle bracket the source. */
  lemma KeyParts(src: string, dest: string, info: seq<byte>)
    requires OctetString(src) && OctetString(dest) && '>' !in src && ':' !in src && ':' !in dest
    ensures var k := ContentKey(src, dest, info);
      && IndexOf(k, 58) == |src| + 1 + |dest|
      && k[|src| + |dest| + 2..] == info
      && IndexOf(Text(k[..|src| + 1 + |dest|]), '>') == |src|
      && Text(k[..|src| + 1 + |dest|])[..|src|] == src
      && Text(k[..|src| + 1 + |dest|])[|src| + 1..] == dest
  {
    hide IndexOf;
    var head := src + ['>'] + dest;
    var k := ContentKey(src, dest, info);
    assert src + ">" + dest + ":" == head + ":";
    assert k == Octets(head) + [58] + info by {
      assert Octets(head + ":") == Octets(head) + [58];
    }
    assert OctetString(head) && ':' !in head;
    assert 58 !in Octets(head);
    IndexOfFirst(Octets(head), 58, info);
    assert k[..|head|] == Octets(head);
    TextOfOctets(head);
    IndexOfFirst(src, '>', dest);
  }
}
