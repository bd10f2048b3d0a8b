/** AX.25 frames octet by octet: which bytes can be read, and what the address octets are. */
module FrameLayouts {
  import opened GoText
  import opened Ax25
  import GateRules

  // ---- which bytes can be read ----

  /** The bytes are a frame with n hops: the low bit of an SSID octet is set in the last address
      field and in no other, every address has a base of one to six capitals and digits, and an
      unnumbered information frame follows, with or without the poll bit, without a layer 3. */
  predicate Readable(b: seq<byte>, n: nat) {
    && n <= 8 && 16 + 7 * n <= |b|
    && b[6] % 2 == 0 && (b[13] % 2 == 1 <==> n == 0)
    && (forall k :: 0 <= k < n ==> (FieldAt(b, k)[6] % 2 == 1 <==> k == n - 1))
    && ValidBaseCall(BaseCall(CallText(b[0..7]))) && ValidBaseCall(BaseCall(CallText(b[7..14])))
    && (forall k :: 0 <= k < n ==> ValidBaseCall(BaseCall(HopText(FieldAt(b, k)))))
    && (b[14 + 7 * n] == 0x03 || b[14 + 7 * n] == 0x13) && b[15 + 7 * n] == 0xF0
  }

  function HopsOf(b: seq<byte>, n: nat): (r: seq<string>)
    requires 14 + 7 * n <= |b|
    ensures |r| == n
  {
    seq(n, k requires 0 <= k < n => HopText(FieldAt(b, k)))
  }

  /** What is read from such bytes. */
  lemma ReadableFields(b: seq<byte>, n: nat)
    requires Readable(b, n)
    ensures DecodeFrame(b) == Ok(Fields(CallText(b[7..14]), CallText(b[0..7]), HopsOf(b, n), b[16 + 7 * n..]))
  {
    hide CallText, BaseCall, ValidBaseCall, HopText, ScanHops;
    var table := HopTable(b);
    forall k | 0 <= k < n ensures table[k] == Hop(HopText(FieldAt(b, k)), true, k == n - 1) {
      assert table[k] == ReadHop(FieldAt(b, k));
    }
    ScanAll(table, n, 0);
    assert Texts(table[..n]) == HopsOf(b, n);
  }

  /** Where a scan that saw the end of the address stopped. */
  lemma {:induction false} ScanMeans(table: seq<Hop>, i: nat, last: bool)
    requires i <= |table| && i <= MAX_DIGIPEATERS && ScanHops(table, i, last).Ok? && ScanHops(table, i, last).value.ended
    ensures var n := ScanHops(table, i, last).value.count;
      && i <= n <= 8 && (last <==> n == i)
      && forall k :: i <= k < n ==> table[k].valid && (table[k].last <==> k == n - 1)
    decreases |table| - i
  {
    if !last && i < |table| && i < MAX_DIGIPEATERS {
      ScanMeans(table, i + 1, table[i].last);
    }
  }

  lemma ReadMeans(b: seq<byte>)
    requires DecodeFrame(b).Ok?
    ensures Readable(b, |DecodeFrame(b).value.path|)
  {
    hide CallText, BaseCall, ValidBaseCall, HopText, ScanHops;
    var table := HopTable(b);
    ScanMeans(table, 0, EndsAddress(b[7..14]));
    var n := |DecodeFrame(b).value.path|;
    forall k | 0 <= k < n
      ensures ValidBaseCall(BaseCall(HopText(FieldAt(b, k)))) && (FieldAt(b, k)[6] % 2 == 1 <==> k == n - 1)
    {
      assert table[k] == ReadHop(FieldAt(b, k));
    }
  }

  /** Exactly such bytes can be read. */
  lemma ReadableExact(b: seq<byte>)
    ensures DecodeFrame(b).Ok? <==> exists n: nat :: Readable(b, n)
  {
    hide Readable, DecodeFrame;
    if DecodeFrame(b).Ok? {
      ReadMeans(b);
    }
    if exists n: nat :: Readable(b, n) {
      var n: nat :| Readable(b, n);
      ReadableFields(b, n);
    }
  }

  /** Setting or clearing the poll bit of a readable frame changes nothing that is read. */
  lemma PollBit(b: seq<byte>, control: byte)
    requires DecodeFrame(b).Ok? && (control == 0x03 || control == 0x13)
    ensures var pos := 14 + 7 * |DecodeFrame(b).value.path|;
      && pos < |b| && b[pos] as int / 32 * 32 + b[pos] as int % 16 == 3
      && DecodeFrame(b[pos := control]) == DecodeFrame(b)
  {
    hide DecodeFrame, CallText, BaseCall, ValidBaseCall, HopText;
    ReadMeans(b);
    var n := |DecodeFrame(b).value.path|;
    var c := b[14 + 7 * n := control];
    assert c[0..7] == b[0..7] && c[7..14] == b[7..14] && c[16 + 7 * n..] == b[16 + 7 * n..];
    forall k | 0 <= k < n ensures FieldAt(c, k) == FieldAt(b, k) {
    }
    ReadableFields(b, n);
    ReadableFields(c, n);
    assert HopsOf(c, n) == HopsOf(b, n);
  }

  // ---- what is written ----

  /** An address field is the capitals shifted left by one bit, filled up with shifted blanks, and an
      octet with the reserved bits set, the SSID, the end bit and the used bit. */
  lemma AddressOctets(a: Address, last: bool, used: bool)
    requires a.Encodable()
    ensures var field := AddressField(a, last, used);
      && |field| == 7
      && (forall i :: 0 <= i < |a.call| ==> field[i] as int == 2 * UpperChar(a.call[i]) as int)
      && (forall i :: |a.call| <= i < 6 ==> field[i] == 0x40)
      && field[6] as int == 96 + 2 * a.ssid + (if last then 1 else 0) + (if used then 128 else 0)
  {
    var padded := Upper(Pad(a.call, 6));
    assert forall i :: 0 <= i < |a.call| ==> IsAlnum(a.call[i]);
    assert forall i :: 0 <= i < 6 ==> padded[i] == if i < |a.call| then UpperChar(a.call[i]) else ' ';
  }

  /** A frame is its destination, source and hops, then 03 F0 and the information; only the last
      address field has the end bit, and a hop has the used bit if it is marked. */
  lemma FrameOctets(src: string, dest: string, path: seq<string>, info: seq<byte>)
    requires EncodeFrame(src, dest, path, info).Ok?
    ensures SplitCallSsid(src).Ok? && SplitCallSsid(dest).Ok? && EncodablePath(path)
    ensures var b, n := EncodeFrame(src, dest, path, info).value, |path|;
      && |b| == 16 + 7 * n + |info|
      && b[0..7] == AddressField(SplitCallSsid(dest).value, false, false)
      && b[7..14] == AddressField(SplitCallSsid(src).value, n == 0, false)
      && (forall k :: 0 <= k < n ==>
            FieldAt(b, k) == AddressField(SplitCallSsid(Bare(path[k])).value, k == n - 1, IsUsed(path[k])))
      && b[14 + 7 * n] == 0x03 && b[15 + 7 * n] == 0xF0 && b[16 + 7 * n..] == info
  {
    hide SplitCallSsid, Collect, EncodeFrame, IsUsed, Bare, AddressField;
    var b, d, s, hops := EncodedParts(src, dest, path, info);
    FrameLayout(d, s, hops, info);
    HopsInPlace(path, b, hops);
  }

  /** A callsign can be sent exactly if, blanks around its base apart, that has one to six letters and
      digits and what follows the first dash is a number up to 15. */
  lemma SendableCallExact(front: string, base: string, back: string, suffix: Option<string>)
    requires forall i :: 0 <= i < |front| ==> front[i] in SPACES
    requires forall i :: 0 <= i < |back| ==> back[i] in SPACES
    requires base != "" && base[0] !in SPACES && base[|base| - 1] !in SPACES && '-' !in base
    ensures var c := front + base + back + (if suffix.None? then "" else "-" + suffix.value);
      var plain := |base| <= 6 && forall i :: 0 <= i < |base| ==> IsAlnum(base[i]);
      SplitCallSsid(c).Ok? <==> plain && (suffix.Some? ==> Atoi(suffix.value).Some? && 0 <= Atoi(suffix.value).value <= 15)
    ensures var c := front + base + back + (if suffix.None? then "" else "-" + suffix.value);
      SplitCallSsid(c).Ok? ==>
        SplitCallSsid(c).value == Address(base, if suffix.None? then 0 else Atoi(suffix.value).value)
  {
    hide IndexOf, Atoi, TrimSpace;
    var padded := front + base + back;
    assert '-' !in padded;
    GateRules.TrimExact(front, base, back);
    if suffix.Some? {
      IndexOfFirst(padded, '-', suffix.value);
      var c := padded + ['-'] + suffix.value;
      assert c[..|padded|] == padded && c[|padded| + 1..] == suffix.value;
      assert padded + "-" + suffix.value == padded + ("-" + suffix.value);
    } else {
      assert padded + "" == padded;
    }
  }

  /** The path alone decides whether a frame has too many digipeaters. */
  lemma TooManyExact(src: string, dest: string, path: seq<string>, info: seq<byte>)
    ensures EncodeFrame(src, dest, path, info) == Err(TooManyDigipeaters) <==> |path| > 8
  {
    hide EncodeCallsign, HopFields, Collect;
    FieldErrors(src, path == [], false);
    FieldErrors(dest, false, false);
    PathErrors(HopFields(path));
    HopErrors(path);
  }

  lemma FieldErrors(call: string, last: bool, used: bool)
    ensures EncodeCallsign(call, last, used) != Err(TooManyDigipeaters)
  {
    hide SplitCallSsid, AddressField;
    CallErrors(call);
  }

  lemma HopErrors(path: seq<string>)
    ensures forall k :: 0 <= k < |path| ==> HopFields(path)[k] != Err(TooManyDigipeaters)
  {
    hide EncodeCallsign, Bare, IsUsed;
    forall k | 0 <= k < |path| ensures HopFields(path)[k] != Err(TooManyDigipeaters) {
      FieldErrors(Bare(path[k]), k == |path| - 1, IsUsed(path[k]));
    }
  }

  lemma CallErrors(call: string)
    ensures SplitCallSsid(call) != Err(TooManyDigipeaters)
  {
    hide IndexOf, Atoi, TrimSpace;
  }

  lemma {:induction false} PathErrors(fields: seq<Result<seq<byte>, Error>>)
    ensures Collect(fields).Err? ==> exists k :: 0 <= k < |fields| && fields[k] == Err(Collect(fields).error)
  {
    if fields != [] && fields[0].Ok? {
      PathErrors(fields[1..]);
    }
  }
}
