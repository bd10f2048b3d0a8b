/** The text lines exchanged with APRS-IS: what is sent, what is read, and how a line is parsed. */
module Tnc2 {
  import opened GoText
  import opened Packets
  import opened Gate

  const LF: byte := 10
  const CR: byte := 13
  const HASH: byte := 35
  const LINE_END: set<byte> := {LF, CR}
  const MAX_LINE: nat := 512

  function ParseTNC2(line: seq<byte>): Option<Frame> {
    var colon := IndexOf(line, COLON);
    if colon < 0 then None else ParseHeader(Text(line[..colon]), line[colon + 1..])
  }

  function ParseHeader(header: string, info: seq<byte>): Option<Frame> {
    var gt := IndexOf(header, '>');
    if gt < 0 then None
    else
      var parts := Split(header[gt + 1..], ',');
      Some(Frame(header[..gt], parts[0], parts[1..], info, None, SrcIS))
  }

  /** What Send queues for the server, if the line is not too long. */
  function Sent(packet: seq<byte>): Option<seq<byte>> {
    var line := TrimRight(packet, LINE_END) + [CR, LF];
    if |line| > MAX_LINE then None else Some(line)
  }

  /** The packet lines another client reads out of a stretch of the server's output. */
  function ReadLines(stream: seq<byte>): seq<seq<byte>>
    decreases |stream|
  {
    var i := IndexOf(stream, LF);
    if i < 0 then []
    else
      var line := TrimRight(stream[..i], LINE_END);
      (if line == [] || line[0] == HASH then [] else [line]) + ReadLines(stream[i + 1..])
  }

  /** A packet is queued with exactly one line end if both together have at most 512 bytes. */
  lemma SentExact(core: seq<byte>, ends: seq<byte>)
    requires core == [] || (core[|core| - 1] != 10 && core[|core| - 1] != 13)
    requires forall i :: 0 <= i < |ends| ==> ends[i] == 10 || ends[i] == 13
    ensures Sent(core + ends) == if |core| + 2 <= 512 then Some(core + [13, 10]) else None
  {
    TrimRightKeeps(core, ends, LINE_END);
  }

  /** Every line is read up to its line feed; blank lines and comments are skipped. */
  lemma LineRead(core: seq<byte>, ends: seq<byte>, rest: seq<byte>)
    requires 10 !in core && (core == [] || core[|core| - 1] != 13)
    requires forall i :: 0 <= i < |ends| ==> ends[i] == 13
    ensures ReadLines(core + ends + [10] + rest)
      == (if core == [] || core[0] as char == '#' then [] else [core]) + ReadLines(rest)
  {
    hide IndexOf, TrimRight;
    var stream := core + ends + [10] + rest;
    IndexOfFirst(core + ends, 10, rest);
    TrimRightKeeps(core, ends, LINE_END);
    assert stream[..|core + ends|] == core + ends && stream[|core + ends| + 1..] == rest;
  }

  // ---- reading back what was gated ----

  /** The q-construct and our callsign, which gating appends to the path. */
  function GatedPath(f: Frame, s: Config): seq<string> {
    f.path + [if CanReturn(s) then "qAR" else "qAO", s.callsign]
  }

  function GatedFrame(f: Frame, s: Config): Frame {
    Frame(f.src, f.dest, GatedPath(f, s), f.info, None, SrcIS)
  }

  /** No separator of the line format occurs where it would be misread. */
  predicate CleanHeader(src: string, dest: string, path: seq<string>) {
    && ':' !in src && '>' !in src
    && ':' !in dest && ',' !in dest
    && forall i :: 0 <= i < |path| ==> ':' !in path[i] && ',' !in path[i]
  }

  predicate OctetHeader(src: string, dest: string, path: seq<string>) {
    && OctetString(src) && OctetString(dest)
    && forall i :: 0 <= i < |path| ==> OctetString(path[i])
  }

  lemma {:induction false} PrefixedOctets(parts: seq<string>)
    requires forall i :: 0 <= i < |parts| ==> OctetString(parts[i])
    ensures OctetString(Prefixed(parts, ','))
  {
    if parts != [] {
      PrefixedOctets(parts[1..]);
    }
  }

  lemma {:induction false} PrefixedColons(parts: seq<string>)
    ensures ':' in Prefixed(parts, ',') <==> exists i :: 0 <= i < |parts| && ':' in parts[i]
  {
    if parts != [] {
      PrefixedColons(parts[1..]);
      var p := Prefixed(parts, ',');
      assert p == [','] + parts[0] + Prefixed(parts[1..], ',');
      if i :| 0 <= i < |parts| && ':' in parts[i] {
        if i > 0 {
          assert parts[1..][i - 1] == parts[i];
        }
      }
    }
  }

  lemma ColonOctet(s: string)
    requires OctetString(s)
    ensures COLON in Octets(s) <==> ':' in s
  {
    if ':' in s {
      var i :| 0 <= i < |s| && s[i] == ':';
      assert Octets(s)[i] == COLON;
    }
  }

  /** The path part of the header, as Split will see it. */
  function AfterSource(f: Frame, s: Config): string {
    f.dest + Prefixed(GatedPath(f, s), ',')
  }

  lemma QTail(path: seq<string>, q: string, call: string)
    ensures Prefixed(path + [q, call], ',') == Prefixed(path, ',') + ("," + q + ",") + call
  {
    hide Prefixed;
    PrefixedConcat(path, [q, call], ',');
    assert Prefixed([q, call], ',') == "," + q + "," + call by {
      PrefixedTwo(q, call);
    }
  }

  lemma PrefixedTwo(q: string, call: string)
    ensures Prefixed([q, call], ',') == "," + q + "," + call
  {
    assert [q, call][1..] == [call] && [call][1..] == [];
    assert Prefixed([call], ',') == [','] + call + [];
  }

  lemma HeaderParts(f: Frame, s: Config)
    ensures GatedHeader(f, s) == f.src + ['>'] + AfterSource(f, s)
  {
    hide Prefixed;
    QTail(f.path, if CanReturn(s) then "qAR" else "qAO", s.callsign);
  }

  lemma HeaderColon(f: Frame, s: Config)
    ensures ':' in GatedHeader(f, s) <==>
      ':' in f.src || ':' in f.dest || exists i :: 0 <= i < |GatedPath(f, s)| && ':' in GatedPath(f, s)[i]
  {
    hide GatedHeader, Prefixed, GatedPath;
    HeaderParts(f, s);
    PrefixedColons(GatedPath(f, s));
  }

  lemma HeaderOctets(f: Frame, s: Config)
    requires OctetHeader(f.src, f.dest, GatedPath(f, s))
    ensures OctetString(GatedHeader(f, s))
  {
    hide GatedHeader, Prefixed, GatedPath;
    HeaderParts(f, s);
    PrefixedOctets(GatedPath(f, s));
  }

  /** The header splits back into source, destination and path. */
  lemma ParseHeaderExact(f: Frame, s: Config, info: seq<byte>)
    ensures ParseHeader(GatedHeader(f, s), info) == Some(GatedFrame(f, s).(info := info)) <==>
      && '>' !in f.src && ',' !in f.dest
      && forall i :: 0 <= i < |GatedPath(f, s)| ==> ',' !in GatedPath(f, s)[i]
  {
    hide GatedHeader, Prefixed, GatedPath, Split, IndexOf;
    HeaderParts(f, s);
    var path, rest := GatedPath(f, s), AfterSource(f, s);
    if '>' !in f.src {
      IndexOfFirst(f.src, '>', rest);
      assert GatedHeader(f, s)[..|f.src|] == f.src;
      assert GatedHeader(f, s)[|f.src| + 1..] == rest;
      if ',' !in f.dest && forall i :: 0 <= i < |path| ==> ',' !in path[i] {
        SplitOfJoined(f.dest, path, ',');
      }
    } else {
      var i :| 0 <= i < |f.src| && f.src[i] == '>';
      assert GatedHeader(f, s)[i] == '>';
      assert IndexOf(GatedHeader(f, s), '>') <= i by {
        EarlyIndex(GatedHeader(f, s), '>', i);
      }
    }
  }

  lemma EarlyIndex<T>(s: seq<T>, c: T, i: nat)
    requires i < |s| && s[i] == c
    ensures 0 <= IndexOf(s, c) <= i
  {
    hide IndexOf;
  }

  /** A gated line is read back as the same source, destination, path and information, with the
      q-construct and the gateway appended, exactly when its header holds no stray separator. */
  lemma ReadBackExact(f: Frame, s: Config)
    requires OctetHeader(f.src, f.dest, GatedPath(f, s))
    ensures ParseTNC2(GatedTNC2(f, s)) == Some(GatedFrame(f, s)) <==>
      CleanHeader(f.src, f.dest, GatedPath(f, s))
  {
    hide GatedHeader, IndexOf, ParseHeader, GatedPath;
    var header, line := GatedHeader(f, s), GatedTNC2(f, s);
    HeaderOctets(f, s);
    HeaderColon(f, s);
    ColonOctet(header);
    ParseHeaderExact(f, s, f.info);
    if ':' !in header {
      IndexOfFirst(Octets(header), COLON, f.info);
      assert line[..|header|] == Octets(header) && line[|header| + 1..] == f.info;
      TextOfOctets(header);
    } else {
      var i :| 0 <= i < |header| && Octets(header)[i] == COLON;
      assert line[i] == COLON;
      EarlyIndex(line, COLON, i);
      ParsedInfo(line);
    }
  }

  lemma ParsedInfo(line: seq<byte>)
    ensures ParseTNC2(line).Some? ==> |ParseTNC2(line).value.info| == |line| - IndexOf(line, COLON) - 1
  {
    hide IndexOf, Split;
  }
}
