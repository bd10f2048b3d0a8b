/** Decoding information fields, the third-party wrapper included, and the whole journey of a
    packet from APRS-IS through a gateway to a receiver on the air. */
module ThirdParty {
  import opened GoText
  import opened Packets
  import opened Ax25
  import opened Gate
  import opened Tnc2
  import opened Message
  import Lineages
  import RelayNetwork
  import Utf8

  const MAX_DEPTH: nat := 4

  /** The parsers of all data types but messages and third-party packets, as one parameter. They
      never set the originator. */
  type Leaf = f: (string, string) -> Decoded | forall info, dest :: f(info, dest).msgOrigSrc == ""
    witness (info: string, dest: string) => NOTHING_DECODED

  datatype Inner = Inner(src: string, dest: string, info: string)

  /** The packet inside a third-party one; a header without a source names nobody and keeps the
      outer destination. */
  function InnerPacket(info: string, dest: string): Option<Inner>
    requires info != ""
  {
    var colon := IndexOf(info, ':');
    if colon < 1 || colon + 1 >= |info| then None
    else
      var header, inner := info[1..colon], info[colon + 1..];
      var gt := IndexOf(header, '>');
      if gt < 0 then Some(Inner("", dest, inner))
      else
        var path := header[gt + 1..];
        var comma := IndexOf(path, ',');
        Some(Inner(header[..gt], if comma >= 0 then path[..comma] else path, inner))
  }

  /** The cleaning that every decoded packet gets at the end. */
  function PostProcessed(d: Decoded): Decoded {
    d.(msgBody := Text(Utf8.Sanitized(Octets(d.msgBody))))
  }

  function DecodeAt(info: string, dest: string, depth: nat, leaf: Leaf): Decoded
    decreases |info|
  {
    if info == "" then NOTHING_DECODED
    else if info[0] == '}' then
      if depth >= MAX_DEPTH then NOTHING_DECODED
      else
        match InnerPacket(info, dest)
        case None => PostProcessed(NOTHING_DECODED)
        case Some(p) =>
          var sub := DecodeAt(p.info, p.dest, depth + 1, leaf);
          if sub.msgOrigSrc == "" then sub.(msgOrigSrc := p.src) else sub
    else if info[0] == ':' then PostProcessed(DecodeMessage(info[1..]))
    else leaf(info, dest)
  }

  /** aprs.Decode. */
  function Decode(info: string, dest: string, leaf: Leaf): Decoded {
    DecodeAt(info, dest, 0, leaf)
  }

  // ---- the wrapper ----

  predicate CleanWrapper(src: string, dest: string, call: string) {
    ':' !in src && '>' !in src && ':' !in dest && ',' !in dest && ':' !in call
  }

  lemma WrapperColon(src: string, dest: string, call: string)
    ensures ':' in WrapHeader(src, dest, call) <==> ':' in src || ':' in dest || ':' in call
  {
    var header := WrapHeader(src, dest, call);
    assert header == "}" + src + (">" + dest) + (",TCPIP*," + call) + "*";
  }

  /** The header behind the brace reads as source and destination. */
  lemma HeaderReads(src: string, dest: string, rest: string)
    requires '>' !in src && ',' !in dest
    ensures var header := src + ['>'] + (dest + [','] + rest);
      && IndexOf(header, '>') == |src| && header[..|src|] == src
      && header[|src| + 1..] == dest + [','] + rest
      && IndexOf(header[|src| + 1..], ',') == |dest| && header[|src| + 1..][..|dest|] == dest
  {
    hide IndexOf;
    IndexOfFirst(src, '>', dest + [','] + rest);
    IndexOfFirst(dest, ',', rest);
    var header := src + ['>'] + (dest + [','] + rest);
    assert header[|src| + 1..] == dest + [','] + rest;
  }

  /** A wrapped packet is unwrapped to the same source, destination and information exactly when
      its header holds no stray separator and its information is not empty. */
  lemma UnwrapExact(src: string, dest: string, call: string, info: string, outer: string)
    ensures InnerPacket(WrapHeader(src, dest, call) + ":" + info, outer) == Some(Inner(src, dest, info)) <==>
      CleanWrapper(src, dest, call) && info != ""
  {
    hide IndexOf;
    var header := WrapHeader(src, dest, call);
    var whole := header + [':'] + info;
    assert header + ":" + info == whole;
    WrapperColon(src, dest, call);
    var rest := "TCPIP*," + call + "*";
    assert header == "}" + (src + ['>'] + (dest + [','] + rest));
    if ':' in header {
      var i :| 0 <= i < |header| && header[i] == ':';
      assert whole[i] == ':';
      EarlyIndex(whole, ':', i);
    } else {
      IndexOfFirst(header, ':', info);
      assert whole[|header| + 1..] == info;
      assert whole[1..|header|] == src + ['>'] + (dest + [','] + rest);
      if '>' !in src && ',' !in dest {
        HeaderReads(src, dest, rest);
      } else {
        Misread(src, dest, rest);
      }
    }
  }

  /** Behind its brace the wrapper is the header of a frame that came through APRS-IS and this
      gateway, and its path keeps other gateways from taking it back there. */
  lemma WrapperPath(src: string, dest: string, call: string, info: seq<byte>)
    ensures WrapHeader(src, dest, call)[0] == '}'
    ensures var f := Frame(src, dest, ["TCPIP*", call + "*"], info, None, SrcIS);
      ParseHeader(WrapHeader(src, dest, call)[1..], info) == Some(f) <==> '>' !in src && ',' !in dest && ',' !in call
    ensures PathRefusal(["TCPIP*", call + "*"]) == Some(HeardViaIS)
  {
    hide Prefixed, PathRefusal, ParseHeader, WrapHeader;
    WrapText(src, dest, call);
    var rest := dest + Prefixed(["TCPIP*", call + "*"], ',');
    if '>' in src {
      HeaderCutShort(src, rest, info);
    } else {
      HeaderCut(src, rest, info);
      if ',' !in dest && ',' !in call {
        SplitOfJoined(dest, ["TCPIP*", call + "*"], ',');
      } else {
        SplitHasNone(rest, dest, call);
      }
    }
    ViaIS(call);
  }

  lemma WrapText(src: string, dest: string, call: string)
    ensures WrapHeader(src, dest, call)[0] == '}'
    ensures WrapHeader(src, dest, call)[1..] == src + ['>'] + (dest + Prefixed(["TCPIP*", call + "*"], ','))
  {
    hide Prefixed;
    PrefixedTwo("TCPIP*", call + "*");
  }

  lemma HeaderCut(src: string, rest: string, info: seq<byte>)
    requires '>' !in src
    ensures ParseHeader(src + ['>'] + rest, info)
      == Some(Frame(src, Split(rest, ',')[0], Split(rest, ',')[1..], info, None, SrcIS))
  {
    hide IndexOf, Split;
    IndexOfFirst(src, '>', rest);
    var header := src + ['>'] + rest;
    assert header[..|src|] == src && header[|src| + 1..] == rest;
  }

  lemma HeaderCutShort(src: string, rest: string, info: seq<byte>)
    requires '>' in src
    ensures ParseHeader(src + ['>'] + rest, info).Some? ==> ParseHeader(src + ['>'] + rest, info).value.src != src
  {
    hide IndexOf, Split;
    var i :| 0 <= i < |src| && src[i] == '>';
    var header := src + ['>'] + rest;
    assert header[i] == '>';
    EarlyIndex(header, '>', i);
  }

  /** What is split at commas holds none. */
  lemma SplitHasNone(rest: string, dest: string, call: string)
    requires ',' in dest || ',' in call
    ensures !(Split(rest, ',')[0] == dest && Split(rest, ',')[1..] == ["TCPIP*", call + "*"])
  {
    hide Split;
    var parts := Split(rest, ',');
    assert ',' in call ==> ',' in call + "*";
    assert |parts| >= 3 ==> parts[1..][1] == parts[2];
  }

  lemma ViaIS(call: string)
    ensures PathRefusal(["TCPIP*", call + "*"]) == Some(HeardViaIS)
  {
    RelayNetwork.MarkedIsUsed("", "TCPIP");
    assert "TCPIP" + "*" == "TCPIP*" && Upper("TCPIP") == "TCPIP";
  }

  /** A header without a sender names nobody and keeps the outer destination; one without a comma
      is all destination. */
  lemma PlainHeaders(src: string, dest: string, info: string, outer: string)
    requires ':' !in src && '>' !in src && ':' !in dest && info != ""
    ensures InnerPacket("}" + src + ":" + info, outer) == Some(Inner("", outer, info))
    ensures ',' !in dest ==> InnerPacket("}" + src + ">" + dest + ":" + info, outer) == Some(Inner(src, dest, info))
  {
    hide IndexOf;
    var one := ("}" + src) + [':'] + info;
    IndexOfFirst("}" + src, ':', info);
    assert one == "}" + src + ":" + info;
    assert one[1..|src| + 1] == src && one[|src| + 2..] == info;
    var header := src + ['>'] + dest;
    var two := ("}" + header) + [':'] + info;
    assert ':' !in "}" + header;
    IndexOfFirst("}" + header, ':', info);
    assert two == "}" + src + ">" + dest + ":" + info;
    assert two[1..|header| + 1] == header && two[|header| + 2..] == info;
    IndexOfFirst(src, '>', dest);
    assert header[..|src|] == src && header[|src| + 1..] == dest;
  }

  /** The information wrapped once for each of the senders, the first one outermost. */
  function Nested(senders: seq<string>, dest: string, call: string, info: string): string {
    if senders == [] then info
    else WrapHeader(senders[0], dest, call) + ":" + Nested(senders[1..], dest, call, info)
  }

  /** Up to four wrappers are taken off, and the originator is the sender next to the information;
      what is wrapped once more is not looked into. */
  lemma {:induction false} NestedExact(senders: seq<string>, dest: string, call: string, info: string, outer: string,
                                       leaf: Leaf, depth: nat)
    requires senders != [] && forall i :: 0 <= i < |senders| ==> senders[i] != "" && CleanWrapper(senders[i], dest, call)
    requires info != "" && info[0] != '}' && depth <= 4
    ensures DecodeAt(Nested(senders, dest, call, info), outer, depth, leaf) ==
      if |senders| + depth <= 4 then DecodeAt(info, dest, 0, leaf).(msgOrigSrc := senders[|senders| - 1])
      else NOTHING_DECODED.(msgOrigSrc := if depth == 4 then "" else senders[3 - depth])
    decreases |senders|
  {
    hide InnerPacket, PostProcessed, DecodeMessage, WrapHeader, CleanWrapper;
    var src, rest := senders[0], senders[1..];
    var inner := Nested(rest, dest, call, info);
    WrapStarts(src, dest, call, inner);
    NestedStarts(rest, dest, call, info);
    UnwrapExact(src, dest, call, inner, outer);
    DepthFree(info, dest, depth + 1, leaf);
    if rest != [] && depth < 4 {
      NestedExact(rest, dest, call, info, dest, leaf, depth + 1);
    }
  }

  lemma WrapStarts(src: string, dest: string, call: string, inner: string)
    ensures (WrapHeader(src, dest, call) + ":" + inner)[0] == '}'
    ensures |WrapHeader(src, dest, call) + ":" + inner| > |inner|
  {
  }

  lemma NestedStarts(senders: seq<string>, dest: string, call: string, info: string)
    requires info != ""
    ensures var s := Nested(senders, dest, call, info);
      s != "" && (senders != [] ==> s[0] == '}')
  {
    hide WrapHeader;
    if senders != [] {
      WrapStarts(senders[0], dest, call, Nested(senders[1..], dest, call, info));
    }
  }

  lemma Misread(src: string, dest: string, rest: string)
    requires '>' in src || ',' in dest
    ensures var header := src + ['>'] + (dest + [','] + rest);
      var gt := IndexOf(header, '>');
      && gt >= 0
      && (header[..gt] != src
          || (IndexOf(header[gt + 1..], ',') >= 0 && header[gt + 1..][..IndexOf(header[gt + 1..], ',')] != dest))
  {
    hide IndexOf;
    var header := src + ['>'] + (dest + [','] + rest);
    if '>' in src {
      var i :| 0 <= i < |src| && src[i] == '>';
      assert header[i] == '>';
      EarlyIndex(header, '>', i);
    } else {
      IndexOfFirst(src, '>', dest + [','] + rest);
      var path := dest + [','] + rest;
      assert header[|src| + 1..] == path;
      var i :| 0 <= i < |dest| && dest[i] == ',';
      assert path[i] == ',';
      EarlyIndex(path, ',', i);
    }
  }

  /** What is not itself wrapped decodes alike at every depth, and names no originator. */
  lemma DepthFree(info: string, dest: string, depth: nat, leaf: Leaf)
    requires info == "" || info[0] != '}'
    ensures DecodeAt(info, dest, depth, leaf) == DecodeAt(info, dest, 0, leaf)
    ensures DecodeAt(info, dest, depth, leaf).msgOrigSrc == ""
  {
    if info != "" && info[0] == ':' {
      MessageNamesNobody(info[1..]);
    }
  }

  lemma MessageNamesNobody(rest: string)
    ensures DecodeMessage(rest).msgOrigSrc == ""
  {
    hide TrimRight, IsTelemConfig, SplitAckBody, SplitBrace, BulletinGroup, IndexOf;
  }

  /** Decoding the wrapper gives the inner packet's decode, with the sender as originator. */
  lemma UnwrappedDecode(src: string, dest: string, call: string, info: string, outer: string, leaf: Leaf)
    requires CleanWrapper(src, dest, call) && info != "" && info[0] != '}'
    ensures Decode(WrapHeader(src, dest, call) + ":" + info, outer, leaf)
      == Decode(info, dest, leaf).(msgOrigSrc := src)
  {
    hide InnerPacket, PostProcessed, DecodeMessage;
    UnwrapExact(src, dest, call, info, outer);
    DepthFree(info, dest, 1, leaf);
    var whole := WrapHeader(src, dest, call) + ":" + info;
    assert whole[0] == '}';
  }

  // ---- the journey through a gateway ----

  lemma WrappedText(f: Frame, s: Config)
    requires OctetString(f.src) && OctetString(f.dest) && OctetString(s.callsign)
    ensures Text(Wrapped(f, s)) == WrapHeader(f.src, f.dest, s.callsign) + ":" + Text(f.info)
  {
    var header := WrapHeader(f.src, f.dest, s.callsign);
    assert OctetString(header);
    TextOfOctets(header);
    TextConcat(Octets(header) + [COLON], f.info);
    TextConcat(Octets(header), [COLON]);
    assert Text([COLON]) == ":";
  }

  /** The parser leaves no separator in a source or destination. */
  lemma ParsedClean(line: seq<byte>)
    requires ParseTNC2(line).Some?
    ensures var f := ParseTNC2(line).value;
      && OctetString(f.src) && OctetString(f.dest)
      && ':' !in f.src && '>' !in f.src && ':' !in f.dest && ',' !in f.dest
  {
    hide IndexOf, Split;
    var colon := IndexOf(line, COLON);
    var header := Text(line[..colon]);
    assert ':' !in header by {
      assert forall i :: 0 <= i < |header| ==> line[..colon][i] == line[i] && header[i] == line[i] as char;
    }
    var gt := IndexOf(header, '>');
    var rest := header[gt + 1..];
    assert '>' !in header[..gt];
    var first := Split(rest, ',')[0];
    FirstPart(rest, ',');
    assert forall i :: 0 <= i < |first| ==> first[i] == header[gt + 1 + i];
  }

  lemma FirstPart(s: string, sep: char)
    ensures var first := Split(s, sep)[0];
      |first| <= |s| && first == s[..|first|]
  {
    hide IndexOf;
  }

  /** A callsign that can be sent holds no colon and no character beyond an octet. */
  lemma SendableCall(c: string)
    requires SplitCallSsid(c).Ok?
    ensures OctetString(c) && ':' !in c
  {
    hide IndexOf, Atoi, TrimLeft, TrimRight, TrimSpace;
    var i := IndexOf(c, '-');
    var base := if i < 0 then c else c[..i];
    PlainBase(base);
    if i >= 0 {
      AtoiChars(c[i + 1..]);
      assert c == base + ['-'] + c[i + 1..];
    }
  }

  lemma PlainBase(base: string)
    requires forall i :: 0 <= i < |TrimSpace(base)| ==> IsAlnum(TrimSpace(base)[i])
    ensures OctetString(base) && ':' !in base
  {
    hide TrimRight, TrimLeft;
    var left := TrimLeft(base, SPACES);
    TrimLeftDrops(base, SPACES);
    assert forall c :: c in SPACES ==> c as int < 256 && c != ':';
    var k, j := |base| - |left|, |TrimRight(left, SPACES)|;
    assert TrimSpace(base) == left[..j];
    forall i | 0 <= i < |base| ensures base[i] as int < 256 && base[i] != ':' {
      assert i < k ==> base[i] in SPACES;
      assert i >= k ==> base[i] == left[i - k];
      assert i >= k + j ==> left[i - k] in SPACES;
      assert k <= i < k + j ==> TrimSpace(base)[i - k] == base[i];
    }
  }

  /** What a receiver on the air decodes from a gated packet is what the gateway decoded, with the
      original sender as originator. */
  lemma GatedDecode(line: seq<byte>, t: Lineages.Step, a: Action, leaf: Leaf)
    requires Lineages.NetStep(line, t, a)
    requires ParseTNC2(line).value.info != []
    ensures t.next.Air? && DecodeFrame(t.next.raw).Ok?
    ensures var f, g := ParseTNC2(line).value, DecodeFrame(t.next.raw).value;
      && Decode(Text(g.info), g.dest, leaf) == Decode(Text(f.info), f.dest, leaf).(msgOrigSrc := f.src)
  {
    hide ParseTNC2, EncodeFrame, DecodeFrame, FromIS, Wrapped, WrapHeader, Decode, SplitCallSsid, Canon, EncodablePath, CanonPath;
    var f := ParseTNC2(line).value;
    Lineages.InjectionWraps(Packet(f, t.decoded), t.station, t.heard, t.granted);
    FrameRoundTrip(a.src, a.dest, a.path, a.info);
    var g := DecodeFrame(t.next.raw).value;
    ParsedClean(line);
    InjectsAsStation(Packet(f, t.decoded), t.station, t.heard, t.granted);
    SendableCall(t.station.callsign);
    WrappedText(f, t.station);
    UnwrappedDecode(f.src, f.dest, t.station.callsign, Text(f.info), g.dest, leaf);
  }

  lemma InjectsAsStation(p: Packet, s: Config, heard: bool, granted: bool)
    ensures FromIS(p, s, heard, granted).InjectRF? ==> FromIS(p, s, heard, granted).src == s.callsign
  {
    hide MessageRefusal, EarlyRefusal, AsksTracker, TXPath, Wrapped;
  }

  /** Nothing is gated that decodes as nothing, as an empty packet does. */
  lemma EmptyNotGated(p: Packet, s: Config, heard: bool, granted: bool, leaf: Leaf)
    requires p.frame.info == [] && p.decoded == Decode(Text(p.frame.info), p.frame.dest, leaf)
    ensures FromIS(p, s, heard, granted).Drop?
  {
    hide EarlyRefusal, TXPath, Wrapped;
    assert Text(p.frame.info) == "";
  }

  /** A safe message sent over APRS-IS and gated to the air arrives there with its addressee, its
      ID, its text cleaned for display, and its sender. */
  lemma MessageArrives(line: seq<byte>, t: Lineages.Step, a: Action, leaf: Leaf, to: string, body: string, id: string)
    requires Lineages.NetStep(line, t, a)
    requires Text(ParseTNC2(line).value.info) == MessageInfo(to, body, id) && MessageSafe(to, body, id)
    ensures t.next.Air? && DecodeFrame(t.next.raw).Ok?
    ensures var f, g := ParseTNC2(line).value, DecodeFrame(t.next.raw).value;
      var d := Decode(Text(g.info), g.dest, leaf);
      && IsPlainMessage(d, to, Text(Utf8.Sanitized(Octets(body))), id)
      && d.msgOrigSrc == f.src
  {
    hide ParseTNC2, EncodeFrame, DecodeFrame, FromIS, MessageSafe, DecodeMessage, Decode, CleanWrapper;
    var f := ParseTNC2(line).value;
    GatedDecode(line, t, a, leaf);
    MessageExact(to, body, id);
    MessageDecodes(to, body, id, f.dest, leaf);
  }

  lemma MessageDecodes(to: string, body: string, id: string, dest: string, leaf: Leaf)
    requires IsPlainMessage(DecodeMessage(MessageInfo(to, body, id)[1..]), to, body, id)
    ensures IsPlainMessage(Decode(MessageInfo(to, body, id), dest, leaf), to, Text(Utf8.Sanitized(Octets(body))), id)
    ensures MessageInfo(to, body, id) != ""
  {
    hide DecodeMessage, Addressee, InnerPacket;
    assert MessageInfo(to, body, id)[0] == ':';
  }
}
