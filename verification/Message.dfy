/** Messages and acknowledgements: printing them, parsing them back, and unwrapping the third-party
    form in which a gateway puts them on the air. */
module Message {
  import opened GoText
  import opened Packets

  // ---- printing ----

  /** The addressee cut or filled up to nine characters. */
  function Addressee(to: string): (r: string)
    ensures |r| == 9
  {
    if |to| > 9 then to[..9] else to + seq(9 - |to|, i => ' ')
  }

  function Tag(id: string): string {
    if id == "" then "" else "{" + id
  }

  function MessageInfo(to: string, body: string, id: string): string {
    ":" + Addressee(to) + ":" + (body + Tag(id))
  }

  function AckInfo(to: string, id: string): string {
    ":" + Addressee(to) + ":" + ("ack" + id)
  }

  // ---- parsing ----

  predicate IsPrintable(c: char) { 0x20 <= c as int < 0x7F }

  function PrintablePart(s: string): (r: string)
    ensures |r| <= |s|
  {
    if s == "" then "" else (if IsPrintable(s[0]) then [s[0]] else "") + PrintablePart(s[1..])
  }

  function CleanID(s: string): string {
    PrintablePart(TrimRight(s, CRLF))
  }

  method SanitizeMsgID(s: string) returns (r: string)
    ensures r == CleanID(s)
  {
    var t := TrimRight(s, CRLF);
    r := "";
    for i := 0 to |t|
      invariant r + PrintablePart(t[i..]) == PrintablePart(t)
    {
      assert t[i..][1..] == t[i + 1..];
      if IsPrintable(t[i]) {
        ConcatAssoc(r, [t[i]], PrintablePart(t[i + 1..]));
        r := r + [t[i]];
      }
    }
    assert r + "" == r;
  }

  /** An ID and the ID it acknowledges on the way, separated by a closing brace. */
  datatype Pair = Pair(first: string, second: string)

  function SplitBrace(s: string): Pair {
    var j := IndexOf(s, '}');
    if j >= 0 then Pair(CleanID(s[..j]), CleanID(s[j + 1..])) else Pair(CleanID(s), "")
  }

  function SplitAckBody(s: string): Pair {
    SplitBrace(TrimRight(s, CRLF))
  }

  /** The body declares telemetry channels instead of carrying text. */
  predicate IsTelemConfig(body: string) {
    || HasPrefix(body, "PARM.") || HasPrefix(body, "UNIT.") || HasPrefix(body, "EQNS.")
    || (HasPrefix(body, "BITS.") && IsBits(TrimRight(body[5..], CRLF)))
  }

  predicate IsBits(rest: string) {
    var i := IndexOf(rest, ',');
    EightBits(if i >= 0 then rest[..i] else rest)
  }

  predicate EightBits(sense: string) {
    |sense| == 8 && forall k :: 0 <= k < 8 ==> sense[k] == '0' || sense[k] == '1'
  }

  predicate Announces(body: string, word: string) {
    HasPrefix(body, word) && |body| > |word|
  }

  function BulletinGroup(to: string): string {
    if |to| > 4 && HasPrefix(Upper(to), "BLN") then TrimRight(to[4..], {' '}) else ""
  }

  function WithText(d: Decoded, body: string): Decoded {
    var i := IndexOf(body, '{');
    if i >= 0 then
      var ids := SplitBrace(TrimRight(body[i + 1..], CRLF));
      d.(msgBody := body[..i], msgID := ids.first, replyAckID := ids.second)
    else d.(msgBody := TrimRight(body, CRLF))
  }

  function WithBody(d: Decoded, body: string): Decoded {
    if Announces(body, "ack") then
      var ids := SplitAckBody(body[3..]);
      d.(isAck := true, ackedID := ids.first, replyAckID := ids.second)
    else if Announces(body, "rej") then
      var ids := SplitAckBody(body[3..]);
      d.(isRej := true, ackedID := ids.first, replyAckID := ids.second)
    else WithText(d, body)
  }

  /** What follows the data type character of a message. */
  function DecodeMessage(rest: string): Decoded {
    if |rest| < 10 || rest[9] != ':' then NOTHING_DECODED
    else
      var to, body := TrimRight(rest[..9], {' '}), rest[10..];
      if IsTelemConfig(body) then NOTHING_DECODED.(telemConfig := true, msgTo := to)
      else WithBody(NOTHING_DECODED.(isMessage := true, msgTo := to, bulletinGroup := BulletinGroup(to)), body)
  }

  // ---- printing and parsing again ----

  lemma {:induction false} PrintablePartExact(s: string)
    ensures PrintablePart(s) == s <==> forall i :: 0 <= i < |s| ==> IsPrintable(s[i])
  {
    if s != "" {
      PrintablePartExact(s[1..]);
      assert s == [s[0]] + s[1..];
      if IsPrintable(s[0]) {
        assert PrintablePart(s)[1..] == PrintablePart(s[1..]);
      }
    }
  }

  lemma CleanIDExact(s: string)
    ensures CleanID(s) == s <==> forall i :: 0 <= i < |s| ==> IsPrintable(s[i])
    ensures |CleanID(s)| <= |s|
  {
    hide PrintablePart;
    PrintablePartExact(s);
    if forall i :: 0 <= i < |s| ==> IsPrintable(s[i]) {
      PrintableNotCut(s);
    }
    assert |TrimRight(s, CRLF)| == |s| ==> TrimRight(s, CRLF) == s;
  }

  lemma PrintableNotCut(s: string)
    requires forall i :: 0 <= i < |s| ==> IsPrintable(s[i])
    ensures TrimRight(s, CRLF) == s
  {
    if s != "" {
      assert IsPrintable(s[|s| - 1]);
    }
  }

  /** An ID that comes back: printable and without the brace. */
  predicate PlainID(id: string) {
    '}' !in id && forall i :: 0 <= i < |id| ==> IsPrintable(id[i])
  }

  lemma PlainIDExact(id: string)
    ensures SplitAckBody(id) == Pair(id, "") <==> PlainID(id)
  {
    hide CleanID, IndexOf;
    var t := TrimRight(id, CRLF);
    CleanIDExact(t);
    CleanIDExact(id);
    if PlainID(id) {
      PrintableNotCut(id);
    } else if SplitAckBody(id) == Pair(id, "") {
      var j := IndexOf(t, '}');
      if j >= 0 {
        CleanIDExact(t[..j]);
      }
    }
  }

  /** A callsign that fits the nine characters and does not end in a space. */
  predicate PlainAddressee(to: string) {
    |to| <= 9 && (to == "" || to[|to| - 1] != ' ')
  }

  lemma AddresseeExact(to: string)
    ensures TrimRight(Addressee(to), {' '}) == to <==> PlainAddressee(to)
  {
    if |to| <= 9 && PlainAddressee(to) {
      TrimRightKeeps(to, seq(9 - |to|, i => ' '), {' '});
    }
  }

  /** A long addressee is cut after nine characters, a short one filled up with blanks behind. */
  lemma AddresseeForm(to: string)
    ensures |to| > 9 ==> Addressee(to) == to[..9]
    ensures |to| <= 9 ==> Addressee(to)[..|to|] == to && forall i :: |to| <= i < 9 ==> Addressee(to)[i] == ' '
  {
  }

  /** What the parser sees behind the data type character. */
  lemma InfoParts(to: string, body: string)
    ensures var rest := (":" + Addressee(to) + ":" + body)[1..];
      |rest| == 10 + |body| && rest[..9] == Addressee(to) && rest[9] == ':' && rest[10..] == body
  {
  }

  /** A message's text and ID come back together exactly if the text holds no opening brace, the
      ID is plain, and a text without an ID does not end in a line end. */
  predicate PlainText(body: string, id: string) {
    '{' !in body && if id == "" then TrimRight(body, CRLF) == body else PlainID(id)
  }

  lemma TextExact(d: Decoded, body: string, id: string)
    requires d.msgID == "" && d.replyAckID == ""
    ensures var e := WithText(d, body + Tag(id));
      (e.msgBody == body && e.msgID == id && e.replyAckID == "") <==> PlainText(body, id)
  {
    hide IndexOf, SplitBrace, TrimRight, PlainID;
    if '{' in body {
      BraceInside(body, Tag(id));
    } else if id == "" {
      assert body + Tag(id) == body;
    } else {
      TaggedText(d, body, id);
      PlainIDExact(id);
    }
  }

  lemma TaggedText(d: Decoded, body: string, id: string)
    requires '{' !in body && id != ""
    ensures WithText(d, body + Tag(id)) ==
      d.(msgBody := body, msgID := SplitAckBody(id).first, replyAckID := SplitAckBody(id).second)
  {
    hide IndexOf, SplitBrace, TrimRight;
    var full := body + Tag(id);
    assert full == body + ['{'] + id;
    IndexOfFirst(body, '{', id);
    assert full[..|body|] == body && full[|body| + 1..] == id;
  }

  lemma BraceInside(body: string, more: string)
    requires '{' in body
    ensures 0 <= IndexOf(body + more, '{') < |body|
  {
    hide IndexOf;
    var k :| 0 <= k < |body| && body[k] == '{';
    var s := body + more;
    assert s[k] == '{';
    assert '{' in s;
    var r := IndexOf(s, '{');
    assert '{' !in s[..r];
    assert forall j :: 0 <= j < r ==> s[..r][j] == s[j];
  }

  /** Exactly the messages that survive printing and parsing. */
  predicate MessageSafe(to: string, body: string, id: string) {
    var full := body + Tag(id);
    && PlainAddressee(to) && PlainText(body, id)
    && !IsTelemConfig(full) && !Announces(full, "ack") && !Announces(full, "rej")
  }

  predicate IsPlainMessage(d: Decoded, to: string, body: string, id: string) {
    && d.isMessage && !d.isAck && !d.isRej
    && d.msgTo == to && d.msgBody == body && d.msgID == id && d.replyAckID == ""
  }

  lemma MessageExact(to: string, body: string, id: string)
    ensures IsPlainMessage(DecodeMessage(MessageInfo(to, body, id)[1..]), to, body, id) <==> MessageSafe(to, body, id)
  {
    hide Addressee, IsTelemConfig, Announces, WithText, PlainText, PlainAddressee, TrimRight, SplitAckBody, BulletinGroup;
    var full := body + Tag(id);
    InfoParts(to, full);
    AddresseeExact(to);
    TextExact(NOTHING_DECODED.(isMessage := true, msgTo := to, bulletinGroup := BulletinGroup(to)), body, id);
    TextKeepsKind(NOTHING_DECODED.(isMessage := true, msgTo := to, bulletinGroup := BulletinGroup(to)), full);
    var trimmed := TrimRight(Addressee(to), {' '});
    TextKeepsKind(NOTHING_DECODED.(isMessage := true, msgTo := trimmed, bulletinGroup := BulletinGroup(trimmed)), full);
  }

  lemma TextKeepsKind(d: Decoded, body: string)
    ensures var e := WithText(d, body);
      e.isMessage == d.isMessage && e.isAck == d.isAck && e.isRej == d.isRej && e.msgTo == d.msgTo
  {
    hide SplitBrace, TrimRight;
  }

  lemma NotTelemetry(body: string)
    requires body != "" && (body[0] == 'a' || body[0] == 'r')
    ensures !IsTelemConfig(body)
  {
    hide IsBits, TrimRight;
    assert |body| >= 5 ==> body[..5][0] == body[0];
  }

  /** What is decoded from an announcement, whatever the addressee and the ID. */
  lemma AnnouncedBody(to: string, word: string, id: string)
    requires word == "ack" || word == "rej"
    ensures var d := DecodeMessage((":" + Addressee(to) + ":" + (word + id))[1..]);
      && d.isMessage && d.msgTo == TrimRight(Addressee(to), {' '})
      && d.isAck == (word == "ack" && id != "") && d.isRej == (word == "rej" && id != "")
      && (id != "" ==> d.ackedID == SplitAckBody(id).first && d.replyAckID == SplitAckBody(id).second)
      && (id == "" ==> d.ackedID == "" && d.msgBody == word)
  {
    hide Addressee, TrimRight, SplitAckBody, BulletinGroup, IsTelemConfig;
    var body := word + id;
    InfoParts(to, body);
    NotTelemetry(body);
    assert body[3..] == id && body[..3] == word;
    if id == "" {
      var d := NOTHING_DECODED.(isMessage := true, msgTo := TrimRight(Addressee(to), {' '}),
                                bulletinGroup := BulletinGroup(TrimRight(Addressee(to), {' '})));
      assert body == word;
      PlainWord(word);
      TextKeepsKind(d, word);
    }
  }

  lemma PlainWord(word: string)
    requires word == "ack" || word == "rej"
    ensures '{' !in word && TrimRight(word, CRLF) == word
  {
    TrimRightKeeps(word, "", CRLF);
    assert word + "" == word;
  }

  /** Exactly the acknowledgements that survive. */
  lemma AckExact(to: string, id: string)
    ensures var d := DecodeMessage(AckInfo(to, id)[1..]);
      (d.isMessage && d.isAck && !d.isRej && d.msgTo == to && d.ackedID == id && d.replyAckID == "") <==>
      PlainAddressee(to) && PlainID(id) && id != ""
  {
    hide Addressee, PlainAddressee, TrimRight, SplitAckBody, PlainID, DecodeMessage;
    AnnouncedBody(to, "ack", id);
    AddresseeExact(to);
    PlainIDExact(id);
  }

  /** And exactly the rejections. */
  lemma RejExact(to: string, id: string)
    ensures var d := DecodeMessage((":" + Addressee(to) + ":rej" + id)[1..]);
      (d.isMessage && d.isRej && !d.isAck && d.msgTo == to && d.ackedID == id && d.replyAckID == "") <==>
      PlainAddressee(to) && PlainID(id) && id != ""
  {
    hide Addressee, PlainAddressee, TrimRight, SplitAckBody, PlainID, DecodeMessage;
    AnnouncedBody(to, "rej", id);
    assert ":" + Addressee(to) + ":rej" + id == ":" + Addressee(to) + ":" + ("rej" + id);
    AddresseeExact(to);
    PlainIDExact(id);
  }

  lemma CutInside(front: string, back: string)
    ensures TrimRight(front + "}" + back, CRLF) == front + "}" + TrimRight(back, CRLF)
  {
    var kept := TrimRight(back, CRLF);
    var whole := front + "}" + kept;
    var ends := back[|kept|..];
    assert front + "}" + back == whole + ends;
    assert whole[|whole| - 1] == if kept == "" then '}' else kept[|kept| - 1];
    TrimRightKeeps(whole, ends, CRLF);
  }

  /** An ID with the ID it acknowledges on the way comes back as these two exactly if the first is
      plain and the second printable. */
  lemma ReplyAckExact(first: string, second: string)
    ensures SplitAckBody(first + "}" + second) == Pair(first, second) <==>
      PlainID(first) && forall i :: 0 <= i < |second| ==> IsPrintable(second[i])
  {
    hide TrimRight, IndexOf, CleanID;
    CutInside(first, second);
    var kept := TrimRight(second, CRLF);
    CleanIDExact(kept);
    CleanIDExact(second);
    if '}' in first {
      BraceFirst(first, kept);
    } else {
      IndexOfFirst(first, '}', kept);
      var whole := first + ['}'] + kept;
      assert whole[..|first|] == first && whole[|first| + 1..] == kept;
      CleanIDExact(first);
      if forall i :: 0 <= i < |second| ==> IsPrintable(second[i]) {
        PrintableNotCut(second);
      }
    }
  }

  lemma BraceFirst(first: string, kept: string)
    requires '}' in first
    ensures SplitBrace(first + "}" + kept).first != first
  {
    hide TrimRight, IndexOf, CleanID;
    var i :| 0 <= i < |first| && first[i] == '}';
    var whole := first + "}" + kept;
    assert whole[i] == '}';
    var j := IndexOf(whole, '}');
    assert j <= i;
    CleanIDExact(whole[..j]);
  }

  // ---- telemetry and bulletins ----

  /** A body declares telemetry exactly if it starts with one of four words, the last of which needs
      eight zeros and ones after it, alone or followed by a comma. */
  lemma TelemetryExact(body: string)
    ensures var bits := if |body| >= 5 then TrimRight(body[5..], CRLF) else "";
      IsTelemConfig(body) <==>
        && |body| >= 5
        && (|| body[..5] in {"PARM.", "UNIT.", "EQNS."}
            || (&& body[..5] == "BITS." && |bits| >= 8 && (|bits| == 8 || bits[8] == ',')
                && forall k :: 0 <= k < 8 ==> bits[k] == '0' || bits[k] == '1'))
  {
    hide TrimRight, IndexOf;
    if |body| >= 5 {
      BitsExact(TrimRight(body[5..], CRLF));
    }
  }

  lemma BitsExact(rest: string)
    ensures IsBits(rest) <==>
      && |rest| >= 8 && (|rest| == 8 || rest[8] == ',') && forall k :: 0 <= k < 8 ==> rest[k] == '0' || rest[k] == '1'
  {
    hide IndexOf;
    var i := IndexOf(rest, ',');
    if |rest| >= 8 {
      var eight := rest[..8];
      assert forall k :: 0 <= k < 8 ==> eight[k] == rest[k];
      NoComma(rest, eight, i);
    } else {
      assert !IsBits(rest);
    }
  }

  /** Eight bits hold no comma, so the first one stands right after them if anything does. */
  lemma NoComma(rest: string, eight: string, i: int)
    requires |rest| >= 8 && eight == rest[..8] && i == IndexOf(rest, ',')
    ensures IsBits(rest) <==> EightBits(eight) && (|rest| == 8 || rest[8] == ',')
  {
    hide IndexOf;
    assert forall k :: 0 <= k < 8 ==> eight[k] == rest[k];
    assert |rest| == 8 ==> eight == rest;
    if i >= 0 {
      assert rest[i] == ',';
      assert i < 8 ==> eight[i] == ',';
      assert i < 8 ==> |rest[..i]| == i;
      assert |rest| > 8 && rest[8] == ',' ==> i <= 8;
    } else {
      assert |rest| > 8 ==> rest[8] in rest;
    }
  }

  /** The group of a bulletin is what follows the fourth character of its addressee. */
  lemma BulletinExact(rest: string)
    ensures var d := DecodeMessage(rest);
      d.isMessage ==>
        d.bulletinGroup == if |d.msgTo| > 4 && Upper(d.msgTo[..3]) == "BLN" then d.msgTo[4..] else ""
  {
    hide IsTelemConfig, SplitAckBody, SplitBrace, IndexOf;
    if |rest| >= 10 && rest[9] == ':' {
      GroupOf(TrimRight(rest[..9], {' '}));
    }
  }

  lemma GroupOf(to: string)
    requires to == "" || to[|to| - 1] != ' '
    ensures BulletinGroup(to) == if |to| > 4 && Upper(to[..3]) == "BLN" then to[4..] else ""
  {
    assert |to| >= 3 ==> Upper(to)[..3] == Upper(to[..3]);
    if |to| > 4 {
      TrimRightKeeps(to[4..], "", {' '});
      assert to[4..] + "" == to[4..];
    }
  }
}
