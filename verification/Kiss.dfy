/** KISS framing between the station and its TNC: byte escaping and the streaming splitter. */
module Kiss {
  import opened GoText

  const FEND: byte := 0xC0
  const FESC: byte := 0xDB
  const TFEND: byte := 0xDC
  const TFESC: byte := 0xDD
  const MAX_FRAME_BYTES: nat := 4096

  // ---- escaping ----

  function EscapeByte(b: byte): seq<byte> {
    if b == FEND then [FESC, TFEND] else if b == FESC then [FESC, TFESC] else [b]
  }

  function Escape(payload: seq<byte>): seq<byte> {
    if payload == [] then [] else EscapeByte(payload[0]) + Escape(payload[1..])
  }

  /** One data frame on port 0 as it goes to the TNC. */
  function Framed(payload: seq<byte>): seq<byte> {
    [FEND, 0] + Escape(payload) + [FEND]
  }

  /** The payload read from position i of a segment on. */
  function Unescape(s: seq<byte>, i: nat): seq<byte>
    requires i <= |s|
    decreases |s| - i
  {
    if i == |s| then []
    else if s[i] != FESC then [s[i]] + Unescape(s, i + 1)
    else if i + 1 == |s| then []
    else if s[i + 1] == TFEND then [FEND] + Unescape(s, i + 2)
    else if s[i + 1] == TFESC then [FESC] + Unescape(s, i + 2)
    else Unescape(s, i + 2)
  }

  /** What one segment between FENDs carries: nothing unless it is a data frame. */
  function DecodeSegment(seg: seq<byte>): Option<seq<byte>> {
    if |seg| < 2 || seg[0] % 16 != 0 then None else Some(Unescape(seg, 1))
  }

  lemma {:induction false} EscapeConcat(a: seq<byte>, b: seq<byte>)
    ensures Escape(a + b) == Escape(a) + Escape(b)
  {
    if a == [] {
      assert a + b == b;
    } else {
      assert (a + b)[1..] == a[1..] + b;
      EscapeConcat(a[1..], b);
    }
  }

  /** Escaping hides every FEND and at most doubles the length. */
  lemma {:induction false} EscapeShape(payload: seq<byte>)
    ensures FEND !in Escape(payload)
    ensures |payload| <= |Escape(payload)| <= 2 * |payload|
  {
    if payload != [] {
      EscapeShape(payload[1..]);
    }
  }

  /** Escaping is undone exactly, wherever in a segment the escaped bytes stand. */
  lemma EscapeRoundTrip(head: seq<byte>, payload: seq<byte>)
    ensures Unescape(head + Escape(payload), |head|) == payload
  {
    hide Escape, Unescape;
    ReadsOn(head, payload, []);
    var s := head + Escape(payload);
    assert s + [] == s;
    ReadToEnd(s);
    assert payload + [] == payload;
  }

  lemma ReadToEnd(s: seq<byte>)
    ensures Unescape(s, |s|) == []
  {
  }

  /** The codes are those of the KISS specification. */
  lemma EscapeCodes(b: byte)
    ensures Escape([b]) == if b == 0xC0 then [0xDB, 0xDC] else if b == 0xDB then [0xDB, 0xDD] else [b]
    ensures Framed([b]) == [0xC0, 0x00] + Escape([b]) + [0xC0]
  {
    assert [b][1..] == [];
    assert EscapeByte(b) + [] == EscapeByte(b);
  }

  /** A segment carries data exactly if it has a type octet whose low half is zero and something
      after it. */
  lemma DataExact(seg: seq<byte>)
    ensures DecodeSegment(seg).Some? <==> |seg| >= 2 && seg[0] as int % 16 == 0
  {
  }

  /** Escaped bytes are read back and reading goes on after them. */
  lemma {:induction false} ReadsOn(head: seq<byte>, payload: seq<byte>, rest: seq<byte>)
    ensures var s := head + Escape(payload) + rest;
      Unescape(s, |head|) == payload + Unescape(s, |head| + |Escape(payload)|)
    decreases |payload|
  {
    hide Unescape;
    var s := head + Escape(payload) + rest;
    if payload == [] {
      assert payload + Unescape(s, |head|) == Unescape(s, |head|);
    } else {
      var e, more := EscapeByte(payload[0]), Escape(payload[1..]);
      assert Escape(payload) == e + more && s == (head + e) + more + rest;
      ReadsOn(head + e, payload[1..], rest);
      OneRead(head, payload[0], more + rest, s);
      assert payload == [payload[0]] + payload[1..];
      ConcatAssoc([payload[0]], payload[1..], Unescape(s, |head| + |Escape(payload)|));
    }
  }

  lemma OneRead(head: seq<byte>, b: byte, rest: seq<byte>, s: seq<byte>)
    requires s == head + EscapeByte(b) + rest
    ensures Unescape(s, |head|) == [b] + Unescape(s, |head| + |EscapeByte(b)|)
  {
    var e := EscapeByte(b);
    assert s[|head|] == e[0];
    assert |e| == 2 ==> s[|head| + 1] == e[1];
  }

  /** An escape octet that is followed by no escaped code is dropped with what follows it, and
      reading goes on after both; at the end of a segment it is dropped alone. */
  lemma BadEscape(head: seq<byte>, payload: seq<byte>, b: byte, rest: seq<byte>)
    requires b != 0xDC && b != 0xDD
    ensures var s := head + Escape(payload) + ([0xDB, b] + rest);
      Unescape(s, |head|) == payload + Unescape(s, |head| + |Escape(payload)| + 2)
    ensures Unescape(head + Escape(payload) + [0xDB], |head|) == payload
  {
    ReadsOn(head, payload, [0xDB, b] + rest);
    ReadsOn(head, payload, [0xDB]);
    var n := |head| + |Escape(payload)|;
    var s, u := head + Escape(payload) + ([0xDB, b] + rest), head + Escape(payload) + [0xDB];
    assert s[n] == 0xDB && s[n + 1] == b && u[n] == 0xDB && n + 1 == |u|;
    assert payload + [] == payload;
  }

  method EncodeKiss(payload: seq<byte>) returns (out: seq<byte>)
    ensures out == Framed(payload)
  {
    out := [FEND, 0];
    for i := 0 to |payload|
      invariant out == [FEND, 0] + Escape(payload[..i])
    {
      EscapeConcat(payload[..i], [payload[i]]);
      assert payload[..i + 1] == payload[..i] + [payload[i]];
      assert Escape([payload[i]]) == EscapeByte(payload[i]);
      var b := payload[i];
      if b == FEND {
        out := out + [FESC, TFEND];
      } else if b == FESC {
        out := out + [FESC, TFESC];
      } else {
        out := out + [b];
      }
    }
    assert payload[..|payload|] == payload;
    out := out + [FEND];
  }

  method DecodeKiss(seg: seq<byte>) returns (r: Option<seq<byte>>)
    ensures r == DecodeSegment(seg)
  {
    if |seg| < 2 {
      return None;
    }
    if seg[0] % 16 != 0 {
      return None;
    }
    var out: seq<byte> := [];
    var i := 1;
    while i < |seg|
      invariant 1 <= i <= |seg|
      invariant out + Unescape(seg, i) == Unescape(seg, 1)
    {
      if seg[i] == FESC {
        if i + 1 >= |seg| {
          break;
        }
        ghost var rest := Unescape(seg, i + 2);
        if seg[i + 1] == TFEND {
          ConcatAssoc(out, [FEND], rest);
          out := out + [FEND];
        } else if seg[i + 1] == TFESC {
          ConcatAssoc(out, [FESC], rest);
          out := out + [FESC];
        }
        i := i + 2;
      } else {
        ConcatAssoc(out, [seg[i]], Unescape(seg, i + 1));
        out := out + [seg[i]];
        i := i + 1;
      }
    }
    assert out + [] == out;
    return Some(out);
  }

  // ---- splitting a stream at FENDs ----

  /** The complete, non-empty segments of a stream. */
  function Segments(s: seq<byte>): seq<seq<byte>>
    decreases |s|
  {
    var i := IndexOf(s, FEND);
    if i < 0 then [] else (if i > 0 then [s[..i]] else []) + Segments(s[i + 1..])
  }

  /** What follows the last FEND. */
  function Tail(s: seq<byte>): seq<byte>
    decreases |s|
  {
    var i := IndexOf(s, FEND);
    if i < 0 then s else Tail(s[i + 1..])
  }

  lemma NoCut(s: seq<byte>)
    requires FEND !in s
    ensures Segments(s) == [] && Tail(s) == s
  {
  }

  lemma SegmentCut(body: seq<byte>, rest: seq<byte>)
    requires FEND !in body
    ensures Segments(body + [FEND] + rest) == (if body == [] then [] else [body]) + Segments(rest)
    ensures Tail(body + [FEND] + rest) == Tail(rest)
  {
    hide IndexOf;
    var s := body + [FEND] + rest;
    IndexOfFirst(body, FEND, rest);
    assert s[..|body|] == body && s[|body| + 1..] == rest;
  }

  /** Splitting may stop after any byte and resume with only the tail remembered. */
  lemma {:induction false} SplitResumes(a: seq<byte>, b: seq<byte>)
    ensures Segments(a + b) == Segments(a) + Segments(Tail(a) + b)
    ensures Tail(a + b) == Tail(Tail(a) + b)
    decreases |a|
  {
    hide Segments, Tail, IndexOf;
    var i := IndexOf(a, FEND);
    if i < 0 {
      NoCut(a);
    } else {
      var body, rest := a[..i], a[i + 1..];
      assert a == body + [FEND] + rest;
      assert a + b == body + [FEND] + (rest + b);
      SegmentCut(body, rest);
      SegmentCut(body, rest + b);
      SplitResumes(rest, b);
      ConcatAssoc(if body == [] then [] else [body], Segments(rest), Segments(Tail(rest) + b));
    }
  }

  /** Cutting the first segment off leaves the segments still to come. */
  lemma CutFirst(done: seq<seq<byte>>, s: seq<byte>, i: nat)
    requires 0 < i < |s| && IndexOf(s, FEND) == i
    ensures (done + [s[..i]]) + Segments(s[i + 1..]) == done + Segments(s)
  {
    ConcatAssoc(done, [s[..i]], Segments(s[i + 1..]));
  }

  lemma CutEmpty(s: seq<byte>)
    requires s != [] && IndexOf(s, FEND) == 0
    ensures Segments(s[1..]) == Segments(s)
  {
    hide IndexOf;
  }

  lemma CutTail(s: seq<byte>, i: nat)
    requires i < |s| && IndexOf(s, FEND) == i
    ensures Tail(s[i + 1..]) == Tail(s)
  {
    hide IndexOf;
  }

  lemma CutNone(done: seq<seq<byte>>, s: seq<byte>)
    requires FEND !in s
    ensures done + Segments(s) == done && Tail(s) == s
  {
    NoCut(s);
  }

  function Kept(s: seq<byte>): (t: seq<byte>)
    ensures |t| <= MAX_FRAME_BYTES
  {
    if |Tail(s)| > MAX_FRAME_BYTES then [] else Tail(s)
  }

  method IndexByte(b: seq<byte>, c: byte) returns (r: int)
    ensures r == IndexOf(b, c)
  {
    for i := 0 to |b|
      invariant c !in b[..i]
    {
      if b[i] == c {
        IndexOfFirst(b[..i], c, b[i + 1..]);
        assert b == b[..i] + [c] + b[i + 1..];
        return i;
      }
    }
    assert b[..|b|] == b;
    return -1;
  }

  /** The splitter's buffer is a Go slice: a window of an array, whose capacity is what the
      array still holds from the start of the window. */
  class KissFrameSplitter {
    ghost var contents: seq<byte>

    var store: array<byte>
    var off: nat
    var len: nat

    ghost predicate Valid()
      reads this, store
    {
      && off + len <= store.Length
      && |contents| == len
      && forall k :: 0 <= k < len ==> contents[k] == store[off + k]
    }

    constructor ()
      ensures Valid() && contents == [] && fresh(store)
    {
      store := new byte[0];
      off, len, contents := 0, 0, [];
    }

    /** append: in place when the capacity suffices, into a larger array otherwise. */
    method Append(b: seq<byte>)
      requires Valid()
      modifies this, store
      ensures Valid() && (store == old(store) || fresh(store))
      ensures contents == old(contents) + b
    {
      if len + |b| <= store.Length - off {
        AppendInPlace(b);
      } else {
        var grown := new byte[2 * (len + |b|)];
        Fill(grown, store[off..off + len] + b);
        store, off, len, contents := grown, 0, len + |b|, contents + b;
      }
    }

    method AppendInPlace(b: seq<byte>)
      requires Valid() && off + len + |b| <= store.Length
      modifies this, store
      ensures Valid() && store == old(store)
      ensures contents == old(contents) + b
    {
      for i := 0 to |b|
        invariant store == old(store) && off == old(off) && len == old(len) && contents == old(contents)
        invariant forall k :: 0 <= k < len ==> store[off + k] == contents[k]
        invariant forall k :: 0 <= k < i ==> store[off + len + k] == b[k]
      {
        store[off + len + i] := b[i];
      }
      len, contents := len + |b|, contents + b;
    }

    /** bytesIndexByte over the window. */
    method NextFend() returns (r: int)
      requires Valid()
      ensures r == IndexOf(contents, FEND)
    {
      assert store[off..off + len] == contents;
      r := IndexByte(store[off..off + len], FEND);
    }

    method CopyOut(n: nat) returns (frame: seq<byte>)
      requires Valid() && n <= |contents|
      ensures frame == contents[..n]
    {
      frame := store[off..off + n];
    }

    static method Fill(target: array<byte>, content: seq<byte>)
      requires |content| <= target.Length
      modifies target
      ensures target[..|content|] == content
    {
      for i := 0 to |content|
        invariant target[..i] == content[..i]
      {
        target[i] := content[i];
      }
    }

    /** Moves the window past n bytes and reclaims the array when most of it is unused. */
    method Slide(n: nat)
      requires Valid() && n <= len
      modifies this
      ensures Valid() && (store == old(store) || fresh(store))
      ensures contents == old(contents)[n..]
    {
      off, len, contents := off + n, len - n, contents[n..];
      var cap := store.Length - off;
      if cap > 1024 && cap - len > cap / 2 {
        Compact();
      }
    }

    /** Copies the window down into an array with half the capacity to spare. */
    method Compact()
      requires Valid()
      modifies this
      ensures Valid() && fresh(store)
      ensures contents == old(contents) && store.Length == old(store.Length - off) / 2 + len
    {
      var cap := store.Length - off;
      var smaller := new byte[cap / 2 + len];
      Fill(smaller, store[off..off + len]);
      assert forall k :: 0 <= k < len ==> smaller[k] == smaller[..len][k];
      store, off := smaller, 0;
    }

    /** Feeds raw bytes: the complete segments come out, the tail stays unless it is too long. */
    method Push(b: seq<byte>) returns (frames: seq<seq<byte>>)
      requires Valid()
      modifies this, store
      ensures Valid() && (store == old(store) || fresh(store))
      ensures frames == Segments(old(contents) + b)
      ensures contents == Kept(old(contents) + b)
    {
      Append(b);
      frames := Drain();
    }

    /** Push's loop. */
    method Drain() returns (frames: seq<seq<byte>>)
      requires Valid()
      modifies this
      ensures Valid() && (store == old(store) || fresh(store))
      ensures frames == Segments(old(contents)) && contents == Kept(old(contents))
    {
      hide Segments, Tail, IndexOf;
      ghost var rest := contents;
      ghost var expected, end := Segments(rest), Tail(rest);
      frames := [];
      while true
        invariant Valid() && (store == old(store) || fresh(store))
        invariant contents == rest
        invariant frames + Segments(rest) == expected && Tail(rest) == end
        decreases |rest|
      {
        var i := NextFend();
        if i < 0 {
          CutNone(frames, rest);
          if len > MAX_FRAME_BYTES {
            Reset();
          }
          return;
        }
        if i > 0 {
          var frame := CopyOut(i);
          CutFirst(frames, rest, i);
          frames := frames + [frame];
        } else {
          CutEmpty(rest);
        }
        CutTail(rest, i);
        Slide(i + 1);
        rest := rest[i + 1..];
      }
    }

    method Reset()
      requires Valid()
      modifies this
      ensures Valid() && store == old(store) && contents == []
    {
      len, contents := 0, [];
    }
  }

  // ---- whole sessions: a fresh splitter fed chunk after chunk ----

  function Flat(chunks: seq<seq<byte>>): seq<byte> {
    if chunks == [] then [] else Flat(chunks[..|chunks| - 1]) + chunks[|chunks| - 1]
  }

  /** The buffer after pushing the chunks one by one. */
  function Buffered(chunks: seq<seq<byte>>): seq<byte> {
    if chunks == [] then [] else Kept(Buffered(chunks[..|chunks| - 1]) + chunks[|chunks| - 1])
  }

  /** Everything the pushes returned, in order. */
  function Emitted(chunks: seq<seq<byte>>): seq<seq<byte>> {
    if chunks == [] then []
    else
      var front := chunks[..|chunks| - 1];
      Emitted(front) + Segments(Buffered(front) + chunks[|chunks| - 1])
  }

  function Stream(payloads: seq<seq<byte>>): seq<byte> {
    if payloads == [] then [] else Framed(payloads[0]) + Stream(payloads[1..])
  }

  function DecodeAll(segs: seq<seq<byte>>): seq<Option<seq<byte>>> {
    seq(|segs|, i requires 0 <= i < |segs| => DecodeSegment(segs[i]))
  }

  function Present(payloads: seq<seq<byte>>): seq<Option<seq<byte>>> {
    seq(|payloads|, i requires 0 <= i < |payloads| => Some(payloads[i]))
  }

  /** The type byte and the escaped payload fit the splitter's limit. */
  predicate Fits(payload: seq<byte>) {
    1 <= |payload| && 1 + |Escape(payload)| <= MAX_FRAME_BYTES
  }

  /** The overflow reset fired on some push. */
  predicate Overflowed(chunks: seq<seq<byte>>) {
    exists k {:trigger chunks[..k]} :: 0 <= k < |chunks| &&
      |Tail(Buffered(chunks[..k]) + chunks[k])| > MAX_FRAME_BYTES
  }

  /** As long as no tail of the received prefix is over the limit, chunking is invisible. */
  lemma {:induction false} ChunkingInvisible(chunks: seq<seq<byte>>)
    requires forall n :: 0 <= n <= |Flat(chunks)| ==> |Tail(Flat(chunks)[..n])| <= MAX_FRAME_BYTES
    ensures Emitted(chunks) == Segments(Flat(chunks))
    ensures Buffered(chunks) == Tail(Flat(chunks))
    ensures !Overflowed(chunks)
    decreases |chunks|
  {
    if chunks != [] {
      var front, last := chunks[..|chunks| - 1], chunks[|chunks| - 1];
      var whole, received := Flat(chunks), Flat(front);
      forall n | 0 <= n <= |received| ensures |Tail(received[..n])| <= MAX_FRAME_BYTES {
        assert whole[..n] == received[..n];
      }
      ChunkingInvisible(front);
      SplitResumes(received, last);
      assert whole[..|whole|] == whole;
      forall k | 0 <= k < |chunks|
        ensures |Tail(Buffered(chunks[..k]) + chunks[k])| <= MAX_FRAME_BYTES
      {
        if k < |front| {
          assert chunks[..k] == front[..k] && chunks[k] == front[k];
        } else {
          assert chunks[..k] == front;
        }
      }
    }
  }

  /** One frame at the head of a stream is cut off as one segment. */
  lemma FrameFirst(payload: seq<byte>, rest: seq<byte>)
    ensures Segments(Framed(payload) + rest) == [[0] + Escape(payload)] + Segments(rest)
    ensures Tail(Framed(payload) + rest) == Tail(rest)
  {
    hide Segments, Tail, Escape;
    EscapeShape(payload);
    var body := [0 as byte] + Escape(payload);
    assert Framed(payload) + rest == [] + [FEND] + (body + [FEND] + rest);
    SegmentCut([], body + [FEND] + rest);
    SegmentCut(body, rest);
  }

  lemma {:induction false} StreamSegments(payloads: seq<seq<byte>>)
    ensures |Segments(Stream(payloads))| == |payloads|
    ensures forall i :: 0 <= i < |payloads| ==>
      Segments(Stream(payloads))[i] == [0] + Escape(payloads[i])
    ensures Tail(Stream(payloads)) == []
  {
    hide Segments, Tail, Escape, Framed;
    NoCut([]);
    if payloads != [] {
      FrameFirst(payloads[0], Stream(payloads[1..]));
      StreamSegments(payloads[1..]);
    }
  }

  /** In the middle of a frame the tail is what has arrived since its opening FEND. */
  lemma FramePrefixTail(payload: seq<byte>, n: nat)
    requires 0 < n < |Framed(payload)|
    ensures Tail(Framed(payload)[..n]) == ([0] + Escape(payload))[..n - 1]
  {
    EscapeShape(payload);
    var part := ([0 as byte] + Escape(payload))[..n - 1];
    assert Framed(payload)[..n] == [] + [FEND] + part;
    SegmentCut([], part);
    assert FEND !in part;
  }

  lemma {:induction false} StreamTails(payloads: seq<seq<byte>>, n: nat)
    requires forall f :: f in payloads ==> Fits(f)
    requires n <= |Stream(payloads)|
    ensures |Tail(Stream(payloads)[..n])| <= MAX_FRAME_BYTES
    decreases |payloads|
  {
    if payloads != [] && n > 0 {
      var f, rest := payloads[0], Stream(payloads[1..]);
      assert Fits(f);
      if n >= |Framed(f)| {
        var m := n - |Framed(f)|;
        assert Stream(payloads)[..n] == Framed(f) + rest[..m];
        FrameFirst(f, rest[..m]);
        StreamTails(payloads[1..], m);
      } else {
        assert Stream(payloads)[..n] == Framed(f)[..n];
        FramePrefixTail(f, n);
      }
    }
  }

  /** However a stream of fitting frames is cut up, exactly these frames come out, in order;
      the reset never fires and nothing stays behind. */
  lemma StreamDelivered(payloads: seq<seq<byte>>, chunks: seq<seq<byte>>)
    requires forall f :: f in payloads ==> Fits(f)
    requires Flat(chunks) == Stream(payloads)
    ensures DecodeAll(Emitted(chunks)) == Present(payloads)
    ensures Buffered(chunks) == []
    ensures !Overflowed(chunks)
  {
    forall n | 0 <= n <= |Flat(chunks)| ensures |Tail(Flat(chunks)[..n])| <= MAX_FRAME_BYTES {
      StreamTails(payloads, n);
    }
    ChunkingInvisible(chunks);
    StreamSegments(payloads);
    SegmentsDecode(payloads, Emitted(chunks));
  }

  lemma SegmentsDecode(payloads: seq<seq<byte>>, segs: seq<seq<byte>>)
    requires forall f :: f in payloads ==> f != []
    requires |segs| == |payloads|
    requires forall i :: 0 <= i < |segs| ==> segs[i] == [0] + Escape(payloads[i])
    ensures DecodeAll(segs) == Present(payloads)
  {
    forall i | 0 <= i < |segs| ensures DecodeSegment(segs[i]) == Some(payloads[i]) {
      var f := payloads[i];
      assert f in payloads;
      EscapeShape(f);
      EscapeRoundTrip([0], f);
    }
  }

  lemma FitsExact(payload: seq<byte>)
    ensures Fits(payload) <==> payload != [] && |Escape(payload)| <= 4095
  {
  }

  /** Frames of 1 to 2047 bytes fit whatever they contain. */
  lemma ShortFramesFit(payload: seq<byte>)
    requires 1 <= |payload| <= 2047
    ensures Fits(payload)
  {
    EscapeShape(payload);
  }

  /** The limit is exact: a frame survives every way of cutting it up if and only if it fits. */
  lemma DeliveryExact(payload: seq<byte>)
    ensures Fits(payload) <==>
      forall chunks {:trigger Emitted(chunks)} ::
        Flat(chunks) == Framed(payload) ==> DecodeAll(Emitted(chunks)) == [Some(payload)]
  {
    if Fits(payload) {
      assert Stream([payload]) == Framed(payload) + Stream([]) == Framed(payload);
      assert Present([payload]) == [Some(payload)];
      forall chunks | Flat(chunks) == Framed(payload)
        ensures DecodeAll(Emitted(chunks)) == [Some(payload)]
      {
        StreamDelivered([payload], chunks);
      }
    } else {
      LateFendLosesFrame(payload);
    }
  }

  /** A frame that does not fit is lost when its closing FEND arrives in a chunk of its own. */
  lemma LateFendLosesFrame(payload: seq<byte>)
    requires !Fits(payload)
    ensures var chunks := [[FEND, 0] + Escape(payload), [FEND]];
      Flat(chunks) == Framed(payload) && DecodeAll(Emitted(chunks)) != [Some(payload)]
  {
    hide Segments, Tail, IndexOf, Unescape, Emitted, Flat;
    EscapeShape(payload);
    var body := [0 as byte] + Escape(payload);
    var first := [FEND, 0] + Escape(payload);
    var chunks := [first, [FEND]];
    assert first == [] + [FEND] + body;
    SegmentCut([], body);
    NoCut([]);
    NoCut(body);
    assert Segments(first) == [] && Tail(first) == body;
    OneByOne(first, [FEND]);
    if payload == [] {
      SegmentCut(body, []);
      assert body + [FEND] + [] == body + [FEND];
      assert Emitted(chunks) == [body] && body == [0];
      assert DecodeAll([body])[0] == None;
    } else {
      SegmentCut([], []);
      assert [] + [FEND] + [] == [] + [FEND];
      assert |Emitted(chunks)| == 0;
    }
  }

  lemma OneByOne(first: seq<byte>, second: seq<byte>)
    ensures Flat([first, second]) == first + second
    ensures Emitted([first, second]) == Segments(first) + Segments(Kept(first) + second)
  {
    hide Segments, Kept;
    var chunks := [first, second];
    assert chunks[..1] == [first] && [first][..0] == [];
    assert [] + first == first;
    assert Buffered([first]) == Kept(Buffered([]) + first) == Kept(first);
    var out := Segments(first);
    assert [] + out == out;
    assert Emitted([first]) == Emitted([]) + Segments(Buffered([]) + first) == out;
    assert Emitted(chunks) == Emitted([first]) + Segments(Buffered([first]) + second);
    assert Flat([first]) == first;
  }
}
