/** The whole radio link: packets encoded, framed for the TNC, delivered in arbitrary pieces,
    split, unescaped and decoded. */
module Link {
  import opened GoText
  import opened Ax25
  import Kiss

  /** A packet handed to the encoder. */
  datatype Outgoing = Outgoing(src: string, dest: string, path: seq<string>, info: seq<byte>)

  /** The packet can be encoded and, escaped, fits the splitter's limit. */
  predicate Sendable(p: Outgoing) {
    match EncodeFrame(p.src, p.dest, p.path, p.info)
    case Err(_) => false
    case Ok(b) => Kiss.Fits(b)
  }

  function FrameOf(p: Outgoing): seq<byte> {
    match EncodeFrame(p.src, p.dest, p.path, p.info)
    case Err(_) => []
    case Ok(b) => b
  }

  function Frames(packets: seq<Outgoing>): (r: seq<seq<byte>>)
    ensures |r| == |packets|
  {
    seq(|packets|, i requires 0 <= i < |packets| => FrameOf(packets[i]))
  }

  /** The packet as it is received. */
  predicate Received(f: Fields, p: Outgoing) {
    && SplitCallSsid(p.src).Ok? && SplitCallSsid(p.dest).Ok? && EncodablePath(p.path)
    && f == Fields(Canon(p.src), Canon(p.dest), CanonPath(p.path), p.info)
  }

  /** Whatever packets are sent and however the byte stream is cut into pieces, the receiver
      decodes exactly these packets, in order. */
  lemma LinkDelivers(packets: seq<Outgoing>, chunks: seq<seq<byte>>)
    requires forall i :: 0 <= i < |packets| ==> Sendable(packets[i])
    requires Kiss.Flat(chunks) == Kiss.Stream(Frames(packets))
    ensures |Kiss.Emitted(chunks)| == |packets|
    ensures forall i :: 0 <= i < |packets| ==>
      && Kiss.DecodeSegment(Kiss.Emitted(chunks)[i]).Some?
      && DecodeFrame(Kiss.DecodeSegment(Kiss.Emitted(chunks)[i]).value).Ok?
      && Received(DecodeFrame(Kiss.DecodeSegment(Kiss.Emitted(chunks)[i]).value).value, packets[i])
  {
    hide EncodeFrame, DecodeFrame, Kiss.DecodeSegment, Kiss.Emitted, Kiss.Flat, Kiss.Stream, Kiss.Buffered, Kiss.Overflowed,
         Kiss.Fits, SplitCallSsid, Canon, EncodablePath, CanonPath;
    var frames := Frames(packets);
    forall f | f in frames ensures Kiss.Fits(f) {
      var i :| 0 <= i < |frames| && frames[i] == f;
      assert Sendable(packets[i]);
    }
    Kiss.StreamDelivered(frames, chunks);
    var got := Kiss.Emitted(chunks);
    assert |Kiss.DecodeAll(got)| == |frames|;
    forall i | 0 <= i < |packets|
      ensures Kiss.DecodeSegment(got[i]) == Some(frames[i])
      ensures DecodeFrame(frames[i]).Ok? && Received(DecodeFrame(frames[i]).value, packets[i])
    {
      assert Kiss.DecodeAll(got)[i] == Kiss.Present(frames)[i];
      assert Sendable(packets[i]);
      var p := packets[i];
      FrameRoundTrip(p.src, p.dest, p.path, p.info);
    }
  }
}
