/** A pair of packets for which the spacing of transmissions fails: the sender of one is not
    well-formed, and is put right when the packet is repeated. */
module CarelessSender {
  import opened GoText
  import opened Ax25
  import opened Gate
  import opened Content
  import opened SpacingLimits
  import LoopFreedom

  /** A frame whose sender reads "AB-03", its dash and digits standing in the callsign characters. */
  const CARELESS: seq<byte> := DESTINATION + SENDER + WIDE_HOP + [0x03, 0xF0] + []

  const DESTINATION: seq<byte> := [130, 160, 164, 142, 158, 64, 0x60]
  const SENDER: seq<byte> := [130, 132, 90, 96, 102, 64, 0x60]
  const WIDE_HOP: seq<byte> := [174, 146, 136, 138, 100, 64, 0x63]

  lemma CarelessFields()
    ensures DecodeFrame(CARELESS) == Ok(Fields("AB-03", "APRGO", ["WIDE2-1"], []))
  {
    hide CallText, BaseCall, ValidBaseCall, EndsAddress, ReadHop, DecodeFrame;
    CarelessTexts(DESTINATION, SENDER, WIDE_HOP);
    OneHop(DESTINATION, SENDER, WIDE_HOP, Hop("WIDE2-1", true, true));
  }

  lemma CarelessTexts(d: seq<byte>, s: seq<byte>, hop: seq<byte>)
    requires d == [130, 160, 164, 142, 158, 64, 0x60] && s == [130, 132, 90, 96, 102, 64, 0x60]
    requires hop == [174, 146, 136, 138, 100, 64, 0x63]
    ensures CallText(d) == "APRGO" && CallText(s) == "AB-03"
    ensures !EndsAddress(d) && !EndsAddress(s) && ReadHop(hop) == Hop("WIDE2-1", true, true)
    ensures ValidBaseCall(BaseCall("APRGO")) && ValidBaseCall(BaseCall("AB-03"))
  {
    hide ValidBaseCall, BaseCall, CallText, WellFormedCall, Itoa;
    DestinationText(d);
    SenderText(s);
    HopReadsWide(hop);
    WellFormedOrNot();
  }

  lemma HopReadsWide(hop: seq<byte>)
    requires hop == [174, 146, 136, 138, 100, 64, 0x63]
    ensures ReadHop(hop) == Hop("WIDE2-1", true, true)
  {
    hide CallText, ValidBaseCall, BaseCall;
    WideText(hop);
    WideBase();
  }

  lemma WideText(hop: seq<byte>)
    requires hop == [174, 146, 136, 138, 100, 64, 0x63]
    ensures CallText(hop) == "WIDE2-1"
  {
    hide CallText;
    PaddedText(hop, "WIDE2");
    assert WithSsid("WIDE2", 1) == "WIDE2" + "-" + Itoa(1);
    assert Itoa(1) == "1";
  }

  lemma WideBase()
    ensures ValidBaseCall(BaseCall("WIDE2-1"))
  {
    hide WellFormedCall, ValidBaseCall, BaseCall;
    LoopFreedom.WideFacts();
    WellFormedBase("WIDE2-1");
  }

  /** The same frame from a station that is AB-3. */
  const ORDERLY: Fields := Fields("AB-3", "APRGO", ["WIDE2-1"], [])

  const FULL_DIGIPEATER: Config :=
    Config("AA", true, false, true, false, false, false, false, false, [], "", "")

  lemma SameAddress()
    ensures SplitCallSsid("AB-03") == Ok(Address("AB", 3)) && SplitCallSsid("AB-3") == Ok(Address("AB", 3))
    ensures WellFormedCall("AB-3")
  {
    hide IndexOf, TrimSpace, Numeral;
    assert "AB-03" == "AB" + ['-'] + "03" && "AB-3" == "AB" + ['-'] + "3";
    IndexOfFirst("AB", '-', "03");
    IndexOfFirst("AB", '-', "3");
    assert "AB-03"[..2] == "AB" && "AB-03"[3..] == "03" && "AB-3"[..2] == "AB" && "AB-3"[3..] == "3";
    TrimSpaceKeeps("AB");
    NumeralsOfThree();
  }

  lemma NumeralsOfThree()
    ensures Atoi("03") == Some(3) && Atoi("3") == Some(3)
  {
    assert "03"[..1] == "0" && "0"[..0] == "" && "3"[..0] == "";
    assert Numeral("") == 0;
    assert Numeral("0") == 0 && Numeral("3") == 3;
    assert Numeral("03") == 3;
  }

  lemma DigipeaterPlan(src: string)
    requires Upper(src) != "AA"
    ensures Plan(src, ["WIDE2-1"], FULL_DIGIPEATER) == Some(Relay(["AA*"], false))
  {
    hide Upper, ParseFlood, FindCall, FirstUnused, IsUsed, Bare;
    var path := ["WIDE2-1"];
    LastHop();
    assert path[0] == "WIDE2-1";
    assert FindCall(path, "AA") < 0 && FirstUnused(path) == 0;
    var f := Flood("WIDE", true, Counts(2, 1));
    TokenRead();
    assert EqualFold(src, "AA") <==> Upper(src) == Upper("AA");
    DigipeaterName();
    assert FloodPath(path, 0, "AA", f) == path[0 := "AA" + "*"];
    assert path[0 := "AA" + "*"] == ["AA*"] by { assert "AA" + "*" == "AA*"; }
  }

  lemma DigipeaterName()
    ensures Upper("AA") == "AA"
  {
  }

  lemma TokenRead()
    ensures ParseFlood("WIDE2-1", []) == Some(Flood("WIDE", true, Counts(2, 1)))
  {
    hide ParseWide;
    LoopFreedom.WideFacts();
  }

  lemma LastHop()
    ensures !IsUsed("WIDE2-1") && Bare("WIDE2-1") == "WIDE2-1" && Upper("WIDE2-1") != "AA"
  {
    LoopFreedom.WideFacts();
  }

  /** The careless frame and the orderly one are repeated as the same bytes, and can follow each
      other at once, although each alone is repeated only every 25 seconds. */
  lemma CarelessPair() returns (orderly: seq<byte>)
    ensures DecodeFrame(CARELESS).Ok? && DecodeFrame(orderly) == Ok(ORDERLY)
    ensures Repeated(CARELESS, FULL_DIGIPEATER).Some?
    ensures Repeated(CARELESS, FULL_DIGIPEATER) == Repeated(orderly, FULL_DIGIPEATER)
    ensures !AlwaysSpaced(CARELESS, orderly) && !AlwaysSpaced(orderly, CARELESS)
  {
    hide DecodeFrame, EncodeFrame, SplitCallSsid, WellFormedCall, Plan, Upper, AlwaysSpaced, KeyOf, Bare, Repeated;
    CarelessFields();
    orderly := OrderlyFrame();
    AlikeOnAir();
    LongerThanTwo("AB-03");
    LongerThanTwo("AB-3");
    DigipeaterPlan("AB-03");
    DigipeaterPlan("AB-3");
    RelayedAs(CARELESS);
    RelayedAs(orderly);
    SameAddress();
    PlainCalls();
    WellFormedOrNot();
    SpacedIffWellFormed(CARELESS, FULL_DIGIPEATER, orderly, FULL_DIGIPEATER);
  }

  lemma OrderlyFrame() returns (orderly: seq<byte>)
    ensures DecodeFrame(orderly) == Ok(ORDERLY)
  {
    hide DecodeFrame, EncodeFrame, SplitCallSsid, WellFormedCall, Bare;
    SameAddress();
    LoopFreedom.WideFacts();
    LastHop();
    assert WellFormedFields(ORDERLY);
    EncodableFields(ORDERLY);
    orderly := EncodeFrame(ORDERLY.src, ORDERLY.dest, ORDERLY.path, ORDERLY.info).value;
  }

  lemma LongerThanTwo(c: string)
    requires |c| > 2
    ensures Upper(c) != "AA"
  {
  }

  lemma AlikeOnAir()
    ensures EncodeFrame("AB-03", "APRGO", ["AA*"], []).Ok?
    ensures EncodeFrame("AB-03", "APRGO", ["AA*"], []) == EncodeFrame("AB-3", "APRGO", ["AA*"], [])
  {
    hide SplitCallSsid, EncodeFrame;
    SameAddress();
    Sendable();
    EncodeSucceeds("AB-03", "APRGO", ["AA*"], []);
    SameEncoding("AB-03", "AB-3", "APRGO", ["AA*"]);
  }

  lemma Sendable()
    ensures SplitCallSsid("APRGO").Ok? && EncodablePath(["AA*"])
  {
    hide SplitCallSsid, WellFormedCall, IsUsed, Bare, Canon;
    PlainCalls();
    CanonFixpoints("APRGO");
    CanonFixpoints("AA");
    MarkedCall("AA");
    assert "AA" + "*" == "AA*";
  }

  lemma PlainCalls()
    ensures WellFormedCall("APRGO") && WellFormedCall("AA")
  {
    hide WellFormedCall;
    LoopFreedom.PlainCall("APRGO");
    LoopFreedom.PlainCall("AA");
  }

  /** The encoder sees of a sender only its address. */
  lemma SameEncoding(a: string, b: string, dest: string, path: seq<string>)
    requires SplitCallSsid(a) == SplitCallSsid(b)
    ensures EncodeFrame(a, dest, path, []) == EncodeFrame(b, dest, path, [])
  {
    hide SplitCallSsid, Collect, HopFields, AddressField;
  }

  lemma RelayedAs(raw: seq<byte>)
    requires DecodeFrame(raw).Ok?
    requires var f := DecodeFrame(raw).value;
      && Plan(f.src, f.path, FULL_DIGIPEATER) == Some(Relay(["AA*"], false))
      && EncodeFrame(f.src, f.dest, ["AA*"], f.info).Ok?
    ensures var f := DecodeFrame(raw).value;
      Repeated(raw, FULL_DIGIPEATER) == Some(RelayRF(EncodeFrame(f.src, f.dest, ["AA*"], f.info).value, false))
  {
    hide DecodeFrame, EncodeFrame, Plan;
  }
}
