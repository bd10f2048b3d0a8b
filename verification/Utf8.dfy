/** Cleaning free text for display: every byte string becomes well-formed UTF-8 without control
    characters. */
module Utf8 {
  import opened GoText

  const REPLACEMENT: int := 0xFFFD

  // ---- the syntax of section 4 of RFC 3629 ----

  predicate IsTail(b: byte) { 0x80 <= b <= 0xBF }

  /** The multi-octet forms of a character. */
  predicate Form2(a: byte, b: byte) { 0xC2 <= a <= 0xDF && IsTail(b) }

  predicate Form3(a: byte, b: byte, c: byte) {
    && IsTail(c)
    && ( || (a == 0xE0 && 0xA0 <= b <= 0xBF)
         || (0xE1 <= a <= 0xEC && IsTail(b))
         || (a == 0xED && 0x80 <= b <= 0x9F)
         || (0xEE <= a <= 0xEF && IsTail(b)))
  }

  predicate Form4(a: byte, b: byte, c: byte, d: byte) {
    && IsTail(c) && IsTail(d)
    && ( || (a == 0xF0 && 0x90 <= b <= 0xBF)
         || (0xF1 <= a <= 0xF3 && IsTail(b))
         || (a == 0xF4 && 0x80 <= b <= 0x8F))
  }

  /** One character: an octet below 0x80, or one of the multi-octet forms. */
  predicate IsChar(u: seq<byte>) {
    || (|u| == 1 && u[0] <= 0x7F)
    || (|u| == 2 && Form2(u[0], u[1]))
    || (|u| == 3 && Form3(u[0], u[1], u[2]))
    || (|u| == 4 && Form4(u[0], u[1], u[2], u[3]))
  }

  function Scalar(u: seq<byte>): int
    requires IsChar(u)
  {
    if |u| == 1 then u[0] as int
    else if |u| == 2 then Value2(u[0], u[1])
    else if |u| == 3 then Value3(u[0], u[1], u[2])
    else Value4(u[0], u[1], u[2], u[3])
  }

  function Value2(a: byte, b: byte): int { (a as int - 0xC0) * 64 + Low(b) }

  function Value3(a: byte, b: byte, c: byte): int { (a as int - 0xE0) * 4096 + Low(b) * 64 + Low(c) }

  function Value4(a: byte, b: byte, c: byte, d: byte): int {
    (a as int - 0xF0) * 262144 + Low(b) * 4096 + Low(c) * 64 + Low(d)
  }

  /** The payload of a tail octet. */
  function Low(b: byte): int { b as int - 0x80 }

  /** A text is a row of characters. */
  ghost predicate IsText(s: seq<byte>, chars: seq<seq<byte>>)
  {
    && (forall i :: 0 <= i < |chars| ==> IsChar(chars[i]))
    && s == Joined(chars)
  }

  function Joined(chars: seq<seq<byte>>): seq<byte> {
    if chars == [] then [] else chars[0] + Joined(chars[1..])
  }

  predicate IsControl(r: int) {
    r < 0x20 || r == 0x7F || 0x80 <= r <= 0x9F
  }

  /** A character that may stay. */
  predicate IsFine(u: seq<byte>) {
    IsChar(u) && !IsControl(Scalar(u)) && Scalar(u) != REPLACEMENT
  }

  // ---- decoding as Go's utf8 package does ----

  datatype Rune = Rune(value: int, size: nat)

  const BAD: Rune := Rune(REPLACEMENT, 1)

  /** The length a lead byte announces, 0 if it cannot start a character. */
  function LeadSize(c: byte): nat {
    if c <= 0x7F then 1
    else if 0xC2 <= c <= 0xDF then 2
    else if 0xE0 <= c <= 0xEF then 3
    else if 0xF0 <= c <= 0xF4 then 4
    else 0
  }

  /** The range that the second byte must lie in. */
  function AcceptLow(c: byte): byte { if c == 0xE0 then 0xA0 else if c == 0xF0 then 0x90 else 0x80 }

  function AcceptHigh(c: byte): byte { if c == 0xED then 0x9F else if c == 0xF4 then 0x8F else 0xBF }

  function DecodeRune(s: seq<byte>): (r: Rune)
    requires s != []
    ensures 1 <= r.size <= |s|
  {
    var n := LeadSize(s[0]);
    if n == 0 || n > |s| then BAD
    else if n == 1 then Rune(s[0] as int, 1)
    else if !(AcceptLow(s[0]) <= s[1] <= AcceptHigh(s[0])) then BAD
    else if n == 2 then Rune(Bits(s[0], 32) * 64 + Bits(s[1], 64), 2)
    else if !IsTail(s[2]) then BAD
    else if n == 3 then Rune(Bits(s[0], 16) * 4096 + Bits(s[1], 64) * 64 + Bits(s[2], 64), 3)
    else if !IsTail(s[3]) then BAD
    else Rune(Bits(s[0], 8) * 262144 + Bits(s[1], 64) * 4096 + Bits(s[2], 64) * 64 + Bits(s[3], 64), 4)
  }

  /** The low bits of a byte. */
  function Bits(b: byte, m: byte): int
    requires m > 0
  {
    (b % m) as int
  }

  lemma TailBits(b: byte)
    requires IsTail(b)
    ensures Bits(b, 64) == Low(b)
  {
  }

  lemma LeadBits(b: byte)
    ensures 0xC0 <= b <= 0xDF ==> Bits(b, 32) == b as int - 0xC0
    ensures 0xE0 <= b <= 0xEF ==> Bits(b, 16) == b as int - 0xE0
    ensures 0xF0 <= b <= 0xF7 ==> Bits(b, 8) == b as int - 0xF0
  {
  }

  /** The second-byte ranges are those of the standard's forms. */
  lemma AcceptForms(a: byte, b: byte, c: byte, d: byte)
    ensures Form2(a, b) <==> LeadSize(a) == 2 && AcceptLow(a) <= b <= AcceptHigh(a)
    ensures Form3(a, b, c) <==> LeadSize(a) == 3 && AcceptLow(a) <= b <= AcceptHigh(a) && IsTail(c)
    ensures Form4(a, b, c, d) <==> LeadSize(a) == 4 && AcceptLow(a) <= b <= AcceptHigh(a) && IsTail(c) && IsTail(d)
    ensures AcceptLow(a) <= b <= AcceptHigh(a) ==> IsTail(b)
  {
  }

  /** Decoding reads exactly the standard's characters at the front of a text. */
  lemma DecodeHead(u: seq<byte>, rest: seq<byte>)
    requires IsChar(u)
    ensures u + rest != [] && DecodeRune(u + rest) == Rune(Scalar(u), |u|)
  {
    hide Form2, Form3, Form4, AcceptLow, AcceptHigh, Bits, IsTail, Low;
    var s := u + rest;
    assert s[0] == u[0];
    LeadBits(u[0]);
    if |u| == 1 {
      SmallLead(u[0]);
    } else if |u| == 2 {
      assert s[1] == u[1];
      AcceptForms(u[0], u[1], 0, 0);
      TailBits(u[1]);
    } else if |u| == 3 {
      assert s[1] == u[1] && s[2] == u[2];
      AcceptForms(u[0], u[1], u[2], 0);
      TailBits(u[1]);
      TailBits(u[2]);
    } else {
      assert s[1] == u[1] && s[2] == u[2] && s[3] == u[3];
      AcceptForms(u[0], u[1], u[2], u[3]);
      TailBits(u[1]);
      TailBits(u[2]);
      TailBits(u[3]);
    }
  }

  lemma SmallLead(a: byte)
    requires a <= 0x7F
    ensures LeadSize(a) == 1
  {
  }

  /** What is not refused is a character of the standard. */
  lemma DecodeAccepts(s: seq<byte>)
    requires s != [] && DecodeRune(s) != BAD
    ensures IsChar(s[..DecodeRune(s).size])
  {
    hide Form2, Form3, Form4, AcceptLow, AcceptHigh, Bits, IsTail;
    var n := DecodeRune(s).size;
    AcceptForms(s[0], if n > 1 then s[1] else 0, if n > 2 then s[2] else 0, if n > 3 then s[3] else 0);
  }

  lemma NotBad(u: seq<byte>)
    requires IsChar(u)
    ensures Rune(Scalar(u), |u|) != BAD
  {
  }

  /** Decoding accepts exactly the characters of the standard, with their scalar values. */
  lemma DecodeExact(s: seq<byte>)
    requires s != []
    ensures var r := DecodeRune(s);
      && (r != BAD ==> IsChar(s[..r.size]) && r.value == Scalar(s[..r.size]))
      && (r == BAD ==> forall k :: 1 <= k <= |s| ==> !IsChar(s[..k]))
  {
    hide IsChar, Scalar, DecodeRune;
    if DecodeRune(s) != BAD {
      var n := DecodeRune(s).size;
      DecodeAccepts(s);
      assert s == s[..n] + s[n..];
      DecodeHead(s[..n], s[n..]);
    } else if k :| 1 <= k <= |s| && IsChar(s[..k]) {
      assert s == s[..k] + s[k..];
      DecodeHead(s[..k], s[k..]);
      NotBad(s[..k]);
    }
  }

  // ---- sanitizing ----

  /** The two bytes of a Latin-1 character. */
  function Latin1(c: byte): seq<byte>
    requires c >= 0x80
  {
    [0xC0 + c / 64, 0x80 + c % 64]
  }

  /** What one step writes, and how many bytes it consumes. */
  datatype Step = Step(out: seq<byte>, size: nat)

  function FirstStep(s: seq<byte>): (r: Step)
    requires s != []
    ensures 1 <= r.size <= |s|
  {
    var c := s[0];
    if c < 0x80 then Step(if c >= 0x20 && c != 0x7F then [c] else [], 1)
    else
      var r := DecodeRune(s);
      if r.value != REPLACEMENT && r.size > 1 then Step(if IsControl(r.value) then [] else s[..r.size], r.size)
      else Step(if c >= 0xA0 then Latin1(c) else [], 1)
  }

  function Sanitized(s: seq<byte>): seq<byte> {
    if s == [] then [] else FirstStep(s).out + Sanitized(s[FirstStep(s).size..])
  }

  method SanitizeText(s: seq<byte>) returns (b: seq<byte>)
    ensures b == Sanitized(s)
  {
    hide FirstStep;
    b := [];
    var i := 0;
    while i < |s|
      invariant i <= |s|
      invariant b + Sanitized(s[i..]) == Sanitized(s)
      decreases |s| - i
    {
      var out, size := SanitizeOne(s[i..]);
      assert s[i..][size..] == s[i + size..];
      ConcatAssoc(b, out, Sanitized(s[i + size..]));
      b := b + out;
      i := i + size;
    }
    assert b + [] == b;
  }

  /** The body of the loop: what is written for the character at hand, and its length. */
  method SanitizeOne(s: seq<byte>) returns (out: seq<byte>, size: nat)
    requires s != []
    ensures Step(out, size) == FirstStep(s)
  {
    hide DecodeRune;
    var c := s[0];
    if c < 0x80 {
      return if c >= 0x20 && c != 0x7F then [c] else [], 1;
    }
    var r := DecodeRune(s);
    if r.value != REPLACEMENT && r.size > 1 {
      return if IsControl(r.value) then [] else s[..r.size], r.size;
    }
    if c >= 0xA0 {
      return [0xC0 + c / 64, 0x80 + c % 64], 1;
    }
    return [], 1;
  }

  /** The text is a row of fine characters. */
  predicate Clean(s: seq<byte>) {
    s == [] ||
    (var n := DecodeRune(s).size;
     IsFine(s[..n]) && Clean(s[n..]))
  }

  lemma CleanCons(u: seq<byte>, rest: seq<byte>)
    requires IsFine(u) && Clean(rest)
    ensures Clean(u + rest)
  {
    hide IsChar, Scalar, DecodeRune;
    DecodeHead(u, rest);
    assert (u + rest)[..|u|] == u && (u + rest)[|u|..] == rest;
  }

  lemma StepFine(s: seq<byte>)
    requires s != []
    ensures FirstStep(s).out == [] || IsFine(FirstStep(s).out)
  {
    DecodeExact(s);
  }

  /** Whatever comes in, what goes out is clean. */
  lemma {:induction false} SanitizedIsClean(s: seq<byte>)
    ensures Clean(Sanitized(s))
  {
    hide FirstStep, Clean, IsFine;
    if s == [] {
      CleanEmpty();
    } else {
      var step, rest := FirstStep(s), Sanitized(s[FirstStep(s).size..]);
      StepFine(s);
      SanitizedIsClean(s[step.size..]);
      if step.out == [] {
        assert step.out + rest == rest;
      } else {
        CleanCons(step.out, rest);
      }
    }
  }

  lemma CleanEmpty()
    ensures Clean([])
  {
  }

  lemma FineStep(s: seq<byte>)
    requires s != [] && IsFine(s[..DecodeRune(s).size])
    ensures FirstStep(s) == Step(s[..DecodeRune(s).size], DecodeRune(s).size)
  {
    DecodeExact(s);
  }

  lemma {:induction false} CleanUnchanged(s: seq<byte>)
    requires Clean(s)
    ensures Sanitized(s) == s
  {
    hide FirstStep, DecodeRune, IsFine;
    if s != [] {
      var n := DecodeRune(s).size;
      FineStep(s);
      CleanUnchanged(s[n..]);
      assert s == s[..n] + s[n..];
    }
  }

  /** Sanitizing changes nothing exactly in clean text. */
  lemma SanitizeExact(s: seq<byte>)
    ensures Sanitized(s) == s <==> Clean(s)
  {
    hide Sanitized, Clean;
    SanitizedIsClean(s);
    if Clean(s) {
      CleanUnchanged(s);
    }
  }

  lemma SanitizeIdempotent(s: seq<byte>)
    ensures Sanitized(Sanitized(s)) == Sanitized(s)
  {
    hide Sanitized, Clean;
    SanitizedIsClean(s);
    CleanUnchanged(Sanitized(s));
  }

  /** Clean text is well-formed by the standard's syntax, and none of its characters is a
      control or the replacement character. */
  lemma {:induction false} CleanIsText(s: seq<byte>) returns (chars: seq<seq<byte>>)
    requires Clean(s)
    ensures IsText(s, chars)
    ensures forall i :: 0 <= i < |chars| ==> IsFine(chars[i])
  {
    hide IsChar, Scalar, DecodeRune;
    if s == [] {
      chars := [];
    } else {
      var n := DecodeRune(s).size;
      var rest := CleanIsText(s[n..]);
      chars := [s[..n]] + rest;
      assert chars[1..] == rest;
      assert s == s[..n] + s[n..];
    }
  }

  /** Conversely every row of fine characters is clean. */
  lemma {:induction false} TextIsClean(chars: seq<seq<byte>>)
    requires forall i :: 0 <= i < |chars| ==> IsFine(chars[i])
    ensures Clean(Joined(chars))
  {
    hide IsFine, Clean;
    if chars == [] {
      CleanEmpty();
    } else {
      TextIsClean(chars[1..]);
      CleanCons(chars[0], Joined(chars[1..]));
    }
  }

  /** The output is UTF-8 text free of control characters, for every input. */
  lemma SanitizedIsText(s: seq<byte>) returns (chars: seq<seq<byte>>)
    ensures IsText(Sanitized(s), chars)
    ensures forall i :: 0 <= i < |chars| ==> !IsControl(Scalar(chars[i])) && Scalar(chars[i]) != REPLACEMENT
  {
    hide Sanitized, Clean, IsChar, Scalar;
    SanitizedIsClean(s);
    chars := CleanIsText(Sanitized(s));
  }

  /** A stray high byte reads as the Latin-1 character it stands for. */
  lemma Latin1Scalar(c: byte)
    requires c >= 0xA0
    ensures IsFine(Latin1(c)) && Scalar(Latin1(c)) == c as int
  {
  }

  // ---- what becomes of each piece ----

  /** A well-formed character other than U+FFFD is kept unless it is a control. */
  lemma CharacterKept(u: seq<byte>, rest: seq<byte>)
    requires IsChar(u) && Scalar(u) != 0xFFFD
    ensures var r := Scalar(u);
      Sanitized(u + rest) == (if r < 0x20 || 0x7F <= r <= 0x9F then [] else u) + Sanitized(rest)
  {
    hide Scalar, DecodeRune;
    DecodeHead(u, rest);
    var s := u + rest;
    assert s[..|u|] == u && s[|u|..] == rest;
    CharStep(u, s);
  }

  lemma CharStep(u: seq<byte>, s: seq<byte>)
    requires IsChar(u) && Scalar(u) != 0xFFFD && |u| <= |s| && s[..|u|] == u
    requires DecodeRune(s) == Rune(Scalar(u), |u|)
    ensures FirstStep(s) == Step(if Scalar(u) < 0x20 || 0x7F <= Scalar(u) <= 0x9F then [] else u, |u|)
  {
    assert s[0] == u[0];
  }

  /** An octet that starts no such character is written as the Latin-1 character it stands for, or
      dropped if that is a control. */
  lemma StrayOctet(s: seq<byte>)
    requires s != [] && s[0] >= 0x80
    requires forall k :: 1 <= k <= |s| ==> !(IsChar(s[..k]) && Scalar(s[..k]) != 0xFFFD)
    ensures Sanitized(s) ==
      (if s[0] < 0xA0 then [] else if s[0] < 0xC0 then [0xC2, s[0]] else [0xC3, s[0] - 0x40]) + Sanitized(s[1..])
  {
    hide IsChar, Scalar;
    DecodeExact(s);
    StrayStep(s);
  }

  lemma StrayStep(s: seq<byte>)
    requires s != [] && s[0] >= 0x80
    requires DecodeRune(s) == BAD || DecodeRune(s).value == REPLACEMENT
    ensures FirstStep(s) ==
      Step(if s[0] < 0xA0 then [] else if s[0] < 0xC0 then [0xC2, s[0]] else [0xC3, s[0] - 0x40], 1)
  {
  }
}
