/** The parts of Go's strings, bytes and strconv packages that the station relies on.
    A Go string is a Dafny string whose characters stand for octets; []byte is seq<byte>. */
module GoText {

  newtype byte = x: int | 0 <= x < 256

  datatype Option<+T> = None | Some(value: T)

  datatype Result<+T, +E> = Ok(value: T) | Err(error: E)

  // ---- conversions between []byte and string ----

  function Text(b: seq<byte>): (s: string)
    ensures |s| == |b|
    ensures forall i :: 0 <= i < |b| ==> s[i] == b[i] as char
  {
    seq(|b|, i requires 0 <= i < |b| => b[i] as char)
  }

  function Octets(s: string): (b: seq<byte>)
    ensures |b| == |s|
    ensures forall i :: 0 <= i < |s| ==> b[i] as int == s[i] as int % 256
  {
    seq(|s|, i requires 0 <= i < |s| => (s[i] as int % 256) as byte)
  }

  /** Every character fits one octet, so the string could have been a Go string. */
  predicate OctetString(s: string) {
    forall i :: 0 <= i < |s| ==> s[i] as int < 256
  }

  lemma TextOfOctets(s: string)
    requires OctetString(s)
    ensures Text(Octets(s)) == s
  {
  }

  lemma TextConcat(a: seq<byte>, b: seq<byte>)
    ensures Text(a + b) == Text(a) + Text(b)
  {
  }

  lemma ConcatAssoc<T>(a: seq<T>, b: seq<T>, c: seq<T>)
    ensures (a + b) + c == a + (b + c)
  {
  }

  // ---- searching ----

  /** The first occurrence at or after position i. */
  function IndexFrom<T(==)>(s: seq<T>, c: T, i: nat): (r: int)
    requires i <= |s|
    ensures r == -1 || i <= r < |s|
    ensures r == -1 ==> forall k :: i <= k < |s| ==> s[k] != c
    ensures r >= 0 ==> s[r] == c && forall k :: i <= k < r ==> s[k] != c
    decreases |s| - i
  {
    if i == |s| then -1 else if s[i] == c then i else IndexFrom(s, c, i + 1)
  }

  /** strings.IndexByte: the first occurrence, or -1. */
  function IndexOf<T(==)>(s: seq<T>, c: T): (r: int)
    ensures -1 <= r < |s|
    ensures r == -1 <==> c !in s
    ensures r >= 0 ==> s[r] == c && forall k :: 0 <= k < r ==> s[k] != c
  {
    IndexFrom(s, c, 0)
  }

  lemma IndexOfFirst<T>(a: seq<T>, c: T, b: seq<T>)
    requires c !in a
    ensures IndexOf(a + [c] + b, c) == |a|
  {
    var s := a + [c] + b;
    assert s[|a|] == c;
  }

  predicate HasPrefix(s: string, p: string) {
    |p| <= |s| && s[..|p|] == p
  }

  // ---- letter case (ASCII) ----

  function UpperChar(c: char): (u: char)
    ensures !('a' <= u <= 'z')
  {
    if 'a' <= c <= 'z' then (c as int - 32) as char else c
  }

  function Upper(s: string): (u: string)
    ensures |u| == |s|
    ensures forall i :: 0 <= i < |s| ==> u[i] == UpperChar(s[i])
  {
    seq(|s|, i requires 0 <= i < |s| => UpperChar(s[i]))
  }

  predicate EqualFold(a: string, b: string) {
    Upper(a) == Upper(b)
  }

  lemma UpperConcat(a: string, b: string)
    ensures Upper(a + b) == Upper(a) + Upper(b)
  {
  }

  lemma UpperTwice(s: string)
    ensures Upper(Upper(s)) == Upper(s)
  {
  }

  // ---- trimming ----

  /** How much of s[..n] is left once its tail in the cut set is gone. */
  function KeptLength<T(==)>(s: seq<T>, n: nat, cut: set<T>): (k: nat)
    requires n <= |s|
    ensures k <= n
    ensures k > 0 ==> s[k - 1] !in cut
    ensures forall i :: k <= i < n ==> s[i] in cut
  {
    if n == 0 || s[n - 1] !in cut then n else KeptLength(s, n - 1, cut)
  }

  /** strings.TrimRight with a cut set. */
  function TrimRight<T(==)>(s: seq<T>, cut: set<T>): (r: seq<T>)
    ensures |r| <= |s| && r == s[..|r|]
    ensures forall i :: |r| <= i < |s| ==> s[i] in cut
    ensures r != [] ==> r[|r| - 1] !in cut
  {
    s[..KeptLength(s, |s|, cut)]
  }

  lemma TrimRightKeeps<T>(s: seq<T>, pad: seq<T>, cut: set<T>)
    requires s == [] || s[|s| - 1] !in cut
    requires forall i :: 0 <= i < |pad| ==> pad[i] in cut
    ensures TrimRight(s + pad, cut) == s
  {
    var whole := s + pad;
    assert forall i :: |s| <= i < |whole| ==> whole[i] == pad[i - |s|];
    assert s != [] ==> whole[|s| - 1] == s[|s| - 1];
    assert whole[..|s|] == s;
  }

  const CRLF: set<char> := {'\r', '\n'}

  const SPACES: set<char> := {' ', '\t', '\n', '\r', 11 as char, 12 as char}

  /** Where s[i..] starts once its head in the cut set is gone. */
  function Skipped(s: string, i: nat, cut: set<char>): (k: nat)
    requires i <= |s|
    ensures i <= k <= |s|
    ensures k < |s| ==> s[k] !in cut
    ensures forall j :: i <= j < k ==> s[j] in cut
    decreases |s| - i
  {
    if i == |s| || s[i] !in cut then i else Skipped(s, i + 1, cut)
  }

  function TrimLeft(s: string, cut: set<char>): (r: string)
    ensures |r| <= |s| && r == s[|s| - |r|..]
    ensures r != [] ==> r[0] !in cut
  {
    s[Skipped(s, 0, cut)..]
  }

  lemma TrimLeftDrops(s: string, cut: set<char>)
    ensures forall i :: 0 <= i < |s| - |TrimLeft(s, cut)| ==> s[i] in cut
  {
  }

  /** strings.TrimSpace on ASCII text. */
  function TrimSpace(s: string): string {
    TrimRight(TrimLeft(s, SPACES), SPACES)
  }

  lemma TrimSpaceKeeps(s: string)
    requires forall i :: 0 <= i < |s| ==> s[i] !in SPACES
    ensures TrimSpace(s) == s
  {
    if s != [] {
      TrimRightKeeps(s, [], SPACES);
      assert s + [] == s;
    }
  }

  // ---- splitting ----

  /** strings.Split with a one-byte separator. */
  function Split(s: string, sep: char): (r: seq<string>)
    ensures |r| >= 1
    ensures forall i :: 0 <= i < |r| ==> sep !in r[i]
    decreases |s|
  {
    var i := IndexOf(s, sep);
    if i < 0 then [s] else [s[..i]] + Split(s[i + 1..], sep)
  }

  /** Every element preceded by the separator. */
  function Prefixed(parts: seq<string>, sep: char): string {
    if parts == [] then [] else [sep] + parts[0] + Prefixed(parts[1..], sep)
  }

  /** Splitting undoes the joining done by the path printers. */
  lemma {:induction false} SplitOfJoined(head: string, parts: seq<string>, sep: char)
    requires sep !in head
    requires forall i :: 0 <= i < |parts| ==> sep !in parts[i]
    ensures Split(head + Prefixed(parts, sep), sep) == [head] + parts
    decreases |parts|
  {
    hide Split;
    if parts == [] {
      SplitNone(head, sep);
      assert head + Prefixed(parts, sep) == head;
    } else {
      var rest := Prefixed(parts[1..], sep);
      JoinedHead(head, parts[0], rest, sep);
      SplitFirst(head, parts[0] + rest, sep);
      SplitOfJoined(parts[0], parts[1..], sep);
      assert parts == [parts[0]] + parts[1..];
    }
  }

  lemma JoinedHead(head: string, part: string, rest: string, sep: char)
    ensures head + ([sep] + part + rest) == head + [sep] + (part + rest)
  {
  }

  lemma SplitNone(s: string, sep: char)
    requires sep !in s
    ensures Split(s, sep) == [s]
  {
  }

  lemma SplitFirst(head: string, tail: string, sep: char)
    requires sep !in head
    ensures Split(head + [sep] + tail, sep) == [head] + Split(tail, sep)
  {
    hide IndexOf;
    var s := head + [sep] + tail;
    IndexOfFirst(head, sep, tail);
    assert s[..|head|] == head && s[|head| + 1..] == tail;
  }

  lemma {:induction false} PrefixedConcat(a: seq<string>, b: seq<string>, sep: char)
    ensures Prefixed(a + b, sep) == Prefixed(a, sep) + Prefixed(b, sep)
    decreases |a|
  {
    if a == [] {
      assert a + b == b;
    } else {
      assert (a + b)[1..] == a[1..] + b;
      PrefixedConcat(a[1..], b, sep);
    }
  }

  // ---- decimal numerals ----

  predicate IsDigit(c: char) { '0' <= c <= '9' }

  predicate AllDigits(s: string) {
    forall i :: 0 <= i < |s| ==> IsDigit(s[i])
  }

  function DigitValue(c: char): (v: nat)
    requires IsDigit(c)
    ensures v <= 9
  {
    c as int - '0' as int
  }

  function DigitChar(d: nat): (c: char)
    requires d <= 9
    ensures IsDigit(c) && DigitValue(c) == d
  {
    ('0' as int + d) as char
  }

  function Numeral(s: string): nat
    requires AllDigits(s)
  {
    if s == [] then 0 else 10 * Numeral(s[..|s| - 1]) + DigitValue(s[|s| - 1])
  }

  /** strconv.Atoi: an optional sign, then digits. Overflow is not modelled as an error: every
      caller also rejects large values. */
  function Atoi(s: string): (r: Option<int>) {
    var signed := s != [] && (s[0] == '-' || s[0] == '+');
    var digits := if signed then s[1..] else s;
    if digits == [] || !AllDigits(digits) then None
    else if signed && s[0] == '-' then Some(0 - Numeral(digits) as int)
    else Some(Numeral(digits))
  }

  /** The %d form of a small number. */
  function Itoa(n: nat): string
    requires n < 100
  {
    if n < 10 then [DigitChar(n)] else [DigitChar(n / 10), DigitChar(n % 10)]
  }

  lemma AtoiOfItoa(n: nat)
    requires n < 100
    ensures Atoi(Itoa(n)) == Some(n)
    ensures AllDigits(Itoa(n))
  {
    var s := Itoa(n);
    if n >= 10 {
      assert s[..1] == [s[0]];
      assert [s[0]][..0] == [];
      assert Numeral([s[0]]) == DigitValue(s[0]);
      assert Numeral(s) == 10 * DigitValue(s[0]) + DigitValue(s[1]);
    } else {
      assert Numeral(s[..0]) == 0;
      assert Numeral(s) == DigitValue(s[0]) == n;
    }
  }

  /** A number is made of digits, after at most one sign. */
  lemma AtoiChars(s: string)
    requires Atoi(s).Some?
    ensures forall i :: 0 <= i < |s| ==> IsDigit(s[i]) || (i == 0 && (s[i] == '-' || s[i] == '+'))
  {
    hide Numeral;
    var signed := s[0] == '-' || s[0] == '+';
    assert signed ==> forall i :: 0 < i < |s| ==> s[i] == s[1..][i - 1];
  }

  /** A numeral below ten reads as its last digit. */
  lemma SmallNumeral(x: string)
    requires x != "" && '-' !in x && Atoi(x).Some? && Atoi(x).value <= 9
    ensures IsDigit(x[|x| - 1]) && Atoi(x) == Some(DigitValue(x[|x| - 1]))
  {
    var digits := if x[0] == '+' then x[1..] else x;
    assert digits[|digits| - 1] == x[|x| - 1];
    assert Numeral(digits) == 10 * Numeral(digits[..|digits| - 1]) + DigitValue(x[|x| - 1]);
  }

  /** Two texts are equal but for case exactly if they are as long and differ only in letters that
      stand 32 code points apart. */
  lemma EqualFoldExact(a: string, b: string)
    ensures EqualFold(a, b) <==>
      && |a| == |b|
      && forall i :: 0 <= i < |a| ==>
           || a[i] == b[i]
           || ('a' <= a[i] <= 'z' && a[i] as int == b[i] as int + 32)
           || ('a' <= b[i] <= 'z' && b[i] as int == a[i] as int + 32)
  {
    var u, v := Upper(a), Upper(b);
    forall i | 0 <= i < |a| && |a| == |b|
      ensures u[i] == v[i] <==>
        || a[i] == b[i]
        || ('a' <= a[i] <= 'z' && a[i] as int == b[i] as int + 32)
        || ('a' <= b[i] <= 'z' && b[i] as int == a[i] as int + 32)
    {
      CaseOfChar(a[i], b[i]);
    }
    assert |a| == |b| && (forall i :: 0 <= i < |a| ==> u[i] == v[i]) ==> u == v;
  }

  lemma CaseOfChar(a: char, b: char)
    ensures UpperChar(a) == UpperChar(b) <==>
      || a == b
      || ('a' <= a <= 'z' && a as int == b as int + 32)
      || ('a' <= b <= 'z' && b as int == a as int + 32)
  {
  }

  /** A number may have a sign, and every further digit counts ten times less. */
  lemma AtoiExact(digits: string, d: char)
    requires AllDigits(digits) && IsDigit(d)
    ensures digits != "" ==> Atoi(digits).Some? && Atoi(digits).value >= 0
    ensures digits != "" ==> Atoi("+" + digits) == Atoi(digits) && Atoi("-" + digits) == Some(-Atoi(digits).value)
    ensures Atoi(digits + [d]) ==
      Some((if digits == "" then 0 else 10 * Atoi(digits).value) + (d as int - 48))
  {
    hide Numeral;
    assert ("+" + digits)[1..] == digits && ("-" + digits)[1..] == digits;
    var more := digits + [d];
    assert more[..|more| - 1] == digits;
    LastDigit(more);
    if digits == "" {
      NoDigits();
    }
  }

  lemma NoDigits()
    ensures Numeral("") == 0
  {
  }

  lemma LastDigit(s: string)
    requires s != "" && AllDigits(s)
    ensures AllDigits(s[..|s| - 1]) && Numeral(s) == 10 * Numeral(s[..|s| - 1]) + (s[|s| - 1] as int - 48)
  {
  }
}
