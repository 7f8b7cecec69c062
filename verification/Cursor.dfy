/** Decimal int64 printing and parsing: fmt's %d and strconv.ParseInt(s, 10, 64). */
module Decimal {
  import opened GoStrings

  const MIN_INT64 := -0x8000_0000_0000_0000
  const MAX_INT64 := 0x7FFF_FFFF_FFFF_FFFF

  predicate IsInt64(n: int) { MIN_INT64 <= n <= MAX_INT64 }

  predicate IsDigit(c: char) { '0' <= c <= '9' }

  function DigitChar(d: nat): (c: char)
    requires d < 10
    ensures IsDigit(c) && c as int - '0' as int == d
  {
    ('0' as int + d) as char
  }

  function PrintNat(n: nat): (s: string)
    ensures |s| > 0
    ensures forall i :: 0 <= i < |s| ==> IsDigit(s[i])
  {
    if n < 10 then [DigitChar(n)] else PrintNat(n / 10) + [DigitChar(n % 10)]
  }

  function PrintInt(n: int): (s: string)
    ensures |s| > 0
    ensures forall i :: 0 <= i < |s| ==> IsDigit(s[i]) || s[i] == '-'
  {
    if n < 0 then "-" + PrintNat(-n) else PrintNat(n)
  }

  /** The value of a digit string, or None on a byte that is not a digit. */
  function ParseDigits(s: string): Option<nat> {
    if s == "" then Some(0)
    else
      var front := ParseDigits(s[..|s| - 1]);
      var c := s[|s| - 1];
      if front.None? || !IsDigit(c) then None
      else Some(front.value * 10 + (c as int - '0' as int))
  }

  /** strconv.ParseInt(s, 10, 64); None covers both the syntax and the range error. */
  function ParseInt64(s: string): Option<int> {
    if s == "" then None
    else
      var negative := s[0] == '-';
      var digits := if s[0] == '-' || s[0] == '+' then s[1..] else s;
      if digits == "" then None
      else match ParseDigits(digits)
        case None => None
        case Some(n) =>
          var value: int := if negative then 0 - n else n;
          if IsInt64(value) then Some(value) else None
  }

  predicate AllDigits(s: string) {
    forall i :: 0 <= i < |s| ==> '0' <= s[i] <= '9'
  }

  /** The numeral without its sign. */
  function Magnitude(s: string): string {
    if s != "" && (s[0] == '-' || s[0] == '+') then s[1..] else s
  }

  /** An optional sign and at least one digit. */
  predicate IsNumeral(s: string) { Magnitude(s) != "" && AllDigits(Magnitude(s)) }

  lemma {:induction false} ParsesDigits(s: string)
    ensures ParseDigits(s).Some? <==> AllDigits(s)
  {
    if s != "" {
      ParsesDigits(s[..|s| - 1]);
      assert s == s[..|s| - 1] + [s[|s| - 1]];
    }
  }

  /** Exactly the numerals within int64 are read, with their sign. */
  lemma ParsesNumerals(s: string)
    ensures ParseInt64(s).Some? ==> IsNumeral(s)
    ensures IsNumeral(s) <==> Magnitude(s) != "" && ParseDigits(Magnitude(s)).Some?
    ensures IsNumeral(s) ==>
      var n := ParseDigits(Magnitude(s)).value;
      ParseInt64(s) == InRange(if s[0] == '-' then 0 - n else n)
  {
    ParsesDigits(Magnitude(s));
  }

  function InRange(n: int): Option<int> {
    if -0x8000_0000_0000_0000 <= n <= 0x7FFF_FFFF_FFFF_FFFF then Some(n) else None
  }

  lemma {:induction false} ParsePrintNat(n: nat)
    ensures ParseDigits(PrintNat(n)) == Some(n)
  {
    var s := PrintNat(n);
    if n < 10 {
      assert s[..|s| - 1] == "";
    } else {
      assert s[..|s| - 1] == PrintNat(n / 10);
      ParsePrintNat(n / 10);
    }
  }

  /** Parsing undoes printing on exactly the int64 range. */
  lemma ParsePrintInt(n: int)
    ensures ParseInt64(PrintInt(n)) == if IsInt64(n) then Some(n) else None
  {
    if n < 0 {
      ParsePrintNat(-n);
      assert PrintInt(n)[1..] == PrintNat(-n);
    } else {
      ParsePrintNat(n);
      assert IsDigit(PrintInt(n)[0]);
    }
  }

  /** Most significant digit first, without padding. */
  lemma PrintExample()
    ensures PrintInt(-120) == "-120" && PrintInt(0) == "0"
  {
    assert PrintNat(12) == PrintNat(1) + [DigitChar(2)];
  }

  lemma PrintIntInjective(m: int, n: int)
    requires PrintInt(m) == PrintInt(n)
    ensures m == n
  {
    assert (PrintInt(m)[0] == '-') == (m < 0);
    assert (PrintInt(n)[0] == '-') == (n < 0);
    if m < 0 {
      assert PrintInt(m)[1..] == PrintNat(-m);
      assert PrintInt(n)[1..] == PrintNat(-n);
      ParsePrintNat(-m);
      ParsePrintNat(-n);
    } else {
      ParsePrintNat(m);
      ParsePrintNat(n);
    }
  }
}

/** base64.RawURLEncoding: the URL-safe alphabet of section 5 of RFC 4648,
    with the padding of section 3.2 omitted. */
module Base64Url {
  import opened GoStrings

  type Sextet = v: int | 0 <= v < 64

  type Octet = v: int | 0 <= v < 256

  function Char6(v: Sextet): char {
    if v < 26 then ('A' as int + v) as char
    else if v < 52 then ('a' as int + (v - 26)) as char
    else if v < 62 then ('0' as int + (v - 52)) as char
    else if v == 62 then '-' else '_'
  }

  function Value6(c: char): Option<Sextet> {
    if 'A' <= c <= 'Z' then Some(c as int - 'A' as int)
    else if 'a' <= c <= 'z' then Some(c as int - 'a' as int + 26)
    else if '0' <= c <= '9' then Some(c as int - '0' as int + 52)
    else if c == '-' then Some(62)
    else if c == '_' then Some(63)
    else None
  }

  lemma ValueOfChar(v: Sextet)
    ensures Value6(Char6(v)) == Some(v)
  {}

  function Chars(v: seq<Sextet>): (s: string)
    ensures |s| == |v|
    ensures forall i :: 0 <= i < |v| ==> s[i] == Char6(v[i])
  {
    seq(|v|, i requires 0 <= i < |v| => Char6(v[i]))
  }

  /** The six-bit values of a text, or None on a character outside the alphabet. */
  function Values(s: string): Option<seq<Sextet>> {
    if s == "" then Some([])
    else match (Value6(s[0]), Values(s[1..]))
      case (Some(v), Some(rest)) => Some([v] + rest)
      case _ => None
  }

  /** The byte a character stands for; only bytes occur in a Go string. */
  function ByteOf(c: char): Octet {
    if c as int < 256 then c as int else '?' as int
  }

  function Bytes(s: string): (v: seq<Octet>)
    ensures |v| == |s|
    ensures forall i :: 0 <= i < |s| ==> v[i] == ByteOf(s[i])
  {
    seq(|s|, i requires 0 <= i < |s| => ByteOf(s[i]))
  }

  function Text(v: seq<Octet>): (s: string)
    ensures |s| == |v|
    ensures forall i :: 0 <= i < |v| ==> s[i] == v[i] as char
  {
    seq(|v|, i requires 0 <= i < |v| => v[i] as char)
  }

  function Quantum(a: Octet, b: Octet, c: Octet): seq<Sextet> {
    [a / 4, a % 4 * 16 + b / 16, b % 16 * 4 + c / 64, c % 64]
  }

  /** Bytes regrouped into six-bit values; the last group is not padded. */
  function Sextets(s: seq<Octet>): seq<Sextet> {
    if |s| == 0 then []
    else if |s| == 1 then [s[0] / 4, s[0] % 4 * 16]
    else if |s| == 2 then [s[0] / 4, s[0] % 4 * 16 + s[1] / 16, s[1] % 16 * 4]
    else Quantum(s[0], s[1], s[2]) + Sextets(s[3..])
  }

  /** The three bytes spread over four six-bit values. */
  function Octet1(a: int, b: int): int { a * 4 + b / 16 }
  function Octet2(b: int, c: int): int { b % 16 * 16 + c / 4 }
  function Octet3(c: int, d: int): int { c % 4 * 64 + d }

  /** Regrouping in quanta of four values.  A final group of two or three values
      carries one or two bytes and its spare bits are not checked; a single
      left-over value is an error. */
  function Octets(v: seq<Sextet>): Option<seq<Octet>> {
    if |v| == 0 then Some([])
    else if |v| == 1 then None
    else if |v| == 2 then Some([Octet1(v[0], v[1])])
    else if |v| == 3 then Some([Octet1(v[0], v[1]), Octet2(v[1], v[2])])
    else
      match Octets(v[4..])
      case None => None
      case Some(rest) => Some([Octet1(v[0], v[1]), Octet2(v[1], v[2]), Octet3(v[2], v[3])] + rest)
  }

  function Encode(s: string): string {
    Chars(Sextets(Bytes(s)))
  }

  /** The decoder skips line breaks wherever they occur. */
  function StripNewlines(s: string): string {
    if s == "" then ""
    else if s[0] == '\n' || s[0] == '\r' then StripNewlines(s[1..])
    else [s[0]] + StripNewlines(s[1..])
  }

  function Decode(s: string): Option<string> {
    match Values(StripNewlines(s))
    case None => None
    case Some(v) =>
      match Octets(v)
      case None => None
      case Some(bytes) => Some(Text(bytes))
  }

  ghost predicate InAlphabet(s: string) {
    forall i :: 0 <= i < |s| ==> Value6(s[i]).Some?
  }

  lemma CharsInAlphabet(v: seq<Sextet>)
    ensures InAlphabet(Chars(v))
  {
    forall i | 0 <= i < |v| ensures Value6(Chars(v)[i]).Some? { ValueOfChar(v[i]); }
  }

  lemma {:induction false} StripKeepsAlphabet(s: string)
    requires InAlphabet(s)
    ensures StripNewlines(s) == s
  {
    if s != "" {
      assert Value6(s[0]).Some?;
      assert InAlphabet(s[1..]);
      StripKeepsAlphabet(s[1..]);
    }
  }

  lemma {:induction false} ValuesOfChars(v: seq<Sextet>)
    ensures Values(Chars(v)) == Some(v)
  {
    if v != [] {
      ValueOfChar(v[0]);
      ValuesOfChars(v[1..]);
      assert Chars(v)[1..] == Chars(v[1..]);
      assert v == [v[0]] + v[1..];
    }
  }

  /** Three bytes through four six-bit values and back. */
  lemma QuantumArithmetic(a: Octet, b: Octet, c: Octet)
    ensures Octet1(a / 4, a % 4 * 16 + b / 16) == a
    ensures Octet2(a % 4 * 16 + b / 16, b % 16 * 4 + c / 64) == b
    ensures Octet3(b % 16 * 4 + c / 64, c % 64) == c
  {}

  lemma OneByte(a: Octet)
    ensures Octets(Sextets([a])) == Some([a])
  {
    QuantumArithmetic(a, 0, 0);
  }

  lemma TwoBytes(a: Octet, b: Octet)
    ensures Octets(Sextets([a, b])) == Some([a, b])
  {
    var x, y, z := a / 4, a % 4 * 16 + b / 16, b % 16 * 4;
    assert Sextets([a, b]) == [x, y, z];
    assert Octets([x, y, z]) == Some([Octet1(x, y), Octet2(y, z)]);
    QuantumArithmetic(a, b, 0);
  }

  lemma FirstSextets(a: Octet, b: Octet, c: Octet, rest: seq<Octet>)
    ensures Sextets([a, b, c] + rest) == Quantum(a, b, c) + Sextets(rest)
  {
    assert ([a, b, c] + rest)[3..] == rest;
  }

  lemma FirstOctets(a: Octet, b: Octet, c: Octet, tail: seq<Sextet>, rest: seq<Octet>)
    requires Octets(tail) == Some(rest)
    ensures Octets(Quantum(a, b, c) + tail) == Some([a, b, c] + rest)
  {
    QuantumArithmetic(a, b, c);
    assert (Quantum(a, b, c) + tail)[4..] == tail;
  }

  lemma {:induction false} SextetsRoundTrip(s: seq<Octet>)
    ensures Octets(Sextets(s)) == Some(s)
  {
    if |s| == 1 {
      assert s == [s[0]];
      OneByte(s[0]);
    } else if |s| == 2 {
      assert s == [s[0], s[1]];
      TwoBytes(s[0], s[1]);
    } else if |s| >= 3 {
      assert s == [s[0], s[1], s[2]] + s[3..];
      SextetsRoundTrip(s[3..]);
      FirstSextets(s[0], s[1], s[2], s[3..]);
      FirstOctets(s[0], s[1], s[2], Sextets(s[3..]), s[3..]);
    }
  }

  /** Decoding undoes encoding on every byte string. */
  lemma RoundTrip(s: string)
    requires IsBytes(s)
    ensures Decode(Encode(s)) == Some(s)
  {
    CharsInAlphabet(Sextets(Bytes(s)));
    StripKeepsAlphabet(Encode(s));
    ValuesOfChars(Sextets(Bytes(s)));
    SextetsRoundTrip(Bytes(s));
    assert Text(Bytes(s)) == s;
  }

  /** The alphabet: A-Z, a-z, 0-9, '-' and '_' for the values 0 to 63 in this order. */
  lemma Alphabet(v: Sextet)
    ensures v < 26 ==> Char6(v) as int == 'A' as int + v
    ensures 26 <= v < 52 ==> Char6(v) as int == 'a' as int + (v - 26)
    ensures 52 <= v < 62 ==> Char6(v) as int == '0' as int + (v - 52)
    ensures v == 62 ==> Char6(v) == '-'
    ensures v == 63 ==> Char6(v) == '_'
  {}

  /** Four six-bit values, or three bytes, as one number. */
  function Number64(a: int, b: int, c: int, d: int): int { a * 0x4_0000 + b * 0x1000 + c * 0x40 + d }
  function Number256(a: int, b: int, c: int): int { a * 0x1_0000 + b * 0x100 + c }

  /** A quantum is the same 24-bit number before and after, most significant part first;
      a short one is filled up with zero bits. */
  lemma QuantumValue(a: Octet, b: Octet, c: Octet)
    ensures var v := Sextets([a, b, c]); |v| == 4 && Number64(v[0], v[1], v[2], v[3]) == Number256(a, b, c)
    ensures var v := Sextets([a, b]); |v| == 3 && Number64(v[0], v[1], v[2], 0) == Number256(a, b, 0)
    ensures var v := Sextets([a]); |v| == 2 && Number64(v[0], v[1], 0, 0) == Number256(a, 0, 0)
  {
    assert [a, b, c] == [a, b, c] + [];
    FirstSextets(a, b, c, []);
  }

  lemma {:induction false} ValuesIff(s: string)
    ensures Values(s).Some? <==> InAlphabet(s)
    ensures Values(s).Some? ==> |Values(s).value| == |s|
  {
    if s != "" {
      ValuesIff(s[1..]);
      assert s == [s[0]] + s[1..];
    }
  }

  lemma {:induction false} OctetsIff(v: seq<Sextet>)
    ensures Octets(v).Some? <==> |v| % 4 != 1
  {
    if |v| >= 4 { OctetsIff(v[4..]); }
  }

  /** Exactly the texts over the alphabet, line breaks aside, whose length is not one more
      than a multiple of four are decoded. */
  lemma DecodesIff(s: string)
    ensures Decode(s).Some? <==> InAlphabet(StripNewlines(s)) && |StripNewlines(s)| % 4 != 1
  {
    var t := StripNewlines(s);
    ValuesIff(t);
    if InAlphabet(t) { OctetsIff(Values(t).value); }
  }

  /** Line breaks are skipped wherever they stand, and nothing else is. */
  lemma {:induction false} StripSkips(a: string, c: char, b: string)
    ensures StripNewlines(a + [c] + b) == if c == '\n' || c == '\r' then StripNewlines(a + b) else StripNewlines(a) + [c] + StripNewlines(b)
  {
    var s := a + [c] + b;
    if a == "" {
      assert s[1..] == b && a + b == b;
    } else {
      assert s[1..] == a[1..] + [c] + b && (a + b)[1..] == a[1..] + b;
      StripSkips(a[1..], c, b);
    }
  }

  /** An encoded non-empty string is never mistaken for an absent cursor. */
  lemma EncodedIsNotBlank(s: string)
    requires s != ""
    ensures !IsBlank(Encode(s))
  {
    CharsInAlphabet(Sextets(Bytes(s)));
    var e := Encode(s);
    assert Value6(e[0]).Some? && Value6(e[|e| - 1]).Some?;
    assert LeadingSpace(e) == 0;
    assert TrailingSpace(e) == 0;
  }
}

/** The opaque pagination cursors of the chat and organisation services. */
module Cursor {
  import opened GoStrings
  import Decimal
  import Base64Url

  /** encodeMessageCursor */
  function EncodeId(id: string): string {
    Base64Url.Encode(id)
  }

  /** decodeMessageCursor */
  function DecodeId(cursor: string): Option<string> {
    match Base64Url.Decode(cursor)
    case None => None
    case Some(raw) =>
      var id := TrimSpace(raw);
      if id == "" then None else Some(id)
  }

  function Pair(nanos: int, id: string): string {
    Decimal.PrintInt(nanos) + ":" + id
  }

  function Unpair(raw: string): Option<(int, string)> {
    var colon := IndexOf(raw, ':');
    if colon == |raw| then None
    else match Decimal.ParseInt64(raw[..colon])
      case None => None
      case Some(nanos) =>
        var id := TrimSpace(raw[colon + 1..]);
        if id == "" then None else Some((nanos, id))
  }

  /** encodeRoomCursor and encodeAliasAuditCursor, on the Unix time in nanoseconds. */
  function EncodeTimed(nanos: int, id: string): string {
    Base64Url.Encode(Pair(nanos, id))
  }

  /** decodeRoomCursor and decodeAliasAuditCursor */
  function DecodeTimed(cursor: string): Option<(int, string)> {
    match Base64Url.Decode(cursor)
    case None => None
    case Some(raw) => Unpair(raw)
  }

  /** The first colon of a printed pair is the separator, whatever the id holds. */
  lemma SplitAtFirstColon(nanos: int, id: string)
    ensures var raw := Pair(nanos, id);
      && IndexOf(raw, ':') == |Decimal.PrintInt(nanos)|
      && raw[..IndexOf(raw, ':')] == Decimal.PrintInt(nanos)
      && raw[IndexOf(raw, ':') + 1..] == id
  {
    var p := Decimal.PrintInt(nanos);
    var raw := p + ":" + id;
    var n := IndexOf(raw, ':');
    assert raw[|p|] == ':';
    assert forall i :: 0 <= i < |p| ==> raw[i] == p[i];
    assert raw[..n] == p;
    assert raw[n + 1..] == id;
  }

  /** What is left of the first colon is the time and what is right of it the id. */
  lemma UnpairSpec(head: string, tail: string)
    requires ':' !in head
    ensures Unpair(head) == None
    ensures Unpair(head + ":" + tail) ==
      if Decimal.ParseInt64(head).Some? && !IsBlank(tail) then Some((Decimal.ParseInt64(head).value, TrimSpace(tail))) else None
  {
    var raw := head + ":" + tail;
    var n := IndexOf(raw, ':');
    assert forall i :: 0 <= i < |head| ==> raw[i] == head[i] && head[i] in head;
    assert raw[|head|] == ':';
    assert n == |head|;
    assert raw[..n] == head && raw[n + 1..] == tail;
    assert forall i :: 0 <= i < |head| ==> head[i] != ':';
  }

  /** A message cursor decodes to the id it was made from exactly when the id is
      non-empty and carries no surrounding white space. */
  lemma MessageCursorRoundTrip(id: string)
    requires IsBytes(id)
    ensures DecodeId(EncodeId(id)) == Some(id) <==> Trimmed(id)
    ensures DecodeId(EncodeId(id)) == if IsBlank(id) then None else Some(TrimSpace(id))
  {
    Base64Url.RoundTrip(id);
  }

  lemma PairRoundTrip(nanos: int, id: string)
    ensures Unpair(Pair(nanos, id)) == if Decimal.InRange(nanos).Some? && !IsBlank(id) then Some((nanos, TrimSpace(id))) else None
  {
    SplitAtFirstColon(nanos, id);
    Decimal.ParsePrintInt(nanos);
  }

  /** A time-and-id cursor decodes to the pair it was made from exactly when the
      time is an int64 and the id is non-empty and trimmed; ids may hold ':'. */
  lemma TimedCursorRoundTrip(nanos: int, id: string)
    requires IsBytes(id)
    ensures DecodeTimed(EncodeTimed(nanos, id)) == Some((nanos, id))
            <==> Decimal.IsInt64(nanos) && Trimmed(id)
    ensures DecodeTimed(EncodeTimed(nanos, id)) ==
      if Decimal.InRange(nanos).Some? && !IsBlank(id) then Some((nanos, TrimSpace(id))) else None
  {
    Base64Url.RoundTrip(Pair(nanos, id));
    PairRoundTrip(nanos, id);
  }

  /** Distinct pairs have distinct cursors, even for ids the decoder would trim. */
  lemma TimedCursorInjective(n1: int, id1: string, n2: int, id2: string)
    requires IsBytes(id1) && IsBytes(id2)
    requires EncodeTimed(n1, id1) == EncodeTimed(n2, id2)
    ensures n1 == n2 && id1 == id2
  {
    Base64Url.RoundTrip(Pair(n1, id1));
    Base64Url.RoundTrip(Pair(n2, id2));
    SplitAtFirstColon(n1, id1);
    SplitAtFirstColon(n2, id2);
    Decimal.PrintIntInjective(n1, n2);
  }
}
