/** Go strings and the few library functions on them that the services call.

    A Go string is a sequence of bytes.  It is modelled as a Dafny string whose
    characters stand for bytes (`IsBytes` where it matters), so that literals
    stay readable. */
module GoStrings {

  datatype Option<+T> = None | Some(value: T)

  ghost predicate IsBytes(s: string) {
    forall i :: 0 <= i < |s| ==> s[i] as int < 256
  }

  /** The ASCII bytes for which unicode.IsSpace holds. */
  predicate IsAsciiSpace(c: char) {
    c as int == 32 || 9 <= c as int <= 13
  }

  /** The two-byte UTF-8 encodings of U+0085 and U+00A0. */
  predicate IsSpace2(a: char, b: char) {
    a as int == 0xC2 && (b as int == 0x85 || b as int == 0xA0)
  }

  /** The three-byte UTF-8 encodings of the remaining white space: U+1680,
      U+2000..U+200A, U+2028, U+2029, U+202F, U+205F and U+3000. */
  predicate IsSpace3(a: char, b: char, c: char) {
    || (a as int == 0xE1 && b as int == 0x9A && c as int == 0x80)
    || (a as int == 0xE2 && b as int == 0x80 &&
        (0x80 <= c as int <= 0x8A || c as int == 0xA8 || c as int == 0xA9 || c as int == 0xAF))
    || (a as int == 0xE2 && b as int == 0x81 && c as int == 0x9F)
    || (a as int == 0xE3 && b as int == 0x80 && c as int == 0x80)
  }

  /** Length in bytes of the white-space rune that `s` begins with, or 0. */
  function LeadingSpace(s: string): (n: nat)
    ensures n <= |s|
  {
    if |s| >= 1 && IsAsciiSpace(s[0]) then 1
    else if |s| >= 2 && IsSpace2(s[0], s[1]) then 2
    else if |s| >= 3 && IsSpace3(s[0], s[1], s[2]) then 3
    else 0
  }

  /** Length in bytes of the white-space rune that `s` ends with, or 0. */
  function TrailingSpace(s: string): (n: nat)
    ensures n <= |s|
  {
    var e := |s|;
    if e >= 1 && IsAsciiSpace(s[e - 1]) then 1
    else if e >= 2 && IsSpace2(s[e - 2], s[e - 1]) then 2
    else if e >= 3 && IsSpace3(s[e - 3], s[e - 2], s[e - 1]) then 3
    else 0
  }

  function TrimLeftSpace(s: string): string {
    if LeadingSpace(s) == 0 then s else TrimLeftSpace(s[LeadingSpace(s)..])
  }

  function TrimRightSpace(s: string): string {
    if TrailingSpace(s) == 0 then s else TrimRightSpace(s[..|s| - TrailingSpace(s)])
  }

  /** strings.TrimSpace */
  function TrimSpace(s: string): string {
    TrimRightSpace(TrimLeftSpace(s))
  }

  predicate IsBlank(s: string) {
    TrimSpace(s) == ""
  }

  /** What strings.TrimSpace leaves of a string that is not blank. */
  predicate Trimmed(s: string) { s != "" && TrimSpace(s) == s }

  lemma {:induction false} TrimRightShrinks(s: string)
    ensures |TrimRightSpace(s)| <= |s|
  {
    if TrailingSpace(s) != 0 { TrimRightShrinks(s[..|s| - TrailingSpace(s)]); }
  }

  lemma {:induction false} TrimLeftShrinks(s: string)
    ensures |TrimLeftSpace(s)| <= |s| && (LeadingSpace(s) != 0 ==> |TrimLeftSpace(s)| < |s|)
  {
    if LeadingSpace(s) != 0 { TrimLeftShrinks(s[LeadingSpace(s)..]); }
  }

  lemma TrimmedStart(s: string)
    requires Trimmed(s)
    ensures LeadingSpace(s) == 0
  {
    TrimLeftShrinks(s);
    TrimRightShrinks(TrimLeftSpace(s));
  }

  lemma TrimmedEnds(s: string)
    requires s != "" && LeadingSpace(s) == 0 && TrailingSpace(s) == 0
    ensures Trimmed(s)
  {}

  /** The UTF-8 encoding of one white-space rune. */
  predicate IsSpaceRune(r: string) {
    || (|r| == 1 && IsAsciiSpace(r[0]))
    || (|r| == 2 && IsSpace2(r[0], r[1]))
    || (|r| == 3 && IsSpace3(r[0], r[1], r[2]))
  }

  ghost predicate SpaceRunes(runes: seq<string>) {
    forall i :: 0 <= i < |runes| ==> IsSpaceRune(runes[i])
  }

  function Joined(runes: seq<string>): string {
    if runes == [] then "" else runes[0] + Joined(runes[1..])
  }

  lemma {:induction false} JoinedAppend(runes: seq<string>, r: string)
    ensures Joined(runes + [r]) == Joined(runes) + r
  {
    if runes == [] {
      assert [r][1..] == [];
    } else {
      assert (runes + [r])[1..] == runes[1..] + [r];
      JoinedAppend(runes[1..], r);
    }
  }

  lemma FirstRune(s: string)
    requires LeadingSpace(s) > 0
    ensures IsSpaceRune(s[..LeadingSpace(s)])
  {}

  lemma LastRune(s: string)
    requires TrailingSpace(s) > 0
    ensures IsSpaceRune(s[|s| - TrailingSpace(s)..])
  {}

  lemma RuneInFront(r: string, runes: seq<string>, rest: string, t: string)
    requires IsSpaceRune(r) && SpaceRunes(runes) && rest == Joined(runes) + t
    ensures SpaceRunes([r] + runes) && r + rest == Joined([r] + runes) + t
  {
    assert ([r] + runes)[1..] == runes;
  }

  lemma RuneBehind(r: string, runes: seq<string>, rest: string, t: string)
    requires IsSpaceRune(r) && SpaceRunes(runes) && rest == t + Joined(runes)
    ensures SpaceRunes(runes + [r]) && rest + r == t + Joined(runes + [r])
  {
    JoinedAppend(runes, r);
  }

  lemma {:induction false} TrimLeftSpec(s: string) returns (runes: seq<string>)
    ensures SpaceRunes(runes) && s == Joined(runes) + TrimLeftSpace(s)
    decreases |s|
  {
    var n := LeadingSpace(s);
    if n == 0 {
      runes := [];
    } else {
      FirstRune(s);
      runes := TrimLeftSpec(s[n..]);
      RuneInFront(s[..n], runes, s[n..], TrimLeftSpace(s[n..]));
      assert s[..n] + s[n..] == s;
      runes := [s[..n]] + runes;
    }
  }

  lemma {:induction false} TrimLeftEnds(s: string)
    ensures LeadingSpace(TrimLeftSpace(s)) == 0
  {
    if LeadingSpace(s) != 0 { TrimLeftEnds(s[LeadingSpace(s)..]); }
  }

  lemma {:induction false} TrimRightSpec(s: string) returns (runes: seq<string>)
    ensures SpaceRunes(runes) && s == TrimRightSpace(s) + Joined(runes)
    ensures TrailingSpace(TrimRightSpace(s)) == 0
    decreases |s|
  {
    if TrailingSpace(s) == 0 {
      runes := [];
    } else {
      var k := |s| - TrailingSpace(s);
      var r, rest := s[k..], s[..k];
      LastRune(s);
      runes := TrimRightSpec(rest);
      RuneBehind(r, runes, rest, TrimRightSpace(rest));
      runes := runes + [r];
      assert s == rest + r;
    }
  }

  lemma PrefixStart(s: string, t: string)
    requires s <= t && LeadingSpace(t) == 0
    ensures LeadingSpace(s) == 0
  {
    assert forall i :: 0 <= i < |s| ==> s[i] == t[i];
  }

  /** Trimming takes white-space runes, and all of them, from both ends and nothing else. */
  lemma TrimSpaceSpec(s: string) returns (pre: seq<string>, post: seq<string>)
    ensures s == Joined(pre) + TrimSpace(s) + Joined(post) && SpaceRunes(pre) && SpaceRunes(post)
    ensures LeadingSpace(TrimSpace(s)) == 0 && TrailingSpace(TrimSpace(s)) == 0
  {
    pre := TrimLeftSpec(s);
    var t := TrimLeftSpace(s);
    post := TrimRightSpec(t);
    assert TrimSpace(s) <= t;
    TrimLeftEnds(s);
    PrefixStart(TrimSpace(s), t);
    assert Joined(pre) + (TrimSpace(s) + Joined(post)) == Joined(pre) + TrimSpace(s) + Joined(post);
  }

  /** strings.ToLower on ASCII letters. */
  function LowerChar(c: char): char {
    if 'A' <= c <= 'Z' then (c as int + 32) as char else c
  }

  function ToLower(s: string): (r: string)
    ensures |r| == |s|
  {
    if s == "" then "" else [LowerChar(s[0])] + ToLower(s[1..])
  }

  lemma {:induction false} ToLowerSpec(s: string)
    ensures forall i :: 0 <= i < |s| ==> ToLower(s)[i] == if 'A' <= s[i] <= 'Z' then (s[i] as int + 32) as char else s[i]
  {
    if s != "" { ToLowerSpec(s[1..]); }
  }

  lemma LowerUnchanged(s: string)
    requires forall i :: 0 <= i < |s| ==> !('A' <= s[i] <= 'Z')
    ensures ToLower(s) == s
  {
    ToLowerSpec(s);
  }

  lemma LowerTwice(s: string)
    ensures ToLower(ToLower(s)) == ToLower(s)
  {
    ToLowerSpec(s);
    ToLowerSpec(ToLower(s));
  }

  /** Lower case does not make white space, so trimming afterwards changes nothing. */
  lemma TrimmedLower(s: string)
    ensures TrimSpace(ToLower(TrimSpace(s))) == ToLower(TrimSpace(s))
  {
    var pre, post := TrimSpaceSpec(s);
    LowerKeepsStart(TrimSpace(s));
    LowerKeepsEnd(TrimSpace(s));
    TrimNothing(ToLower(TrimSpace(s)));
  }

  lemma LowerKeepsStart(s: string)
    ensures LeadingSpace(ToLower(s)) == LeadingSpace(s)
  {
    ToLowerSpec(s);
  }

  lemma LowerKeepsEnd(s: string)
    ensures TrailingSpace(ToLower(s)) == TrailingSpace(s)
  {
    ToLowerSpec(s);
  }

  lemma TrimNothing(s: string)
    requires LeadingSpace(s) == 0 && TrailingSpace(s) == 0
    ensures TrimSpace(s) == s
  {}

  /** Position of the first `c` in `s`, or |s| when there is none. */
  function IndexOf(s: string, c: char): (n: nat)
    ensures n <= |s|
    ensures forall i :: 0 <= i < n ==> s[i] != c
    ensures n < |s| ==> s[n] == c
  {
    if s == "" || s[0] == c then 0 else 1 + IndexOf(s[1..], c)
  }

  predicate HasPrefix(s: string, prefix: string) {
    |prefix| <= |s| && s[..|prefix|] == prefix
  }
}
