/** Composite keys: the services join an owner and an id with a colon, and neither part
    is escaped. */
module Keys {
  import opened GoStrings

  function Keyed(owner: string, id: string): string { owner + ":" + id }

  ghost predicate ColonFree(s: string) { ':' !in s }

  /** Neither owner is the other followed by a colon and more. */
  ghost predicate Apart(s: string, t: string) {
    s == t || (!HasPrefix(s + ":", t + ":") && !HasPrefix(t + ":", s + ":"))
  }

  lemma ColonFreeApart(s: string, t: string)
    requires ColonFree(s) && ColonFree(t)
    ensures Apart(s, t)
  {
    if s != t && HasPrefix(s + ":", t + ":") { var u := Extension(s, t); }
    if s != t && HasPrefix(t + ":", s + ":") { var u := Extension(t, s); }
  }

  /** Owners that are not apart: the longer one is a key of the shorter one. */
  lemma Extension(s: string, t: string) returns (u: string)
    requires s != t && HasPrefix(s + ":", t + ":")
    ensures s == Keyed(t, u) && !ColonFree(s)
  {
    var p := s + ":";
    assert p[..|t| + 1][..|t|] == t && p[..|t|] == t;
    assert p[..|s|] == s;
    assert p[..|t| + 1][|t|] == ':';
    assert s[..|t|] == t && s[|t|] == ':';
    u := s[|t| + 1..];
    assert s == s[..|t|] + [s[|t|]] + s[|t| + 1..];
  }

  lemma PrefixesCompare(k: string, p: string, q: string)
    requires HasPrefix(k, p) && HasPrefix(k, q)
    ensures HasPrefix(p, q) || HasPrefix(q, p)
  {
    if |p| <= |q| {
      assert q[..|p|] == k[..|q|][..|p|] == k[..|p|];
    } else {
      assert p[..|q|] == k[..|p|][..|q|] == k[..|q|];
    }
  }

  /** For owners that are apart a key names one owner and one id. */
  lemma KeyedInjective(s: string, x: string, t: string, y: string)
    requires Apart(s, t) && Keyed(s, x) == Keyed(t, y)
    ensures s == t && x == y
  {
    var k := Keyed(s, x);
    assert k[..|s| + 1] == s + ":" && k[..|t| + 1] == t + ":";
    PrefixesCompare(k, s + ":", t + ":");
    assert k[|s| + 1..] == x && k[|t| + 1..] == y;
  }

  lemma Collision(s: string, t: string) returns (x: string, y: string)
    requires !Apart(s, t)
    ensures Keyed(s, x) == Keyed(t, y)
  {
    if HasPrefix(s + ":", t + ":") {
      var u := Extension(s, t);
      x, y := "", Keyed(u, "");
    } else {
      var u := Extension(t, s);
      x, y := Keyed(u, ""), "";
    }
  }

  /** Every key of the two owners names its owner and its id. */
  ghost predicate Unambiguous(s: string, t: string) {
    forall x, y :: Keyed(s, x) == Keyed(t, y) ==> s == t && x == y
  }

  /** Keys of two owners are unambiguous for all ids if and only if the owners are apart. */
  lemma UnambiguousIff(s: string, t: string)
    ensures Unambiguous(s, t) <==> Apart(s, t)
  {
    if Apart(s, t) {
      forall x, y | Keyed(s, x) == Keyed(t, y) ensures s == t && x == y { KeyedInjective(s, x, t, y); }
    } else {
      var x, y := Collision(s, t);
    }
  }

  // ---------- ids that have been trimmed ----------

  /** `s` is a key of `t`, for an id that begins without white space. */
  predicate Extends(s: string, t: string) {
    HasPrefix(s, t + ":") && LeadingSpace(s[|t| + 1..]) == 0
  }

  predicate Discernible(s: string, t: string) {
    s == t || (!Extends(s, t) && !Extends(t, s))
  }

  lemma KeyedStart(u: string, x: string)
    ensures LeadingSpace(Keyed(u, x)) == LeadingSpace(u)
  {
    var k := Keyed(u, x);
    assert forall i :: 0 <= i < |u| ==> k[i] == u[i];
    assert k[|u|] == ':';
  }

  lemma KeyedTrimmed(u: string)
    requires LeadingSpace(u) == 0
    ensures Trimmed(Keyed(u, "c"))
  {
    KeyedStart(u, "c");
    var k := Keyed(u, "c");
    assert k[|k| - 1] == 'c';
    TrimmedEnds(k);
  }

  /** The longer owner of two that share a key is a key of the shorter one. */
  lemma LongerExtends(s: string, x: string, t: string, y: string)
    requires Keyed(s, x) == Keyed(t, y) && |t| < |s| && LeadingSpace(y) == 0
    ensures Extends(s, t)
  {
    var k := Keyed(s, x);
    var u := s[|t| + 1..];
    assert k[..|s|] == s && k[..|t|] == t && k[|t|] == ':';
    assert s[..|t| + 1] == k[..|t| + 1] == t + ":";
    assert y == k[|t| + 1..] == Keyed(u, x);
    KeyedStart(u, x);
  }

  /** For discernible owners, and ids that begin without white space, a key names one
      owner and one id. */
  lemma DiscernibleKeys(s: string, x: string, t: string, y: string)
    requires Discernible(s, t) && LeadingSpace(x) == 0 && LeadingSpace(y) == 0
    requires Keyed(s, x) == Keyed(t, y)
    ensures s == t && x == y
  {
    var k := Keyed(s, x);
    if |t| < |s| { LongerExtends(s, x, t, y); }
    if |s| < |t| { LongerExtends(t, y, s, x); }
    assert k[..|s|] == s && k[..|t|] == t;
    assert k[|s| + 1..] == x && k[|t| + 1..] == y;
  }

  lemma TrimmedCollision(s: string, t: string) returns (x: string, y: string)
    requires !Discernible(s, t)
    ensures Trimmed(x) && Trimmed(y) && Keyed(s, x) == Keyed(t, y)
  {
    TrimmedEnds("c");
    if Extends(s, t) {
      var u := s[|t| + 1..];
      assert s == s[..|t| + 1] + u;
      KeyedTrimmed(u);
      x, y := "c", Keyed(u, "c");
    } else {
      var u := t[|s| + 1..];
      assert t == t[..|s| + 1] + u;
      KeyedTrimmed(u);
      x, y := Keyed(u, "c"), "c";
    }
  }

  /** Every key of the two owners names its owner and its id, among trimmed ids. */
  ghost predicate UnambiguousTrimmed(s: string, t: string) {
    forall x, y :: Trimmed(x) && Trimmed(y) && Keyed(s, x) == Keyed(t, y) ==> s == t && x == y
  }

  /** Keys of two owners are unambiguous for all trimmed ids if and only if neither owner
      is the other followed by a colon and a text that begins without white space. */
  lemma UnambiguousTrimmedIff(s: string, t: string)
    ensures UnambiguousTrimmed(s, t) <==> Discernible(s, t)
  {
    if Discernible(s, t) {
      forall x, y | Trimmed(x) && Trimmed(y) && Keyed(s, x) == Keyed(t, y) ensures s == t && x == y {
        TrimmedStart(x);
        TrimmedStart(y);
        DiscernibleKeys(s, x, t, y);
      }
    } else {
      var x, y := TrimmedCollision(s, t);
    }
  }

  lemma ApartIsDiscernible(s: string, t: string)
    requires Apart(s, t)
    ensures Discernible(s, t)
  {
    if HasPrefix(s, t + ":") { PrefixOfKey(s, t); }
    if HasPrefix(t, s + ":") { PrefixOfKey(t, s); }
  }

  lemma PrefixOfKey(s: string, t: string)
    requires HasPrefix(s, t + ":")
    ensures HasPrefix(s + ":", t + ":")
  {
    assert (s + ":")[..|t| + 1] == s[..|t| + 1];
  }
}
