/** The JavaScript string operations the extension relies on, over
    `string` (a sequence of characters): `toLowerCase`, `toUpperCase` of one
    character, `trim`, `startsWith`, `endsWith`, `includes`, `indexOf`,
    first-occurrence `replace`, and the two regular-expression replacements
    the source uses (`/\/$/` and `/^www\./`). */
module JsString {

  /** Lower-casing of one character (ASCII letters only). */
  function LowerChar(c: char): char
  {
    if 'A' <= c <= 'Z' then (c as int + 32) as char else c
  }

  /** Upper-casing of one character (ASCII letters only). */
  function UpperChar(c: char): char
  {
    if 'a' <= c <= 'z' then (c as int - 32) as char else c
  }

  /** `s.toLowerCase()`. */
  function Lower(s: string): (r: string)
    ensures |r| == |s|
    ensures forall i :: 0 <= i < |s| ==> r[i] == LowerChar(s[i])
  {
    seq(|s|, i requires 0 <= i < |s| => LowerChar(s[i]))
  }

  /** Lower-casing twice is lower-casing once. */
  lemma LowerIdempotent(s: string)
    ensures Lower(Lower(s)) == Lower(s)
  {
  }

  /** The characters `String.prototype.trim` removes: the WhiteSpace and
      LineTerminator code points of ECMAScript (section 12.2 and 12.3 of
      ECMA-262), including every space separator of Unicode category Zs. */
  predicate IsSpace(c: char)
  {
    var n := c as int;
    || (0x09 <= n <= 0x0D) || n == 0x20 || n == 0xA0 || n == 0x1680
    || (0x2000 <= n <= 0x200A) || n == 0x2028 || n == 0x2029
    || n == 0x202F || n == 0x205F || n == 0x3000 || n == 0xFEFF
  }

  /** Lower-casing never turns a space into a non-space or back. */
  lemma LowerCharKeepsSpace(c: char)
    ensures IsSpace(LowerChar(c)) == IsSpace(c)
  {
  }

  /** Number of leading characters `trim` removes. */
  function LeadingSpaces(s: string): (n: nat)
    ensures n <= |s|
    ensures forall i :: 0 <= i < n ==> IsSpace(s[i])
    ensures n < |s| ==> !IsSpace(s[n])
  {
    if |s| > 0 && IsSpace(s[0]) then 1 + LeadingSpaces(s[1..]) else 0
  }

  /** Number of trailing characters `trim` removes. */
  function TrailingSpaces(s: string): (n: nat)
    ensures n <= |s|
    ensures forall i :: |s| - n <= i < |s| ==> IsSpace(s[i])
    ensures n < |s| ==> !IsSpace(s[|s| - n - 1])
  {
    if |s| > 0 && IsSpace(s[|s| - 1]) then 1 + TrailingSpaces(s[..|s| - 1]) else 0
  }

  /** `s.trim()`: the infix of `s` left after removing its leading and
      trailing spaces; it neither starts nor ends with a space
      (`TrimRemovesOnlySpaces` says that only spaces were removed). */
  function Trim(s: string): (r: string)
    ensures LeadingSpaces(s) + |r| <= |s|
    ensures |r| > 0 ==> !IsSpace(r[0]) && !IsSpace(r[|r| - 1])
    ensures r == s[LeadingSpaces(s)..LeadingSpaces(s) + |r|]
  {
    var lead := LeadingSpaces(s);
    var t := s[lead..];
    var m := |t| - TrailingSpaces(t);
    var r := t[..m];
    assert r == s[lead..lead + m];
    r
  }

  /** Everything `trim` removes is a space, and it yields the empty string
      exactly for an all-space input. */
  lemma TrimRemovesOnlySpaces(s: string)
    ensures forall i :: 0 <= i < LeadingSpaces(s) ==> IsSpace(s[i])
    ensures forall i :: LeadingSpaces(s) + |Trim(s)| <= i < |s| ==> IsSpace(s[i])
    ensures Trim(s) == [] <==> forall i :: 0 <= i < |s| ==> IsSpace(s[i])
  {
    var lead := LeadingSpaces(s);
    var t := s[lead..];
    var m := |t| - TrailingSpaces(t);
    forall i | lead + m <= i < |s|
      ensures IsSpace(s[i])
    {
      assert s[i] == t[i - lead];
    }
  }

  /** A string without surrounding spaces is its own trim. */
  lemma TrimOfTrimmed(s: string)
    requires |s| > 0 ==> !IsSpace(s[0]) && !IsSpace(s[|s| - 1])
    ensures Trim(s) == s
  {
    assert LeadingSpaces(s) == 0;
    assert TrailingSpaces(s[LeadingSpaces(s)..]) == 0;
  }

  /** `trim` is idempotent. */
  lemma TrimIdempotent(s: string)
    ensures Trim(Trim(s)) == Trim(s)
  {
    TrimOfTrimmed(Trim(s));
  }

  lemma {:induction false} LeadingSpacesLower(s: string)
    ensures LeadingSpaces(Lower(s)) == LeadingSpaces(s)
  {
    if |s| > 0 {
      LowerCharKeepsSpace(s[0]);
      assert Lower(s)[1..] == Lower(s[1..]);
      LeadingSpacesLower(s[1..]);
    }
  }

  lemma {:induction false} TrailingSpacesLower(s: string)
    ensures TrailingSpaces(Lower(s)) == TrailingSpaces(s)
  {
    if |s| > 0 {
      LowerCharKeepsSpace(s[|s| - 1]);
      assert Lower(s)[..|s| - 1] == Lower(s[..|s| - 1]);
      TrailingSpacesLower(s[..|s| - 1]);
    }
  }

  /** Lower-casing and trimming commute, so `g.toLowerCase().trim()` is the
      same string as `g.trim().toLowerCase()`. */
  lemma TrimLowerCommute(s: string)
    ensures Trim(Lower(s)) == Lower(Trim(s))
  {
    LeadingSpacesLower(s);
    var lead := LeadingSpaces(s);
    var t := s[lead..];
    assert Lower(s)[lead..] == Lower(t);
    TrailingSpacesLower(t);
    var m := |t| - TrailingSpaces(t);
    assert Trim(Lower(s)) == Lower(t)[..m];
    assert Trim(s) == t[..m];
    assert Lower(t)[..m] == Lower(t[..m]);
  }

  /** `s.startsWith(p)`. */
  predicate StartsWith(s: string, p: string)
  {
    |p| <= |s| && s[..|p|] == p
  }

  /** `s.endsWith(p)`. */
  predicate EndsWith(s: string, p: string)
  {
    |p| <= |s| && s[|s| - |p|..] == p
  }

  /** `pat` occurs in `s` starting at index `i`. */
  predicate OccursAt(s: string, pat: string, i: int)
  {
    0 <= i && i + |pat| <= |s| && s[i..i + |pat|] == pat
  }

  /** `s.indexOf(pat, k)`: the first occurrence at or after `k`, or -1. */
  function IndexFrom(s: string, pat: string, k: nat): (r: int)
    ensures r == -1 || (k <= r && OccursAt(s, pat, r))
    ensures r == -1 ==> forall i :: k <= i ==> !OccursAt(s, pat, i)
    ensures r != -1 ==> forall i :: k <= i < r ==> !OccursAt(s, pat, i)
    decreases |s| - k
  {
    if k + |pat| > |s| then -1
    else if s[k..k + |pat|] == pat then k
    else IndexFrom(s, pat, k + 1)
  }

  /** `s.indexOf(pat)`. */
  function IndexOf(s: string, pat: string): (r: int)
    ensures r == -1 <==> forall i :: !OccursAt(s, pat, i)
    ensures r != -1 ==> OccursAt(s, pat, r) && forall i :: 0 <= i < r ==> !OccursAt(s, pat, i)
  {
    IndexFrom(s, pat, 0)
  }

  /** `s.includes(pat)`. */
  predicate Includes(s: string, pat: string)
  {
    IndexOf(s, pat) != -1
  }

  /** An occurrence of a word is an occurrence of each of its prefixes. */
  lemma IncludesPrefixOf(s: string, w: string, v: string)
    requires Includes(s, w) && StartsWith(w, v)
    ensures Includes(s, v)
  {
    var i := IndexOf(s, w);
    assert s[i..i + |v|] == s[i..i + |w|][..|v|];
    assert OccursAt(s, v, i);
  }

  /** A pattern with a character that does not occur in `s` is not
      included in `s`. */
  lemma CharAbsent(s: string, pat: string, j: nat)
    requires j < |pat| && forall i :: 0 <= i < |s| ==> s[i] != pat[j]
    ensures !Includes(s, pat)
  {
    forall i ensures !OccursAt(s, pat, i) {
      if 0 <= i && i + |pat| <= |s| {
        assert s[i..i + |pat|][j] == s[i + j];
      }
    }
  }

  /** `s.replace(pat, rep)` with a string pattern: only the first
      occurrence is replaced. */
  function ReplaceFirst(s: string, pat: string, rep: string): (r: string)
    ensures !Includes(s, pat) ==> r == s
    ensures Includes(s, pat) ==>
              exists i :: OccursAt(s, pat, i) && (forall j :: 0 <= j < i ==> !OccursAt(s, pat, j))
                && r == s[..i] + rep + s[i + |pat|..]
  {
    var i := IndexOf(s, pat);
    if i == -1 then s else s[..i] + rep + s[i + |pat|..]
  }

  /** When `s` starts with `pat`, replacing it by `rep` swaps the prefix
      and keeps the rest. */
  lemma ReplaceFirstPrefix(s: string, pat: string, rep: string)
    requires StartsWith(s, pat)
    ensures ReplaceFirst(s, pat, rep) == rep + s[|pat|..]
  {
    assert OccursAt(s, pat, 0);
    assert s[..0] == [];
  }

  /** When the text before an occurrence of `pat` cannot start one (it
      lacks `pat`'s first character), that occurrence is the one replaced
      and everything around it is kept. */
  lemma ReplaceAfterCleanPrefix(pre: string, pat: string, rep: string, rest: string)
    requires |pat| > 0 && forall i :: 0 <= i < |pre| ==> pre[i] != pat[0]
    ensures ReplaceFirst(pre + pat + rest, pat, rep) == pre + rep + rest
  {
    var s := pre + pat + rest;
    assert s[|pre|..|pre| + |pat|] == pat;
    assert OccursAt(s, pat, |pre|);
    forall i | 0 <= i < |pre| ensures !OccursAt(s, pat, i) {
      if i + |pat| <= |s| {
        assert s[i..i + |pat|][0] == pre[i];
      }
    }
    var k := IndexOf(s, pat);
    assert k == |pre|;
    assert s[..k] == pre;
    assert s[k + |pat|..] == rest;
  }

  /** `s.replace(/\/$/, '')`: removes one trailing slash, if any. */
  function StripTrailingSlash(s: string): (r: string)
    ensures EndsWith(s, "/") ==> r + "/" == s
    ensures !EndsWith(s, "/") ==> r == s
  {
    if |s| > 0 && s[|s| - 1] == '/' then s[..|s| - 1] else s
  }

  /** `s.endsWith('/') ? s : s + '/'`: forces exactly one trailing slash. */
  function WithTrailingSlash(s: string): (r: string)
    ensures EndsWith(r, "/")
    ensures StartsWith(r, s) && |r| <= |s| + 1
  {
    if |s| > 0 && s[|s| - 1] == '/' then s else s + "/"
  }

  /** `s.replace(/^www\./, '')`: removes one leading `www.`, if any. */
  function StripWww(s: string): (r: string)
    ensures StartsWith(s, "www.") ==> "www." + r == s
    ensures !StartsWith(s, "www.") ==> r == s
  {
    if StartsWith(s, "www.") then s[4..] else s
  }
}
