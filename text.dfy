/** The handful of Python `str` operations the assistant's validators and
    reply selectors are built from, over `seq<char>` (one `char` per Unicode
    code point, as in a Python `str`). */
module Text {
  import opened Wrappers

  /** `str.isspace()` for one character (and the `\s` class of a `str`
      regular expression): the Unicode White_Space characters plus the
      separators U+001C..U+001F. */
  predicate IsSpace(c: char)
  {
    ('\t' <= c <= '\r') || ('\U{1C}' <= c <= ' ') || c == '\U{85}' || c == '\U{A0}'
    || c == '\U{1680}' || ('\U{2000}' <= c <= '\U{200A}') || c == '\U{2028}' || c == '\U{2029}'
    || c == '\U{202F}' || c == '\U{205F}' || c == '\U{3000}'
  }

  predicate IsAsciiDigit(c: char) { '0' <= c <= '9' }

  predicate AllAsciiDigits(s: string) { forall i :: 0 <= i < |s| ==> IsAsciiDigit(s[i]) }

  function DigitValue(c: char): nat
    requires IsAsciiDigit(c)
  {
    c as int - '0' as int
  }

  function DigitChar(n: nat): char
    requires n < 10
  {
    ('0' as int + n) as char
  }

  /** `str.lstrip()`: drops the leading whitespace and nothing else. */
  function StripLeft(s: string): (r: string)
    ensures |r| <= |s| && r == s[|s| - |r|..]
    ensures forall i :: 0 <= i < |s| - |r| ==> IsSpace(s[i])
    ensures r == [] || !IsSpace(r[0])
  {
    if s != [] && IsSpace(s[0]) then StripLeft(s[1..]) else s
  }

  /** `str.rstrip()`: drops the trailing whitespace and nothing else. */
  function StripRight(s: string): (r: string)
    ensures |r| <= |s| && r == s[..|r|]
    ensures forall i :: |r| <= i < |s| ==> IsSpace(s[i])
    ensures r == [] || !IsSpace(r[|r| - 1])
  {
    if s != [] && IsSpace(s[|s| - 1]) then StripRight(s[..|s| - 1]) else s
  }

  /** `str.strip()`. */
  function Strip(s: string): (r: string)
  {
    StripRight(StripLeft(s))
  }

  /** A text that neither starts nor ends with whitespace is its own strip. */
  lemma StripUnchanged(s: string)
    requires s == [] || (!IsSpace(s[0]) && !IsSpace(s[|s| - 1]))
    ensures Strip(s) == s
  {
  }

  /** `str.lower()` on one character, for the ASCII and Latin-1 letters
      (A-Z, and U+00C0..U+00DE except the multiplication sign). */
  function LowerChar(c: char): char
  {
    if 'A' <= c <= 'Z' || ('\U{C0}' <= c <= '\U{DE}' && c != '\U{D7}') then
      (c as int + 32) as char
    else
      c
  }

  /** `str.lower()`, character by character. */
  function Lower(s: string): (r: string)
    ensures |r| == |s|
    ensures forall i :: 0 <= i < |s| ==> r[i] == LowerChar(s[i])
  {
    seq(|s|, i requires 0 <= i < |s| => LowerChar(s[i]))
  }

  /** `s.startswith(p)`. */
  predicate StartsWith(s: string, p: string)
  {
    |p| <= |s| && s[..|p|] == p
  }

  /** `p` occurs in `s` starting at index `i`. */
  predicate OccursAt(s: string, p: string, i: int)
  {
    0 <= i && i + |p| <= |s| && s[i..i + |p|] == p
  }

  /** `s.find(p, i)`: the first occurrence of `p` at or after `i`. */
  function FindFrom(s: string, p: string, i: nat): (r: Option<nat>)
    decreases |s| - i
    ensures r.Some? ==> i <= r.value && OccursAt(s, p, r.value)
    ensures r.Some? ==> forall j :: i <= j < r.value ==> !OccursAt(s, p, j)
    ensures r.None? ==> forall j :: i <= j ==> !OccursAt(s, p, j)
  {
    if i + |p| > |s| then None
    else if OccursAt(s, p, i) then Some(i)
    else FindFrom(s, p, i + 1)
  }

  function Find(s: string, p: string): Option<nat>
  {
    FindFrom(s, p, 0)
  }

  /** The first occurrence found is the first occurrence there is. */
  lemma FindIsFirst(s: string, p: string, k: nat)
    requires OccursAt(s, p, k)
    requires forall j :: 0 <= j < k ==> !OccursAt(s, p, j)
    ensures Find(s, p) == Some(k)
  {
  }

  /** `p in s`. */
  predicate Contains(s: string, p: string)
  {
    Find(s, p).Some?
  }

  /** `s.split(sep)[0]`: everything before the first `sep`. */
  function BeforeFirst(s: string, sep: string): string
  {
    match Find(s, sep)
    case Some(k) => s[..k]
    case None => s
  }

  /** Everything after the first `sep`, which must occur. Hence
      `s.split(sep)[1] == BeforeFirst(AfterFirst(s, sep), sep)`. */
  function AfterFirst(s: string, sep: string): string
    requires Contains(s, sep)
  {
    s[Find(s, sep).value + |sep|..]
  }

  /** `s.replace(p, rep)`: every occurrence of `p`, found left to right
      without overlap, replaced by `rep`. */
  function Replace(s: string, p: string, rep: string): string
    requires p != []
    decreases |s|
  {
    if |s| < |p| then s
    else if s[..|p|] == p then rep + Replace(s[|p|..], p, rep)
    else [s[0]] + Replace(s[1..], p, rep)
  }

  /** Reference definition: `s` with every `c` taken out. */
  function Without(s: string, c: char): (r: string)
    ensures |r| <= |s|
    ensures forall i :: 0 <= i < |r| ==> r[i] != c
  {
    if s == [] then []
    else if s[0] == c then Without(s[1..], c)
    else [s[0]] + Without(s[1..], c)
  }

  /** Replacing a one-character string by "" is taking that character out. */
  lemma {:induction false} ReplaceCharIsWithout(s: string, c: char)
    ensures Replace(s, [c], "") == Without(s, c)
    decreases |s|
  {
    if |s| >= 1 {
      ReplaceCharIsWithout(s[1..], c);
      if s[0] != c {
        assert s[..1] != [c];
      }
    }
  }

  /** Removing the pairs "**" before the single stars leaves no star that
      removing single stars alone would have kept. */
  lemma {:induction false} WithoutAfterPairRemoval(s: string, c: char)
    ensures Without(Replace(s, [c, c], ""), c) == Without(s, c)
    decreases |s|
  {
    if |s| < 2 {
    } else if s[..2] == [c, c] {
      WithoutAfterPairRemoval(s[2..], c);
      assert s[0] == c && s[1..][0] == c;
      assert s[1..][1..] == s[2..];
      assert Replace(s, [c, c], "") == Replace(s[2..], [c, c], "");
    } else {
      WithoutAfterPairRemoval(s[1..], c);
      var rest := Replace(s[1..], [c, c], "");
      assert ([s[0]] + rest)[1..] == rest;
    }
  }

  /** A text without any occurrence of `p` is left unchanged by replacing `p`. */
  lemma {:induction false} ReplaceAbsent(s: string, p: string, rep: string)
    requires p != []
    requires forall j :: !OccursAt(s, p, j)
    ensures Replace(s, p, rep) == s
    decreases |s|
  {
    if |s| >= |p| {
      assert !OccursAt(s, p, 0);
      forall j ensures !OccursAt(s[1..], p, j) {
        if OccursAt(s[1..], p, j) {
          assert s[1..][j..j + |p|] == s[j + 1..j + 1 + |p|];
          assert OccursAt(s, p, j + 1);
        }
      }
      ReplaceAbsent(s[1..], p, rep);
    }
  }

  /** An occurrence of `p + q` is an occurrence of `p`: so whatever contains
      `p + q` contains `p`. */
  lemma ContainsPrefixOf(s: string, p: string, q: string)
    requires Contains(s, p + q)
    ensures Contains(s, p)
  {
    var k := Find(s, p + q).value;
    assert s[k..k + |p|] == (p + q)[..|p|] == p;
    assert OccursAt(s, p, k);
  }

  /** A text whose characters `lower()` leaves alone is its own lower case. */
  lemma LowerUnchanged(s: string)
    requires forall i :: 0 <= i < |s| ==> LowerChar(s[i]) == s[i]
    ensures Lower(s) == s
  {
  }

  /** A text none of whose characters starts `p` cannot contain `p`. */
  lemma AbsentFirstChar(s: string, p: string)
    requires p != []
    requires forall i :: 0 <= i < |s| ==> s[i] != p[0]
    ensures !Contains(s, p)
  {
    forall k | 0 <= k && k + |p| <= |s|
      ensures !OccursAt(s, p, k)
    {
      assert s[k..k + |p|][0] == s[k];
    }
  }

  /** An occurrence of `p + q` holds an occurrence of `q`. */
  lemma ContainsSuffixOf(s: string, p: string, q: string)
    requires Contains(s, p + q)
    ensures Contains(s, q)
  {
    var k := Find(s, p + q).value;
    assert s[k + |p|..k + |p| + |q|] == (p + q)[|p|..] == q;
    assert OccursAt(s, q, k + |p|);
  }

  /** `any(p in s for p in ps)`. */
  predicate ContainsAny(s: string, ps: seq<string>)
  {
    exists i :: 0 <= i < |ps| && Contains(s, ps[i])
  }
}
