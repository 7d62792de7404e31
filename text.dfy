/** The string cleanup the scraper applies to text it reads from the markup:
    `String.prototype.trim`, `toLowerCase` (ASCII letters only),
    `replace(/\s+/g, "")` and `replace(/^prefix/, "")`. */
module Text {

  /** The ECMAScript WhiteSpace and LineTerminator code points. `trim()` removes
      exactly these at both ends, and the regular-expression class `\s` matches
      exactly these. */
  predicate IsWhitespace(c: char) {
    || c == '\t' || c == '\n' || c == '\U{0B}' || c == '\U{0C}' || c == '\r' || c == ' '
    || c == '\U{A0}' || c == '\U{1680}' || ('\U{2000}' <= c <= '\U{200A}')
    || c == '\U{2028}' || c == '\U{2029}' || c == '\U{202F}' || c == '\U{205F}'
    || c == '\U{3000}' || c == '\U{FEFF}'
  }

  predicate AllWhitespace(s: string) {
    forall i :: 0 <= i < |s| ==> IsWhitespace(s[i])
  }

  predicate NoWhitespace(s: string) {
    forall i :: 0 <= i < |s| ==> !IsWhitespace(s[i])
  }

  /** Neither the first nor the last character is whitespace. */
  predicate IsTrimmed(s: string) {
    s == [] || (!IsWhitespace(s[0]) && !IsWhitespace(s[|s| - 1]))
  }

  predicate IsAsciiUpper(c: char) {
    'A' <= c <= 'Z'
  }

  predicate NoAsciiUpper(s: string) {
    forall i :: 0 <= i < |s| ==> !IsAsciiUpper(s[i])
  }

  // ---------------------------------------------------------------------------
  // trim()

  /** The length of the run of whitespace that starts `s`. */
  function LeadingWhitespace(s: string): (n: nat)
    ensures n <= |s|
    ensures AllWhitespace(s[..n])
    ensures n < |s| ==> !IsWhitespace(s[n])
  {
    if |s| > 0 && IsWhitespace(s[0]) then
      var m := LeadingWhitespace(s[1..]);
      assert forall i :: 1 <= i < 1 + m ==> s[i] == s[1..][..m][i - 1];
      1 + m
    else
      0
  }

  /** The length of the run of whitespace that ends `s`. */
  function TrailingWhitespace(s: string): (n: nat)
    ensures n <= |s|
    ensures AllWhitespace(s[|s| - n..])
    ensures n < |s| ==> !IsWhitespace(s[|s| - n - 1])
  {
    if |s| > 0 && IsWhitespace(s[|s| - 1]) then
      var init := s[..|s| - 1];
      var m := TrailingWhitespace(init);
      assert forall i :: |s| - 1 - m <= i < |s| - 1 ==> s[i] == init[|init| - m..][i - (|s| - 1 - m)];
      1 + m
    else
      0
  }

  /** `s.trim()`: `s` without its leading and trailing whitespace. */
  function Trim(s: string): (r: string)
    ensures IsTrimmed(r)
    ensures LeadingWhitespace(s) + |r| <= |s|
    ensures r == s[LeadingWhitespace(s)..LeadingWhitespace(s) + |r|]
    ensures AllWhitespace(s[..LeadingWhitespace(s)])
    ensures AllWhitespace(s[LeadingWhitespace(s) + |r|..])
  {
    var i := LeadingWhitespace(s);
    if i == |s| then
      []
    else
      var t := TrailingWhitespace(s);
      s[i..|s| - t]
  }

  /** A whitespace run followed by a non-whitespace character (or the end) is
      exactly the leading whitespace. */
  lemma {:induction false} LeadingWhitespaceIs(s: string, n: nat)
    requires n <= |s|
    requires AllWhitespace(s[..n])
    requires n < |s| ==> !IsWhitespace(s[n])
    ensures LeadingWhitespace(s) == n
  {
    if n > 0 {
      assert s[..n][0] == s[0];
      var rest := s[1..];
      var pre := rest[..n - 1];
      forall k | 0 <= k < |pre| ensures IsWhitespace(pre[k]) {
        assert pre[k] == s[..n][k + 1];
      }
      if n < |s| {
        assert rest[n - 1] == s[n];
      }
      LeadingWhitespaceIs(rest, n - 1);
    }
  }

  /** A whitespace run preceded by a non-whitespace character (or the start)
      is exactly the trailing whitespace. */
  lemma {:induction false} TrailingWhitespaceIs(s: string, n: nat)
    requires n <= |s|
    requires AllWhitespace(s[|s| - n..])
    requires n < |s| ==> !IsWhitespace(s[|s| - n - 1])
    ensures TrailingWhitespace(s) == n
  {
    if n > 0 {
      assert s[|s| - n..][n - 1] == s[|s| - 1];
      var init := s[..|s| - 1];
      var post := init[|init| - (n - 1)..];
      forall k | 0 <= k < |post| ensures IsWhitespace(post[k]) {
        assert post[k] == s[|s| - n..][k];
      }
      if n < |s| {
        assert init[|init| - (n - 1) - 1] == s[|s| - n - 1];
      }
      TrailingWhitespaceIs(init, n - 1);
    }
  }

  /** What trim() keeps is determined by the input: any split of `s` into a
      whitespace run, a trimmed middle and a whitespace run has trim() equal to
      that middle. */
  lemma TrimUnique(s: string, i: nat, j: nat)
    requires i <= j <= |s|
    requires AllWhitespace(s[..i]) && AllWhitespace(s[j..])
    requires IsTrimmed(s[i..j])
    ensures Trim(s) == s[i..j]
  {
    if i == j {
      assert AllWhitespace(s[..|s|]) by {
        forall k | 0 <= k < |s| ensures IsWhitespace(s[k]) {
          if k < i {
            assert s[k] == s[..i][k];
          } else {
            assert s[k] == s[j..][k - j];
          }
        }
      }
      LeadingWhitespaceIs(s, |s|);
    } else {
      assert s[i] == s[i..j][0];
      assert s[j - 1] == s[i..j][j - i - 1];
      LeadingWhitespaceIs(s, i);
      assert s[|s| - (|s| - j)..] == s[j..];
      TrailingWhitespaceIs(s, |s| - j);
    }
  }

  /** Trimming a string that has no whitespace at its ends changes nothing. */
  lemma TrimOfTrimmed(s: string)
    requires IsTrimmed(s)
    ensures Trim(s) == s
  {
    assert s[..0] == [] && s[|s|..] == [] && s[0..|s|] == s;
    TrimUnique(s, 0, |s|);
  }

  /** trim() is idempotent. */
  lemma TrimIdempotent(s: string)
    ensures Trim(Trim(s)) == Trim(s)
  {
    TrimOfTrimmed(Trim(s));
  }

  // ---------------------------------------------------------------------------
  // toLowerCase()

  function LowerChar(c: char): (d: char)
    ensures !IsAsciiUpper(d)
    ensures IsWhitespace(d) <==> IsWhitespace(c)
  {
    if IsAsciiUpper(c) then (c as int + 32) as char else c
  }

  /** `s.toLowerCase()` restricted to the ASCII letters. */
  function ToLower(s: string): (r: string)
    ensures |r| == |s|
    ensures NoAsciiUpper(r)
    ensures forall i :: 0 <= i < |s| ==> (IsWhitespace(r[i]) <==> IsWhitespace(s[i]))
  {
    seq(|s|, i requires 0 <= i < |s| => LowerChar(s[i]))
  }

  /** A string with no upper-case ASCII letter is its own lower case. */
  lemma ToLowerOfLower(s: string)
    requires NoAsciiUpper(s)
    ensures ToLower(s) == s
  {
    assert forall i :: 0 <= i < |s| ==> ToLower(s)[i] == s[i];
  }

  // ---------------------------------------------------------------------------
  // replace(/\s+/g, "")

  /** `s.replace(/\s+/g, "")`: every whitespace character removed, the rest in order. */
  function RemoveWhitespace(s: string): (r: string)
    ensures |r| <= |s|
    ensures NoWhitespace(r)
    ensures forall c :: c in r <==> c in s && !IsWhitespace(c)
  {
    if s == [] then
      []
    else
      var rest := RemoveWhitespace(s[1..]);
      assert forall c :: c in s <==> c == s[0] || c in s[1..];
      if IsWhitespace(s[0]) then rest else [s[0]] + rest
  }

  /** Removing whitespace from a string without any changes nothing. */
  lemma {:induction false} RemoveWhitespaceOfClean(s: string)
    requires NoWhitespace(s)
    ensures RemoveWhitespace(s) == s
  {
    if s != [] {
      assert NoWhitespace(s[1..]) by {
        assert forall i :: 0 <= i < |s| - 1 ==> s[1..][i] == s[i + 1];
      }
      RemoveWhitespaceOfClean(s[1..]);
      assert s == [s[0]] + s[1..];
    }
  }

  /** Whitespace removal distributes over concatenation. */
  lemma {:induction false} RemoveWhitespaceConcat(a: string, b: string)
    ensures RemoveWhitespace(a + b) == RemoveWhitespace(a) + RemoveWhitespace(b)
  {
    if a != [] {
      assert (a + b)[1..] == a[1..] + b;
      RemoveWhitespaceConcat(a[1..], b);
    } else {
      assert a + b == b;
    }
  }

  /** Lower-casing never introduces an upper-case letter where there was none:
      removing whitespace keeps a lower-case string lower-case. */
  lemma {:induction false} RemoveWhitespaceKeepsLower(s: string)
    requires NoAsciiUpper(s)
    ensures NoAsciiUpper(RemoveWhitespace(s))
  {
    var r := RemoveWhitespace(s);
    forall i | 0 <= i < |r| ensures !IsAsciiUpper(r[i]) {
      assert r[i] in r;
      var k :| 0 <= k < |s| && s[k] == r[i];
    }
  }

  // ---------------------------------------------------------------------------
  // replace(/^prefix/, "")

  /** `s.replace(/^p/, "")` for a literal `p`: `p` is removed only when `s`
      starts with it. */
  function StripPrefix(s: string, p: string): (r: string)
    ensures |r| <= |s|
    ensures r == s || (p <= s && p + r == s)
  {
    if p <= s then s[|p|..] else s
  }

  /** Stripping is the inverse of prepending the prefix. */
  lemma StripPrefixOfConcat(p: string, t: string)
    ensures StripPrefix(p + t, p) == t
  {
    assert p <= p + t;
    assert (p + t)[|p|..] == t;
  }

  /** A string that does not start with the prefix is left alone. */
  lemma StripPrefixAbsent(s: string, p: string)
    requires !(p <= s)
    ensures StripPrefix(s, p) == s
  {
  }

  // ---------------------------------------------------------------------------
  // Section names

  /** `name.trim().toLowerCase().replace(/\s+/g, "")`. */
  function NormalizeName(name: string): (k: string)
    ensures NoWhitespace(k)
    ensures NoAsciiUpper(k)
  {
    var lowered := ToLower(Trim(name));
    RemoveWhitespaceKeepsLower(lowered);
    RemoveWhitespace(lowered)
  }

  /** The key of a name is the name lower-cased with all whitespace removed:
      the trim makes no difference, since the whitespace it cuts off is removed
      anyway. */
  lemma NormalizeNameValue(name: string)
    ensures NormalizeName(name) == RemoveWhitespace(ToLower(name))
  {
    var i := LeadingWhitespace(name);
    var r := Trim(name);
    var pre := name[..i];
    var post := name[i + |r|..];
    assert name == pre + r + post;
    RemoveWhitespacePadded(pre, r, post);
  }

  /** Whitespace around a string disappears once lower-cased and removed. */
  lemma RemoveWhitespacePadded(pre: string, r: string, post: string)
    requires AllWhitespace(pre) && AllWhitespace(post)
    ensures RemoveWhitespace(ToLower(pre + r + post)) == RemoveWhitespace(ToLower(r))
  {
    ToLowerConcat(pre + r, post);
    ToLowerConcat(pre, r);
    var lpre, lr, lpost := ToLower(pre), ToLower(r), ToLower(post);
    RemoveWhitespaceConcat(lpre + lr, lpost);
    RemoveWhitespaceConcat(lpre, lr);
    RemoveWhitespaceOfBlank(lpre);
    RemoveWhitespaceOfBlank(lpost);
  }

  /** A string made only of whitespace is removed entirely. */
  lemma {:induction false} RemoveWhitespaceOfBlank(s: string)
    requires AllWhitespace(s)
    ensures RemoveWhitespace(s) == []
  {
    if s != [] {
      assert AllWhitespace(s[1..]) by {
        assert forall i :: 0 <= i < |s| - 1 ==> s[1..][i] == s[i + 1];
      }
      RemoveWhitespaceOfBlank(s[1..]);
    }
  }

  /** A name without whitespace or upper-case letters is its own key. */
  lemma NormalizeNameOfKey(k: string)
    requires NoWhitespace(k) && NoAsciiUpper(k)
    ensures NormalizeName(k) == k
  {
    assert IsTrimmed(k) by {
      if k != [] {
        assert !IsWhitespace(k[0]) && !IsWhitespace(k[|k| - 1]);
      }
    }
    TrimOfTrimmed(k);
    ToLowerOfLower(k);
    RemoveWhitespaceOfClean(k);
  }

  /** Two words separated by one space normalise to the two words lower-cased
      and run together. */
  lemma {:induction false} NormalizeTwoWords(a: string, b: string)
    requires a != [] && b != []
    requires NoWhitespace(a) && NoWhitespace(b)
    ensures NormalizeName(a + " " + b) == ToLower(a) + ToLower(b)
  {
    var s := a + " " + b;
    assert IsTrimmed(s) by {
      assert s[0] == a[0] && s[|s| - 1] == b[|b| - 1];
    }
    TrimOfTrimmed(s);
    ToLowerSpaced(a, b);
    RemoveSpace(ToLower(a), ToLower(b));
  }

  /** Lower-casing keeps a separating space. */
  lemma ToLowerSpaced(a: string, b: string)
    ensures ToLower(a + " " + b) == ToLower(a) + " " + ToLower(b)
  {
    ToLowerConcat(a + " ", b);
    ToLowerConcat(a, " ");
    assert ToLower(" ") == " ";
  }

  /** Removing whitespace from two clean words around a space joins them. */
  lemma RemoveSpace(a: string, b: string)
    requires NoWhitespace(a) && NoWhitespace(b)
    ensures RemoveWhitespace(a + " " + b) == a + b
  {
    var sp := " ";
    var x := a + sp;
    RemoveWhitespaceConcat(x, b);
    RemoveWhitespaceConcat(a, sp);
    RemoveWhitespaceOfClean(a);
    RemoveWhitespaceOfClean(b);
    assert RemoveWhitespace(sp) == [] by { assert sp[1..] == []; }
    assert RemoveWhitespace(x) == a;
  }

  /** Lower-casing works character by character. */
  lemma ToLowerConcat(a: string, b: string)
    ensures ToLower(a + b) == ToLower(a) + ToLower(b)
  {
    assert forall i :: 0 <= i < |a + b| ==> ToLower(a + b)[i] == (ToLower(a) + ToLower(b))[i];
  }

  /** Normalising a section name twice gives the same key as normalising it once. */
  lemma NormalizeNameIdempotent(name: string)
    ensures NormalizeName(NormalizeName(name)) == NormalizeName(name)
  {
    NormalizeNameOfKey(NormalizeName(name));
  }
}
