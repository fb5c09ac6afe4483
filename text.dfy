/**
 * The string operations the tools use to build file names and labels: decimal
 * rendering of integers (template literals `${n}`), prefix tests, `lastIndexOf`,
 * `split(".")[0]`, the `\s` character class of JavaScript regular expressions and
 * `String.prototype.trim`.  Strings are sequences of Unicode characters.
 */
module Text {

  predicate IsDigit(c: char)
  {
    '0' <= c <= '9'
  }

  function DigitChar(d: nat): (c: char)
    requires d < 10
    ensures IsDigit(c) && c as int - '0' as int == d
  {
    ('0' as int + d) as char
  }

  predicate AllDigits(s: string)
  {
    forall i :: 0 <= i < |s| ==> IsDigit(s[i])
  }

  /** `${n}` for a non-negative integer: its decimal digits, no leading zero. */
  function NatToString(n: nat): (s: string)
    ensures |s| >= 1 && AllDigits(s)
    ensures s[0] == '0' ==> n == 0
    ensures n >= 10 ==> |s| >= 2
    decreases n
  {
    if n < 10 then [DigitChar(n)] else NatToString(n / 10) + [DigitChar(n % 10)]
  }

  /** The number a string of decimal digits denotes (the reading `parseInt` gives it). */
  function DigitsValue(s: string): nat
    requires AllDigits(s)
  {
    if s == [] then 0 else DigitsValue(s[..|s| - 1]) * 10 + (s[|s| - 1] as int - '0' as int)
  }

  /** Reading the decimal rendering back gives the number. */
  lemma {:induction false} NatToStringRoundTrip(n: nat)
    ensures DigitsValue(NatToString(n)) == n
    decreases n
  {
    if n >= 10 {
      NatToStringRoundTrip(n / 10);
      var s := NatToString(n);
      assert s[..|s| - 1] == NatToString(n / 10);
    }
  }

  /** Distinct numbers print differently. */
  lemma NatToStringInjective(a: nat, b: nat)
    requires NatToString(a) == NatToString(b)
    ensures a == b
  {
    NatToStringRoundTrip(a);
    NatToStringRoundTrip(b);
  }

  /** `${i}` for any integer: a minus sign before the digits of a negative number. */
  function IntToString(i: int): (s: string)
    ensures |s| >= 1
    ensures i >= 0 ==> s == NatToString(i)
    ensures i < 0 ==> s == "-" + NatToString(-i) && s[1..] == NatToString(-i)
  {
    if i < 0 then "-" + NatToString(-i) else NatToString(i)
  }

  /** `${i}` is made of digits and possibly a leading minus sign, nothing else. */
  lemma IntToStringAlphabet(i: int)
    ensures forall k :: 0 <= k < |IntToString(i)| ==> IntToString(i)[k] == '-' || IsDigit(IntToString(i)[k])
    ensures 'x' !in IntToString(i) && '.' !in IntToString(i) && '_' !in IntToString(i)
  {
    var s := IntToString(i);
    if i < 0 {
      forall k | 1 <= k < |s| ensures IsDigit(s[k]) {
        assert s[k] == NatToString(-i)[k - 1];
      }
    }
  }

  lemma IntToStringInjective(a: int, b: int)
    requires IntToString(a) == IntToString(b)
    ensures a == b
  {
    var s := IntToString(a);
    if a < 0 && b < 0 {
      assert s[1..] == NatToString(-a) == NatToString(-b);
      NatToStringInjective(-a, -b);
    } else if a >= 0 && b >= 0 {
      NatToStringInjective(a, b);
    } else {
      assert false;
    }
  }

  /** `${w}x${h}`, the dimensions tag that the exporters put in every file name. */
  function DimsTag(w: int, h: int): string
  {
    IntToString(w) + "x" + IntToString(h)
  }

  /** A dimensions tag holds no '_' and no '.', the separators of an exported file name. */
  lemma DimsTagSeparators(w: int, h: int)
    ensures '_' !in DimsTag(w, h) && '.' !in DimsTag(w, h)
  {
    var a, b := IntToString(w), IntToString(h);
    IntToStringAlphabet(w);
    IntToStringAlphabet(h);
    forall k | 0 <= k < |DimsTag(w, h)| ensures DimsTag(w, h)[k] != '_' && DimsTag(w, h)[k] != '.' {
      if k < |a| {
        assert DimsTag(w, h)[k] == a[k];
      } else if k > |a| {
        assert DimsTag(w, h)[k] == b[k - |a| - 1];
      }
    }
  }

  /** Different dimensions give different tags, so the tag identifies the size. */
  lemma DimsTagInjective(w: int, h: int, w': int, h': int)
    requires DimsTag(w, h) == DimsTag(w', h')
    ensures w == w' && h == h'
  {
    var a, a' := IntToString(w), IntToString(w');
    var t, t' := DimsTag(w, h), DimsTag(w', h');
    FirstXOfTag(w, h);
    FirstXOfTag(w', h');
    assert |a| == |a'|;
    assert a == t[..|a|] == t'[..|a|] == a';
    IntToStringInjective(w, w');
    assert IntToString(h) == t[|a| + 1..] == t'[|a| + 1..] == IntToString(h');
    IntToStringInjective(h, h');
  }

  /** The first 'x' of a dimensions tag is the one after the width. */
  lemma FirstXOfTag(w: int, h: int)
    ensures var n := |IntToString(w)|;
            DimsTag(w, h)[n] == 'x' && forall i :: 0 <= i < n ==> DimsTag(w, h)[i] != 'x'
  {
    var a := IntToString(w);
    IntToStringAlphabet(w);
    forall i | 0 <= i < |a| ensures DimsTag(w, h)[i] != 'x' {
      assert DimsTag(w, h)[i] == a[i];
    }
  }

  lemma PrefixCancel(p: string, m: string, m': string)
    requires p + m == p + m'
    ensures m == m'
  {
    assert m == (p + m)[|p|..] == (p + m')[|p|..] == m';
  }

  lemma SuffixCancel(m: string, m': string, q: string)
    requires m + q == m' + q
    ensures m == m'
  {
    var k := |m + q| - |q|;
    assert m == (m + q)[..k] == (m' + q)[..k] == m';
  }

  /** In `b + [c] + t` with no c in t, the last c is the one after b. */
  lemma LastIndexOfJoin(b: string, c: char, t: string)
    requires c !in t
    ensures LastIndexOf(b + [c] + t, c) == |b|
  {
    JoinShape(b, c, t);
    LastIndexOfAt(b + [c] + t, c, |b|);
  }

  /** In `b + [c] + t` with no c in t, the separator sits at |b| and no c follows it. */
  lemma JoinShape(b: string, c: char, t: string)
    requires c !in t
    ensures var s := b + [c] + t;
            |s| == |b| + 1 + |t| && s[|b|] == c && forall j :: |b| < j < |s| ==> s[j] != c
  {
    var s := b + [c] + t;
    forall j | |b| < j < |s| ensures s[j] != c {
      var k := j - |b| - 1;
      assert s[j] == t[k] && t[k] in t;
    }
  }

  /** The last c of s is at i when s[i] is c and nothing after it is. */
  lemma {:induction false} LastIndexOfAt(s: string, c: char, i: nat)
    requires i < |s| && s[i] == c && forall j :: i < j < |s| ==> s[j] != c
    ensures LastIndexOf(s, c) == i
  {
    var n := |s| - 1;
    if i < n {
      assert s[n] != c;
      assert s[..n][i] == c;
      LastIndexOfAt(s[..n], c, i);
    }
  }

  /** `b + [c] + t` with no c in t splits back into b and t. */
  lemma JoinInjective(b: string, t: string, b': string, t': string, c: char)
    requires c !in t && c !in t' && b + [c] + t == b' + [c] + t'
    ensures b == b' && t == t'
  {
    LastIndexOfJoin(b, c, t);
    LastIndexOfJoin(b', c, t');
    var s := b + [c] + t;
    assert b == s[..|b|] && b' == s[..|b'|];
    assert t == s[|b| + 1..] && t' == s[|b'| + 1..];
  }

  /** A name `b_t.e` whose tag t holds no '_' splits back into its base and tag. */
  lemma {:induction false} SplitTaggedName(b: string, t: string, b': string, t': string, e: string)
    requires '_' !in t && '_' !in t'
    requires b + "_" + t + "." + e == b' + "_" + t' + "." + e
    ensures b == b' && t == t'
  {
    var x, y := b + "_" + t, b' + "_" + t';
    assert x + "." + e == x + ("." + e);
    assert y + "." + e == y + ("." + e);
    SuffixCancel(x, y, "." + e);
    JoinInjective(b, t, b', t', '_');
  }

  /** `s.startsWith(p)`. */
  predicate StartsWith(s: string, p: string)
  {
    |p| <= |s| && s[..|p|] == p
  }

  /** `s.endsWith(p)`. */
  predicate EndsWith(s: string, p: string)
  {
    |p| <= |s| && s[|s| - |p|..] == p
  }

  /** `s.lastIndexOf(c)`: the index of the last c, or -1 when there is none. */
  function LastIndexOf(s: string, c: char): (r: int)
    ensures -1 <= r < |s|
    ensures r >= 0 ==> s[r] == c
    ensures forall j :: r < j < |s| ==> s[j] != c
  {
    if s == [] then -1
    else if s[|s| - 1] == c then |s| - 1
    else LastIndexOf(s[..|s| - 1], c)
  }

  /** `s.split(c)[0]`: the text before the first c, or all of s when it has none. */
  function BeforeFirst(s: string, c: char): (r: string)
    ensures StartsWith(s, r) && c !in r
    ensures |r| < |s| ==> s[|r|] == c
  {
    if s == [] then []
    else if s[0] == c then []
    else [s[0]] + BeforeFirst(s[1..], c)
  }

  /** When the first c of s is at i, the text before the first c is s[..i]. */
  lemma {:induction false} BeforeFirstAt(s: string, c: char, i: nat)
    requires i < |s| && s[i] == c && forall j :: 0 <= j < i ==> s[j] != c
    ensures BeforeFirst(s, c) == s[..i]
  {
    if i > 0 {
      BeforeFirstAt(s[1..], c, i - 1);
      assert [s[0]] + s[1..][..i - 1] == s[..i];
    }
  }

  /** A character matched by `\s` in a JavaScript regular expression. */
  predicate IsJsWhitespace(c: char)
  {
    c == ' ' || c == '\t' || c == '\n' || c == '\U{000B}' || c == '\U{000C}' || c == '\r'
    || c == '\U{00A0}' || c == '\U{1680}' || ('\U{2000}' <= c <= '\U{200A}')
    || c == '\U{2028}' || c == '\U{2029}' || c == '\U{202F}' || c == '\U{205F}'
    || c == '\U{3000}' || c == '\U{FEFF}'
  }

  predicate NoWhitespace(s: string)
  {
    forall i :: 0 <= i < |s| ==> !IsJsWhitespace(s[i])
  }

  /** s with its leading whitespace removed. */
  function DropWhitespace(s: string): (r: string)
    ensures |r| <= |s| && s[|s| - |r|..] == r
    ensures r == [] || !IsJsWhitespace(r[0])
    ensures forall i :: 0 <= i < |s| - |r| ==> IsJsWhitespace(s[i])
  {
    if s != [] && IsJsWhitespace(s[0]) then DropWhitespace(s[1..]) else s
  }

  /** `s.replace(/\s+/g, "_")`: every maximal run of whitespace becomes one underscore. */
  function UnderscoreWhitespace(s: string): (r: string)
    ensures NoWhitespace(r)
    ensures |r| <= |s|
    decreases |s|
  {
    if s == [] then []
    else if IsJsWhitespace(s[0]) then "_" + UnderscoreWhitespace(DropWhitespace(s))
    else [s[0]] + UnderscoreWhitespace(s[1..])
  }

  /** A string without whitespace passes through unchanged, so the replacement is idempotent. */
  lemma {:induction false} UnderscoreWhitespaceIdentity(s: string)
    requires NoWhitespace(s)
    ensures UnderscoreWhitespace(s) == s
  {
    if s != [] {
      UnderscoreWhitespaceIdentity(s[1..]);
    }
  }

  /** A stretch without whitespace in front passes through unchanged. */
  lemma {:induction false} UnderscoreWhitespacePrefix(a: string, s: string)
    requires NoWhitespace(a)
    ensures UnderscoreWhitespace(a + s) == a + UnderscoreWhitespace(s)
  {
    if a != [] {
      var t := a[1..];
      assert NoWhitespace(t) by {
        forall i | 0 <= i < |t| ensures !IsJsWhitespace(t[i]) {
          assert t[i] == a[i + 1];
        }
      }
      UnderscoreWhitespacePrefix(t, s);
      assert a + s == [a[0]] + (t + s) && a == [a[0]] + t;
      UnderscoreWhitespaceCons(a[0], t + s);
    } else {
      assert a + s == s;
    }
  }

  /** A character that is not whitespace is copied. */
  lemma UnderscoreWhitespaceCons(c: char, s: string)
    requires !IsJsWhitespace(c)
    ensures UnderscoreWhitespace([c] + s) == [c] + UnderscoreWhitespace(s)
  {
    assert ([c] + s)[0] == c && ([c] + s)[1..] == s;
  }

  /** One whitespace character before a word becomes one underscore. */
  lemma {:induction false} UnderscoreWhitespaceSpace(c: char, b: string)
    requires IsJsWhitespace(c) && NoWhitespace(b) && b != []
    ensures UnderscoreWhitespace([c] + b) == "_" + b
  {
    assert ([c] + b)[1..] == b;
    assert DropWhitespace([c] + b) == b;
    UnderscoreWhitespaceIdentity(b);
  }

  /** All the characters of s are whitespace. */
  predicate AllWhitespace(s: string)
  {
    forall i :: 0 <= i < |s| ==> IsJsWhitespace(s[i])
  }

  /** Dropping the leading whitespace of a run followed by a word leaves the word. */
  lemma {:induction false} DropWhitespaceRun(w: string, b: string)
    requires AllWhitespace(w) && (b == [] || !IsJsWhitespace(b[0]))
    ensures DropWhitespace(w + b) == b
  {
    if w == [] {
      assert w + b == b;
    } else {
      assert (w + b)[0] == w[0] && (w + b)[1..] == w[1..] + b;
      assert AllWhitespace(w[1..]) by {
        forall i | 0 <= i < |w[1..]| ensures IsJsWhitespace(w[1..][i]) {
          assert w[1..][i] == w[i + 1];
        }
      }
      DropWhitespaceRun(w[1..], b);
    }
  }

  /**
   * A whole run of whitespace, however long, becomes one underscore.  With
   * UnderscoreWhitespacePrefix this determines the replacement on every string: split it
   * into alternating stretches without and runs of whitespace.
   */
  lemma UnderscoreWhitespaceRun(w: string, b: string)
    requires w != [] && AllWhitespace(w) && (b == [] || !IsJsWhitespace(b[0]))
    ensures UnderscoreWhitespace(w + b) == "_" + UnderscoreWhitespace(b)
  {
    DropWhitespaceRun(w, b);
    assert (w + b)[0] == w[0];
  }

  /** A word, one run of whitespace and the rest: the word, one underscore, the rest replaced. */
  lemma UnderscoreWhitespaceWord(a: string, w: string, b: string)
    requires NoWhitespace(a) && w != [] && AllWhitespace(w) && (b == [] || !IsJsWhitespace(b[0]))
    ensures UnderscoreWhitespace(a + w + b) == a + "_" + UnderscoreWhitespace(b)
  {
    assert a + w + b == a + (w + b);
    UnderscoreWhitespacePrefix(a, w + b);
    UnderscoreWhitespaceRun(w, b);
  }

  /** A stretch of printable ASCII other than the space, so without whitespace. */
  predicate PlainWord(s: string)
  {
    forall i :: 0 <= i < |s| ==> '!' <= s[i] <= '~'
  }

  lemma PlainWordNoWhitespace(s: string)
    requires PlainWord(s)
    ensures NoWhitespace(s)
  {
  }

  /** Two plain words separated by a space are joined by one underscore. */
  lemma UnderscoreTwoWords(c: string, a: string, b: string)
    requires c == a + " " + b && PlainWord(a) && PlainWord(b) && b != []
    ensures UnderscoreWhitespace(c) == a + "_" + b
  {
    PlainWordNoWhitespace(a);
    PlainWordNoWhitespace(b);
    UnderscoreWhitespaceWord(a, " ", b);
    UnderscoreWhitespaceIdentity(b);
  }

  /** A plain word and a space in front of more text become the word and one underscore. */
  lemma UnderscoreWordThen(c: string, a: string, rest: string)
    requires c == a + " " + rest && PlainWord(a) && rest != [] && '!' <= rest[0] <= '~'
    ensures UnderscoreWhitespace(c) == a + "_" + UnderscoreWhitespace(rest)
  {
    PlainWordNoWhitespace(a);
    UnderscoreWhitespaceWord(a, " ", rest);
  }

  /** Four plain words separated by single spaces are joined by underscores. */
  lemma UnderscoreFourWords(c: string, a: string, b: string, d: string, e: string)
    requires c == a + " " + (b + " " + (d + " " + e))
    requires PlainWord(a) && PlainWord(b) && PlainWord(d) && PlainWord(e) && b != [] && d != [] && e != []
    ensures UnderscoreWhitespace(c) == a + "_" + (b + "_" + (d + "_" + e))
  {
    UnderscoreTwoWords(d + " " + e, d, e);
    UnderscoreWordThen(b + " " + (d + " " + e), b, d + " " + e);
    UnderscoreWordThen(c, a, b + " " + (d + " " + e));
  }

  /** s with its trailing whitespace removed. */
  function DropTrailingWhitespace(s: string): (r: string)
    ensures |r| <= |s| && s[..|r|] == r
    ensures r == [] || !IsJsWhitespace(r[|r| - 1])
    ensures forall i :: |r| <= i < |s| ==> IsJsWhitespace(s[i])
  {
    if s != [] && IsJsWhitespace(s[|s| - 1]) then DropTrailingWhitespace(s[..|s| - 1]) else s
  }

  /** `s.trim()`. */
  function Trim(s: string): string
  {
    DropTrailingWhitespace(DropWhitespace(s))
  }

  /** `s.trim()` is empty exactly when every character of s is whitespace. */
  lemma TrimEmptyIff(s: string)
    ensures Trim(s) == [] <==> forall i :: 0 <= i < |s| ==> IsJsWhitespace(s[i])
  {
    var d := DropWhitespace(s);
    if Trim(s) == [] {
      forall i | 0 <= i < |s| ensures IsJsWhitespace(s[i]) {
        if i >= |s| - |d| {
          assert false;
        }
      }
    } else {
      assert d != [] && !IsJsWhitespace(d[0]);
      assert s[|s| - |d|] == d[0];
    }
  }

  /** Every character of s is whitespace: what a falsy `s.trim()` says, one character at a time. */
  predicate Blank(s: string)
  {
    s == [] || (IsJsWhitespace(s[0]) && Blank(s[1..]))
  }

  /** Blank text is text made of whitespace only. */
  lemma {:induction false} BlankAll(s: string)
    ensures Blank(s) <==> forall i :: 0 <= i < |s| ==> IsJsWhitespace(s[i])
  {
    if s != [] {
      BlankAll(s[1..]);
      assert forall i :: 1 <= i < |s| ==> s[i] == s[1..][i - 1];
    }
  }

  /** Blank text is the text whose `trim()` is empty. */
  lemma BlankIff(s: string)
    ensures Blank(s) <==> Trim(s) == []
  {
    BlankAll(s);
    TrimEmptyIff(s);
  }
}
