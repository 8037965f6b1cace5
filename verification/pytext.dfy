/** The Python string built-ins the script relies on: str.isspace, str.split(),
    ' '.join, str.replace, int(str) (with the whitespace it skips) and str(int). */
module PyText {
  import opened Failures

  /** The 29 code points Python's str.isspace accepts. */
  const Whitespace: set<char> := {
    '\t', '\n', '\U{B}', '\U{C}', '\r', '\U{1C}', '\U{1D}', '\U{1E}', '\U{1F}', ' ',
    '\U{85}', '\U{A0}', '\U{1680}',
    '\U{2000}', '\U{2001}', '\U{2002}', '\U{2003}', '\U{2004}', '\U{2005}',
    '\U{2006}', '\U{2007}', '\U{2008}', '\U{2009}', '\U{200A}',
    '\U{2028}', '\U{2029}', '\U{202F}', '\U{205F}', '\U{3000}'}

  /** str.isspace for one character. */
  predicate IsSpace(c: char) {
    c in Whitespace
  }

  /** The whitespace int() skips around a number. Python first turns every
      non-ASCII whitespace character into a space and then skips only
      ' ', '\t', '\n', '\v', '\f' and '\r', so the ASCII separators
      U+001C to U+001F, which str.split() treats as whitespace, are not skipped. */
  const NumberSpace: set<char> := Whitespace - {'\U{1C}', '\U{1D}', '\U{1E}', '\U{1F}'}

  predicate IsNumberSpace(c: char) {
    c in NumberSpace
  }

  /** A word as str.split() produces it: non-empty, no whitespace inside. */
  predicate IsWord(w: string) {
    w != [] && forall i :: 0 <= i < |w| ==> !IsSpace(w[i])
  }

  predicate IsLetter(c: char) {
    'A' <= c <= 'Z' || 'a' <= c <= 'z'
  }

  /** A non-empty run of ASCII letters is a word and holds no comma. */
  lemma LettersAreWord(w: string)
    requires w != [] && forall i :: 0 <= i < |w| ==> IsLetter(w[i])
    ensures IsWord(w) && ',' !in w
  {
    forall i | 0 <= i < |w|
      ensures !IsSpace(w[i])
    {
      LetterNotSpace(w[i]);
    }
  }

  lemma LetterNotSpace(c: char)
    requires IsLetter(c)
    ensures !IsSpace(c)
  {
  }

  predicate AllWords(ws: seq<string>) {
    forall i :: 0 <= i < |ws| ==> IsWord(ws[i])
  }

  // ---------------------------------------------------------------------------
  // str.split() with no separator

  /** Length of the longest whitespace-free prefix of s. */
  function TokenEnd(s: string): (k: nat)
    ensures k <= |s|
    ensures forall i :: 0 <= i < k ==> !IsSpace(s[i])
    ensures k < |s| ==> IsSpace(s[k])
  {
    if s == [] || IsSpace(s[0]) then 0 else 1 + TokenEnd(s[1..])
  }

  /** str.split(): the maximal runs of non-whitespace characters, in order. */
  function Split(s: string): seq<string>
    decreases |s|
  {
    if s == [] then []
    else if IsSpace(s[0]) then Split(s[1..])
    else
      var k := TokenEnd(s);
      [s[..k]] + Split(s[k..])
  }

  /** Every word str.split() returns is non-empty and free of whitespace. */
  lemma {:induction false} SplitWords(s: string)
    ensures AllWords(Split(s))
    decreases |s|
  {
    if s == [] {
    } else if IsSpace(s[0]) {
      SplitWords(s[1..]);
    } else {
      var k := TokenEnd(s);
      SplitWords(s[k..]);
      assert Split(s) == [s[..k]] + Split(s[k..]);
    }
  }

  /** sep.join(words) */
  function Join(sep: string, words: seq<string>): string {
    if words == [] then []
    else if |words| == 1 then words[0]
    else words[0] + sep + Join(sep, words[1..])
  }

  /** The non-whitespace characters of s, in order: an independent
      description of what the words of Split(s) are made of. */
  function NonSpace(s: string): string {
    if s == [] then []
    else (if IsSpace(s[0]) then [] else [s[0]]) + NonSpace(s[1..])
  }

  function Concat(words: seq<string>): string {
    if words == [] then [] else words[0] + Concat(words[1..])
  }

  lemma {:induction false} NonSpaceAppend(a: string, b: string)
    ensures NonSpace(a + b) == NonSpace(a) + NonSpace(b)
    decreases |a|
  {
    if a != [] {
      assert (a + b)[1..] == a[1..] + b;
      NonSpaceAppend(a[1..], b);
    } else {
      assert a + b == b;
    }
  }

  lemma {:induction false} NonSpaceOfWord(w: string)
    requires forall i :: 0 <= i < |w| ==> !IsSpace(w[i])
    ensures NonSpace(w) == w
    decreases |w|
  {
    if w != [] {
      NonSpaceOfWord(w[1..]);
      assert w == [w[0]] + w[1..];
    }
  }

  /** Gluing the words of s back together gives exactly the non-whitespace
      characters of s: split loses whitespace and nothing else. */
  lemma {:induction false} SplitKeepsNonSpace(s: string)
    ensures Concat(Split(s)) == NonSpace(s)
    decreases |s|
  {
    if s == [] {
    } else if IsSpace(s[0]) {
      SplitKeepsNonSpace(s[1..]);
    } else {
      var k := TokenEnd(s);
      assert s == s[..k] + s[k..];
      SplitKeepsNonSpace(s[k..]);
      NonSpaceAppend(s[..k], s[k..]);
      NonSpaceOfWord(s[..k]);
      assert Split(s) == [s[..k]] + Split(s[k..]);
    }
  }

  /** TokenEnd only looks as far as the first whitespace character. */
  lemma {:induction false} TokenEndAppend(a: string, t: string)
    requires TokenEnd(a) < |a| || t == [] || IsSpace(t[0])
    ensures TokenEnd(a + t) == TokenEnd(a)
    decreases |a|
  {
    if a == [] {
      assert a + t == t;
    } else if IsSpace(a[0]) {
    } else {
      assert (a + t)[1..] == a[1..] + t;
      TokenEndAppend(a[1..], t);
    }
  }

  /** Splitting a text made of two parts separated by a whitespace character
      splits the parts: words are the maximal whitespace-free runs. */
  lemma {:induction false} SplitAroundSpace(a: string, c: char, b: string)
    requires IsSpace(c)
    ensures Split(a + [c] + b) == Split(a) + Split(b)
    decreases |a|
  {
    var s := a + [c] + b;
    if a == [] {
      assert s == [c] + b;
      assert s[1..] == b;
    } else if IsSpace(a[0]) {
      assert s[1..] == a[1..] + [c] + b;
      SplitAroundSpace(a[1..], c, b);
    } else {
      var k := TokenEnd(a);
      TokenEndAppend(a, [c] + b);
      assert s == a + ([c] + b);
      assert TokenEnd(s) == k;
      assert s[..k] == a[..k];
      if k < |a| {
        assert s[k..] == a[k..] + [c] + b;
        SplitAroundSpace(a[k..], c, b);
        assert Split(a) == [a[..k]] + Split(a[k..]);
      } else {
        assert s[k..] == [c] + b;
        assert s[k..][1..] == b;
        assert a[k..] == [];
        assert Split(a) == [a[..k]] + Split(a[k..]);
      }
    }
  }

  /** A word splits into itself. */
  lemma SplitWord(w: string)
    requires IsWord(w)
    ensures Split(w) == [w]
  {
    TokenEndAppend(w, []);
    assert w + [] == w;
    var k := TokenEnd(w);
    assert k == |w|;
    assert w[..k] == w && w[k..] == [];
  }

  /** Round trip: splitting words joined by single spaces gives the words back. */
  lemma {:induction false} SplitJoin(words: seq<string>)
    requires AllWords(words)
    ensures Split(Join(" ", words)) == words
    decreases |words|
  {
    if words == [] {
    } else if |words| == 1 {
      SplitWord(words[0]);
    } else {
      assert IsWord(words[0]);
      SplitWord(words[0]);
      assert AllWords(words[1..]);
      SplitJoin(words[1..]);
      assert Join(" ", words) == words[0] + " " + Join(" ", words[1..]);
      SplitAroundSpace(words[0], ' ', Join(" ", words[1..]));
      assert words == [words[0]] + words[1..];
    }
  }

  // ---------------------------------------------------------------------------
  // The shape of ' '.join(s.split())

  /** No whitespace at either end, the only whitespace is the plain space,
      and no two whitespace characters are adjacent. */
  predicate Normalized(r: string) {
    && (r != [] ==> !IsSpace(r[0]) && !IsSpace(r[|r| - 1]))
    && (forall i :: 0 <= i < |r| && IsSpace(r[i]) ==> r[i] == ' ')
    && (forall i, j :: 0 <= i < |r| && 0 <= j < |r| && j == i + 1 ==> !IsSpace(r[i]) || !IsSpace(r[j]))
  }

  lemma NormalizedGlue(a: string, b: string)
    requires a != [] && b != [] && Normalized(a) && Normalized(b)
    ensures Normalized(a + " " + b)
  {
    var r := a + " " + b;
    assert |r| == |a| + 1 + |b|;
    forall i | 0 <= i < |r|
      ensures r[i] == (if i < |a| then a[i] else if i == |a| then ' ' else b[i - |a| - 1])
    {
    }
    forall i, j | 0 <= i < |r| && 0 <= j < |r| && j == i + 1
      ensures !IsSpace(r[i]) || !IsSpace(r[j])
    {
      if i < |a| - 1 {
        assert r[i] == a[i] && r[j] == a[j];
      } else if i == |a| - 1 {
        assert r[i] == a[|a| - 1];
      } else if i == |a| {
        assert r[j] == b[0];
      } else {
        assert r[i] == b[i - |a| - 1] && r[j] == b[j - |a| - 1];
      }
    }
  }

  lemma {:induction false} JoinNormalized(words: seq<string>)
    requires AllWords(words)
    ensures Normalized(Join(" ", words))
    ensures words != [] ==> Join(" ", words) != []
    decreases |words|
  {
    if words == [] {
    } else if |words| == 1 {
      assert IsWord(words[0]);
    } else {
      assert IsWord(words[0]);
      assert AllWords(words[1..]);
      JoinNormalized(words[1..]);
      NormalizedGlue(words[0], Join(" ", words[1..]));
    }
  }

  // ---------------------------------------------------------------------------
  // int()'s skipping of surrounding whitespace, and str.replace(c, '')

  function StripLeft(s: string): (r: string)
    ensures r == [] || !IsNumberSpace(r[0])
  {
    if s != [] && IsNumberSpace(s[0]) then StripLeft(s[1..]) else s
  }

  function StripRight(s: string): (r: string)
    ensures r == [] || !IsNumberSpace(r[|r| - 1])
  {
    if s != [] && IsNumberSpace(s[|s| - 1]) then StripRight(s[..|s| - 1]) else s
  }

  /** The text int() reads: the whitespace it skips removed from both ends. */
  function Strip(s: string): string {
    StripRight(StripLeft(s))
  }

  lemma {:induction false} StripLeftKeeps(s: string, c: char)
    requires c in s && !IsNumberSpace(c)
    ensures c in StripLeft(s)
    decreases |s|
  {
    if s != [] && IsNumberSpace(s[0]) {
      assert c != s[0];
      assert s == [s[0]] + s[1..];
      StripLeftKeeps(s[1..], c);
    }
  }

  lemma {:induction false} StripRightKeeps(s: string, c: char)
    requires c in s && !IsNumberSpace(c)
    ensures c in StripRight(s)
    decreases |s|
  {
    if s != [] && IsNumberSpace(s[|s| - 1]) {
      assert c != s[|s| - 1];
      assert s == s[..|s| - 1] + [s[|s| - 1]];
      StripRightKeeps(s[..|s| - 1], c);
    }
  }

  /** Stripping removes only the whitespace int() skips. */
  lemma StripKeeps(s: string, c: char)
    requires c in s && !IsNumberSpace(c)
    ensures c in Strip(s)
  {
    StripLeftKeeps(s, c);
    StripRightKeeps(StripLeft(s), c);
  }

  /** s.replace(c, ''): every occurrence of c deleted. */
  function RemoveAll(s: string, c: char): (r: string)
    ensures c !in r
    ensures |r| <= |s|
  {
    if s == [] then []
    else (if s[0] == c then [] else [s[0]]) + RemoveAll(s[1..], c)
  }

  /** Every character other than c is kept, as often as it occurs; with
      RemoveAllAppend this fixes their order too. */
  lemma {:induction false} RemoveAllKeepsOthers(s: string, c: char)
    ensures multiset(RemoveAll(s, c)) == multiset(s)[c := 0]
    decreases |s|
  {
    if s != [] {
      RemoveAllKeepsOthers(s[1..], c);
      assert s == [s[0]] + s[1..];
      assert multiset(s) == multiset([s[0]]) + multiset(s[1..]);
    }
  }

  lemma {:induction false} RemoveAllAbsent(s: string, c: char)
    requires c !in s
    ensures RemoveAll(s, c) == s
    decreases |s|
  {
    if s != [] {
      RemoveAllAbsent(s[1..], c);
      assert s == [s[0]] + s[1..];
    }
  }

  lemma {:induction false} RemoveAllAppend(a: string, b: string, c: char)
    ensures RemoveAll(a + b, c) == RemoveAll(a, c) + RemoveAll(b, c)
    decreases |a|
  {
    if a == [] {
      assert a + b == b;
    } else {
      var head := if a[0] == c then [] else [a[0]];
      assert (a + b)[0] == a[0];
      assert (a + b)[1..] == a[1..] + b;
      assert RemoveAll(a + b, c) == head + RemoveAll(a[1..] + b, c);
      RemoveAllAppend(a[1..], b, c);
      assert RemoveAll(a, c) == head + RemoveAll(a[1..], c);
      assert head + (RemoveAll(a[1..], c) + RemoveAll(b, c))
          == (head + RemoveAll(a[1..], c)) + RemoveAll(b, c);
    }
  }

  // ---------------------------------------------------------------------------
  // int(str) in base 10 and str(int)

  predicate IsDigit(c: char) { '0' <= c <= '9' }

  function DigitValue(c: char): (d: nat)
    requires IsDigit(c)
    ensures d < 10
  {
    c as int - '0' as int
  }

  function DigitChar(d: nat): (c: char)
    requires d < 10
    ensures IsDigit(c) && DigitValue(c) == d
  {
    ('0' as int + d) as char
  }

  /** Python's digit grammar for int(): digit (['_'] digit)*. */
  predicate IsDigitRun(s: string)
    ensures IsDigitRun(s) ==> forall i :: 0 <= i < |s| ==> IsDigit(s[i]) || s[i] == '_'
    decreases |s|
  {
    && |s| > 0
    && IsDigit(s[0])
    && (|s| == 1 || IsDigitRun(s[1..]) || (s[1] == '_' && IsDigitRun(s[2..])))
  }

  /** The value of a string of digits, underscores ignored. */
  function DigitsValue(s: string): nat
    requires forall i :: 0 <= i < |s| ==> IsDigit(s[i]) || s[i] == '_'
  {
    if s == [] then 0
    else if s[|s| - 1] == '_' then DigitsValue(s[..|s| - 1])
    else 10 * DigitsValue(s[..|s| - 1]) + DigitValue(s[|s| - 1])
  }

  /** int(s): surrounding whitespace (NumberSpace) allowed, an optional sign, then a digit run.
      None stands for the ValueError Python raises. */
  function ParseInt(s: string): Option<int> {
    var t := Strip(s);
    if |t| > 0 && (t[0] == '+' || t[0] == '-') then
      if IsDigitRun(t[1..]) then
        var v: int := DigitsValue(t[1..]);
        Some(if t[0] == '-' then -v else v)
      else None
    else if IsDigitRun(t) then
      Some(DigitsValue(t))
    else None
  }

  /** int() succeeds only on text made of the whitespace it skips, digits,
      signs and underscores. */
  lemma ParseIntAlphabet(s: string, c: char)
    requires ParseInt(s).Some? && c in s
    ensures IsNumberSpace(c) || IsDigit(c) || c in "+-_"
  {
    if !IsNumberSpace(c) {
      StripKeeps(s, c);
      var t := Strip(s);
      if |t| > 0 && (t[0] == '+' || t[0] == '-') {
        assert t == [t[0]] + t[1..];
      }
    }
  }

  /** int() skips a tab or a no-break space around a number, but not the
      ASCII separator U+001C, which str.split() does treat as whitespace. */
  lemma NumberSpaceExamples()
    ensures ParseInt(['\t', '7', '\U{A0}']) == Some(7)
    ensures ParseInt(['\U{1C}', '7']) == None && IsSpace('\U{1C}')
  {
    var padded := ['\t', '7', '\U{A0}'];
    assert IsNumberSpace('\t') && !IsNumberSpace('7') && IsNumberSpace('\U{A0}');
    assert padded[1..] == ['7', '\U{A0}'];
    assert StripLeft(['7', '\U{A0}']) == ['7', '\U{A0}'];
    assert StripLeft(padded) == ['7', '\U{A0}'];
    assert ['7', '\U{A0}'][..1] == ['7'];
    assert StripRight(['7']) == ['7'];
    assert Strip(padded) == ['7'];
    assert Strip(['\U{1C}', '7']) == ['\U{1C}', '7'];
  }

  /** str(n) for n >= 0: decimal digits without leading zeros. */
  function NatToDigits(n: nat): (s: string)
    ensures s != [] && forall i :: 0 <= i < |s| ==> IsDigit(s[i])
    ensures s[0] == '0' ==> n == 0
  {
    if n < 10 then [DigitChar(n)] else NatToDigits(n / 10) + [DigitChar(n % 10)]
  }

  /** str(i) */
  function IntToString(i: int): string {
    if i < 0 then "-" + NatToDigits(-i) else NatToDigits(i)
  }

  /** str(i) is one word made of a sign and digits, so it holds no comma. */
  lemma IntToStringWord(i: int)
    ensures IsWord(IntToString(i)) && ',' !in IntToString(i)
  {
    var s := IntToString(i);
    assert forall k :: 0 <= k < |s| ==> s[k] == '-' || IsDigit(s[k]);
  }

  lemma {:induction false} DigitsValueOfNat(n: nat)
    ensures DigitsValue(NatToDigits(n)) == n
    decreases n
  {
    if n >= 10 {
      var s := NatToDigits(n);
      assert s[..|s| - 1] == NatToDigits(n / 10);
      DigitsValueOfNat(n / 10);
    } else {
      assert NatToDigits(n)[..0] == [];
    }
  }

  lemma {:induction false} AllDigitsIsRun(s: string)
    requires s != [] && forall i :: 0 <= i < |s| ==> IsDigit(s[i])
    ensures IsDigitRun(s)
    decreases |s|
  {
    if |s| > 1 {
      AllDigitsIsRun(s[1..]);
    }
  }

  /** Round trip: int(str(i)) == i for every integer i. */
  lemma IntRoundTrip(i: int)
    ensures ParseInt(IntToString(i)) == Some(i)
  {
    var s := IntToString(i);
    IntToStringWord(i);
    StripWord(s);
    if i < 0 {
      NegativeRoundTrip(i);
    } else {
      var d := NatToDigits(i);
      assert s == d;
      AllDigitsIsRun(d);
      DigitsValueOfNat(i);
      assert !(d[0] == '+' || d[0] == '-');
    }
  }

  lemma NegativeRoundTrip(i: int)
    requires i < 0
    ensures var s := IntToString(i);
      s[0] == '-' && IsDigitRun(s[1..]) && DigitsValue(s[1..]) == -i
  {
    var s := IntToString(i);
    var d := NatToDigits(-i);
    assert s == "-" + d;
    assert s[1..] == d;
    AllDigitsIsRun(d);
    DigitsValueOfNat(-i);
  }

  /** Stripping a word changes nothing. */
  lemma StripWord(w: string)
    requires IsWord(w)
    ensures Strip(w) == w
  {
    assert StripLeft(w) == w;
    assert StripRight(w) == w;
  }

  /** int() accepts any run of ASCII digits, leading zeros included, and
      reads its decimal value. */
  lemma DigitsParse(s: string)
    requires s != [] && forall i :: 0 <= i < |s| ==> IsDigit(s[i])
    ensures ParseInt(s) == Some(DigitsValue(s))
  {
    DigitsAreWord(s);
    StripWord(s);
    AllDigitsIsRun(s);
    UnsignedRunParses(s);
  }

  lemma DigitsAreWord(s: string)
    requires s != [] && forall i :: 0 <= i < |s| ==> IsDigit(s[i])
    ensures IsWord(s)
  {
    forall i | 0 <= i < |s|
      ensures !IsSpace(s[i])
    {
      assert IsDigit(s[i]);
    }
  }

  /** A digit run with nothing to strip is read as its value. */
  lemma UnsignedRunParses(s: string)
    requires Strip(s) == s && IsDigitRun(s)
    ensures ParseInt(s) == Some(DigitsValue(s))
  {
    assert IsDigit(s[0]);
  }

  /** str is injective on integers (a consequence of the round trip). */
  lemma IntToStringInjective(i: int, j: int)
    requires IntToString(i) == IntToString(j)
    ensures i == j
  {
    IntRoundTrip(i);
    IntRoundTrip(j);
  }
}
