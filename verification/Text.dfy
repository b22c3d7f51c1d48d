/** Python's `str` operations that the linter uses, on ASCII text. */
module Text {

  /** str.isspace */
  predicate IsSpace(c: char) {
    9 <= c as int <= 13 || 28 <= c as int <= 32
  }

  /** The blank, tab, line feed, vertical tab, form feed, carriage return and the four separators. */
  lemma SpacesAre(c: char)
    ensures IsSpace(c) <==> c in " \t\n\U{B}\U{C}\r\U{1C}\U{1D}\U{1E}\U{1F}"
  {
  }

  predicate IsDigit(c: char) {
    '0' <= c <= '9'
  }

  lemma DigitsAre(c: char)
    ensures IsDigit(c) <==> c in "0123456789"
  {
  }

  /** No white space at either end. */
  predicate Trimmed(s: string) {
    s == [] || (!IsSpace(s[0]) && !IsSpace(s[|s| - 1]))
  }

  /** str.lstrip */
  function StripLeft(s: string): string {
    if s != [] && IsSpace(s[0]) then StripLeft(s[1..]) else s
  }

  /** str.rstrip */
  function StripRight(s: string): string {
    if s != [] && IsSpace(s[|s| - 1]) then StripRight(s[..|s| - 1]) else s
  }

  /** str.strip */
  function Strip(s: string): string {
    StripRight(StripLeft(s))
  }

  lemma {:induction false} StripRightTrims(s: string)
    ensures StripRight(s) <= s
    ensures StripRight(s) != [] ==> !IsSpace(StripRight(s)[|StripRight(s)| - 1])
  {
    if s != [] && IsSpace(s[|s| - 1]) {
      StripRightTrims(s[..|s| - 1]);
    }
  }

  lemma {:induction false} StripLeftTrims(s: string)
    ensures StripLeft(s) != [] ==> !IsSpace(StripLeft(s)[0])
  {
    if s != [] && IsSpace(s[0]) {
      StripLeftTrims(s[1..]);
    }
  }

  lemma StripTrims(s: string)
    ensures Trimmed(Strip(s))
  {
    StripLeftTrims(s);
    StripRightTrims(StripLeft(s));
  }

  lemma TrimmedIsStripped(s: string)
    requires Trimmed(s)
    ensures Strip(s) == s
  {
  }

  /** str.startswith */
  predicate StartsWith(s: string, prefix: string): (b: bool)
    ensures b <==> prefix <= s
  {
    prefix == [] || (s != [] && s[0] == prefix[0] && StartsWith(s[1..], prefix[1..]))
  }

  predicate IsWord(s: string) {
    s != [] && !IsSpace(s[0]) && (|s| == 1 || IsWord(s[1..]))
  }

  /** str.isdigit */
  predicate AllDigits(s: string) {
    s != [] && forall k :: 0 <= k < |s| ==> IsDigit(s[k])
  }

  // ---- decimal numbers ----

  function Digit(d: nat): char
    requires d < 10
  {
    '0' + d as char
  }

  /** int(s), for a string of digits */
  function FromDecimal(s: string): nat
    requires forall k :: 0 <= k < |s| ==> IsDigit(s[k])
  {
    if s == [] then 0
    else
      assert IsDigit(s[|s| - 1]);
      10 * FromDecimal(s[..|s| - 1]) + (s[|s| - 1] as int - '0' as int)
  }

  /** str(n) */
  function ToDecimal(n: nat): string {
    if n < 10 then [Digit(n)] else ToDecimal(n / 10) + [Digit(n % 10)]
  }

  lemma {:induction false} DecimalRoundTrip(n: nat)
    ensures AllDigits(ToDecimal(n)) && FromDecimal(ToDecimal(n)) == n
  {
    if n < 10 {
      assert ToDecimal(n)[..0] == [];
    } else {
      DecimalRoundTrip(n / 10);
      var front, s := ToDecimal(n / 10), ToDecimal(n);
      assert s[..|s| - 1] == front;
    }
  }

  // ---- splitting into words ----

  function WordLength(s: string): (n: nat)
    ensures n <= |s| && (n < |s| ==> IsSpace(s[n])) && (s != [] && !IsSpace(s[0]) ==> n > 0)
  {
    if s == [] || IsSpace(s[0]) then 0 else 1 + WordLength(s[1..])
  }

  /** str.split */
  function Split(s: string): seq<string>
    decreases |s|
  {
    if s == [] then []
    else if IsSpace(s[0]) then Split(s[1..])
    else [s[..WordLength(s)]] + Split(s[WordLength(s)..])
  }

  /** " ".join */
  function Spaced(words: seq<string>): string {
    if words == [] then []
    else if |words| == 1 then words[0]
    else words[0] + [' '] + Spaced(words[1..])
  }

  function Normalise(s: string): string {
    Spaced(Split(s))
  }

  /** Words with one space between them: a character that is no space, then perhaps one space, and so on. */
  predicate IsPhrase(s: string)
    decreases |s|
  {
    && s != [] && !IsSpace(s[0])
    && (|s| == 1 || if s[1] == ' ' then IsPhrase(s[2..]) else IsPhrase(s[1..]))
  }

  /** Nothing to normalise. */
  predicate IsNormal(s: string) {
    s == [] || IsPhrase(s)
  }

  lemma {:induction false} WordIs(s: string)
    ensures s != [] && !IsSpace(s[0]) ==> IsWord(s[..WordLength(s)])
  {
    if s != [] && !IsSpace(s[0]) {
      WordIs(s[1..]);
      var n := WordLength(s[1..]);
      assert s[..n + 1][1..] == s[1..][..n];
    }
  }

  lemma {:induction false} WordThen(word: string, rest: string)
    requires IsWord(word) && (rest == [] || (rest[0] == ' ' && IsPhrase(rest[1..])))
    ensures IsPhrase(word + rest)
    decreases |word|
  {
    var s := word + rest;
    if |word| == 1 {
      assert rest != [] ==> s[2..] == rest[1..];
    } else {
      assert s[1..] == word[1..] + rest;
      WordThen(word[1..], rest);
    }
  }

  lemma {:induction false} SpacedIsNormal(s: string)
    ensures IsNormal(Normalise(s)) && (Normalise(s) == [] <==> Split(s) == [])
    decreases |s|
  {
    if s != [] {
      if IsSpace(s[0]) {
        SpacedIsNormal(s[1..]);
      } else {
        var n := WordLength(s);
        var word, later := s[..n], Split(s[n..]);
        WordIs(s);
        SpacedIsNormal(s[n..]);
        assert Split(s)[1..] == later;
        if later == [] {
          assert word + [] == word;
          WordThen(word, []);
        } else {
          assert ([' '] + Spaced(later))[1..] == Spaced(later);
          assert word + [' '] + Spaced(later) == word + ([' '] + Spaced(later));
          WordThen(word, [' '] + Spaced(later));
        }
      }
    }
  }

  lemma {:induction false} PhraseSplit(s: string)
    requires IsPhrase(s)
    ensures var n := WordLength(s);
            n == |s| || (s[n] == ' ' && IsPhrase(s[n + 1..]))
    decreases |s|
  {
    if |s| > 1 && s[1] != ' ' {
      PhraseSplit(s[1..]);
      var n := WordLength(s[1..]);
      if n < |s[1..]| {
        assert s[1..][n + 1..] == s[n + 2..];
      }
    } else if |s| > 1 {
      assert WordLength(s[1..]) == 0;
    }
  }

  lemma {:induction false} NormalIsFixed(s: string)
    requires IsNormal(s)
    ensures Normalise(s) == s
    decreases |s|
  {
    if s != [] {
      PhraseSplit(s);
      var n := WordLength(s);
      var word, rest := s[..n], s[n..];
      assert word + rest == s;
      if rest == [] {
        assert Split(s) == [word];
      } else {
        assert rest[1..] == s[n + 1..];
        NormalIsFixed(s[n + 1..]);
        SpacedIsNormal(s[n + 1..]);
        assert Split(s) == [word] + Split(s[n + 1..]);
        assert Split(s)[1..] == Split(s[n + 1..]);
        assert rest == [' '] + s[n + 1..];
      }
    }
  }

  // ---- a text is words and the white space between them ----

  ghost predicate Blank(s: string) {
    forall k :: 0 <= k < |s| ==> IsSpace(s[k])
  }

  lemma {:induction false} WordIff(s: string)
    ensures IsWord(s) <==> s != [] && forall k :: 0 <= k < |s| ==> !IsSpace(s[k])
  {
    if |s| > 1 {
      WordIff(s[1..]);
      assert forall k :: 0 < k < |s| ==> s[k] == s[1..][k - 1];
    }
  }

  /** White space around and between words; between two words there is some. */
  ghost predicate AreWords(words: seq<string>, gaps: seq<string>) {
    && |gaps| == |words| + 1 && (forall i :: 0 <= i < |gaps| ==> Blank(gaps[i]))
    && (forall i :: 0 < i < |words| ==> gaps[i] != [])
    && forall i :: 0 <= i < |words| ==> words[i] != [] && forall k :: 0 <= k < |words[i]| ==> !IsSpace(words[i][k])
  }

  function Weave(words: seq<string>, gaps: seq<string>): string
    requires |gaps| == |words| + 1
  {
    if words == [] then gaps[0] else gaps[0] + (words[0] + Weave(words[1..], gaps[1..]))
  }

  lemma {:induction false} SplitBlank(gap: string, rest: string)
    requires Blank(gap)
    ensures Split(gap + rest) == Split(rest)
  {
    if gap == [] {
      assert gap + rest == rest;
    } else {
      assert (gap + rest)[1..] == gap[1..] + rest;
      SplitBlank(gap[1..], rest);
    }
  }

  lemma {:induction false} WordEnds(word: string, rest: string)
    requires (forall k :: 0 <= k < |word| ==> !IsSpace(word[k])) && (rest == [] || IsSpace(rest[0]))
    ensures WordLength(word + rest) == |word|
  {
    if word == [] {
      assert word + rest == rest;
    } else {
      assert (word + rest)[1..] == word[1..] + rest;
      WordEnds(word[1..], rest);
    }
  }

  lemma SplitWord(word: string, rest: string)
    requires word != [] && (forall k :: 0 <= k < |word| ==> !IsSpace(word[k])) && (rest == [] || IsSpace(rest[0]))
    ensures Split(word + rest) == [word] + Split(rest)
  {
    WordEnds(word, rest);
    assert (word + rest)[..|word|] == word && (word + rest)[|word|..] == rest;
  }

  /** Splitting a text gives its words, whatever the white space. */
  lemma {:induction false} SplitWeave(words: seq<string>, gaps: seq<string>)
    requires AreWords(words, gaps)
    ensures Split(Weave(words, gaps)) == words
    decreases |words|
  {
    if words == [] {
      SplitBlank(gaps[0], []);
      assert gaps[0] + [] == gaps[0];
    } else {
      var rest := Weave(words[1..], gaps[1..]);
      assert forall i :: 0 <= i < |gaps[1..]| ==> gaps[1..][i] == gaps[i + 1];
      SplitWeave(words[1..], gaps[1..]);
      SplitBlank(gaps[0], words[0] + rest);
      SplitWord(words[0], rest);
    }
  }

  lemma MoreSpace(c: char, words: seq<string>, gaps: seq<string>)
    requires AreWords(words, gaps) && IsSpace(c)
    ensures AreWords(words, [[c] + gaps[0]] + gaps[1..])
    ensures Weave(words, [[c] + gaps[0]] + gaps[1..]) == [c] + Weave(words, gaps)
  {
    var more := [[c] + gaps[0]] + gaps[1..];
    assert more[1..] == gaps[1..];
    WeaveFirst(words, gaps);
    WeaveFirst(words, more);
  }

  lemma MoreWords(word: string, words: seq<string>, gaps: seq<string>)
    requires AreWords(words, gaps) && (words != [] ==> gaps[0] != [])
    requires word != [] && forall k :: 0 <= k < |word| ==> !IsSpace(word[k])
    ensures AreWords([word] + words, [[]] + gaps)
    ensures Weave([word] + words, [[]] + gaps) == word + Weave(words, gaps)
  {
    assert ([word] + words)[1..] == words && ([[]] + gaps)[1..] == gaps;
  }

  lemma FirstWord(s: string) returns (word: string, rest: string)
    requires s != [] && !IsSpace(s[0])
    ensures word != [] && (forall k :: 0 <= k < |word| ==> !IsSpace(word[k])) && (rest == [] || IsSpace(rest[0]))
    ensures word + rest == s
  {
    var n := WordLength(s);
    WordIs(s);
    WordIff(s[..n]);
    word, rest := s[..n], s[n..];
  }

  /** Every text is words and white space. */
  lemma {:induction false} EveryTextIsWoven(s: string) returns (words: seq<string>, gaps: seq<string>)
    ensures AreWords(words, gaps) && Weave(words, gaps) == s
    ensures (s == [] || IsSpace(s[0])) && words != [] ==> gaps[0] != []
    decreases |s|
  {
    if s == [] {
      return [], [[]];
    }
    if IsSpace(s[0]) {
      var later;
      words, later := EveryTextIsWoven(s[1..]);
      MoreSpace(s[0], words, later);
      gaps := [[s[0]] + later[0]] + later[1..];
      assert s == [s[0]] + s[1..];
    } else {
      var word, rest := FirstWord(s);
      var w, g := EveryTextIsWoven(rest);
      MoreWords(word, w, g);
      words, gaps := [word] + w, [[]] + g;
    }
  }

  lemma WeaveFirst(words: seq<string>, gaps: seq<string>)
    requires |gaps| == |words| + 1
    ensures Weave(words, gaps)
            == gaps[0] + if words == [] then [] else words[0] + Weave(words[1..], gaps[1..])
  {
  }

  /** n is the words of s with one space between them. */
  ghost predicate NormalOf(s: string, n: string) {
    exists words, gaps :: AreWords(words, gaps) && Weave(words, gaps) == s && n == Spaced(words)
  }

  lemma NormaliseIff(s: string, n: string)
    ensures Normalise(s) == n <==> NormalOf(s, n)
  {
    var w, g := EveryTextIsWoven(s);
    SplitWeave(w, g);
    forall words, gaps | AreWords(words, gaps) && Weave(words, gaps) == s
      ensures Split(s) == words
    {
      SplitWeave(words, gaps);
    }
  }

  /** Stripping cuts white space off both ends, and all of it. */
  lemma StripIs(s: string) returns (i: nat, j: nat)
    ensures i <= j <= |s| && Strip(s) == s[i..j] && Blank(s[..i]) && Blank(s[j..]) && Trimmed(s[i..j])
  {
    i := LeftIs(s);
    StripTrims(s);
    var k := RightIs(StripLeft(s));
    j := i + k;
    assert s[i..][..k] == s[i..j] && s[i..][k..] == s[j..];
  }

  lemma {:induction false} LeftIs(s: string) returns (i: nat)
    ensures i <= |s| && StripLeft(s) == s[i..] && Blank(s[..i])
  {
    if s != [] && IsSpace(s[0]) {
      var k := LeftIs(s[1..]);
      i := k + 1;
      assert s[1..][k..] == s[i..] && s[..i] == [s[0]] + s[1..][..k];
    } else {
      i := 0;
    }
  }

  lemma OneMore<T>(front: seq<T>, last: T, j: nat)
    requires j <= |front|
    ensures (front + [last])[..j] == front[..j] && (front + [last])[j..] == front[j..] + [last]
  {
  }

  lemma {:induction false} RightIs(s: string) returns (j: nat)
    ensures j <= |s| && StripRight(s) == s[..j] && Blank(s[j..])
  {
    if s != [] && IsSpace(s[|s| - 1]) {
      var front, last := s[..|s| - 1], s[|s| - 1];
      j := RightIs(front);
      assert s == front + [last];
      OneMore(front, last, j);
    } else {
      j := |s|;
    }
  }

  lemma {:induction false} StripLeftOf(gap: string, rest: string)
    requires Blank(gap) && (rest == [] || !IsSpace(rest[0]))
    ensures StripLeft(gap + rest) == rest
  {
    if gap == [] {
      assert gap + rest == rest;
    } else {
      assert (gap + rest)[1..] == gap[1..] + rest;
      StripLeftOf(gap[1..], rest);
    }
  }

  lemma {:induction false} StripRightOf(rest: string, gap: string)
    requires Blank(gap) && (rest == [] || !IsSpace(rest[|rest| - 1]))
    ensures StripRight(rest + gap) == rest
  {
    if gap == [] {
      assert rest + gap == rest;
    } else {
      assert (rest + gap)[..|rest + gap| - 1] == rest + gap[..|gap| - 1];
      StripRightOf(rest, gap[..|gap| - 1]);
    }
  }

  /** Stripping gives what stands between white space. */
  lemma StripOf(left: string, s: string, right: string)
    requires Blank(left) && s != [] && Trimmed(s) && Blank(right)
    ensures Strip(left + s + right) == s
  {
    assert left + s + right == left + (s + right);
    StripLeftOf(left, s + right);
    StripRightOf(s, right);
  }

  /** Leading zeros do not count. */
  lemma {:induction false} LeadingZero(s: string)
    requires forall k :: 0 <= k < |s| ==> IsDigit(s[k])
    ensures FromDecimal(['0'] + s) == FromDecimal(s)
  {
    if s == [] {
      assert FromDecimal(['0'][..0]) == 0;
    } else {
      var front := s[..|s| - 1];
      LeadingZero(front);
      assert (['0'] + s)[..|s|] == ['0'] + front;
    }
  }

  /** What is in front of a space in normal text is normal too, and not empty. */
  lemma {:induction false} NormalPrefix(front: string, rest: string)
    requires IsNormal(front + [' '] + rest)
    ensures IsPhrase(front)
    decreases |front|
  {
    var s := front + [' '] + rest;
    if |front| > 1 {
      if front[1] == ' ' {
        assert s[2..] == front[2..] + [' '] + rest;
        NormalPrefix(front[2..], rest);
      } else {
        assert s[1..] == front[1..] + [' '] + rest;
        NormalPrefix(front[1..], rest);
      }
    }
  }
}
