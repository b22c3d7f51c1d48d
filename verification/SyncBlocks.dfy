/**
 Sync blocks in Markdown: the extractor scans the lines of a document for test fences, reads each fence's options and
 script, and turns it into a block or a diagnostic.
 */
module SyncBlocks {
  import opened Collections
  import opened Text

  const FENCE := "```"
  const TEST_FENCE := "```{test}"

  datatype Block = Block(startLine: nat, content: string, yaml: string, target: string, class_: string)

  datatype Diagnostic =
    | Unclosed(line: nat)
    | MissingMetadata(line: nat, missing: seq<string>, yaml: string, target: string)
    | NoBlocks

  /** A fence that the scan meets: its line, and what it holds when it is closed. */
  datatype Fence = Closed(line: nat, options: map<string, string>, script: seq<string>) | Open(line: nat)

  datatype Verdict = Found(block: Block) | Problem(diagnostic: Diagnostic)

  // ---- lines ----

  /** A test fence, white space, one word, white space. */
  predicate IsOpener(line: string) {
    StartsWith(line, TEST_FENCE) && IsFenceTitle(line[|TEST_FENCE|..])
  }

  predicate IsFenceTitle(title: string) {
    title != [] && IsSpace(title[0]) && IsWord(Strip(title))
  }

  /** The fence, white space, one word, perhaps more white space. */
  ghost predicate IsOpening(line: string, gap: string, word: string, end: string) {
    && line == "```{test}" + (gap + word + end) && gap != [] && Blank(gap) && Blank(end)
    && word != [] && forall k :: 0 <= k < |word| ==> !IsSpace(word[k])
  }

  lemma AfterPrefix(s: string, prefix: string)
    requires prefix <= s
    ensures s == prefix + s[|prefix|..]
  {
  }

  lemma ThreeParts(s: string, i: nat, j: nat)
    requires i <= j <= |s|
    ensures s == s[..i] + s[i..j] + s[j..]
  {
  }

  lemma OpeningOf(line: string) returns (gap: string, word: string, end: string)
    requires IsOpener(line)
    ensures IsOpening(line, gap, word, end)
  {
    var title := line[|TEST_FENCE|..];
    AfterPrefix(line, TEST_FENCE);
    var i, j := StripIs(title);
    gap, word, end := title[..i], title[i..j], title[j..];
    WordIff(word);
    ThreeParts(title, i, j);
    assert i > 0;
  }

  lemma OpeningOpens(line: string, gap: string, word: string, end: string)
    requires IsOpening(line, gap, word, end)
    ensures IsOpener(line)
  {
    WordIff(word);
    StripOf(gap, word, end);
    assert TEST_FENCE <= line && line[|TEST_FENCE|..] == gap + word + end;
  }

  /** A line opens a test fence exactly when it has this form. */
  lemma OpenerIff(line: string)
    ensures IsOpener(line) <==> exists gap, word, end :: IsOpening(line, gap, word, end)
  {
    if IsOpener(line) {
      var gap, word, end := OpeningOf(line);
    }
    forall gap, word, end | IsOpening(line, gap, word, end)
      ensures IsOpener(line)
    {
      OpeningOpens(line, gap, word, end);
    }
  }

  predicate IsNameChar(c: char) {
    'a' <= c <= 'z' || 'A' <= c <= 'Z' || '0' <= c <= '9' || c == '_' || c == '-'
  }

  lemma CapitalsAre(c: char)
    ensures 'A' <= c <= 'Z' <==> c in "ABCDEFGHIJKLM" || c in "NOPQRSTUVWXYZ"
  {
  }

  lemma SmallLettersAre(c: char)
    ensures 'a' <= c <= 'z' <==> c in "abcdefghijklm" || c in "nopqrstuvwxyz"
  {
  }

  /** Letters, digits, underscore and hyphen. */
  lemma NameCharsAre(c: char)
    ensures IsNameChar(c)
            <==> || c in "ABCDEFGHIJKLM" || c in "NOPQRSTUVWXYZ" || c in "abcdefghijklm" || c in "nopqrstuvwxyz"
                 || c in "0123456789" || c == '_' || c == '-'
  {
    CapitalsAre(c);
    SmallLettersAre(c);
    DigitsAre(c);
  }

  function NameLength(s: string): (n: nat)
    ensures n <= |s| && (forall k :: 0 <= k < n ==> IsNameChar(s[k])) && (n < |s| ==> !IsNameChar(s[n]))
  {
    if s == [] || !IsNameChar(s[0]) then 0 else 1 + NameLength(s[1..])
  }

  /** The name and the value of an option line; the value keeps its trailing white space. */
  function MatchOption(line: string): Option<(string, string)> {
    if line == [] || line[0] != ':' then None
    else
      var n := NameLength(line[1..]);
      if n == 0 || 1 + n >= |line| || line[1 + n] != ':' then None
      else Some((line[1..1 + n], StripLeft(line[2 + n..])))
  }

  lemma {:induction false} NameLengthIs(name: string, rest: string)
    requires (forall k :: 0 <= k < |name| ==> IsNameChar(name[k])) && (rest != [] ==> !IsNameChar(rest[0]))
    ensures NameLength(name + rest) == |name|
  {
    if name == [] {
      assert name + rest == rest;
    } else {
      assert (name + rest)[1..] == name[1..] + rest;
      NameLengthIs(name[1..], rest);
    }
  }

  /** The usual form of an option line. */
  lemma OptionLine(name: string, value: string)
    requires name != [] && forall k :: 0 <= k < |name| ==> IsNameChar(name[k])
    requires value != [] ==> !IsSpace(value[0])
    ensures MatchOption([':'] + name + [':', ' '] + value) == Some((name, value))
  {
    var line, rest := [':'] + name + [':', ' '] + value, [':', ' '] + value;
    NameLengthIs(name, rest);
    assert line[1..] == name + rest && line[1..1 + |name|] == name;
    assert line[2 + |name|..] == [' '] + value && ([' '] + value)[1..] == value;
    assert StripLeft([' '] + value) == StripLeft(value) == value;
  }

  /** A name between colons, white space, and the value. */
  ghost predicate IsOptionLine(line: string, name: string, gap: string, value: string) {
    && line == [':'] + (name + ([':'] + (gap + value)))
    && name != [] && (forall k :: 0 <= k < |name| ==> IsNameChar(name[k]))
    && Blank(gap) && (value == [] || !IsSpace(value[0]))
  }

  lemma DropTwice<T>(s: seq<T>, m: nat, n: nat)
    requires m + n <= |s|
    ensures s[m..][n..] == s[m + n..] && s[m..][..n] == s[m..m + n]
  {
  }

  lemma CutAt<T>(s: seq<T>, n: nat)
    requires n < |s|
    ensures s == s[..n] + ([s[n]] + s[n + 1..])
  {
  }

  /** What follows the second colon of an option line. */
  lemma ValueOf(after: string) returns (gap: string, value: string)
    ensures after == gap + value && Blank(gap) && value == StripLeft(after) && (value == [] || !IsSpace(value[0]))
  {
    var i := LeftIs(after);
    StripLeftTrims(after);
    gap, value := after[..i], after[i..];
  }

  lemma OptionLineOf(line: string) returns (name: string, gap: string, value: string)
    requires MatchOption(line).Some?
    ensures IsOptionLine(line, name, gap, value) && MatchOption(line) == Some((name, value))
  {
    var rest := line[1..];
    var n := NameLength(rest);
    name := rest[..n];
    gap, value := ValueOf(rest[n + 1..]);
    DropTwice(line, 1, n);
    DropTwice(line, 1, n + 1);
    assert line == [':'] + rest;
    CutAt(rest, n);
  }

  lemma OptionLineMatches(line: string, name: string, gap: string, value: string)
    requires IsOptionLine(line, name, gap, value)
    ensures MatchOption(line) == Some((name, value))
  {
    var rest := [':'] + (gap + value);
    assert line[1..] == name + rest;
    NameLengthIs(name, rest);
    StripLeftOf(gap, value);
    assert line[1..1 + |name|] == name && line[2 + |name|..] == gap + value;
  }

  /** A line is an option with this name and value exactly when it has this form. */
  lemma OptionIff(line: string, name: string, value: string)
    ensures MatchOption(line) == Some((name, value)) <==> exists gap :: IsOptionLine(line, name, gap, value)
  {
    if MatchOption(line) == Some((name, value)) {
      var _, gap, _ := OptionLineOf(line);
      assert IsOptionLine(line, name, gap, value);
    }
    forall gap | IsOptionLine(line, name, gap, value)
      ensures MatchOption(line) == Some((name, value))
    {
      OptionLineMatches(line, name, gap, value);
    }
  }

  /** "\n".join(lines) */
  function Join(lines: seq<string>): string {
    if lines == [] then []
    else if |lines| == 1 then lines[0]
    else Join(lines[..|lines| - 1]) + "\n" + lines[|lines| - 1]
  }

  /** A line feed between any two lines, and nothing else. */
  lemma {:induction false} JoinConcat(a: seq<string>, b: seq<string>)
    requires a != [] && b != []
    ensures Join(a + b) == Join(a) + "\n" + Join(b)
    decreases |b|
  {
    var last := |b| - 1;
    assert (a + b)[..|a + b| - 1] == a + b[..last];
    if last > 0 {
      JoinConcat(a, b[..last]);
    } else {
      assert a + b[..last] == a;
    }
  }

  // ---- the body of a fence ----

  datatype Body = Body(options: map<string, string>, script: seq<string>, started: bool)

  const EMPTY := Body(map[], [], false)

  function ReadLine(b: Body, line: string): Body {
    if b.started then b.(script := b.script + [line])
    else if MatchOption(line).Some? then
      var option := MatchOption(line).value;
      b.(options := b.options[option.0 := option.1])
    else if Strip(line) == [] then b.(started := true)
    else b.(script := b.script + [line], started := true)
  }

  function ReadLines(b: Body, lines: seq<string>): Body
    decreases |lines|
  {
    if lines == [] then b else ReadLines(ReadLine(b, lines[0]), lines[1..])
  }

  lemma {:induction false} ReadConcat(b: Body, x: seq<string>, y: seq<string>)
    ensures ReadLines(b, x + y) == ReadLines(ReadLines(b, x), y)
    decreases |x|
  {
    if x == [] {
      assert x + y == y;
    } else {
      assert (x + y)[1..] == x[1..] + y;
      ReadConcat(ReadLine(b, x[0]), x[1..], y);
    }
  }

  /** The required fields that the options lack, in their fixed order. */
  function Missing(options: map<string, string>): seq<string> {
    (if "sync-yaml" in options then [] else ["sync-yaml"])
    + (if "sync-target" in options then [] else ["sync-target"])
    + (if "sync-class" in options then [] else ["sync-class"])
  }

  function OrDash(options: map<string, string>, key: string): string {
    if key in options then options[key] else "-"
  }

  /** The block a fence stands for, or what is wrong with it. */
  function Judge(fence: Fence): Verdict {
    match fence
    case Open(line) => Problem(Unclosed(line))
    case Closed(line, options, script) =>
      if Missing(options) != [] then
        Problem(MissingMetadata(line, Missing(options),
                                OrDash(options, "sync-yaml"), OrDash(options, "sync-target")))
      else
        Found(Block(line, Strip(Join(script)),
                    options["sync-yaml"], options["sync-target"], options["sync-class"]))
  }

  /** The place of a field in the order in which missing ones are listed. */
  function FieldRank(field: string): nat {
    if field == "sync-yaml" then 0 else if field == "sync-target" then 1 else if field == "sync-class" then 2 else 3
  }

  /** A closed fence with all three fields is a block with them, whose content is the script without the white space at
      its ends. */
  lemma BlockIs(line: nat, options: map<string, string>, script: seq<string>) returns (i: nat, j: nat)
    requires "sync-yaml" in options && "sync-target" in options && "sync-class" in options
    ensures var verdict := Judge(Closed(line, options, script));
            && verdict.Found? && verdict.block.startLine == line && verdict.block.yaml == options["sync-yaml"]
            && verdict.block.target == options["sync-target"] && verdict.block.class_ == options["sync-class"]
            && i <= j <= |Join(script)| && verdict.block.content == Join(script)[i..j]
            && Trimmed(verdict.block.content) && Blank(Join(script)[..i]) && Blank(Join(script)[j..])
  {
    i, j := StripIs(Join(script));
  }

  lemma MissingAre(options: map<string, string>)
    ensures forall field :: field in Missing(options) <==> FieldRank(field) < 3 && field !in options
    ensures forall i, j :: 0 <= i < j < |Missing(options)| ==>
              FieldRank(Missing(options)[i]) < FieldRank(Missing(options)[j])
  {
    assert FieldRank("sync-yaml") == 0 && FieldRank("sync-target") == 1 && FieldRank("sync-class") == 2;
  }

  /** Otherwise the diagnostic lists exactly the missing fields, in order, with a dash for a missing value; an unclosed
      fence is a diagnostic too. */
  lemma ProblemIs(line: nat, options: map<string, string>, script: seq<string>, field: string)
    requires FieldRank(field) < 3 && field !in options
    ensures var verdict := Judge(Closed(line, options, script));
            && verdict.Problem? && verdict.diagnostic.MissingMetadata? && verdict.diagnostic.line == line
            && (forall f :: f in verdict.diagnostic.missing <==> FieldRank(f) < 3 && f !in options)
            && (forall i, j :: 0 <= i < j < |verdict.diagnostic.missing| ==>
                  FieldRank(verdict.diagnostic.missing[i]) < FieldRank(verdict.diagnostic.missing[j]))
            && verdict.diagnostic.yaml == (if "sync-yaml" in options then options["sync-yaml"] else "-")
            && verdict.diagnostic.target == (if "sync-target" in options then options["sync-target"] else "-")
    ensures Judge(Open(line)) == Problem(Unclosed(line))
  {
    MissingAre(options);
    assert field in Missing(options);
  }

  // ---- the scan ----

  /** No line is a closing fence. */
  predicate Unfenced(lines: seq<string>) {
    lines == [] || (lines[0] != FENCE && Unfenced(lines[1..]))
  }

  /** Where the next closing fence is, or the number of lines. */
  function CloseAt(lines: seq<string>): (k: nat)
    ensures k <= |lines| && (k < |lines| ==> lines[k] == FENCE)
  {
    if lines == [] || lines[0] == FENCE then 0 else 1 + CloseAt(lines[1..])
  }

  /** The fences among these lines; number is the number of the first line. */
  function Scan(lines: seq<string>, number: nat): seq<Fence>
    decreases |lines|
  {
    if lines == [] then []
    else if !IsOpener(lines[0]) then Scan(lines[1..], number + 1)
    else
      var rest := lines[1..];
      var k := CloseAt(rest);
      if k == |rest| then [Open(number)]
      else
        var body := ReadLines(EMPTY, rest[..k]);
        [Closed(number, body.options, body.script)] + Scan(rest[k + 1..], number + k + 2)
  }

  function BlocksOf(fences: seq<Fence>): seq<Block> {
    if fences == [] then []
    else
      var first := Judge(fences[0]);
      (if first.Found? then [first.block] else []) + BlocksOf(fences[1..])
  }

  function DiagnosticsOf(fences: seq<Fence>): seq<Diagnostic> {
    if fences == [] then []
    else
      var first := Judge(fences[0]);
      (if first.Problem? then [first.diagnostic] else []) + DiagnosticsOf(fences[1..])
  }

  /** The blocks of a document. */
  function ExtractedBlocks(lines: seq<string>): seq<Block> {
    BlocksOf(Scan(lines, 1))
  }

  /** What is wrong with a document; to have no test fence at all is wrong too. */
  function ExtractedDiagnostics(lines: seq<string>): seq<Diagnostic> {
    var fences := Scan(lines, 1);
    if fences == [] then [NoBlocks] else DiagnosticsOf(fences)
  }

  lemma {:induction false} NoFenceIff(lines: seq<string>, number: nat)
    ensures Scan(lines, number) == [] <==> forall k :: 0 <= k < |lines| ==> !IsOpener(lines[k])
    decreases |lines|
  {
    if lines != [] && !IsOpener(lines[0]) {
      NoFenceIff(lines[1..], number + 1);
      assert forall k :: 0 < k < |lines| ==> lines[k] == lines[1..][k - 1];
    }
  }

  lemma {:induction false} JudgedAreOther(fences: seq<Fence>)
    ensures NoBlocks !in DiagnosticsOf(fences)
  {
    if fences != [] {
      JudgedAreOther(fences[1..]);
    }
  }

  /** A document is reported to have no test fence exactly when no line opens one. */
  lemma NoBlocksIff(lines: seq<string>)
    ensures NoBlocks in ExtractedDiagnostics(lines) <==> forall k :: 0 <= k < |lines| ==> !IsOpener(lines[k])
  {
    NoFenceIff(lines, 1);
    JudgedAreOther(Scan(lines, 1));
  }

  method ReadBody(lines: seq<string>, start: nat)
    returns (end: nat, options: map<string, string>, script: seq<string>)
    requires start <= |lines|
    ensures end == start + CloseAt(lines[start..]) <= |lines|
    ensures options == ReadLines(EMPTY, lines[start..end]).options
    ensures script == ReadLines(EMPTY, lines[start..end]).script
  {
    options, script, end := map[], [], start;
    var started := false;
    while end < |lines| && lines[end] != FENCE
      invariant start <= end <= |lines|
      invariant CloseAt(lines[start..]) == end - start + CloseAt(lines[end..])
      invariant ReadLines(EMPTY, lines[start..end]) == Body(options, script, started)
    {
      var line := lines[end];
      assert lines[end..][1..] == lines[end + 1..];
      assert lines[start..end + 1] == lines[start..end] + [line];
      ReadConcat(EMPTY, lines[start..end], [line]);
      assert [line][1..] == [];
      var option := MatchOption(line);
      if !started && option.Some? {
        options := options[option.value.0 := option.value.1];
      } else if !started && Strip(line) == [] {
        started := true;
      } else {
        started, script := true, script + [line];
      }
      end := end + 1;
    }
  }

  lemma ScanFenceAt(lines: seq<string>, i: nat, end: nat)
    requires i < |lines| && IsOpener(lines[i]) && end == i + 1 + CloseAt(lines[i + 1..])
    ensures var body := ReadLines(EMPTY, lines[i + 1..end]);
            Scan(lines[i..], i + 1)
            == if end == |lines| then [Open(i + 1)]
               else [Closed(i + 1, body.options, body.script)] + Scan(lines[end + 1..], end + 2)
  {
    var rest := lines[i..][1..];
    assert rest == lines[i + 1..];
    assert rest[..end - i - 1] == lines[i + 1..end];
    assert end < |lines| ==> rest[end - i..] == lines[end + 1..];
  }

  /** The fences from line i on, counted from 0. */
  function ScanFrom(lines: seq<string>, i: nat): seq<Fence>
    requires i <= |lines|
  {
    Scan(lines[i..], i + 1)
  }

  /** One fence, from its opening line: the block or the diagnostic, and the line to go on from. */
  method ReadFenceAt(lines: seq<string>, i: nat) returns (verdict: Verdict, next: nat, ghost fence: Fence)
    requires i < |lines| && IsOpener(lines[i])
    ensures i < next <= |lines| && verdict == Judge(fence)
    ensures ScanFrom(lines, i) == [fence] + ScanFrom(lines, next)
  {
    var startLine := i + 1;
    var end, options, script := ReadBody(lines, startLine);
    ScanFenceAt(lines, i, end);
    if end == |lines| {
      return Problem(Unclosed(startLine)), end, Open(startLine);
    }
    next, fence := end + 1, Closed(startLine, options, script);
    var missing := Missing(options);
    if missing != [] {
      verdict := Problem(MissingMetadata(startLine, missing, OrDash(options, "sync-yaml"),
                                         OrDash(options, "sync-target")));
    } else {
      verdict := Found(Block(startLine, Strip(Join(script)), options["sync-yaml"], options["sync-target"],
                             options["sync-class"]));
    }
  }

  lemma SkipLine(lines: seq<string>, i: nat)
    requires i < |lines| && !IsOpener(lines[i])
    ensures ScanFrom(lines, i) == ScanFrom(lines, i + 1)
  {
    assert lines[i..][1..] == lines[i + 1..];
  }

  lemma TakeFence(blocks: seq<Block>, diagnostics: seq<Diagnostic>, fence: Fence, later: seq<Fence>)
    ensures blocks + BlocksOf([fence] + later)
            == (if Judge(fence).Found? then blocks + [Judge(fence).block] else blocks) + BlocksOf(later)
    ensures diagnostics + DiagnosticsOf([fence] + later)
            == (if Judge(fence).Problem? then diagnostics + [Judge(fence).diagnostic] else diagnostics)
               + DiagnosticsOf(later)
  {
    assert ([fence] + later)[1..] == later;
    var verdict := Judge(fence);
    if verdict.Found? {
      assert blocks + ([verdict.block] + BlocksOf(later)) == blocks + [verdict.block] + BlocksOf(later);
    } else {
      assert diagnostics + ([verdict.diagnostic] + DiagnosticsOf(later))
             == diagnostics + [verdict.diagnostic] + DiagnosticsOf(later);
    }
  }

  /** MarkdownBlockExtractor.extract */
  method Extract(lines: seq<string>) returns (blocks: seq<Block>, diagnostics: seq<Diagnostic>)
    ensures blocks == ExtractedBlocks(lines) && diagnostics == ExtractedDiagnostics(lines)
  {
    blocks, diagnostics := [], [];
    var found, i := false, 0;
    assert lines[0..] == lines;
    ghost var all := ScanFrom(lines, 0);
    ghost var later := all;
    while i < |lines|
      invariant i <= |lines| && later == ScanFrom(lines, i)
      invariant BlocksOf(all) == blocks + BlocksOf(later)
      invariant DiagnosticsOf(all) == diagnostics + DiagnosticsOf(later)
      invariant all == [] <==> !found && later == []
    {
      if !IsOpener(lines[i]) {
        SkipLine(lines, i);
        i := i + 1;
      } else {
        found := true;
        var verdict, next, fence := ReadFenceAt(lines, i);
        later := ScanFrom(lines, next);
        TakeFence(blocks, diagnostics, fence, later);
        i := next;
        if verdict.Found? {
          blocks := blocks + [verdict.block];
        } else {
          diagnostics := diagnostics + [verdict.diagnostic];
        }
      }
    }
    assert later == [];
    if !found {
      diagnostics := diagnostics + [NoBlocks];
    }
  }
}
