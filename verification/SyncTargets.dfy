/**
 Sync targets: dotted paths with bracket accessors into a YAML document. The parser is a character automaton; here it
 is related to a printer of paths and to a direct walk over the document.
 */
module SyncTargets {
  import opened Collections
  import opened Text

  datatype Segment = Index(n: nat) | Key(name: string)

  datatype Error = EmptyTarget | EmptyBracket | Unclosed | NoSegments

  // ---- the automaton ----

  /** Between accessors with a pending key, inside brackets, or inside quotes inside brackets. */
  datatype Mode = Plain(token: string) | Bracket(text: string) | Quoted(text: string, quote: char)

  datatype State = State(segments: seq<Segment>, mode: Mode)

  const START := State([], Plain([]))

  /** The segments once a pending key is taken. */
  function Flush(segments: seq<Segment>, token: string): seq<Segment> {
    if token == [] then segments else segments + [Key(token)]
  }

  function BracketSegment(text: string): Result<Segment, Error> {
    var name := Strip(text);
    if name == [] then Err(EmptyBracket)
    else if AllDigits(name) then Ok(Index(FromDecimal(name)))
    else Ok(Key(name))
  }

  function Step(s: State, c: char): Result<State, Error> {
    match s.mode
    case Quoted(text, quote) =>
      Ok(s.(mode := if c == quote then Bracket(text) else Quoted(text + [c], quote)))
    case Bracket(text) =>
      if c == '\'' || c == '"' then Ok(s.(mode := Quoted(text, c)))
      else if c == ']' then
        var segment := BracketSegment(text);
        if segment.Err? then Err(segment.error) else Ok(State(s.segments + [segment.value], Plain([])))
      else Ok(s.(mode := Bracket(text + [c])))
    case Plain(token) =>
      if c == '.' then Ok(State(Flush(s.segments, token), Plain([])))
      else if c == '[' then Ok(State(Flush(s.segments, token), Bracket([])))
      else Ok(s.(mode := Plain(token + [c])))
  }

  function Run(s: State, text: string): Result<State, Error>
    decreases |text|
  {
    if text == [] then Ok(s)
    else
      var next := Step(s, text[0]);
      if next.Err? then next else Run(next.value, text[1..])
  }

  function Finish(s: State): Result<seq<Segment>, Error> {
    if !s.mode.Plain? then Err(Unclosed)
    else
      var segments := Flush(s.segments, s.mode.token);
      if segments == [] then Err(NoSegments) else Ok(segments)
  }

  function Parse(path: string): Result<seq<Segment>, Error> {
    if path == [] then Err(EmptyTarget)
    else
      var end := Run(START, path);
      if end.Err? then Err(end.error) else Finish(end.value)
  }

  lemma {:induction false} RunConcat(s: State, a: string, b: string)
    ensures Run(s, a + b) == if Run(s, a).Err? then Run(s, a) else Run(Run(s, a).value, b)
    decreases |a|
  {
    if a == [] {
      assert a + b == b;
    } else {
      assert (a + b)[1..] == a[1..] + b;
      var next := Step(s, a[0]);
      if next.Ok? {
        RunConcat(next.value, a[1..], b);
      }
    }
  }

  lemma RunOne(s: State, c: char)
    ensures Run(s, [c]) == Step(s, c)
  {
    var next := Step(s, c);
    assert [c][1..] == [];
  }

  /** parse_segments */
  method ParseSegments(path: string) returns (r: Result<seq<Segment>, Error>)
    ensures r == Parse(path)
  {
    if path == [] {
      return Err(EmptyTarget);
    }
    var segments: seq<Segment>, token: string, bracket: string := [], [], [];
    var inBracket, quote: Option<char> := false, None;
    ghost var s := START;
    for k := 0 to |path|
      invariant Run(START, path[..k]) == Ok(s) && s.segments == segments
      invariant quote.Some? ==> inBracket && s.mode == Quoted(bracket, quote.value)
      invariant inBracket && quote.None? ==> s.mode == Bracket(bracket)
      invariant !inBracket ==> s.mode == Plain(token) && bracket == []
      invariant inBracket ==> token == []
    {
      var c := path[k];
      assert path[..k + 1] == path[..k] + [c] && path[..k + 1] + path[k + 1..] == path;
      RunConcat(START, path[..k], [c]);
      RunConcat(START, path[..k + 1], path[k + 1..]);
      RunOne(s, c);
      ghost var next := Step(s, c);
      if quote.Some? {
        if c == quote.value {
          quote := None;
        } else {
          bracket := bracket + [c];
        }
      } else if inBracket {
        if c == '\'' || c == '"' {
          quote := Some(c);
        } else if c == ']' {
          var text := Strip(bracket);
          if text == [] {
            return Err(EmptyBracket);
          }
          segments := segments + [if AllDigits(text) then Index(FromDecimal(text)) else Key(text)];
          bracket, inBracket := [], false;
        } else {
          bracket := bracket + [c];
        }
      } else if c == '.' || c == '[' {
        if token != [] {
          segments, token := segments + [Key(token)], [];
        }
        inBracket := c == '[';
      } else {
        token := token + [c];
      }
      s := next.value;
    }
    assert path[..|path|] == path;
    if quote.Some? || inBracket {
      return Err(Unclosed);
    }
    if token != [] {
      segments := segments + [Key(token)];
    }
    return if segments == [] then Err(NoSegments) else Ok(segments);
  }

  // ---- printing ----

  /** A key that can stand between dots. */
  predicate Bare(name: string) {
    name != [] && '.' !in name && '[' !in name
  }

  /** A key that can stand in quotes inside brackets: white space is stripped there too, and digits are an index. */
  predicate Quotable(name: string) {
    name != [] && Trimmed(name) && !AllDigits(name)
  }

  predicate Printable(segment: Segment) {
    segment.Index? || Bare(segment.name) || Quotable(segment.name)
  }

  /** Each character in a quote of the other kind. */
  function QuoteEach(name: string): string {
    if name == [] then []
    else
      var q := if name[0] == '"' then '\'' else '"';
      [q, name[0], q] + QuoteEach(name[1..])
  }

  function Quote(name: string): string {
    if '"' !in name then ['"'] + name + ['"'] else QuoteEach(name)
  }

  function PrintSegment(segment: Segment, first: bool): string {
    match segment
    case Index(n) => ['['] + ToDecimal(n) + [']']
    case Key(name) =>
      if Bare(name) then (if first then [] else ['.']) + name
      else ['['] + Quote(name) + [']']
  }

  /** The printed segments, one after the other. How one is printed is a parameter, so that lemmas by induction over
      the list are not checked with its definition in view. */
  function PrintWith(segments: seq<Segment>, show: (Segment, bool) -> string): string {
    if segments == [] then []
    else
      var front := segments[..|segments| - 1];
      PrintWith(front, show) + show(segments[|segments| - 1], front == [])
  }

  function Print(segments: seq<Segment>): string {
    PrintWith(segments, PrintSegment)
  }

  lemma {:induction false} RunToken(segments: seq<Segment>, token: string, name: string)
    requires '.' !in name && '[' !in name
    ensures Run(State(segments, Plain(token)), name) == Ok(State(segments, Plain(token + name)))
    decreases |name|
  {
    if name == [] {
      assert token + name == token;
    } else {
      assert name[0] in name;
      RunToken(segments, token + [name[0]], name[1..]);
      assert token + [name[0]] + name[1..] == token + name;
    }
  }

  lemma {:induction false} RunQuoted(segments: seq<Segment>, text: string, q: char, name: string)
    requires q !in name
    ensures Run(State(segments, Quoted(text, q)), name) == Ok(State(segments, Quoted(text + name, q)))
    decreases |name|
  {
    if name == [] {
      assert text + name == text;
    } else {
      assert name[0] in name;
      RunQuoted(segments, text + [name[0]], q, name[1..]);
      assert text + [name[0]] + name[1..] == text + name;
    }
  }

  lemma {:induction false} RunDigits(segments: seq<Segment>, text: string, digits: string)
    requires forall k :: 0 <= k < |digits| ==> IsDigit(digits[k])
    ensures Run(State(segments, Bracket(text)), digits) == Ok(State(segments, Bracket(text + digits)))
    decreases |digits|
  {
    if digits == [] {
      assert text + digits == text;
    } else {
      RunDigits(segments, text + [digits[0]], digits[1..]);
      assert text + [digits[0]] + digits[1..] == text + digits;
    }
  }

  lemma {:induction false} RunQuoteEach(segments: seq<Segment>, text: string, name: string)
    ensures Run(State(segments, Bracket(text)), QuoteEach(name)) == Ok(State(segments, Bracket(text + name)))
    decreases |name|
  {
    if name == [] {
      assert text + name == text;
    } else {
      var q := if name[0] == '"' then '\'' else '"';
      var s := State(segments, Bracket(text));
      RunConcat(s, [q, name[0], q], QuoteEach(name[1..]));
      RunInQuotes(segments, text, q, [name[0]]);
      assert [q, name[0], q] == [q] + [name[0]] + [q];
      RunQuoteEach(segments, text + [name[0]], name[1..]);
      assert text + [name[0]] + name[1..] == text + name;
    }
  }

  lemma RunInQuotes(segments: seq<Segment>, text: string, q: char, name: string)
    requires q !in name && (q == '"' || q == '\'')
    ensures Run(State(segments, Bracket(text)), [q] + name + [q]) == Ok(State(segments, Bracket(text + name)))
  {
    var s := State(segments, Bracket(text));
    RunConcat(s, [q] + name, [q]);
    RunConcat(s, [q], name);
    RunOne(s, q);
    RunQuoted(segments, text, q, name);
    RunOne(State(segments, Quoted(text + name, q)), q);
  }

  lemma RunQuote(segments: seq<Segment>, name: string)
    ensures Run(State(segments, Bracket([])), Quote(name)) == Ok(State(segments, Bracket(name)))
  {
    assert [] + name == name;
    if '"' !in name {
      RunInQuotes(segments, [], '"', name);
    } else {
      RunQuoteEach(segments, [], name);
    }
  }

  /** Opening a bracket, its text, and closing it. */
  lemma RunBracket(s: State, body: string, text: string, segment: Segment)
    requires s.mode.Plain? && BracketSegment(text) == Ok(segment)
    requires var before := Flush(s.segments, s.mode.token);
             Run(State(before, Bracket([])), body) == Ok(State(before, Bracket(text)))
    ensures Run(s, ['['] + body + [']']) == Ok(State(Flush(s.segments, s.mode.token) + [segment], Plain([])))
  {
    var before := Flush(s.segments, s.mode.token);
    RunConcat(s, ['['] + body, [']']);
    RunConcat(s, ['['], body);
    RunOne(s, '[');
    RunOne(State(before, Bracket(text)), ']');
  }

  lemma RunSegment(s: State, segment: Segment, first: bool)
    requires s.mode.Plain? && Printable(segment) && (first ==> s.mode.token == [])
    ensures Run(s, PrintSegment(segment, first)).Ok?
    ensures Run(s, PrintSegment(segment, first)).value.mode.Plain?
    ensures var end := Run(s, PrintSegment(segment, first)).value;
            Flush(end.segments, end.mode.token) == Flush(s.segments, s.mode.token) + [segment]
  {
    var before := Flush(s.segments, s.mode.token);
    match segment
    case Index(n) =>
      DecimalRoundTrip(n);
      var digits := ToDecimal(n);
      RunDigits(before, [], digits);
      assert [] + digits == digits;
      TrimmedIsStripped(digits);
      RunBracket(s, digits, digits, segment);
    case Key(name) =>
      if Bare(name) {
        assert [] + name == name;
        if first {
          RunToken(s.segments, [], name);
        } else {
          RunConcat(s, ['.'], name);
          RunOne(s, '.');
          RunToken(before, [], name);
        }
      } else {
        RunQuote(before, name);
        TrimmedIsStripped(name);
        RunBracket(s, Quote(name), name, segment);
      }
  }

  /** After this text the automaton is outside brackets and stands for these segments, the last key perhaps still
      pending. */
  ghost predicate ReadsAs(text: string, segments: seq<Segment>) {
    var end := Run(START, text);
    end.Ok? && end.value.mode.Plain? && Flush(end.value.segments, end.value.mode.token) == segments
  }

  ghost predicate Extends(segment: Segment, show: (Segment, bool) -> string) {
    forall text, segments, first :: ReadsAs(text, segments) && (first ==> text == []) ==>
      ReadsAs(text + show(segment, first), segments + [segment])
  }

  lemma PrintedExtends(segment: Segment)
    requires Printable(segment)
    ensures Extends(segment, PrintSegment)
  {
    forall text, segments, first | ReadsAs(text, segments) && (first ==> text == [])
      ensures ReadsAs(text + PrintSegment(segment, first), segments + [segment])
    {
      RunConcat(START, text, PrintSegment(segment, first));
      RunSegment(Run(START, text).value, segment, first);
    }
  }

  lemma {:induction false} PrintReadsAs(segments: seq<Segment>, show: (Segment, bool) -> string)
    requires forall k :: 0 <= k < |segments| ==> Extends(segments[k], show)
    ensures ReadsAs(PrintWith(segments, show), segments)
  {
    if segments != [] {
      var front, last := segments[..|segments| - 1], segments[|segments| - 1];
      PrintReadsAs(front, show);
      assert Extends(last, show) && segments == front + [last];
      assert ReadsAs(PrintWith(front, show), front);
    }
  }

  lemma RunPrint(segments: seq<Segment>)
    requires forall k :: 0 <= k < |segments| ==> Printable(segments[k])
    ensures ReadsAs(Print(segments), segments)
  {
    forall k | 0 <= k < |segments|
      ensures Extends(segments[k], PrintSegment)
    {
      PrintedExtends(segments[k]);
    }
    PrintReadsAs(segments, PrintSegment);
  }

  /** Parsing undoes printing. */
  lemma ParsePrint(segments: seq<Segment>)
    requires segments != [] && forall k :: 0 <= k < |segments| ==> Printable(segments[k])
    ensures Parse(Print(segments)) == Ok(segments)
  {
    RunPrint(segments);
  }

  // ---- what the parser can return ----

  ghost predicate Reachable(s: State) {
    && (forall k :: 0 <= k < |s.segments| ==> Printable(s.segments[k]))
    && (s.mode.Plain? ==> '.' !in s.mode.token && '[' !in s.mode.token)
  }

  lemma StepReachable(s: State, c: char)
    requires Reachable(s) && Step(s, c).Ok?
    ensures Reachable(Step(s, c).value)
  {
    match s.mode
    case Quoted(text, quote) =>
    case Bracket(text) => StripTrims(text);
    case Plain(token) =>
  }

  lemma {:induction false} RunReachable(s: State, text: string)
    requires Reachable(s) && Run(s, text).Ok?
    ensures Reachable(Run(s, text).value)
    decreases |text|
  {
    if text != [] {
      StepReachable(s, text[0]);
      RunReachable(Step(s, text[0]).value, text[1..]);
    }
  }

  /** A list of segments is the parse of some path exactly when it is not empty and every key is bare or quotable. */
  lemma ParsedIff(segments: seq<Segment>)
    ensures (exists path :: Parse(path) == Ok(segments))
            <==> segments != [] && forall k :: 0 <= k < |segments| ==> Printable(segments[k])
  {
    forall path | Parse(path) == Ok(segments)
      ensures segments != [] && forall k :: 0 <= k < |segments| ==> Printable(segments[k])
    {
      RunReachable(START, path);
    }
    if segments != [] && forall k :: 0 <= k < |segments| ==> Printable(segments[k]) {
      ParsePrint(segments);
    }
  }

  // ---- resolving ----

  datatype Value = Scalar(text: string) | List(items: seq<Value>) | Mapping(entries: map<string, Value>)

  datatype Failure = BadTarget(error: Error) | ExpectedList | OutOfRange | ExpectedMapping | MissingKey

  /** One accessor applied to a value. */
  function Access(v: Value, segment: Segment): Result<Value, Failure> {
    match segment
    case Index(n) =>
      if !v.List? then Err(ExpectedList) else if n >= |v.items| then Err(OutOfRange) else Ok(v.items[n])
    case Key(name) =>
      if !v.Mapping? then Err(ExpectedMapping) else if name !in v.entries then Err(MissingKey)
      else Ok(v.entries[name])
  }

  /** All accessors, one after the other. */
  function Walk(root: Value, segments: seq<Segment>): Result<Value, Failure> {
    if segments == [] then Ok(root)
    else
      var next := Access(root, segments[0]);
      if next.Err? then next else Walk(next.value, segments[1..])
  }

  lemma {:induction false} WalkConcat(root: Value, a: seq<Segment>, b: seq<Segment>)
    ensures Walk(root, a + b) == if Walk(root, a).Err? then Walk(root, a) else Walk(Walk(root, a).value, b)
  {
    if a == [] {
      assert a + b == b;
    } else {
      assert (a + b)[1..] == a[1..] + b;
      var next := Access(root, a[0]);
      if next.Ok? {
        WalkConcat(next.value, a[1..], b);
      }
    }
  }

  /** What a target path leads to. */
  function Target(root: Value, path: string): Result<Value, Failure> {
    var segments := Parse(path);
    if segments.Err? then Err(BadTarget(segments.error)) else Walk(root, segments.value)
  }

  /** resolve */
  method Resolve(root: Value, path: string) returns (r: Result<Value, Failure>)
    ensures r == Target(root, path)
  {
    var parsed := ParseSegments(path);
    if parsed.Err? {
      return Err(BadTarget(parsed.error));
    }
    var segments, current := parsed.value, root;
    for k := 0 to |segments|
      invariant Walk(root, segments) == Walk(current, segments[k..])
    {
      var segment := segments[k];
      assert segments[k..][1..] == segments[k + 1..];
      match segment
      case Index(n) =>
        if !current.List? {
          return Err(ExpectedList);
        }
        if n >= |current.items| {
          return Err(OutOfRange);
        }
        current := current.items[n];
      case Key(name) =>
        if !current.Mapping? {
          return Err(ExpectedMapping);
        }
        if name !in current.entries {
          return Err(MissingKey);
        }
        current := current.entries[name];
    }
    return Ok(current);
  }

  /** Resolving a printed path is walking the list of segments; extending the list by one accessor reads one level
      deeper. */
  lemma ResolvePrinted(root: Value, segments: seq<Segment>, last: Segment)
    requires forall k :: 0 <= k < |segments| ==> Printable(segments[k])
    requires Printable(last)
    ensures Target(root, Print(segments + [last])) == Walk(root, segments + [last])
    ensures Walk(root, segments).Ok? ==>
              Target(root, Print(segments + [last])) == Access(Walk(root, segments).value, last)
  {
    ParsePrint(segments + [last]);
    WalkConcat(root, segments, [last]);
    if Walk(root, segments).Ok? {
      assert [last][1..] == [];
    }
  }

  // ---- documents built around a value ----

  /** One level of a document around a value. */
  datatype Level = InList(before: seq<Value>, after: seq<Value>) | InMapping(others: map<string, Value>, key: string)

  function Around(level: Level, v: Value): Value {
    match level
    case InList(before, after) => List(before + [v] + after)
    case InMapping(others, key) => Mapping(others[key := v])
  }

  /** How the level is entered: by the number of values before, or by the key. */
  function Accessor(level: Level): Segment {
    match level
    case InList(before, _) => Index(|before|)
    case InMapping(_, key) => Key(key)
  }

  /** The document with v inside these levels, the outermost first. */
  function Plug(levels: seq<Level>, v: Value): Value {
    if levels == [] then v else Around(levels[0], Plug(levels[1..], v))
  }

  function Accessors(levels: seq<Level>): (segments: seq<Segment>)
    ensures |segments| == |levels|
  {
    if levels == [] then [] else [Accessor(levels[0])] + Accessors(levels[1..])
  }

  lemma {:induction false} WalkIntoPlug(levels: seq<Level>, v: Value)
    ensures Walk(Plug(levels, v), Accessors(levels)) == Ok(v)
    decreases |levels|
  {
    if levels != [] {
      WalkIntoPlug(levels[1..], v);
      assert Accessors(levels)[1..] == Accessors(levels[1..]);
    }
  }

  /** Reading the printed path of a position in a document built around a value gives that value. */
  lemma ResolveReadsBack(levels: seq<Level>, v: Value)
    requires levels != [] && forall k :: 0 <= k < |levels| ==> Printable(Accessors(levels)[k])
    ensures Target(Plug(levels, v), Print(Accessors(levels))) == Ok(v)
  {
    ParsePrint(Accessors(levels));
    WalkIntoPlug(levels, v);
  }

  lemma {:induction false} LevelsOf(root: Value, segments: seq<Segment>) returns (levels: seq<Level>)
    requires Walk(root, segments).Ok?
    ensures Accessors(levels) == segments && Plug(levels, Walk(root, segments).value) == root
    decreases |segments|
  {
    if segments == [] {
      return [];
    }
    var first;
    match segments[0] {
      case Index(n) =>
        first := InList(root.items[..n], root.items[n + 1..]);
        assert root.items[..n] + [root.items[n]] + root.items[n + 1..] == root.items;
      case Key(name) =>
        first := InMapping(root.entries, name);
        assert root.entries[name := root.entries[name]] == root.entries;
    }
    var later := LevelsOf(Access(root, segments[0]).value, segments[1..]);
    levels := [first] + later;
    assert levels[1..] == later && segments == [segments[0]] + segments[1..];
  }

  /** A path leads to a value exactly when the document is built around that value with these accessors. */
  lemma WalkIff(root: Value, segments: seq<Segment>, v: Value)
    ensures Walk(root, segments) == Ok(v)
            <==> exists levels :: Accessors(levels) == segments && Plug(levels, v) == root
  {
    if Walk(root, segments) == Ok(v) {
      var levels := LevelsOf(root, segments);
    }
    forall levels | Accessors(levels) == segments && Plug(levels, v) == root
      ensures Walk(root, segments) == Ok(v)
    {
      WalkIntoPlug(levels, v);
    }
  }

  /** The value does not have what the accessor asks for. */
  predicate Lacks(v: Value, segment: Segment, failure: Failure) {
    match failure
    case BadTarget(_) => false
    case ExpectedList => segment.Index? && !v.List?
    case OutOfRange => segment.Index? && v.List? && segment.n >= |v.items|
    case ExpectedMapping => segment.Key? && !v.Mapping?
    case MissingKey => segment.Key? && v.Mapping? && segment.name !in v.entries
  }

  /** The walk stops at accessor k, on a value that lacks it. */
  ghost predicate StopsAt(root: Value, segments: seq<Segment>, k: nat, failure: Failure) {
    k < |segments| && Walk(root, segments[..k]).Ok? && Lacks(Walk(root, segments[..k]).value, segments[k], failure)
  }

  /** A path fails exactly when the value that some part of it leads to lacks the next accessor. */
  lemma WalkFailsIff(root: Value, segments: seq<Segment>, failure: Failure)
    ensures Walk(root, segments) == Err(failure) <==> exists k: nat :: StopsAt(root, segments, k, failure)
  {
    forall k: nat | StopsAt(root, segments, k, failure)
      ensures Walk(root, segments) == Err(failure)
    {
      assert segments == segments[..k] + segments[k..];
      WalkConcat(root, segments[..k], segments[k..]);
    }
    if Walk(root, segments) == Err(failure) {
      var k := FirstLack(root, segments);
    }
  }

  lemma {:induction false} FirstLack(root: Value, segments: seq<Segment>) returns (k: nat)
    requires Walk(root, segments).Err?
    ensures StopsAt(root, segments, k, Walk(root, segments).error)
    decreases |segments|
  {
    var next := Access(root, segments[0]);
    if next.Err? {
      k := 0;
    } else {
      var i := FirstLack(next.value, segments[1..]);
      k := i + 1;
      assert segments[..k] == [segments[0]] + segments[1..][..i];
      assert segments[..k][1..] == segments[1..][..i];
    }
  }
}
