/**
 A grammar of target paths: what each of its elements means, that every string is such a path, perhaps with brackets
 left open at its end, and that the parser reads every path by its meaning.
 */
module SyncPaths {
  import opened Collections
  import opened Text
  import opened SyncTargets

  /** Inside brackets: text outside quotes, or text in quotes. */
  datatype Piece = Raw(text: string) | Quote(text: string, quote: char)

  datatype Element = Dot | Name(name: string) | Brackets(pieces: seq<Piece>)

  /** How a path ends: after an element, inside brackets, or inside quotes inside brackets. */
  datatype Tail = Whole | InBrackets(pieces: seq<Piece>) | InQuotes(pieces: seq<Piece>, text: string, quote: char)

  predicate IsQuote(c: char) {
    c == '\'' || c == '"'
  }

  ghost predicate GoodPiece(p: Piece) {
    match p
    case Raw(text) => forall c :: c in text ==> !IsQuote(c) && c != ']'
    case Quote(text, quote) => IsQuote(quote) && quote !in text
  }

  ghost predicate GoodPieces(pieces: seq<Piece>) {
    forall k :: 0 <= k < |pieces| ==> GoodPiece(pieces[k])
  }

  ghost predicate GoodElement(e: Element) {
    match e
    case Dot => true
    case Name(name) => name != [] && '.' !in name && '[' !in name
    case Brackets(pieces) => GoodPieces(pieces)
  }

  /** Good elements, and no name right after a name. */
  ghost predicate GoodElements(elements: seq<Element>) {
    && (forall k :: 0 <= k < |elements| ==> GoodElement(elements[k]))
    && forall k :: 0 < k < |elements| && elements[k - 1].Name? ==> !elements[k].Name?
  }

  ghost predicate GoodTail(tail: Tail) {
    match tail
    case Whole => true
    case InBrackets(pieces) => GoodPieces(pieces)
    case InQuotes(pieces, text, quote) => GoodPieces(pieces) && IsQuote(quote) && quote !in text
  }

  // ---- how paths are written ----

  function PieceText(p: Piece): string {
    match p
    case Raw(text) => text
    case Quote(text, quote) => [quote] + text + [quote]
  }

  function PiecesText(pieces: seq<Piece>): string {
    if pieces == [] then [] else PieceText(pieces[0]) + PiecesText(pieces[1..])
  }

  function ElementText(e: Element): string {
    match e
    case Dot => ['.']
    case Name(name) => name
    case Brackets(pieces) => ['['] + PiecesText(pieces) + [']']
  }

  function PathText(elements: seq<Element>): string {
    if elements == [] then [] else ElementText(elements[0]) + PathText(elements[1..])
  }

  function TailText(tail: Tail): string {
    match tail
    case Whole => []
    case InBrackets(pieces) => ['['] + PiecesText(pieces)
    case InQuotes(pieces, text, quote) => ['['] + PiecesText(pieces) + ([quote] + text)
  }

  // ---- what they mean ----

  /** The text inside brackets, without the quotes. */
  function Inside(pieces: seq<Piece>): string {
    if pieces == [] then [] else pieces[0].text + Inside(pieces[1..])
  }

  /** A dot means nothing, a name is a key, and brackets are an index when what they contain is a number once the white
      space at its ends is gone, else a key; they must contain something. */
  function Meaning(elements: seq<Element>): Result<seq<Segment>, Error> {
    if elements == [] then Ok([])
    else
      var later := Meaning(elements[1..]);
      match elements[0]
      case Dot => later
      case Name(name) => if later.Err? then later else Ok([Key(name)] + later.value)
      case Brackets(pieces) =>
        var text := Strip(Inside(pieces));
        if text == [] then Err(EmptyBracket)
        else if later.Err? then later
        else Ok([if AllDigits(text) then Index(FromDecimal(text)) else Key(text)] + later.value)
  }

  /** What a whole path means, or why it means nothing. */
  function PathMeaning(elements: seq<Element>, tail: Tail): Result<seq<Segment>, Error> {
    var meaning := Meaning(elements);
    if elements == [] && tail.Whole? then Err(EmptyTarget)
    else if meaning.Err? then meaning
    else if !tail.Whole? then Err(Unclosed)
    else if meaning.value == [] then Err(NoSegments)
    else meaning
  }

  // ---- the parser reads paths by their meaning ----

  lemma {:induction false} RunRaw(segments: seq<Segment>, text: string, raw: string)
    requires forall c :: c in raw ==> !IsQuote(c) && c != ']'
    ensures Run(State(segments, Bracket(text)), raw) == Ok(State(segments, Bracket(text + raw)))
    decreases |raw|
  {
    if raw == [] {
      assert text + raw == text;
    } else {
      assert raw[0] in raw;
      RunRaw(segments, text + [raw[0]], raw[1..]);
      assert text + [raw[0]] + raw[1..] == text + raw;
    }
  }

  lemma RunPiece(segments: seq<Segment>, text: string, p: Piece)
    requires GoodPiece(p)
    ensures Run(State(segments, Bracket(text)), PieceText(p)) == Ok(State(segments, Bracket(text + p.text)))
  {
    match p
    case Raw(raw) => RunRaw(segments, text, raw);
    case Quote(quoted, quote) => RunInQuotes(segments, text, quote, quoted);
  }

  lemma Associate(a: string, b: string, c: string)
    ensures a + b + c == a + (b + c)
  {
  }

  lemma {:induction false} RunPieces(segments: seq<Segment>, text: string, pieces: seq<Piece>)
    requires GoodPieces(pieces)
    ensures Run(State(segments, Bracket(text)), PiecesText(pieces))
            == Ok(State(segments, Bracket(text + Inside(pieces))))
    decreases |pieces|
  {
    if pieces == [] {
      assert text + [] == text;
    } else {
      var p := pieces[0];
      RunPiece(segments, text, p);
      RunConcat(State(segments, Bracket(text)), PieceText(p), PiecesText(pieces[1..]));
      RunPieces(segments, text + p.text, pieces[1..]);
      Associate(text, p.text, Inside(pieces[1..]));
    }
  }

  /** Brackets are entered with the key before them taken. */
  lemma RunOpened(s: State, pieces: seq<Piece>)
    requires s.mode.Plain? && GoodPieces(pieces)
    ensures Run(s, ['['] + PiecesText(pieces))
            == Ok(State(Flush(s.segments, s.mode.token), Bracket(Inside(pieces))))
  {
    var before := Flush(s.segments, s.mode.token);
    RunConcat(s, ['['], PiecesText(pieces));
    RunOne(s, '[');
    RunPieces(before, [], pieces);
    assert [] + Inside(pieces) == Inside(pieces);
  }

  lemma RunBrackets(s: State, pieces: seq<Piece>)
    requires s.mode.Plain? && GoodPieces(pieces)
    ensures var segment := BracketSegment(Inside(pieces));
            Run(s, ElementText(Brackets(pieces)))
            == if segment.Err? then Err(segment.error)
               else Ok(State(Flush(s.segments, s.mode.token) + [segment.value], Plain([])))
  {
    RunOpened(s, pieces);
    RunConcat(s, ['['] + PiecesText(pieces), [']']);
    RunOne(State(Flush(s.segments, s.mode.token), Bracket(Inside(pieces))), ']');
  }

  /** The state after an element outside brackets. */
  function After(s: State, e: Element): Result<State, Error>
    requires s.mode.Plain?
    ensures After(s, e).Ok? ==> After(s, e).value.mode.Plain?
  {
    var before := Flush(s.segments, s.mode.token);
    match e
    case Dot => Ok(State(before, Plain([])))
    case Name(name) => Ok(State(s.segments, Plain(name)))
    case Brackets(pieces) =>
      var segment := BracketSegment(Inside(pieces));
      if segment.Err? then Err(segment.error) else Ok(State(before + [segment.value], Plain([])))
  }

  lemma RunElement(s: State, e: Element)
    requires s.mode.Plain? && GoodElement(e) && (e.Name? ==> s.mode.token == [])
    ensures Run(s, ElementText(e)) == After(s, e)
  {
    match e
    case Dot => RunOne(s, '.');
    case Name(name) =>
      RunToken(s.segments, [], name);
      assert [] + name == name;
    case Brackets(pieces) => RunBrackets(s, pieces);
  }

  /** What the automaton has read so far, with a pending key. */
  function Taken(s: State): seq<Segment>
    requires s.mode.Plain?
  {
    Flush(s.segments, s.mode.token)
  }

  /** Reading elements adds their meaning to what was read, or stops at empty brackets. */
  lemma {:induction false} RunElements(s: State, elements: seq<Element>)
    requires s.mode.Plain? && GoodElements(elements)
    requires elements != [] && elements[0].Name? ==> s.mode.token == []
    ensures Meaning(elements).Err? ==> Meaning(elements) == Err(EmptyBracket)
    ensures Meaning(elements).Err? ==> Run(s, PathText(elements)) == Err(EmptyBracket)
    ensures Meaning(elements).Ok? ==>
              && Run(s, PathText(elements)).Ok? && Run(s, PathText(elements)).value.mode.Plain?
              && Taken(Run(s, PathText(elements)).value) == Taken(s) + Meaning(elements).value
    decreases |elements|
  {
    if elements == [] {
      assert Taken(s) + [] == Taken(s);
    } else {
      var e, later := elements[0], elements[1..];
      RunElement(s, e);
      RunConcat(s, ElementText(e), PathText(later));
      LaterGood(elements);
      var next := After(s, e);
      if next.Ok? {
        RunElements(next.value, later);
        TakenAfter(s, e, later);
      } else {
        MeaningOf(later);
      }
    }
  }

  lemma LaterGood(elements: seq<Element>)
    requires GoodElements(elements) && elements != []
    ensures GoodElements(elements[1..])
    ensures elements[1..] != [] && elements[0].Name? ==> !elements[1..][0].Name?
  {
    var later := elements[1..];
    forall k | 0 <= k < |later|
      ensures GoodElement(later[k]) && (k > 0 && later[k - 1].Name? ==> !later[k].Name?)
    {
      assert later[k] == elements[k + 1];
    }
  }

  lemma {:induction false} MeaningOf(elements: seq<Element>)
    ensures Meaning(elements).Err? ==> Meaning(elements) == Err(EmptyBracket)
  {
    if elements != [] {
      MeaningOf(elements[1..]);
    }
  }

  /** An element adds its own meaning. */
  lemma TakenAfter(s: State, e: Element, later: seq<Element>)
    requires s.mode.Plain? && (e.Name? ==> s.mode.token == [] && e.name != []) && After(s, e).Ok?
    ensures Meaning([e] + later).Ok? <==> Meaning(later).Ok?
    ensures Meaning(later).Ok? ==>
              Taken(After(s, e).value) + Meaning(later).value == Taken(s) + Meaning([e] + later).value
    ensures Meaning(later).Err? ==> Meaning([e] + later) == Meaning(later)
  {
    assert ([e] + later)[1..] == later;
  }

  /** What an open tail does: it leaves the automaton inside brackets. */
  lemma RunTail(s: State, tail: Tail)
    requires s.mode.Plain? && GoodTail(tail)
    ensures Run(s, TailText(tail)).Ok?
    ensures tail.Whole? ==> Run(s, TailText(tail)).value == s
    ensures !tail.Whole? ==> !Run(s, TailText(tail)).value.mode.Plain?
  {
    match tail
    case Whole =>
    case InBrackets(pieces) => RunOpened(s, pieces);
    case InQuotes(pieces, text, quote) =>
      RunOpened(s, pieces);
      var inside := State(Flush(s.segments, s.mode.token), Bracket(Inside(pieces)));
      RunConcat(s, ['['] + PiecesText(pieces), [quote] + text);
      RunConcat(inside, [quote], text);
      RunOne(inside, quote);
      RunQuoted(inside.segments, Inside(pieces), quote, text);
  }

  lemma TextOfGood(elements: seq<Element>, tail: Tail)
    requires GoodElements(elements)
    ensures PathText(elements) + TailText(tail) == [] <==> elements == [] && tail.Whole?
  {
    if elements != [] {
      assert ElementText(elements[0]) != [];
    }
  }

  /** Parsing a path gives its meaning, with the same errors. */
  lemma ParseByMeaning(elements: seq<Element>, tail: Tail)
    requires GoodElements(elements) && GoodTail(tail)
    ensures Parse(PathText(elements) + TailText(tail)) == PathMeaning(elements, tail)
  {
    TextOfGood(elements, tail);
    RunElements(START, elements);
    RunConcat(START, PathText(elements), TailText(tail));
    var meaning := Meaning(elements);
    if meaning.Ok? {
      RunTail(Run(START, PathText(elements)).value, tail);
      assert Taken(START) + meaning.value == meaning.value;
    }
  }

  // ---- every string is a path ----

  lemma {:induction false} SplitAt(text: string, c: char) returns (k: nat)
    requires c in text
    ensures k < |text| && text[k] == c && c !in text[..k]
    ensures text == text[..k] + ([c] + text[k + 1..])
    decreases |text|
  {
    if text[0] == c {
      k := 0;
    } else {
      assert text == [text[0]] + text[1..];
      var i := SplitAt(text[1..], c);
      k := i + 1;
      assert text[..k] == [text[0]] + text[1..][..i];
    }
  }

  /** What stands inside brackets: pieces up to the closing bracket, or an open tail. */
  lemma {:induction false} PiecesOf(text: string) returns (pieces: seq<Piece>, tail: Tail, rest: string)
    ensures GoodPieces(pieces) && GoodTail(tail) && |rest| <= |text|
    ensures tail.Whole? ==> text == PiecesText(pieces) + ([']'] + rest) && |rest| < |text|
    ensures !tail.Whole? ==> TailText(tail) == ['['] + text
    decreases |text|
  {
    if text == [] {
      return [], InBrackets([]), [];
    }
    if text[0] == ']' {
      assert text == PiecesText([]) + ([']'] + text[1..]);
      return [], Whole, text[1..];
    }
    if IsQuote(text[0]) && text[0] !in text[1..] {
      assert TailText(InQuotes([], text[1..], text[0])) == ['['] + text;
      return [], InQuotes([], text[1..], text[0]), [];
    }
    var p, after := FirstPiece(text);
    var later, t, r := PiecesOf(after);
    pieces, rest := [p] + later, r;
    tail := AddToTail(p, t, after);
    assert t.Whole? ==> pieces[1..] == later;
    assert t.Whole? ==> PiecesText(pieces) + ([']'] + rest) == PieceText(p) + after;
  }

  lemma FirstPiece(text: string) returns (p: Piece, after: string)
    requires text != [] && text[0] != ']' && (IsQuote(text[0]) ==> text[0] in text[1..])
    ensures GoodPiece(p) && text == PieceText(p) + after && |after| < |text|
  {
    if IsQuote(text[0]) {
      var k := SplitAt(text[1..], text[0]);
      p, after := Quote(text[1..][..k], text[0]), text[1..][k + 1..];
      assert text == [text[0]] + text[1..];
    } else {
      p, after := Raw([text[0]]), text[1..];
    }
  }

  lemma AddToTail(p: Piece, tail: Tail, after: string) returns (more: Tail)
    requires GoodPiece(p) && GoodTail(tail) && (!tail.Whole? ==> TailText(tail) == ['['] + after)
    ensures GoodTail(more) && (more.Whole? <==> tail.Whole?)
    ensures !more.Whole? ==> TailText(more) == ['['] + (PieceText(p) + after)
  {
    match tail
    case Whole =>
      more := tail;
    case InBrackets(pieces) =>
      more := InBrackets([p] + pieces);
      assert ([p] + pieces)[1..] == pieces;
      assert PiecesText(pieces) == TailText(tail)[1..];
    case InQuotes(pieces, text, quote) =>
      more := InQuotes([p] + pieces, text, quote);
      assert ([p] + pieces)[1..] == pieces;
      assert PiecesText(pieces) + ([quote] + text) == TailText(tail)[1..];
  }

  /** The longest name at the start of a text. */
  lemma {:induction false} NameAt(text: string) returns (n: nat)
    ensures n <= |text| && '.' !in text[..n] && '[' !in text[..n]
    ensures n < |text| ==> text[n] == '.' || text[n] == '['
    ensures text != [] && text[0] != '.' && text[0] != '[' ==> n > 0
  {
    if text == [] || text[0] == '.' || text[0] == '[' {
      n := 0;
    } else {
      var k := NameAt(text[1..]);
      n := k + 1;
      assert text[..n] == [text[0]] + text[1..][..k];
    }
  }

  lemma AddElement(e: Element, later: seq<Element>, tail: Tail)
    requires GoodElement(e) && GoodElements(later) && (later != [] && e.Name? ==> !later[0].Name?)
    ensures GoodElements([e] + later)
    ensures PathText([e] + later) + TailText(tail) == ElementText(e) + (PathText(later) + TailText(tail))
  {
    assert ([e] + later)[1..] == later;
    Associate(ElementText(e), PathText(later), TailText(tail));
  }

  /** Every string is a path, perhaps with brackets or quotes left open. */
  lemma {:induction false} EveryPath(path: string) returns (elements: seq<Element>, tail: Tail)
    ensures GoodElements(elements) && GoodTail(tail) && PathText(elements) + TailText(tail) == path
    ensures elements != [] && (path[0] == '.' || path[0] == '[') ==> !elements[0].Name?
    decreases |path|
  {
    if path == [] {
      return [], Whole;
    }
    var e, after;
    if path[0] == '.' {
      e, after := Dot, path[1..];
      assert path == ['.'] + path[1..];
    } else if path[0] == '[' {
      var pieces, open, rest := PiecesOf(path[1..]);
      assert path == ['['] + path[1..];
      if !open.Whole? {
        assert PathText([]) + TailText(open) == path;
        return [], open;
      }
      e, after := Brackets(pieces), rest;
      assert ElementText(e) + after == ['['] + (PiecesText(pieces) + ([']'] + rest));
    } else {
      var n := NameAt(path);
      e, after := Name(path[..n]), path[n..];
      assert path == path[..n] + path[n..];
    }
    var later, t := EveryPath(after);
    AddElement(e, later, t);
    elements, tail := [e] + later, t;
  }
}
