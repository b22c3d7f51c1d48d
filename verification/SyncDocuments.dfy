/**
 A grammar of Markdown documents with test fences: what the extractor makes of each item, that every list of lines is
 such a document, and that extraction undoes writing sync blocks in their usual layout.
 */
module SyncDocuments {
  import opened Collections
  import opened Text
  import opened SyncBlocks

  /** A line outside fences, or a fence: options, perhaps a blank line, then the script. */
  datatype Item =
    | Prose(line: string)
    | Fenced(opener: string, options: seq<string>, spacer: Option<string>, script: seq<string>)

  predicate AreOptions(lines: seq<string>) {
    lines == [] || (MatchOption(lines[0]).Some? && AreOptions(lines[1..]))
  }

  /** A blank line ends the options, or the first line of the script does. */
  predicate EndsOptions(spacer: Option<string>, script: seq<string>) {
    match spacer
    case Some(blank) => Strip(blank) == [] && MatchOption(blank).None?
    case None => script == [] || (MatchOption(script[0]).None? && Strip(script[0]) != [])
  }

  predicate WellFormed(item: Item) {
    match item
    case Prose(line) => !IsOpener(line)
    case Fenced(opener, options, spacer, script) =>
      IsOpener(opener) && AreOptions(options) && Unfenced(script) && EndsOptions(spacer, script)
  }

  function Spacer(spacer: Option<string>): seq<string> {
    if spacer.Some? then [spacer.value] else []
  }

  function BodyLines(item: Item): seq<string>
    requires item.Fenced?
  {
    item.options + (Spacer(item.spacer) + item.script)
  }

  function Render(item: Item): seq<string> {
    match item
    case Prose(line) => [line]
    case Fenced(opener, options, spacer, script) => [opener] + BodyLines(item) + ["```"]
  }

  /** The mapping after these option lines: the last line of a name counts. */
  function Collect(base: map<string, string>, options: seq<string>): map<string, string>
    decreases |options|
  {
    if options == [] then base
    else
      var option := MatchOption(options[0]);
      Collect(if option.Some? then base[option.value.0 := option.value.1] else base, options[1..])
  }

  /** This is the last line that sets the name. */
  ghost predicate SetsLast(options: seq<string>, k: nat, name: string) {
    && k < |options| && MatchOption(options[k]).Some? && MatchOption(options[k]).value.0 == name
    && forall i :: k < i < |options| && MatchOption(options[i]).Some? ==> MatchOption(options[i]).value.0 != name
  }

  /** A name has the value of the last line that sets it; without one it has none. */
  lemma {:induction false} LastOptionCounts(base: map<string, string>, options: seq<string>, name: string)
    ensures forall k: nat :: SetsLast(options, k, name) ==>
              name in Collect(base, options) && Collect(base, options)[name] == MatchOption(options[k]).value.1
    ensures (forall k: nat :: !SetsLast(options, k, name)) ==>
              if name in base then name in Collect(base, options) && Collect(base, options)[name] == base[name]
              else name !in Collect(base, options)
    decreases |options|
  {
    if options != [] {
      var option, later := MatchOption(options[0]), options[1..];
      var next := if option.Some? then base[option.value.0 := option.value.1] else base;
      LastOptionCounts(next, later, name);
      forall k: nat
        ensures SetsLast(later, k, name) <==> SetsLast(options, k + 1, name)
      {
        assert forall i :: 0 <= i < |later| ==> later[i] == options[i + 1];
        assert forall i :: 0 < i < |options| ==> options[i] == later[i - 1];
      }
      forall k: nat | SetsLast(options, k, name)
        ensures name in Collect(base, options) && Collect(base, options)[name] == MatchOption(options[k]).value.1
      {
        if k > 0 {
          assert SetsLast(later, k - 1, name);
        } else {
          NoneLater(options, name);
        }
      }
      if forall k: nat :: !SetsLast(options, k, name) {
        NotSetAtAll(options, name);
      }
    }
  }

  lemma NoneLater(options: seq<string>, name: string)
    requires SetsLast(options, 0, name)
    ensures forall k: nat :: !SetsLast(options[1..], k, name)
  {
    forall k: nat | k < |options[1..]|
      ensures !SetsLast(options[1..], k, name)
    {
      assert options[1..][k] == options[k + 1];
    }
  }

  /** Without a last line that sets it there is none at all. */
  lemma {:induction false} NotSetAtAll(options: seq<string>, name: string)
    requires forall k: nat :: !SetsLast(options, k, name)
    ensures forall k :: 0 <= k < |options| && MatchOption(options[k]).Some? ==> MatchOption(options[k]).value.0 != name
  {
    if k: nat :| k < |options| && MatchOption(options[k]).Some? && MatchOption(options[k]).value.0 == name {
      var last := LastOf(options, name, k);
    }
  }

  lemma {:induction false} LastOf(options: seq<string>, name: string, k: nat) returns (last: nat)
    requires k < |options| && MatchOption(options[k]).Some? && MatchOption(options[k]).value.0 == name
    ensures SetsLast(options, last, name)
    decreases |options| - k
  {
    if i :| k < i < |options| && MatchOption(options[i]).Some? && MatchOption(options[i]).value.0 == name {
      last := LastOf(options, name, i);
    } else {
      last := k;
    }
  }

  /** The fence that an item is, at this line. */
  function FencesOf(item: Item, number: nat): seq<Fence> {
    match item
    case Prose(_) => []
    case Fenced(_, options, _, script) => [Closed(number, Collect(map[], options), script)]
  }

  // The definitions of Render and FencesOf are large. In the functions and lemmas over lists of items they are
  // parameters, `render` and `fences`, to keep their bodies out of the verifier's sight.

  /** The items' lines, one item after the other. */
  function Lines<T>(items: seq<T>, render: T -> seq<string>): seq<string> {
    if items == [] then [] else render(items[0]) + Lines(items[1..], render)
  }

  /** The items' fences, each item at its own line. */
  function Fences(items: seq<Item>, number: nat, render: Item -> seq<string>, fences: (Item, nat) -> seq<Fence>)
    : seq<Fence>
  {
    if items == [] then []
    else fences(items[0], number) + Fences(items[1..], number + |render(items[0])|, render, fences)
  }

  /** Lines that no closing fence ends. */
  ghost predicate IsOpen(tail: seq<string>) {
    tail == [] || (IsOpener(tail[0]) && Unfenced(tail[1..]))
  }

  lemma {:induction false} ReadOptions(b: Body, options: seq<string>)
    requires !b.started && AreOptions(options)
    ensures ReadLines(b, options) == b.(options := Collect(b.options, options))
    decreases |options|
  {
    if options != [] {
      ReadOptions(ReadLine(b, options[0]), options[1..]);
    }
  }

  lemma {:induction false} ReadScript(b: Body, script: seq<string>)
    requires b.started
    ensures ReadLines(b, script) == b.(script := b.script + script)
    decreases |script|
  {
    if script == [] {
      assert b.script + script == b.script;
    } else {
      ReadScript(ReadLine(b, script[0]), script[1..]);
      assert b.script + [script[0]] + script[1..] == b.script + script;
    }
  }

  lemma ReadAfterOptions(b: Body, spacer: Option<string>, script: seq<string>)
    requires !b.started && b.script == [] && EndsOptions(spacer, script)
    ensures ReadLines(b, Spacer(spacer) + script).options == b.options
    ensures ReadLines(b, Spacer(spacer) + script).script == script
  {
    assert [] + script == script;
    if spacer.Some? {
      var after := b.(started := true);
      assert ([spacer.value] + script)[1..] == script;
      assert ReadLine(b, spacer.value) == after;
      ReadScript(after, script);
    } else if script != [] {
      var after := b.(script := [script[0]], started := true);
      assert ReadLine(b, script[0]) == after;
      ReadScript(after, script[1..]);
      assert [script[0]] + script[1..] == script;
    }
  }

  lemma ReadFence(item: Item)
    requires item.Fenced? && WellFormed(item)
    ensures ReadLines(EMPTY, BodyLines(item)).options == Collect(map[], item.options)
    ensures ReadLines(EMPTY, BodyLines(item)).script == item.script
  {
    ReadConcat(EMPTY, item.options, Spacer(item.spacer) + item.script);
    ReadOptions(EMPTY, item.options);
    ReadAfterOptions(Body(Collect(map[], item.options), [], false), item.spacer, item.script);
  }

  lemma {:induction false} CloseAtIs(body: seq<string>, rest: seq<string>)
    requires Unfenced(body)
    ensures CloseAt(body + [FENCE] + rest) == |body|
  {
    if body != [] {
      CloseAtIs(body[1..], rest);
      assert (body + [FENCE] + rest)[1..] == body[1..] + [FENCE] + rest;
    }
  }

  lemma {:induction false} CloseAtEnd(lines: seq<string>)
    ensures Unfenced(lines) <==> CloseAt(lines) == |lines|
    ensures Unfenced(lines[..CloseAt(lines)])
  {
    if lines != [] && lines[0] != FENCE {
      CloseAtEnd(lines[1..]);
      assert lines[..CloseAt(lines)][1..] == lines[1..][..CloseAt(lines[1..])];
    }
  }

  lemma {:induction false} UnfencedConcat(x: seq<string>, y: seq<string>)
    ensures Unfenced(x + y) <==> Unfenced(x) && Unfenced(y)
  {
    if x == [] {
      assert x + y == y;
    } else {
      UnfencedConcat(x[1..], y);
      assert (x + y)[1..] == x[1..] + y;
    }
  }

  lemma {:induction false} OptionsUnfenced(options: seq<string>)
    requires AreOptions(options)
    ensures Unfenced(options)
  {
    if options != [] {
      OptionsUnfenced(options[1..]);
    }
  }

  lemma NoFenceInBody(item: Item)
    requires item.Fenced? && WellFormed(item)
    ensures Unfenced(BodyLines(item))
  {
    OptionsUnfenced(item.options);
    UnfencedConcat(item.options, Spacer(item.spacer) + item.script);
    UnfencedConcat(Spacer(item.spacer), item.script);
    TrimmedIsStripped(FENCE);
    assert item.spacer.Some? ==> [item.spacer.value][1..] == [];
  }

  lemma ScanProse(line: string, rest: seq<string>, number: nat)
    requires !IsOpener(line)
    ensures Scan([line] + rest, number) == Scan(rest, number + 1)
  {
    assert ([line] + rest)[1..] == rest;
  }

  lemma ScanClosed(opener: string, body: seq<string>, rest: seq<string>, number: nat)
    requires IsOpener(opener) && Unfenced(body)
    ensures var b := ReadLines(EMPTY, body);
            Scan([opener] + body + [FENCE] + rest, number)
            == [Closed(number, b.options, b.script)] + Scan(rest, number + |body| + 2)
  {
    var all, later := [opener] + body + [FENCE] + rest, body + [FENCE] + rest;
    assert all[1..] == later && all[0] == opener;
    CloseAtIs(body, rest);
    assert later[..|body|] == body && later[|body| + 1..] == rest;
  }

  lemma ScanOpen(tail: seq<string>, number: nat)
    requires IsOpen(tail)
    ensures Scan(tail, number) == if tail == [] then [] else [Open(number)]
  {
    if tail != [] {
      CloseAtEnd(tail[1..]);
    }
  }

  lemma ScanItem(item: Item, rest: seq<string>, number: nat)
    requires WellFormed(item)
    ensures Scan(Render(item) + rest, number) == FencesOf(item, number) + Scan(rest, number + |Render(item)|)
  {
    match item
    case Prose(line) =>
      ScanProse(line, rest, number);
    case Fenced(opener, options, _, script) =>
      NoFenceInBody(item);
      ReadFence(item);
      ScanClosed(opener, BodyLines(item), rest, number);
  }

  ghost predicate ContributesAt(item: Item, rest: seq<string>, number: nat,
                                render: Item -> seq<string>, fences: (Item, nat) -> seq<Fence>) {
    Scan(render(item) + rest, number) == fences(item, number) + Scan(rest, number + |render(item)|)
  }

  /** An item, whatever follows it, contributes its own fences to the scan. */
  ghost predicate Contributes(item: Item, render: Item -> seq<string>, fences: (Item, nat) -> seq<Fence>) {
    forall rest, n: nat :: ContributesAt(item, rest, n, render, fences)
  }

  lemma ItemContributes(item: Item)
    requires WellFormed(item)
    ensures Contributes(item, Render, FencesOf)
  {
    forall rest, n: nat
      ensures ContributesAt(item, rest, n, Render, FencesOf)
    {
      ScanItem(item, rest, n);
    }
  }

  lemma {:induction false} ScanEach(items: seq<Item>, tail: seq<string>, number: nat,
                                    render: Item -> seq<string>, fences: (Item, nat) -> seq<Fence>)
    requires forall item :: item in items ==> Contributes(item, render, fences)
    ensures Scan(Lines(items, render) + tail, number)
            == Fences(items, number, render, fences) + Scan(tail, number + |Lines(items, render)|)
    decreases |items|
  {
    if items == [] {
      assert [] + tail == tail;
    } else {
      var first, later := render(items[0]), Lines(items[1..], render);
      ScanEach(items[1..], tail, number + |first|, render, fences);
      assert Lines(items, render) + tail == first + (later + tail);
      assert items[0] in items && ContributesAt(items[0], later + tail, number, render, fences);
    }
  }

  lemma AllContribute(items: seq<Item>)
    requires forall item :: item in items ==> WellFormed(item)
    ensures forall item :: item in items ==> Contributes(item, Render, FencesOf)
  {
    forall item | item in items
      ensures Contributes(item, Render, FencesOf)
    {
      ItemContributes(item);
    }
  }

  /** Scanning a rendered document yields exactly its fences, each at its line and judged by its own options and
      script, and reports an unclosed tail. */
  lemma ScanRendered(items: seq<Item>, tail: seq<string>)
    requires (forall item :: item in items ==> WellFormed(item)) && IsOpen(tail)
    ensures Scan(Lines(items, Render) + tail, 1)
            == Fences(items, 1, Render, FencesOf)
               + if tail == [] then [] else [Open(1 + |Lines(items, Render)|)]
  {
    AllContribute(items);
    ScanEach(items, tail, 1, Render, FencesOf);
    ScanOpen(tail, 1 + |Lines(items, Render)|);
  }

  /** The number of leading option lines. */
  function OptionCount(lines: seq<string>): (n: nat)
    ensures n <= |lines| && (n < |lines| ==> MatchOption(lines[n]).None?)
  {
    if lines == [] || MatchOption(lines[0]).None? then 0 else 1 + OptionCount(lines[1..])
  }

  lemma {:induction false} OptionsCounted(lines: seq<string>)
    ensures AreOptions(lines[..OptionCount(lines)])
  {
    if lines != [] && MatchOption(lines[0]).Some? {
      OptionsCounted(lines[1..]);
      assert lines[..OptionCount(lines)][1..] == lines[1..][..OptionCount(lines[1..])];
    }
  }

  lemma ItemOf(opener: string, body: seq<string>) returns (item: Item)
    requires IsOpener(opener) && Unfenced(body)
    ensures WellFormed(item) && Render(item) == [opener] + body + [FENCE]
  {
    var n := OptionCount(body);
    OptionsCounted(body);
    assert body[..n] + body[n..] == body;
    UnfencedConcat(body[..n], body[n..]);
    if n < |body| && Strip(body[n]) == [] {
      assert body[n..] == [body[n]] + body[n + 1..];
      UnfencedConcat([body[n]], body[n + 1..]);
      item := Fenced(opener, body[..n], Some(body[n]), body[n + 1..]);
    } else {
      assert body[n..] == [] + body[n..];
      item := Fenced(opener, body[..n], None, body[n..]);
    }
    assert BodyLines(item) == body;
  }

  lemma Framed<T>(lines: seq<T>, k: nat)
    requires k + 1 < |lines|
    ensures [lines[0]] + lines[1..][..k] + [lines[k + 1]] == lines[..k + 2]
  {
  }

  /** The item that a text starts with, when it starts with one. */
  lemma FirstItem(lines: seq<string>) returns (item: Item, size: nat)
    requires lines != [] && (IsOpener(lines[0]) ==> !Unfenced(lines[1..]))
    ensures WellFormed(item) && 0 < size <= |lines| && Render(item) == lines[..size]
  {
    if !IsOpener(lines[0]) {
      return Prose(lines[0]), 1;
    }
    var rest := lines[1..];
    var k := CloseAt(rest);
    CloseAtEnd(rest);
    Framed(lines, k);
    item := ItemOf(lines[0], rest[..k]);
    size := k + 2;
  }

  lemma PrependItem(item: Item, later: seq<Item>, tail: seq<string>, lines: seq<string>, size: nat,
                    render: Item -> seq<string>)
    requires size <= |lines| && render(item) == lines[..size] && Lines(later, render) + tail == lines[size..]
    ensures Lines([item] + later, render) + tail == lines
  {
    assert ([item] + later)[1..] == later;
    assert lines[..size] + lines[size..] == lines;
  }

  /** Every list of lines is a document: items, then perhaps an unclosed fence. */
  lemma {:induction false} EveryTextIsADocument(lines: seq<string>) returns (items: seq<Item>, tail: seq<string>)
    ensures (forall item :: item in items ==> WellFormed(item)) && IsOpen(tail)
    ensures Lines(items, Render) + tail == lines
    decreases |lines|
  {
    if lines == [] || (IsOpener(lines[0]) && Unfenced(lines[1..])) {
      return [], lines;
    }
    var item, size := FirstItem(lines);
    var later: seq<Item>;
    later, tail := EveryTextIsADocument(lines[size..]);
    items := [item] + later;
    PrependItem(item, later, tail, lines, size, Render);
  }

  // ---- the round trip ----

  /** A line of text, or a sync block in its usual layout: three options, an empty line, the script. */
  datatype Part =
    | Text(line: string)
    | Sync(opener: string, yaml: string, target: string, class_: string, script: seq<string>)

  predicate Unindented(value: string) {
    value == [] || !IsSpace(value[0])
  }

  predicate Proper(part: Part) {
    match part
    case Text(line) => !IsOpener(line)
    case Sync(opener, yaml, target, class_, script) =>
      IsOpener(opener) && Unindented(yaml) && Unindented(target) && Unindented(class_) && Unfenced(script)
  }

  function OptionText(name: string, value: string): string {
    [':'] + name + [':', ' '] + value
  }

  function ItemFor(part: Part): Item {
    match part
    case Text(line) => Prose(line)
    case Sync(opener, yaml, target, class_, script) =>
      Fenced(opener, [OptionText("sync-yaml", yaml), OptionText("sync-target", target),
                      OptionText("sync-class", class_)], Some([]), script)
  }

  function Size(part: Part): nat {
    if part.Text? then 1 else |part.script| + 6
  }

  function BlockFor(part: Part, number: nat): Block
    requires part.Sync?
  {
    Block(number, Strip(Join(part.script)), part.yaml, part.target, part.class_)
  }

  /** The blocks of a document; number is the number of its first line. */
  function DocumentBlocks(parts: seq<Part>, number: nat): seq<Block> {
    if parts == [] then []
    else
      (if parts[0].Sync? then [BlockFor(parts[0], number)] else [])
      + DocumentBlocks(parts[1..], number + Size(parts[0]))
  }

  function FenceFor(part: Part, number: nat): seq<Fence> {
    match part
    case Text(_) => []
    case Sync(_, yaml, target, class_, script) =>
      [Closed(number, map["sync-yaml" := yaml, "sync-target" := target, "sync-class" := class_], script)]
  }

  function DocumentFences(parts: seq<Part>, number: nat): seq<Fence> {
    if parts == [] then []
    else FenceFor(parts[0], number) + DocumentFences(parts[1..], number + Size(parts[0]))
  }

  /** The items of the parts; `item` is ItemFor, a parameter for the same reason as `render` and `fences`. */
  function Items(parts: seq<Part>, item: Part -> Item): seq<Item> {
    if parts == [] then [] else [item(parts[0])] + Items(parts[1..], item)
  }

  lemma NamesAreNames()
    ensures forall k :: 0 <= k < |"sync-yaml"| ==> IsNameChar("sync-yaml"[k])
    ensures forall k :: 0 <= k < |"sync-target"| ==> IsNameChar("sync-target"[k])
    ensures forall k :: 0 <= k < |"sync-class"| ==> IsNameChar("sync-class"[k])
  {
  }

  lemma CollectThree(a: string, b: string, c: string, yaml: string, target: string, class_: string)
    requires MatchOption(a) == Some(("sync-yaml", yaml))
    requires MatchOption(b) == Some(("sync-target", target))
    requires MatchOption(c) == Some(("sync-class", class_))
    ensures AreOptions([a, b, c])
    ensures Collect(map[], [a, b, c])
            == map["sync-yaml" := yaml, "sync-target" := target, "sync-class" := class_]
  {
    assert [a, b, c][1..] == [b, c] && [b, c][1..] == [c] && [c][1..] == [];
    assert AreOptions([c]) && AreOptions([b, c]);
    var m1 := map["sync-yaml" := yaml];
    assert Collect(map[], [a, b, c]) == Collect(m1, [b, c]);
    var m2 := m1["sync-target" := target];
    assert Collect(m1, [b, c]) == Collect(m2, [c]);
    assert Collect(m2, [c]) == Collect(m2["sync-class" := class_], []);
  }

  /** The part's item has the part's size and is the part's fence. */
  ghost predicate Matches(part: Part, item: Part -> Item, render: Item -> seq<string>,
                          fences: (Item, nat) -> seq<Fence>) {
    |render(item(part))| == Size(part) && forall n: nat :: fences(item(part), n) == FenceFor(part, n)
  }

  lemma ProperMatches(part: Part)
    requires Proper(part)
    ensures WellFormed(ItemFor(part)) && Matches(part, ItemFor, Render, FencesOf)
  {
    if part.Sync? {
      NamesAreNames();
      OptionLine("sync-yaml", part.yaml);
      OptionLine("sync-target", part.target);
      OptionLine("sync-class", part.class_);
      CollectThree(OptionText("sync-yaml", part.yaml), OptionText("sync-target", part.target),
                   OptionText("sync-class", part.class_), part.yaml, part.target, part.class_);
    }
  }

  lemma {:induction false} FencesOfParts(parts: seq<Part>, number: nat, item: Part -> Item,
                                         render: Item -> seq<string>, fences: (Item, nat) -> seq<Fence>)
    requires forall part :: part in parts ==> Matches(part, item, render, fences)
    ensures Fences(Items(parts, item), number, render, fences) == DocumentFences(parts, number)
    decreases |parts|
  {
    if parts != [] {
      var part, later := parts[0], parts[1..];
      assert parts == [part] + later && part in parts;
      assert Matches(part, item, render, fences);
      FencesOfParts(later, number + Size(part), item, render, fences);
      assert Items(parts, item)[1..] == Items(later, item);
    }
  }

  lemma JudgeComplete(part: Part, number: nat)
    requires part.Sync?
    ensures Judge(FenceFor(part, number)[0]) == Found(BlockFor(part, number))
  {
  }

  lemma {:induction false} BlocksOfParts(parts: seq<Part>, number: nat)
    ensures BlocksOf(DocumentFences(parts, number)) == DocumentBlocks(parts, number)
    ensures DiagnosticsOf(DocumentFences(parts, number)) == []
    decreases |parts|
  {
    if parts != [] {
      var part, later := parts[0], DocumentFences(parts[1..], number + Size(parts[0]));
      BlocksOfParts(parts[1..], number + Size(part));
      if part.Sync? {
        JudgeComplete(part, number);
        assert DocumentFences(parts, number)[1..] == later;
      } else {
        assert DocumentFences(parts, number) == later;
      }
    }
  }

  lemma {:induction false} ItemsWellFormed(parts: seq<Part>)
    requires forall part :: part in parts ==> Proper(part)
    ensures forall x :: x in Items(parts, ItemFor) ==> WellFormed(x)
  {
    if parts != [] {
      assert parts == [parts[0]] + parts[1..] && parts[0] in parts;
      ProperMatches(parts[0]);
      ItemsWellFormed(parts[1..]);
    }
  }

  /** The fences of a document are those it was made of. */
  lemma DocumentScan(parts: seq<Part>)
    requires forall part :: part in parts ==> Proper(part)
    ensures Scan(Lines(Items(parts, ItemFor), Render), 1) == DocumentFences(parts, 1)
  {
    var items := Items(parts, ItemFor);
    ItemsWellFormed(parts);
    ScanRendered(items, []);
    assert Lines(items, Render) + [] == Lines(items, Render);
    forall part | part in parts
      ensures Matches(part, ItemFor, Render, FencesOf)
    {
      ProperMatches(part);
    }
    FencesOfParts(parts, 1, ItemFor, Render, FencesOf);
  }

  lemma {:induction false} NoFencesIff(parts: seq<Part>, number: nat)
    ensures DocumentFences(parts, number) == [] <==> forall part :: part in parts ==> part.Text?
    decreases |parts|
  {
    if parts != [] {
      NoFencesIff(parts[1..], number + Size(parts[0]));
      assert parts == [parts[0]] + parts[1..];
    }
  }

  /** The content of a block is its script; only white space at its ends is lost. */
  lemma ContentIsScript(part: Part, number: nat)
    requires part.Sync?
    ensures Trimmed(Join(part.script)) <==> BlockFor(part, number).content == Join(part.script)
  {
    StripTrims(Join(part.script));
    if Trimmed(Join(part.script)) {
      TrimmedIsStripped(Join(part.script));
    }
  }

  /** Extracting the blocks of a document yields exactly the blocks it was made of, at their lines, and complains only
      when there is none. */
  lemma DocumentRoundTrip(parts: seq<Part>)
    requires forall part :: part in parts ==> Proper(part)
    ensures var lines := Lines(Items(parts, ItemFor), Render);
            && ExtractedBlocks(lines) == DocumentBlocks(parts, 1)
            && ExtractedDiagnostics(lines) == if exists part :: part in parts && part.Sync? then [] else [NoBlocks]
  {
    DocumentScan(parts);
    BlocksOfParts(parts, 1);
    NoFencesIff(parts, 1);
  }
}
