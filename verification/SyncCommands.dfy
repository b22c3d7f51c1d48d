/**
 `vllm serve` commands in the linter: the token parser, the tokens a command stands for, and the comparison of two
 parsed commands as multisets of printed entries.
 */
module SyncCommands {
  import opened Collections
  import opened Text

  datatype Parameter = Parameter(name: string, value: Option<string>)

  datatype Command = Command(model: string, parameters: seq<Parameter>)

  datatype Error = NotServe | NoModel | Positional(token: string) | Duplicated(token: string)

  predicate IsOption(token: string) {
    StartsWith(token, "--")
  }

  lemma OptionStarts(token: string)
    ensures IsOption(token) <==> |token| >= 2 && token[0] == '-' && token[1] == '-'
  {
  }

  // ---- parsing ----

  function ParseParameters(tokens: seq<string>, seen: set<string>): Result<seq<Parameter>, Error>
    decreases |tokens|
  {
    if tokens == [] then Ok([])
    else if !IsOption(tokens[0]) then Err(Positional(tokens[0]))
    else if tokens[0] in seen then Err(Duplicated(tokens[0]))
    else if |tokens| > 1 && !IsOption(tokens[1]) then
      Prepend([Parameter(tokens[0], Some(Normalise(tokens[1])))], ParseParameters(tokens[2..], seen + {tokens[0]}))
    else
      Prepend([Parameter(tokens[0], None)], ParseParameters(tokens[1..], seen + {tokens[0]}))
  }

  function Prepend(front: seq<Parameter>, r: Result<seq<Parameter>, Error>): Result<seq<Parameter>, Error> {
    if r.Err? then r else Ok(front + r.value)
  }

  function Parse(tokens: seq<string>): Result<Command, Error> {
    if |tokens| < 3 || tokens[0] != "vllm" || tokens[1] != "serve" then Err(NotServe)
    else if IsOption(tokens[2]) then Err(NoModel)
    else
      var parameters := ParseParameters(tokens[3..], {});
      if parameters.Err? then Err(parameters.error) else Ok(Command(Normalise(tokens[2]), parameters.value))
  }

  lemma PrependTwice(a: seq<Parameter>, b: seq<Parameter>, r: Result<seq<Parameter>, Error>)
    ensures Prepend(a, Prepend(b, r)) == Prepend(a + b, r)
  {
    if r.Ok? {
      assert a + (b + r.value) == a + b + r.value;
    }
  }

  /** parse_tokens */
  method ParseTokens(tokens: seq<string>) returns (r: Result<Command, Error>)
    ensures r == Parse(tokens)
  {
    if |tokens| < 3 || tokens[0] != "vllm" || tokens[1] != "serve" {
      return Err(NotServe);
    }
    var model := tokens[2];
    if IsOption(model) {
      return Err(NoModel);
    }
    var parameters: seq<Parameter>, seen: set<string>, i := [], {}, 3;
    ghost var parsed := ParseParameters(tokens[3..], {});
    assert parsed.Ok? ==> [] + parsed.value == parsed.value;
    while i < |tokens|
      invariant 3 <= i <= |tokens|
      invariant parsed == Prepend(parameters, ParseParameters(tokens[i..], seen))
    {
      var token := tokens[i];
      if !IsOption(token) {
        return Err(Positional(token));
      }
      if token in seen {
        return Err(Duplicated(token));
      }
      seen := seen + {token};
      if i + 1 < |tokens| && !IsOption(tokens[i + 1]) {
        var parameter := Parameter(token, Some(Normalise(tokens[i + 1])));
        assert tokens[i..][2..] == tokens[i + 2..] && tokens[i..][1] == tokens[i + 1];
        PrependTwice(parameters, [parameter], ParseParameters(tokens[i + 2..], seen));
        parameters, i := parameters + [parameter], i + 2;
      } else {
        assert tokens[i..][1..] == tokens[i + 1..];
        PrependTwice(parameters, [Parameter(token, None)], ParseParameters(tokens[i + 1..], seen));
        parameters, i := parameters + [Parameter(token, None)], i + 1;
      }
    }
    assert parameters + [] == parameters;
    return Ok(Command(Normalise(model), parameters));
  }

  // ---- the tokens of a command ----

  function ParameterTokens(p: Parameter): seq<string> {
    [p.name] + if p.value.Some? then [p.value.value] else []
  }

  function AllTokens(parameters: seq<Parameter>): seq<string> {
    if parameters == [] then [] else ParameterTokens(parameters[0]) + AllTokens(parameters[1..])
  }

  function Tokens(c: Command): seq<string> {
    ["vllm", "serve", c.model] + AllTokens(c.parameters)
  }

  /** Options with different names, none of them seen before; the given predicate holds of the values. */
  ghost predicate Options(parameters: seq<Parameter>, seen: set<string>, value: string -> bool)
    decreases |parameters|
  {
    parameters == [] ||
    (&& IsOption(parameters[0].name) && parameters[0].name !in seen
     && (parameters[0].value.Some? ==> value(parameters[0].value.value))
     && Options(parameters[1..], seen + {parameters[0].name}, value))
  }

  predicate IsOperand(token: string) {
    !IsOption(token)
  }

  /** A command as one may write it: its model and its values are no options, its names are, and differ. */
  ghost predicate Writable(c: Command) {
    IsOperand(c.model) && Options(c.parameters, {}, IsOperand)
  }

  function NormalParameter(p: Parameter): Parameter {
    p.(value := if p.value.Some? then Some(Normalise(p.value.value)) else None)
  }

  function NormalParameters(parameters: seq<Parameter>): seq<Parameter> {
    if parameters == [] then [] else [NormalParameter(parameters[0])] + NormalParameters(parameters[1..])
  }

  function NormalCommand(c: Command): Command {
    Command(Normalise(c.model), NormalParameters(c.parameters))
  }

  lemma TokensFirst(p: Parameter, parameters: seq<Parameter>)
    requires parameters == [] || IsOption(parameters[0].name)
    ensures var tokens := ParameterTokens(p) + AllTokens(parameters);
            && tokens[0] == p.name
            && (p.value.Some? ==> tokens[1] == p.value.value && tokens[2..] == AllTokens(parameters))
            && (p.value.None? ==> tokens[1..] == AllTokens(parameters) && (|tokens| > 1 ==> IsOption(tokens[1])))
  {
  }

  lemma {:induction false} ParseAllTokens(parameters: seq<Parameter>, seen: set<string>)
    requires Options(parameters, seen, IsOperand)
    ensures ParseParameters(AllTokens(parameters), seen) == Ok(NormalParameters(parameters))
    decreases |parameters|
  {
    if parameters != [] {
      TokensFirst(parameters[0], parameters[1..]);
      ParseAllTokens(parameters[1..], seen + {parameters[0].name});
    }
  }

  lemma {:induction false} ParametersWritten(tokens: seq<string>, seen: set<string>) returns (raw: seq<Parameter>)
    requires ParseParameters(tokens, seen).Ok?
    ensures Options(raw, seen, IsOperand) && AllTokens(raw) == tokens
    ensures ParseParameters(tokens, seen) == Ok(NormalParameters(raw))
    decreases |tokens|
  {
    if tokens == [] {
      return [];
    }
    var first, later;
    if |tokens| > 1 && !IsOption(tokens[1]) {
      first := Parameter(tokens[0], Some(tokens[1]));
      later := ParametersWritten(tokens[2..], seen + {tokens[0]});
      assert tokens == [tokens[0]] + [tokens[1]] + tokens[2..];
    } else {
      first := Parameter(tokens[0], None);
      later := ParametersWritten(tokens[1..], seen + {tokens[0]});
      assert tokens == [tokens[0]] + [] + tokens[1..];
    }
    raw := [first] + later;
    assert raw[1..] == later;
  }

  /** The same options; the model and the values have the same words, with one space between them. */
  ghost predicate SameWords(raw: Command, c: Command) {
    && NormalOf(raw.model, c.model) && |raw.parameters| == |c.parameters|
    && forall i :: 0 <= i < |c.parameters| ==> SameParameter(raw.parameters[i], c.parameters[i])
  }

  ghost predicate SameParameter(p: Parameter, q: Parameter) {
    && p.name == q.name && (p.value.Some? <==> q.value.Some?)
    && (q.value.Some? ==> NormalOf(p.value.value, q.value.value))
  }

  lemma {:induction false} SameParametersIff(raw: seq<Parameter>, parameters: seq<Parameter>)
    ensures NormalParameters(raw) == parameters
            <==> |raw| == |parameters| && forall i :: 0 <= i < |raw| ==> SameParameter(raw[i], parameters[i])
    decreases |raw|
  {
    if raw != [] {
      var p := NormalParameter(raw[0]);
      if parameters != [] {
        SameParametersIff(raw[1..], parameters[1..]);
        assert parameters == [parameters[0]] + parameters[1..];
        NormalIs(raw[0], parameters[0]);
        HeadsAndTails(p, NormalParameters(raw[1..]), parameters[0], parameters[1..]);
      }
    }
  }

  lemma HeadsAndTails<T>(x: T, a: seq<T>, y: T, b: seq<T>)
    ensures [x] + a == [y] + b <==> x == y && a == b
  {
    assert ([x] + a)[1..] == a && ([y] + b)[1..] == b;
    assert ([x] + a)[0] == x && ([y] + b)[0] == y;
  }

  lemma NormalIs(p: Parameter, q: Parameter)
    ensures NormalParameter(p) == q <==> SameParameter(p, q)
  {
    if p.value.Some? && q.value.Some? {
      NormaliseIff(p.value.value, q.value.value);
    }
  }

  lemma SameWordsIff(raw: Command, c: Command)
    ensures NormalCommand(raw) == c <==> SameWords(raw, c)
  {
    NormaliseIff(raw.model, c.model);
    SameParametersIff(raw.parameters, c.parameters);
  }

  /** A list of tokens parses to a command exactly when it is the tokens of a writable command that has the same words
      in its model and in every value. */
  lemma ParsedIff(tokens: seq<string>, c: Command)
    ensures Parse(tokens) == Ok(c)
            <==> exists raw: Command :: Writable(raw) && Tokens(raw) == tokens && SameWords(raw, c)
  {
    NormalisedIff(tokens, c);
    forall raw: Command
      ensures NormalCommand(raw) == c <==> SameWords(raw, c)
    {
      SameWordsIff(raw, c);
    }
  }

  lemma NormalisedIff(tokens: seq<string>, c: Command)
    ensures Parse(tokens) == Ok(c)
            <==> exists raw: Command :: Writable(raw) && Tokens(raw) == tokens && NormalCommand(raw) == c
  {
    forall raw: Command | Writable(raw)
      ensures Parse(Tokens(raw)) == Ok(NormalCommand(raw))
    {
      ParseAllTokens(raw.parameters, {});
      assert Tokens(raw)[3..] == AllTokens(raw.parameters);
    }
    if Parse(tokens) == Ok(c) {
      var parameters := ParametersWritten(tokens[3..], {});
      var raw := Command(tokens[2], parameters);
      assert tokens == ["vllm", "serve", tokens[2]] + tokens[3..];
      assert Writable(raw) && Tokens(raw) == tokens && NormalCommand(raw) == c;
    }
  }

  // ---- where the parser stops ----

  function Names(parameters: seq<Parameter>): set<string> {
    set p | p in parameters :: p.name
  }

  /** The last option, if any, has its value. */
  predicate Full(parameters: seq<Parameter>) {
    parameters == [] || parameters[|parameters| - 1].value.Some?
  }

  lemma NamesStep(p: Parameter, later: seq<Parameter>)
    ensures Names([p] + later) == {p.name} + Names(later)
  {
    assert forall q :: q in [p] + later <==> q == p || q in later;
    assert p in [p] + later;
  }

  /** After the tokens of options, an operand that is no value and an option seen before are errors. */
  lemma {:induction false} ParseStops(parameters: seq<Parameter>, seen: set<string>, t: string, rest: seq<string>)
    requires Options(parameters, seen, IsOperand) && (IsOperand(t) ==> Full(parameters))
    ensures IsOperand(t) ==> ParseParameters(AllTokens(parameters) + ([t] + rest), seen) == Err(Positional(t))
    ensures IsOption(t) && t in seen + Names(parameters) ==>
              ParseParameters(AllTokens(parameters) + ([t] + rest), seen) == Err(Duplicated(t))
    decreases |parameters|
  {
    var stop := [t] + rest;
    if parameters == [] {
      assert AllTokens(parameters) + stop == stop;
    } else {
      var p, later := parameters[0], parameters[1..];
      assert parameters == [p] + later;
      NamesStep(p, later);
      ParseStops(later, seen + {p.name}, t, rest);
      var tokens, after := AllTokens(parameters) + stop, AllTokens(later) + stop;
      assert tokens == ParameterTokens(p) + after;
      if p.value.Some? {
        assert tokens[2..] == after && tokens[1] == p.value.value;
      } else {
        assert tokens[1..] == after && tokens[1] == after[0];
        assert later != [] ==> after[0] == later[0].name;
      }
    }
  }

  /** And these are the only ones. */
  lemma {:induction false} StoppedAt(tokens: seq<string>, seen: set<string>)
    returns (raw: seq<Parameter>, t: string, rest: seq<string>)
    requires ParseParameters(tokens, seen).Err?
    ensures Options(raw, seen, IsOperand) && tokens == AllTokens(raw) + ([t] + rest)
    ensures var e := ParseParameters(tokens, seen).error;
            (e == Positional(t) && IsOperand(t) && Full(raw))
            || (e == Duplicated(t) && IsOption(t) && t in seen + Names(raw))
    decreases |tokens|
  {
    if !IsOption(tokens[0]) || tokens[0] in seen {
      raw, t, rest := [], tokens[0], tokens[1..];
    } else {
      var first, later, n;
      if |tokens| > 1 && !IsOption(tokens[1]) {
        first, n := Parameter(tokens[0], Some(tokens[1])), 2;
      } else {
        first, n := Parameter(tokens[0], None), 1;
      }
      later, t, rest := StoppedAt(tokens[n..], seen + {tokens[0]});
      raw := [first] + later;
      NamesStep(first, later);
      StopComposes(tokens, n, first, later, t, rest);
      assert raw[1..] == later;
      assert later != [] ==> raw[|raw| - 1] == later[|later| - 1];
    }
  }

  lemma StopComposes(tokens: seq<string>, n: nat, first: Parameter, later: seq<Parameter>, t: string, rest: seq<string>)
    requires n <= |tokens| && ParameterTokens(first) == tokens[..n] && tokens[n..] == AllTokens(later) + ([t] + rest)
    ensures tokens == AllTokens([first] + later) + ([t] + rest)
  {
    assert ([first] + later)[1..] == later;
    assert tokens == tokens[..n] + tokens[n..];
  }

  lemma HeaderErrorIff(tokens: seq<string>)
    ensures Parse(tokens) == Err(NotServe) <==> |tokens| < 3 || tokens[..2] != ["vllm", "serve"]
    ensures Parse(tokens) == Err(NoModel) <==> |tokens| >= 3 && tokens[..2] == ["vllm", "serve"] && IsOption(tokens[2])
  {
    if |tokens| >= 3 {
      var header := tokens[..2];
      assert header == [tokens[0], tokens[1]];
      assert ["vllm", "serve"][0] == "vllm" && ["vllm", "serve"][1] == "serve";
      assert header == ["vllm", "serve"] <==> tokens[0] == "vllm" && tokens[1] == "serve";
      if ParseParameters(tokens[3..], {}).Err? {
        var _, _, _ := StoppedAt(tokens[3..], {});
      }
    }
  }

  /** Every error, exactly: what is no command, what has no model, and the first token after a writable command that is
      an operand too many or an option given before. */
  lemma ErrorIff(tokens: seq<string>, t: string)
    ensures Parse(tokens) == Err(NotServe) <==> |tokens| < 3 || tokens[..2] != ["vllm", "serve"]
    ensures Parse(tokens) == Err(NoModel) <==> |tokens| >= 3 && tokens[..2] == ["vllm", "serve"] && IsOption(tokens[2])
    ensures Parse(tokens) == Err(Positional(t))
            <==> exists raw: Command, rest ::
                   Writable(raw) && tokens == Tokens(raw) + ([t] + rest) && IsOperand(t) && Full(raw.parameters)
    ensures Parse(tokens) == Err(Duplicated(t))
            <==> exists raw: Command, rest ::
                   Writable(raw) && tokens == Tokens(raw) + ([t] + rest) && IsOption(t) && t in Names(raw.parameters)
  {
    HeaderErrorIff(tokens);
    forall raw: Command, rest | Writable(raw) && tokens == Tokens(raw) + ([t] + rest)
      ensures IsOperand(t) && Full(raw.parameters) ==> Parse(tokens) == Err(Positional(t))
      ensures IsOption(t) && t in Names(raw.parameters) ==> Parse(tokens) == Err(Duplicated(t))
    {
      assert tokens[3..] == AllTokens(raw.parameters) + ([t] + rest);
      if IsOperand(t) ==> Full(raw.parameters) {
        ParseStops(raw.parameters, {}, t, rest);
      }
    }
    if Parse(tokens) == Err(Positional(t)) || Parse(tokens) == Err(Duplicated(t)) {
      var parameters, u, rest := StoppedAt(tokens[3..], {});
      var raw := Command(tokens[2], parameters);
      assert tokens == ["vllm", "serve", tokens[2]] + tokens[3..];
      assert Writable(raw) && tokens == Tokens(raw) + ([u] + rest);
    }
  }

  // ---- the commands that come out ----

  /** A parsed command: white space is normal; a value may look like an option. */
  ghost predicate IsParsed(c: Command) {
    IsNormal(c.model) && Options(c.parameters, {}, IsNormal)
  }

  lemma PadValue(value: string)
    requires IsNormal(value)
    ensures IsOperand([' '] + value) && Normalise([' '] + value) == value
  {
    assert ([' '] + value)[1..] == value;
    NormalIsFixed(value);
  }

  lemma {:induction false} PadParameters(parameters: seq<Parameter>, seen: set<string>) returns (raw: seq<Parameter>)
    requires Options(parameters, seen, IsNormal)
    ensures Options(raw, seen, IsOperand) && NormalParameters(raw) == parameters
    decreases |parameters|
  {
    if parameters == [] {
      return [];
    }
    var p := parameters[0];
    var later := PadParameters(parameters[1..], seen + {p.name});
    if p.value.Some? {
      PadValue(p.value.value);
      raw := [Parameter(p.name, Some([' '] + p.value.value))] + later;
    } else {
      raw := [p] + later;
    }
    assert raw[1..] == later;
    assert parameters == [p] + parameters[1..];
  }

  lemma {:induction false} NormalParametersParsed(raw: seq<Parameter>, seen: set<string>)
    requires Options(raw, seen, IsOperand)
    ensures Options(NormalParameters(raw), seen, IsNormal)
    decreases |raw|
  {
    if raw != [] {
      NormalParametersParsed(raw[1..], seen + {raw[0].name});
      if raw[0].value.Some? {
        SpacedIsNormal(raw[0].value.value);
      }
    }
  }

  /** What the parser can return, exactly. */
  lemma IsParsedIff(c: Command)
    ensures IsParsed(c) <==> exists tokens :: Parse(tokens) == Ok(c)
  {
    forall tokens | Parse(tokens) == Ok(c)
      ensures IsParsed(c)
    {
      NormalisedIff(tokens, c);
      var raw: Command :| Writable(raw) && Tokens(raw) == tokens && NormalCommand(raw) == c;
      SpacedIsNormal(raw.model);
      NormalParametersParsed(raw.parameters, {});
    }
    if IsParsed(c) {
      PadValue(c.model);
      var parameters := PadParameters(c.parameters, {});
      var raw := Command([' '] + c.model, parameters);
      NormalisedIff(Tokens(raw), c);
    }
  }

  // ---- parsing again ----

  lemma {:induction false} ReparseParameters(parameters: seq<Parameter>, seen: set<string>)
    requires Options(parameters, seen, IsNormal)
    ensures ParseParameters(AllTokens(parameters), seen) == Ok(parameters) <==> Options(parameters, seen, IsOperand)
    decreases |parameters|
  {
    if parameters != [] {
      var p, later := parameters[0], parameters[1..];
      TokensFirst(p, later);
      ReparseParameters(later, seen + {p.name});
      assert parameters == [p] + later;
      if p.value.Some? {
        NormalIsFixed(p.value.value);
      }
      var rest := ParseParameters(AllTokens(later), seen + {p.name});
      if rest.Ok? && [p] + rest.value == parameters {
        assert ([p] + rest.value)[1..] == rest.value;
      }
    }
  }

  /** The tokens of a parsed command parse to it again exactly when neither its model nor a value of it starts with
      two dashes once white space is gone. */
  lemma ReparseIff(c: Command)
    requires IsParsed(c)
    ensures Parse(Tokens(c)) == Ok(c) <==> Writable(c)
  {
    assert Tokens(c)[3..] == AllTokens(c.parameters);
    NormalIsFixed(c.model);
    ReparseParameters(c.parameters, {});
  }
}
