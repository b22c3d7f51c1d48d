/**
 Comparing the command in a document with the one in a YAML file: both are printed as entries, and the entries are
 compared as multisets.
 */
module SyncCompare {
  import opened Collections
  import opened Text
  import opened SyncCommands

  /** The entries that only one side has, with multiplicity. */
  datatype Differences = Differences(extra: multiset<string>, missing: multiset<string>)

  /** compare_entry_sets */
  function CompareEntries(doc: seq<string>, yaml: seq<string>): Differences {
    Differences(multiset(doc) - multiset(yaml), multiset(yaml) - multiset(doc))
  }

  ghost predicate NoDifference(d: Differences) {
    d.extra == multiset{} && d.missing == multiset{}
  }

  /** Nothing is lost or counted twice: each side and what it misses make up the other side and its own extras, and
      no entry is both extra and missing. */
  lemma EntriesConserved(doc: seq<string>, yaml: seq<string>)
    ensures var d := CompareEntries(doc, yaml);
            multiset(doc) + d.missing == multiset(yaml) + d.extra && d.extra !! d.missing
    ensures NoDifference(CompareEntries(doc, yaml)) <==> multiset(doc) == multiset(yaml)
  {
    var a, b := multiset(doc), multiset(yaml);
    if a - b == multiset{} && b - a == multiset{} {
      forall x: string
        ensures a[x] == b[x]
      {
        assert (a - b)[x] == 0 && (b - a)[x] == 0;
      }
    }
  }

  // ---- printed entries ----

  /** CommandParameter.as_entry */
  function Entry(p: Parameter): string {
    if p.value.None? then p.name else p.name + [' '] + p.value.value
  }

  const MODEL_LABEL := "model="

  function ParameterEntries(parameters: seq<Parameter>): seq<string> {
    if parameters == [] then [] else [Entry(parameters[0])] + ParameterEntries(parameters[1..])
  }

  /** CmdCompareData.entries */
  function Entries(c: Command): seq<string> {
    [MODEL_LABEL + c.model] + ParameterEntries(c.parameters)
  }

  /** CmdComparator.compare */
  function Compare(doc: Command, yaml: Command): Differences {
    CompareEntries(Entries(doc), Entries(yaml))
  }

  /** The same model and the same parameters, in any order. */
  ghost predicate SameCommand(a: Command, b: Command) {
    a.model == b.model && multiset(a.parameters) == multiset(b.parameters)
  }

  ghost predicate NamesIn(c: Command, names: set<string>) {
    forall p :: p in c.parameters ==> p.name in names
  }

  /** Over commands with these names, an empty comparison means the same command. */
  ghost predicate Exact(names: set<string>) {
    forall a: Command, b: Command :: IsParsed(a) && IsParsed(b) && NamesIn(a, names) && NamesIn(b, names) ==>
      (NoDifference(Compare(a, b)) <==> SameCommand(a, b))
  }

  /** One name is another one with a value written after it. */
  ghost predicate Confusable(x: string, y: string) {
    exists w :: IsNormal(w) && y == x + [' '] + w
  }

  // ---- telling entries apart ----

  lemma EntryOfLonger(p: Parameter, q: Parameter)
    requires Entry(p) == Entry(q) && |p.name| < |q.name|
    requires p.value.Some? ==> IsNormal(p.value.value)
    ensures Confusable(p.name, q.name)
  {
    var n, e := |p.name|, Entry(p);
    assert p.value.Some?;
    var w := q.name[n + 1..];
    assert q.name == e[..|q.name|] && e[..n] == p.name && e[n] == ' ';
    assert q.name == p.name + [' '] + w;
    assert p.value.value == e[n + 1..];
    if q.value.Some? {
      assert e[n + 1..] == w + [' '] + q.value.value;
      NormalPrefix(w, q.value.value);
    } else {
      assert e[n + 1..] == w;
    }
  }

  lemma EntryInjective(p: Parameter, q: Parameter)
    requires Entry(p) == Entry(q)
    requires p.value.Some? ==> IsNormal(p.value.value)
    requires q.value.Some? ==> IsNormal(q.value.value)
    requires !Confusable(p.name, q.name) && !Confusable(q.name, p.name)
    ensures p == q
  {
    if |p.name| < |q.name| {
      EntryOfLonger(p, q);
    } else if |q.name| < |p.name| {
      EntryOfLonger(q, p);
    } else {
      var n, e := |p.name|, Entry(p);
      assert p.name == e[..n] == q.name;
      if p.value.Some? && q.value.Some? {
        assert p.value.value == e[n + 1..] == q.value.value;
      }
    }
  }

  lemma {:induction false} EntryCount(parameters: seq<Parameter>, p: Parameter)
    requires forall q :: q in parameters && Entry(q) == Entry(p) ==> q == p
    ensures multiset(ParameterEntries(parameters))[Entry(p)] == multiset(parameters)[p]
    decreases |parameters|
  {
    if parameters != [] {
      var first, later := parameters[0], parameters[1..];
      assert parameters == [first] + later;
      EntryCount(later, p);
      assert ParameterEntries(parameters) == [Entry(first)] + ParameterEntries(later);
    }
  }

  lemma {:induction false} OptionsAre(parameters: seq<Parameter>, seen: set<string>, value: string -> bool,
                                      p: Parameter)
    requires Options(parameters, seen, value) && p in parameters
    ensures IsOption(p.name) && (p.value.Some? ==> value(p.value.value))
    decreases |parameters|
  {
    if p != parameters[0] {
      assert p in parameters[1..];
      OptionsAre(parameters[1..], seen + {parameters[0].name}, value, p);
    }
  }

  /** Every printed entry is some parameter's, and the other way round. */
  lemma {:induction false} EntryFrom(parameters: seq<Parameter>, e: string)
    ensures e in ParameterEntries(parameters) <==> exists p :: p in parameters && Entry(p) == e
    decreases |parameters|
  {
    if parameters != [] {
      EntryFrom(parameters[1..], e);
      assert parameters == [parameters[0]] + parameters[1..];
    }
  }

  lemma ModelEntryIsNone(c: Command, model: string)
    requires IsParsed(c)
    ensures MODEL_LABEL + model !in ParameterEntries(c.parameters)
  {
    var e := MODEL_LABEL + model;
    assert e[0] == 'm';
    forall p | p in c.parameters
      ensures Entry(p) != e
    {
      OptionsAre(c.parameters, {}, IsNormal, p);
      assert Entry(p)[0] == p.name[0] == '-';
    }
    EntryFrom(c.parameters, e);
  }

  lemma FrontsEqual<T>(x: T, p: seq<T>, y: T, q: seq<T>)
    requires multiset([x] + p) == multiset([y] + q) && x !in q
    ensures x == y && multiset(p) == multiset(q)
  {
    assert x in multiset([y] + q);
    assert multiset(p) == multiset([x] + p) - multiset{x};
    assert multiset(q) == multiset([y] + q) - multiset{y};
  }

  /** The model entry is no parameter's entry, so equal entries mean equal models and equal parameter entries. */
  lemma EntriesApart(a: Command, b: Command)
    requires IsParsed(a) && IsParsed(b) && multiset(Entries(a)) == multiset(Entries(b))
    ensures a.model == b.model
    ensures multiset(ParameterEntries(a.parameters)) == multiset(ParameterEntries(b.parameters))
  {
    var x, y := MODEL_LABEL + a.model, MODEL_LABEL + b.model;
    ModelEntryIsNone(b, a.model);
    FrontsEqual(x, ParameterEntries(a.parameters), y, ParameterEntries(b.parameters));
    assert a.model == x[|MODEL_LABEL|..] && b.model == y[|MODEL_LABEL|..];
  }

  /** No two different parameters of the two lists print alike. */
  ghost predicate PrintApart(a: seq<Parameter>, b: seq<Parameter>) {
    forall p, q :: p in a + b && q in a + b && Entry(p) == Entry(q) ==> p == q
  }

  lemma SameEntriesIff(a: seq<Parameter>, b: seq<Parameter>)
    requires PrintApart(a, b)
    ensures multiset(ParameterEntries(a)) == multiset(ParameterEntries(b)) <==> multiset(a) == multiset(b)
  {
    forall p | p in a + b
      ensures multiset(ParameterEntries(a))[Entry(p)] == multiset(a)[p]
      ensures multiset(ParameterEntries(b))[Entry(p)] == multiset(b)[p]
    {
      EntryCount(a, p);
      EntryCount(b, p);
    }
    if multiset(a) == multiset(b) {
      forall e: string
        ensures multiset(ParameterEntries(a))[e] == multiset(ParameterEntries(b))[e]
      {
        EntryFrom(a, e);
        EntryFrom(b, e);
      }
    }
    if multiset(ParameterEntries(a)) == multiset(ParameterEntries(b)) {
      forall p: Parameter
        ensures multiset(a)[p] == multiset(b)[p]
      {
      }
    }
  }

  lemma ExactFor(a: Command, b: Command)
    requires IsParsed(a) && IsParsed(b) && PrintApart(a.parameters, b.parameters)
    ensures NoDifference(Compare(a, b)) <==> SameCommand(a, b)
  {
    EntriesConserved(Entries(a), Entries(b));
    SameEntriesIff(a.parameters, b.parameters);
    if NoDifference(Compare(a, b)) {
      EntriesApart(a, b);
    }
  }

  lemma NamesApart(a: Command, b: Command, names: set<string>)
    requires IsParsed(a) && IsParsed(b) && NamesIn(a, names) && NamesIn(b, names)
    requires forall x, y :: x in names && y in names ==> !Confusable(x, y)
    ensures PrintApart(a.parameters, b.parameters)
  {
    forall p | p in a.parameters + b.parameters
      ensures p.name in names && (p.value.Some? ==> IsNormal(p.value.value))
    {
      if p in a.parameters {
        OptionsAre(a.parameters, {}, IsNormal, p);
      } else {
        OptionsAre(b.parameters, {}, IsNormal, p);
      }
    }
    forall p, q | p in a.parameters + b.parameters && q in a.parameters + b.parameters && Entry(p) == Entry(q)
      ensures p == q
    {
      EntryInjective(p, q);
    }
  }

  function OneParameter(p: Parameter): Command {
    Command("m", [p])
  }

  lemma OneParameterIs(p: Parameter, names: set<string>)
    requires IsOption(p.name) && p.name in names && (p.value.Some? ==> IsNormal(p.value.value))
    ensures IsParsed(OneParameter(p)) && NamesIn(OneParameter(p), names)
    ensures Entries(OneParameter(p)) == [MODEL_LABEL + "m", Entry(p)]
  {
    assert [p][1..] == [];
    assert ParameterEntries([p]) == [Entry(p)];
  }

  lemma ConfusedPair(p: Parameter, q: Parameter, names: set<string>)
    requires IsOption(p.name) && p.name in names && (p.value.Some? ==> IsNormal(p.value.value))
    requires IsOption(q.name) && q.name in names && (q.value.Some? ==> IsNormal(q.value.value))
    requires p != q && Entry(p) == Entry(q)
    ensures !Exact(names)
  {
    var a, b := OneParameter(p), OneParameter(q);
    assert IsParsed(a) && NamesIn(a, names) && Entries(a) == [MODEL_LABEL + "m", Entry(p)] by {
      OneParameterIs(p, names);
    }
    assert IsParsed(b) && NamesIn(b, names) && Entries(b) == [MODEL_LABEL + "m", Entry(q)] by {
      OneParameterIs(q, names);
    }
    assert NoDifference(Compare(a, b)) by { EntriesConserved(Entries(a), Entries(b)); }
    assert !SameCommand(a, b) by {
      assert multiset(a.parameters)[p] == 1 && multiset(b.parameters)[p] == 0;
    }
  }

  /** The comparison is exact over a set of option names if and only if no name is another one followed by a space
      and a value; in particular over names without spaces. */
  lemma ExactIff(names: set<string>)
    requires forall x :: x in names ==> IsOption(x)
    ensures Exact(names) <==> forall x, y :: x in names && y in names ==> !Confusable(x, y)
    ensures (forall x :: x in names ==> ' ' !in x) ==> Exact(names)
  {
    if forall x, y :: x in names && y in names ==> !Confusable(x, y) {
      forall a: Command, b: Command | IsParsed(a) && IsParsed(b) && NamesIn(a, names) && NamesIn(b, names)
        ensures NoDifference(Compare(a, b)) <==> SameCommand(a, b)
      {
        NamesApart(a, b, names);
        ExactFor(a, b);
      }
    } else {
      var x, y :| x in names && y in names && Confusable(x, y);
      var w :| IsNormal(w) && y == x + [' '] + w;
      assert y[|x|] == ' ';
      ConfusedPair(Parameter(x, Some(w)), Parameter(y, None), names);
    }
  }
}
