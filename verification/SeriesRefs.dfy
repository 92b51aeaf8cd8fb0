/** What identifies a series within a family: its labels without those of the scrape, the bucket and
    the scope. */
module SeriesRefs {
  import opened GoStrings
  import opened GoMaps
  import opened MetricNames
  import opened SampleLabels

  /** The labels that are hashed to a reference: all but the named ones. */
  function Without(ls: Labels, names: seq<string>): Labels {
    if ls == [] then []
    else Without(ls[..|ls| - 1], names) + if ls[|ls| - 1].name !in names then [ls[|ls| - 1]] else []
  }

  /** Some label of the scope has this name. */
  predicate NamesScope(ls: Labels, name: string) {
    HasPrefix(name, SCOPE_PREFIX) && exists i :: 0 <= i < |ls| && ls[i].name == name
  }

  function Insert(names: seq<string>, name: string): seq<string> {
    if names == [] || Less(names[|names| - 1], name) then names + [name]
    else Insert(names[..|names| - 1], name) + [names[|names| - 1]]
  }

  predicate Ascending(names: seq<string>) {
    forall i, j :: 0 <= i < j < |names| ==> !Less(names[j], names[i])
  }

  lemma NotLessTransitive(a: string, b: string, c: string)
    requires !Less(b, a) && !Less(c, b)
    ensures !Less(c, a)
  {
    LessTrichotomy(a, b);
    if Less(c, a) && a != b {
      LessTransitive(c, a, b);
    }
  }

  lemma {:induction false} InsertKeeps(names: seq<string>, name: string)
    ensures multiset(Insert(names, name)) == multiset(names) + multiset{name}
    ensures forall n :: n in Insert(names, name) <==> n in names || n == name
  {
    hide Less;
    if names != [] && !Less(names[|names| - 1], name) {
      var n := |names| - 1;
      InsertKeeps(names[..n], name);
      assert names == names[..n] + [names[n]];
    }
  }

  lemma {:induction false} InsertSorts(names: seq<string>, name: string)
    requires Ascending(names)
    ensures Ascending(Insert(names, name))
  {
    if names != [] {
      var n := |names| - 1;
      if Less(names[n], name) {
        LessTrichotomy(names[n], name);
        forall i | 0 <= i < n ensures !Less(name, names[i]) {
          NotLessTransitive(names[i], names[n], name);
        }
      } else {
        InsertSorts(names[..n], name);
        InsertKeeps(names[..n], name);
        LessTrichotomy(name, names[n]);
        var rest := Insert(names[..n], name);
        forall i | 0 <= i < |rest| ensures !Less(names[n], rest[i]) {
          assert rest[i] in rest;
        }
      }
    }
  }

  /** Any strings, also repeated ones. */
  method SortStrings(names: seq<string>) returns (sorted: seq<string>)
    ensures Ascending(sorted) && multiset(sorted) == multiset(names)
  {
    sorted := [];
    for i := 0 to |names|
      invariant Ascending(sorted) && multiset(sorted) == multiset(names[..i])
    {
      InsertSorts(sorted, names[i]);
      InsertKeeps(sorted, names[i]);
      sorted := Insert(sorted, names[i]);
      assert names[..i + 1] == names[..i] + [names[i]];
    }
    assert names[..|names|] == names;
  }

  /** Distinct names are strictly sorted then. */
  lemma StrictlySorted(names: seq<string>, sorted: seq<string>)
    requires Distinct(names) && Ascending(sorted) && multiset(sorted) == multiset(names)
    ensures SortedNames(sorted) && forall n :: n in sorted <==> n in names
  {
    Rearranged(names, sorted);
    forall i, j | 0 <= i < j < |sorted| ensures Less(sorted[i], sorted[j]) {
      LessTrichotomy(sorted[i], sorted[j]);
    }
  }

  lemma ScopeStep(ls: Labels, i: nat, name: string)
    requires i < |ls|
    ensures NamesScope(ls[..i + 1], name) <==>
      NamesScope(ls[..i], name) || (HasPrefix(ls[i].name, SCOPE_PREFIX) && ls[i].name == name)
  {
    hide HasPrefix;
    if NamesScope(ls[..i], name) {
      var k :| 0 <= k < i && ls[..i][k].name == name;
      assert ls[..i + 1][k].name == name;
    }
    assert ls[..i + 1][i] == ls[i];
    if NamesScope(ls[..i + 1], name) && ls[i].name != name {
      var k :| 0 <= k < i + 1 && ls[..i + 1][k].name == name;
      assert ls[..i][k].name == name;
    }
  }

  lemma NoScopeYet(name: string)
    ensures !NamesScope([], name)
  {
  }

  ghost predicate Excluded(base: seq<string>, ls: Labels, exclusions: seq<string>) {
    forall name :: name in exclusions <==> name in base || NamesScope(ls, name)
  }

  ghost predicate Collected(base: seq<string>, ls: Labels, i: nat, exclusions: seq<string>)
    requires i <= |ls|
  {
    Distinct(exclusions) && Excluded(base, ls[..i], exclusions)
  }

  lemma NothingCollected(base: seq<string>, ls: Labels)
    requires SortedNames(base)
    ensures Collected(base, ls, 0, base)
  {
    forall name ensures !NamesScope([], name) {
      NoScopeYet(name);
    }
    assert ls[..0] == [];
    forall i, j | 0 <= i < j < |base| ensures base[i] != base[j] {
      LessTrichotomy(base[i], base[j]);
    }
  }

  lemma CollectedStep(base: seq<string>, ls: Labels, i: nat, exclusions: seq<string>)
    requires i < |ls| && Collected(base, ls, i, exclusions)
    ensures var name := ls[i].name;
      var isNew := HasPrefix(name, SCOPE_PREFIX) && name !in exclusions;
      Collected(base, ls, i + 1, if isNew then exclusions + [name] else exclusions)
  {
    hide HasPrefix, NamesScope;
    forall name
      ensures NamesScope(ls[..i + 1], name) <==>
        NamesScope(ls[..i], name) || (HasPrefix(ls[i].name, SCOPE_PREFIX) && ls[i].name == name)
    {
      ScopeStep(ls, i, name);
    }
  }

  /** The labels that are left out, sorted as the hash function of the library needs them. */
  method SortedNotUsefulLabelsForSeries(t: OtlpType, ls: Labels) returns (names: seq<string>)
    ensures SortedNames(names)
    ensures forall name :: name in names <==>
      || name in {"__metrics_path__", "__name__", "__scheme__", "instance", "job"}
      || (t.Histogram? && name == "le") || (t.Summary? && name == "quantile")
      || (HasPrefix(name, "otel_scope_") && exists i :: 0 <= i < |ls| && ls[i].name == name)
    ensures Without(ls, names) == SeriesKey(t, ls)
  {
    hide HasPrefix, NamesScope, Collected, SortedNames, Ascending, Without, SeriesKey, NotUseful, SCOPE_PREFIX;
    var base := NotUseful(t);
    SortedNotUseful(t);
    NothingCollected(base, ls);
    var exclusions: seq<string> := base;
    var copied := false;
    var seen: set<string> := set name | name in base;
    for i := 0 to |ls|
      invariant Collected(base, ls, i, exclusions)
      invariant forall name :: name in seen <==> name in exclusions
      invariant !copied ==> exclusions == base
    {
      CollectedStep(base, ls, i, exclusions);
      if HasPrefix(ls[i].name, SCOPE_PREFIX) {
        copied := true;
        if ls[i].name in seen {
          continue;
        }
        seen := seen + {ls[i].name};
        exclusions := exclusions + [ls[i].name];
      }
    }
    CollectedAll(base, ls, exclusions);
    if !copied {
      names := base;
    } else {
      names := SortStrings(exclusions);
      StrictlySorted(exclusions, names);
    }
    ExcludedIsKey(t, ls, names);
    ExcludedPlainly(t, ls, names);
  }

  lemma ExcludedPlainly(t: OtlpType, ls: Labels, names: seq<string>)
    requires Excluded(NotUseful(t), ls, names)
    ensures forall name :: name in names <==>
      || name in {"__metrics_path__", "__name__", "__scheme__", "instance", "job"}
      || (t.Histogram? && name == "le") || (t.Summary? && name == "quantile")
      || (HasPrefix(name, "otel_scope_") && exists i :: 0 <= i < |ls| && ls[i].name == name)
  {
    hide HasPrefix;
  }

  lemma CollectedAll(base: seq<string>, ls: Labels, exclusions: seq<string>)
    requires Collected(base, ls, |ls|, exclusions)
    ensures Distinct(exclusions) && Excluded(base, ls, exclusions)
  {
    assert ls[..|ls|] == ls;
  }

  /** Whether the labels of the scope are left out by name or not at all useful does not matter. */
  lemma ExcludedIsKey(t: OtlpType, ls: Labels, names: seq<string>)
    requires Excluded(NotUseful(t), ls, names)
    ensures Without(ls, names) == SeriesKey(t, ls)
  {
    forall i | 0 <= i < |ls| ensures ls[i].name in names <==> !Useful(ls[i], NotUseful(t)) {
      assert NamesScope(ls, ls[i].name) <==> HasPrefix(ls[i].name, SCOPE_PREFIX);
    }
    hide Useful, Excluded, NotUseful;
    KeyOf(t, ls, names);
  }

  lemma {:induction false} KeyOf(t: OtlpType, ls: Labels, names: seq<string>)
    requires forall i :: 0 <= i < |ls| ==> (ls[i].name in names <==> !Useful(ls[i], NotUseful(t)))
    ensures Without(ls, names) == UsefulLabels(ls, NotUseful(t), true)
  {
    hide Useful, NotUseful;
    if ls != [] {
      KeyOf(t, ls[..|ls| - 1], names);
    }
  }
}
