/** Merging YAML trees key by key, and the scrape configurations of several files. */
module DeepMerge {
  import opened Options

  datatype ScalarType = IntType | FloatType | BoolType | StringType

  datatype Yaml = Map(entries: Tree) | List(items: seq<Yaml>) | Scalar(stype: ScalarType, text: string) | Null

  type Tree = map<string, Yaml>

  /** Whether Go's `reflect.TypeOf` is the same. */
  predicate SameType(x: Yaml, y: Yaml) {
    match x
    case Map(_) => y.Map?
    case List(_) => y.List?
    case Scalar(t, _) => y.Scalar? && y.stype == t
    case Null => y.Null?
  }

  /** The value of a key that has one in both trees: maps merge, lists concatenate, of two scalars of
      the same type the first one stays, and otherwise the second one wins. */
  ghost function Join(x: Yaml, y: Yaml): Yaml
    decreases y
  {
    if x.Map? && y.Map? then
      Map(map k | k in x.entries.Keys + y.entries.Keys ::
            if k !in y.entries then x.entries[k]
            else if k !in x.entries then y.entries[k]
            else Join(x.entries[k], y.entries[k]))
    else if x.List? && y.List? then List(x.items + y.items)
    else if SameType(x, y) then x
    else y
  }

  ghost function Merge(target: Tree, source: Tree): Tree {
    Join(Map(target), Map(source)).entries
  }

  /** The value of a key after merging. */
  ghost predicate IsMerged(target: Tree, source: Tree, k: string, value: Yaml) {
    && (k !in source ==> k in target && value == target[k])
    && (k in source ==> value == if k in target then Join(target[k], source[k]) else source[k])
  }

  /** The keys of the source may come in any order. */
  method DeepMerge(target: Tree, source: Tree) returns (merged: Tree)
    ensures merged == Merge(target, source)
    decreases Map(source)
  {
    hide IsMerged, Join;
    MergedAlready(target, source);
    merged := target;
    var pending := source.Keys;
    while pending != {}
      invariant pending <= source.Keys
      invariant merged.Keys == target.Keys + (source.Keys - pending)
      invariant forall k :: k in merged && k in pending ==> k in target && merged[k] == target[k]
      invariant forall k :: k in merged && k !in pending ==> IsMerged(target, source, k, merged[k])
      decreases pending
    {
      var key :| key in pending;
      pending := pending - {key};
      var sourceValue := source[key];
      if key !in merged {
        MergedValue(target, source, key);
        merged := merged[key := sourceValue];
        continue;
      }
      var targetValue := merged[key];
      MergedValue(target, source, key);
      JoinExactly(targetValue, sourceValue);
      if targetValue.Map? && sourceValue.Map? {
        assert sourceValue == Map(sourceValue.entries) && Map(source).entries[key] == sourceValue;
        var inner := DeepMerge(targetValue.entries, sourceValue.entries);
        merged := merged[key := Map(inner)];
      } else if SameType(targetValue, sourceValue) {
        if targetValue.List? {
          merged := merged[key := List(targetValue.items + sourceValue.items)];
        }
      } else {
        merged := merged[key := sourceValue];
      }
    }
    AllMerged(target, source, merged);
  }

  lemma MergedAlready(target: Tree, source: Tree)
    ensures forall k :: k in target && k !in source ==> IsMerged(target, source, k, target[k])
  {
  }

  lemma MergedValue(target: Tree, source: Tree, k: string)
    requires k in source
    ensures k !in target ==> IsMerged(target, source, k, source[k])
    ensures k in target ==> IsMerged(target, source, k, Join(target[k], source[k]))
  {
  }

  lemma AllMerged(target: Tree, source: Tree, merged: Tree)
    requires merged.Keys == target.Keys + source.Keys
    requires forall k :: k in merged ==> IsMerged(target, source, k, merged[k])
    ensures merged == Merge(target, source)
  {
    MapOfJoin(Map(target), Map(source));
    hide Join;
    forall k | k in merged ensures merged[k] == Merge(target, source)[k] {
      assert IsMerged(target, source, k, merged[k]);
    }
  }

  /** What is under a key of the merged tree. */
  lemma MergeExactly(target: Tree, source: Tree, k: string)
    ensures k in Merge(target, source) <==> k in target || k in source
    ensures k in target && k !in source ==> Merge(target, source)[k] == target[k]
    ensures k !in target && k in source ==> Merge(target, source)[k] == source[k]
    ensures k in target && k in source ==>
      var (x, y, merged) := (target[k], source[k], Merge(target, source)[k]);
      && (x.Map? && y.Map? ==> merged == Map(Merge(x.entries, y.entries)))
      && (x.List? && y.List? ==> merged == List(x.items + y.items))
      && (x.Scalar? && y.Scalar? && x.stype == y.stype ==> merged == x)
      && (x.Scalar? && y.Scalar? && x.stype != y.stype ==> merged == y)
      && (x.Map? != y.Map? || x.List? != y.List? || x.Scalar? != y.Scalar? || y.Null? ==> merged == y)
  {
    MapOfJoin(Map(target), Map(source));
    if k in target && k in source {
      JoinExactly(target[k], source[k]);
    }
  }

  lemma JoinExactly(x: Yaml, y: Yaml)
    ensures x.Map? && y.Map? ==> Join(x, y) == Map(Merge(x.entries, y.entries))
    ensures x.List? && y.List? ==> Join(x, y) == List(x.items + y.items)
    ensures x.Scalar? && y.Scalar? ==> Join(x, y) == if x.stype == y.stype then x else y
    ensures x.Map? != y.Map? || x.List? != y.List? || x.Scalar? != y.Scalar? || y.Null? ==> Join(x, y) == y
  {
  }

  /******* Order of merging *******/

  /** The first value adds nothing to the second one. */
  predicate Absorbed(x: Yaml, z: Yaml)
    decreases z
  {
    if x.Map? && z.Map? then forall k :: k in x.entries ==> k in z.entries && Absorbed(x.entries[k], z.entries[k])
    else if x.List? && z.List? then x.items == []
    else SameType(x, z) ==> x == z
  }

  lemma {:induction false} JoinIsSecond(x: Yaml, z: Yaml)
    ensures Join(x, z) == z <==> Absorbed(x, z)
    decreases z
  {
    if x.Map? && z.Map? {
      forall k | k in x.entries && k in z.entries
        ensures Join(x.entries[k], z.entries[k]) == z.entries[k] <==> Absorbed(x.entries[k], z.entries[k])
      {
        JoinIsSecond(x.entries[k], z.entries[k]);
      }
      MapOfJoin(x, z);
      if Join(x, z) == z {
        forall k | k in x.entries ensures k in z.entries && Absorbed(x.entries[k], z.entries[k]) {
          assert k in Join(x, z).entries;
        }
      } else if Absorbed(x, z) {
        SameTree(Join(x, z), z);
      }
    } else if x.List? && z.List? {
      assert x.items == [] ==> x.items + z.items == z.items;
      assert |x.items + z.items| == |x.items| + |z.items|;
    }
  }

  /** What the merge of two maps has under each key. */
  lemma MapOfJoin(x: Yaml, y: Yaml)
    requires x.Map? && y.Map?
    ensures Join(x, y).Map? && Join(x, y).entries.Keys == x.entries.Keys + y.entries.Keys
    ensures forall k :: k in x.entries && k !in y.entries ==> Join(x, y).entries[k] == x.entries[k]
    ensures forall k :: k !in x.entries && k in y.entries ==> Join(x, y).entries[k] == y.entries[k]
    ensures forall k :: k in x.entries && k in y.entries ==> Join(x, y).entries[k] == Join(x.entries[k], y.entries[k])
  {
  }

  lemma SameTree(x: Yaml, y: Yaml)
    requires x.Map? && y.Map? && x.entries.Keys == y.entries.Keys
    requires forall k :: k in x.entries ==> x.entries[k] == y.entries[k]
    ensures x == y
  {
    assert x.entries == y.entries;
  }

  /** When merging three values is independent of grouping: wherever a value stands between two of one
      type and has another type itself, the first one must add nothing to the third. */
  predicate Associates(x: Yaml, y: Yaml, z: Yaml)
    decreases z
  {
    if x.Map? && y.Map? && z.Map? then
      forall k :: k in x.entries && k in y.entries && k in z.entries ==>
        Associates(x.entries[k], y.entries[k], z.entries[k])
    else SameType(x, z) && !SameType(x, y) ==> Absorbed(x, z)
  }

  lemma {:induction false} JoinAssociates(x: Yaml, y: Yaml, z: Yaml)
    ensures Join(Join(x, y), z) == Join(x, Join(y, z)) <==> Associates(x, y, z)
    decreases z
  {
    if x.Map? && y.Map? && z.Map? {
      forall k | k in x.entries && k in y.entries && k in z.entries
        ensures var a, b, c := x.entries[k], y.entries[k], z.entries[k];
          Join(Join(a, b), c) == Join(a, Join(b, c)) <==> Associates(a, b, c)
      {
        JoinAssociates(x.entries[k], y.entries[k], z.entries[k]);
      }
      MapsAssociate(x, y, z);
    } else if x.List? && y.List? && z.List? {
      assert x.items + y.items + z.items == x.items + (y.items + z.items);
    } else {
      JoinIsSecond(x, z);
    }
  }

  ghost predicate AssociateAt(x: Yaml, y: Yaml, z: Yaml, k: string)
    requires x.Map? && y.Map? && z.Map?
  {
    k in x.entries && k in y.entries && k in z.entries ==>
      Join(Join(x.entries[k], y.entries[k]), z.entries[k]) == Join(x.entries[k], Join(y.entries[k], z.entries[k]))
  }

  lemma MapsAssociateAt(x: Yaml, y: Yaml, z: Yaml, k: string)
    requires x.Map? && y.Map? && z.Map? && k in x.entries.Keys + y.entries.Keys + z.entries.Keys
    ensures var left, right := Join(Join(x, y), z), Join(x, Join(y, z));
      && left.Map? && right.Map? && k in left.entries && k in right.entries
      && (left.entries[k] == right.entries[k] <==> AssociateAt(x, y, z, k))
  {
    MapOfJoin(x, y);
    MapOfJoin(y, z);
    MapOfJoin(Join(x, y), z);
    MapOfJoin(x, Join(y, z));
    hide Join;
  }

  lemma MapsAssociate(x: Yaml, y: Yaml, z: Yaml)
    requires x.Map? && y.Map? && z.Map?
    ensures Join(Join(x, y), z) == Join(x, Join(y, z)) <==>
      forall k :: k in x.entries && k in y.entries && k in z.entries ==> AssociateAt(x, y, z, k)
  {
    var left, right := Join(Join(x, y), z), Join(x, Join(y, z));
    MapOfJoin(x, y);
    MapOfJoin(y, z);
    MapOfJoin(Join(x, y), z);
    MapOfJoin(x, Join(y, z));
    hide Join, AssociateAt;
    forall k | k in x.entries.Keys + y.entries.Keys + z.entries.Keys
      ensures k in left.entries && k in right.entries
      ensures left.entries[k] == right.entries[k] <==> AssociateAt(x, y, z, k)
    {
      MapsAssociateAt(x, y, z, k);
    }
    SharedOnly(x, y, z);
    if forall k :: k in left.entries ==> left.entries[k] == right.entries[k] {
      SameTree(left, right);
    }
  }

  lemma SharedOnly(x: Yaml, y: Yaml, z: Yaml)
    requires x.Map? && y.Map? && z.Map?
    ensures forall k :: !(k in x.entries && k in y.entries && k in z.entries) ==> AssociateAt(x, y, z, k)
  {
    hide Join;
  }

  /** Two trees have values of the same type under every key that both have. */
  predicate Agree(x: Yaml, y: Yaml)
    decreases y
  {
    SameType(x, y)
    && (x.Map? ==> forall k :: k in x.entries && k in y.entries ==> Agree(x.entries[k], y.entries[k]))
  }

  lemma {:induction false} AgreeingAssociate(x: Yaml, y: Yaml, z: Yaml)
    requires Agree(x, y) && Agree(y, z)
    ensures Associates(x, y, z)
    decreases z
  {
    if x.Map? {
      forall k | k in x.entries && k in y.entries && k in z.entries
        ensures Associates(x.entries[k], y.entries[k], z.entries[k])
      {
        AgreeingAssociate(x.entries[k], y.entries[k], z.entries[k]);
      }
    }
  }

  /** Merging trees that agree in type may be grouped in any way. */
  lemma MergeAssociative(a: Tree, b: Tree, c: Tree)
    requires Agree(Map(a), Map(b)) && Agree(Map(b), Map(c))
    ensures Merge(Merge(a, b), c) == Merge(a, Merge(b, c))
  {
    AgreeingAssociate(Map(a), Map(b), Map(c));
    JoinAssociates(Map(a), Map(b), Map(c));
  }

  /** Otherwise the grouping matters. */
  lemma GroupingMatters()
    ensures var a, c := map["k" := Scalar(IntType, "1")], map["k" := Scalar(IntType, "2")];
      var b := map["k" := Scalar(StringType, "x")];
      Merge(Merge(a, b), c)["k"] == Scalar(IntType, "2") && Merge(a, Merge(b, c))["k"] == Scalar(IntType, "1")
  {
  }

  /******* Scrape configurations *******/

  const SCRAPE_CONFIGS := "scrape_configs"

  /** The files that could not be read are skipped. */
  ghost function MergedFiles(files: seq<Option<Tree>>): Tree {
    if files == [] then map[SCRAPE_CONFIGS := List([])]
    else
      var merged := MergedFiles(files[..|files| - 1]);
      match files[|files| - 1]
      case None => merged
      case Some(tree) => Merge(merged, tree)
  }

  method MergeDefaultScrapeConfigs(files: seq<Option<Tree>>) returns (merged: Tree)
    ensures merged == if files == [] then map[] else MergedFiles(files)
  {
    merged := map[];
    if |files| > 0 {
      merged := merged[SCRAPE_CONFIGS := List([])];
      for i := 0 to |files|
        invariant merged == MergedFiles(files[..i])
      {
        assert files[..i + 1][..i] == files[..i];
        if files[i].None? {
          continue;
        }
        merged := DeepMerge(merged, files[i].value);
      }
      assert files[..|files|] == files;
    }
  }

  predicate HasConfigs(file: Option<Tree>) {
    file.Some? && SCRAPE_CONFIGS in file.value
  }

  predicate HasList(file: Option<Tree>) {
    HasConfigs(file) && file.value[SCRAPE_CONFIGS].List?
  }

  /** The scrape configurations of all files, in order. */
  function AllConfigs(files: seq<Option<Tree>>): seq<Yaml> {
    if files == [] then []
    else
      var file := files[|files| - 1];
      AllConfigs(files[..|files| - 1]) + if HasList(file) then file.value[SCRAPE_CONFIGS].items else []
  }

  /** What a value of another type leaves: the configurations of the files after the last such value. */
  function LastConfigs(files: seq<Option<Tree>>): Option<seq<Yaml>> {
    if files == [] then Some([])
    else
      var before := LastConfigs(files[..|files| - 1]);
      var file := files[|files| - 1];
      if !HasConfigs(file) then before
      else if !HasList(file) then None
      else Some((if before.Some? then before.value else []) + file.value[SCRAPE_CONFIGS].items)
  }

  lemma {:induction false} MergedConfigs(files: seq<Option<Tree>>)
    ensures SCRAPE_CONFIGS in MergedFiles(files)
    ensures MergedFiles(files)[SCRAPE_CONFIGS].List? <==> LastConfigs(files).Some?
    ensures LastConfigs(files).Some? ==> MergedFiles(files)[SCRAPE_CONFIGS] == List(LastConfigs(files).value)
  {
    if files != [] {
      var before := files[..|files| - 1];
      MergedConfigs(before);
      var file := files[|files| - 1];
      if file.Some? {
        MapOfJoin(Map(MergedFiles(before)), Map(file.value));
      }
    }
  }

  /** A value that is no list in the place of the scrape configurations. */
  predicate HasOther(file: Option<Tree>) {
    HasConfigs(file) && !HasList(file)
  }

  predicate ListFollows(files: seq<Option<Tree>>, i: int) {
    exists j :: 0 <= i < j < |files| && HasList(files[j])
  }

  /** Every value that is no list is followed by a list and preceded only by empty ones. */
  predicate ListsKept(files: seq<Option<Tree>>) {
    forall i :: 0 <= i < |files| && HasOther(files[i]) ==> AllConfigs(files[..i]) == [] && ListFollows(files, i)
  }

  /** The configurations before the last value that is no list. */
  ghost function Overwritten(files: seq<Option<Tree>>): seq<Yaml> {
    if files == [] then []
    else if HasOther(files[|files| - 1]) then AllConfigs(files[..|files| - 1])
    else Overwritten(files[..|files| - 1])
  }

  lemma {:induction false} OverwrittenOrLast(files: seq<Option<Tree>>)
    ensures AllConfigs(files) == Overwritten(files) + if LastConfigs(files).Some? then LastConfigs(files).value else []
  {
    if files != [] {
      OverwrittenOrLast(files[..|files| - 1]);
    }
  }

  lemma {:induction false} EndsWithList(files: seq<Option<Tree>>)
    ensures LastConfigs(files).Some? <==> forall i :: 0 <= i < |files| && HasOther(files[i]) ==> ListFollows(files, i)
  {
    if files != [] {
      var n := |files| - 1;
      var before := files[..n];
      EndsWithList(before);
      forall i | 0 <= i < n ensures ListFollows(files, i) <==> ListFollows(before, i) || HasList(files[n]) {
        if ListFollows(before, i) {
          var j :| i < j < n && HasList(before[j]);
          assert HasList(files[j]);
        }
        if ListFollows(files, i) && !HasList(files[n]) {
          var j :| i < j < |files| && HasList(files[j]);
          assert HasList(before[j]);
        }
      }
      assert forall i :: 0 <= i < n ==> HasOther(files[i]) == HasOther(before[i]);
      assert !ListFollows(files, n);
    }
  }

  lemma {:induction false} EarlierConfigs(files: seq<Option<Tree>>, i: nat)
    requires i <= |files| && AllConfigs(files) == []
    ensures AllConfigs(files[..i]) == []
  {
    if i < |files| {
      EarlierConfigs(files[..|files| - 1], i);
      assert files[..|files| - 1][..i] == files[..i];
    } else {
      assert files[..i] == files;
    }
  }

  lemma {:induction false} NothingOverwritten(files: seq<Option<Tree>>)
    ensures Overwritten(files) == [] <==>
      forall i :: 0 <= i < |files| && HasOther(files[i]) ==> AllConfigs(files[..i]) == []
  {
    if files != [] {
      var n := |files| - 1;
      var before := files[..n];
      NothingOverwritten(before);
      forall i | 0 <= i < n
        ensures files[..i] == before[..i] && (AllConfigs(before) == [] ==> AllConfigs(files[..i]) == [])
      {
        if AllConfigs(before) == [] {
          EarlierConfigs(before, i);
        }
      }
      assert forall i :: 0 <= i < n ==> HasOther(files[i]) == HasOther(before[i]);
    }
  }

  /** The merged scrape configurations are those of all loaded files in the order of the files, exactly
      if every value of another type in their place overwrites nothing and is followed by a list. */
  lemma ScrapeConfigsConcatenated(files: seq<Option<Tree>>)
    ensures "scrape_configs" in MergedFiles(files)
    ensures MergedFiles(files)["scrape_configs"] == List(AllConfigs(files)) <==> ListsKept(files)
  {
    MergedConfigs(files);
    OverwrittenOrLast(files);
    EndsWithList(files);
    NothingOverwritten(files);
  }
}
