/** The few operations of Go's `strings` package that the modelled code relies on.
    Strings are sequences of code units; Go's `<` is the lexicographic order, unlike Dafny's
    `<` on sequences, which is the proper-prefix order. */
module GoStrings {

  predicate HasPrefix(s: string, prefix: string) {
    |prefix| <= |s| && s[..|prefix|] == prefix
  }

  predicate HasSuffix(s: string, suffix: string) {
    |suffix| <= |s| && s[|s| - |suffix|..] == suffix
  }

  /** The lexicographic order of Go's `a < b` on strings. */
  predicate Less(a: string, b: string) {
    if b == "" then false
    else if a == "" then true
    else if a[0] == b[0] then Less(a[1..], b[1..])
    else a[0] < b[0]
  }

  lemma {:induction false} LessTrichotomy(a: string, b: string)
    ensures !(Less(a, b) && Less(b, a))
    ensures a == b ==> !Less(a, b)
    ensures a != b ==> Less(a, b) || Less(b, a)
  {
    if a != "" && b != "" && a[0] == b[0] {
      assert a == [a[0]] + a[1..] && b == [b[0]] + b[1..];
      LessTrichotomy(a[1..], b[1..]);
    }
  }

  lemma {:induction false} LessTransitive(a: string, b: string, c: string)
    requires Less(a, b) && Less(b, c)
    ensures Less(a, c)
  {
    if a != "" && a[0] == b[0] && b[0] == c[0] {
      LessTransitive(a[1..], b[1..], c[1..]);
    }
  }

  /** The strings agree up to `k`, and there `a` ends or has the smaller letter. */
  predicate SmallerAt(a: string, b: string, k: nat) {
    k <= |a| && k < |b| && a[..k] == b[..k] && (k == |a| || a[k] < b[k])
  }

  lemma SmallerShift(a: string, b: string, k: nat)
    requires a != "" && b != "" && a[0] == b[0]
    ensures SmallerAt(a, b, k + 1) <==> SmallerAt(a[1..], b[1..], k)
  {
    if k + 1 <= |a| && k + 1 <= |b| {
      assert a[..k + 1] == [a[0]] + a[1..][..k] && b[..k + 1] == [b[0]] + b[1..][..k];
      assert a[..k + 1][1..] == a[1..][..k] && b[..k + 1][1..] == b[1..][..k];
    }
  }

  lemma SmallerFirst(a: string, b: string, k: nat)
    requires a != "" && b != ""
    ensures k > 0 && SmallerAt(a, b, k) ==> a[0] == b[0]
  {
    if k > 0 && k <= |a| && k <= |b| {
      assert a[0] == a[..k][0] && b[0] == b[..k][0];
    }
  }

  /** The order, spelled out. */
  lemma {:induction false} LessExactly(a: string, b: string)
    ensures Less(a, b) <==> exists k: nat :: SmallerAt(a, b, k)
  {
    if a == "" || b == "" {
      assert b != "" && a == "" ==> SmallerAt(a, b, 0);
    } else {
      if a[0] == b[0] {
        LessExactly(a[1..], b[1..]);
      }
      if k: nat :| SmallerAt(a, b, k) {
        SmallerFirst(a, b, k);
        if k > 0 {
          SmallerShift(a, b, k - 1);
        }
      }
      if Less(a, b) {
        if a[0] == b[0] {
          var k: nat :| SmallerAt(a[1..], b[1..], k);
          SmallerShift(a, b, k);
        } else {
          assert SmallerAt(a, b, 0);
        }
      }
    }
  }

  /** `strings.ReplaceAll(s, old, new)` for a non-empty `old`: occurrences are taken from left to
      right and do not overlap. */
  function ReplaceAll(s: string, old': string, new': string): string
    requires old' != ""
  {
    if s == "" then ""
    else if HasPrefix(s, old') then new' + ReplaceAll(s[|old'|..], old', new')
    else [s[0]] + ReplaceAll(s[1..], old', new')
  }

  /** `strings.Contains(s, part)`. */
  predicate Contains(s: string, part: string) {
    HasPrefix(s, part) || (s != "" && Contains(s[1..], part))
  }

  predicate OccursAt(s: string, part: string, i: nat) {
    i + |part| <= |s| && s[i..i + |part|] == part
  }

  lemma {:induction false} ContainsExactly(s: string, part: string)
    ensures Contains(s, part) <==> exists i: nat :: OccursAt(s, part, i)
  {
    if HasPrefix(s, part) {
      assert OccursAt(s, part, 0);
    } else if s != "" {
      ContainsExactly(s[1..], part);
      if i: nat :| OccursAt(s, part, i) {
        assert i > 0;
        assert s[1..][i - 1..i - 1 + |part|] == s[i..i + |part|];
        assert OccursAt(s[1..], part, i - 1);
      }
      if i: nat :| OccursAt(s[1..], part, i) {
        assert s[i + 1..i + 1 + |part|] == s[1..][i..i + |part|];
        assert OccursAt(s, part, i + 1);
      }
    }
  }

  /** Without an occurrence nothing is replaced. */
  lemma {:induction false} ReplaceNone(s: string, old': string, new': string)
    requires old' != "" && !Contains(s, old')
    ensures ReplaceAll(s, old', new') == s
  {
    if s != "" {
      ReplaceNone(s[1..], old', new');
    }
  }

  /** The first occurrence is replaced, and then what comes behind it: `p` and `old'` without its last
      letter contain no earlier one. */
  lemma {:induction false} ReplaceFirst(p: string, s: string, old': string, new': string)
    requires old' != "" && !Contains((p + old')[..|p| + |old'| - 1], old')
    ensures ReplaceAll(p + (old' + s), old', new') == p + (new' + ReplaceAll(s, old', new'))
  {
    var r := p + (old' + s);
    if p == "" {
      assert r == old' + s && r[|old'|..] == s && r[..|old'|] == old';
    } else {
      var w := (p + old')[..|p| + |old'| - 1];
      assert r[1..] == p[1..] + (old' + s);
      assert w[1..] == (p[1..] + old')[..|p[1..]| + |old'| - 1];
      assert w[..|old'|] == r[..|old'|];
      ReplaceFirst(p[1..], s, old', new');
      assert p == [p[0]] + p[1..];
    }
  }
}
