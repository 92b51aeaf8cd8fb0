/** Dollar signs across two programs. The config validator doubles every `$` in a relabel rule,
    because the collector expands `$`, and turns two node variables into references to the
    environment. The config reader halves them again for the target allocator, which expands
    nothing. */
module Escaping {
  import opened GoStrings

  const ENV_NODE_NAME := "${env:NODE_NAME}"
  const ENV_NODE_IP := "${env:NODE_IP}"

  /******* The two programs *******/

  function Halve(s: string): string {
    ReplaceAll(s, "$$", "$")
  }

  function Double(s: string): string {
    ReplaceAll(s, "$", "$$")
  }

  function SubstEnv(s: string): string {
    ReplaceAll(ReplaceAll(s, "$$NODE_NAME", ENV_NODE_NAME), "$$NODE_IP", ENV_NODE_IP)
  }

  /** What the validator does to the regex and the replacement of a relabel rule. */
  function Validate(s: string): string {
    SubstEnv(Double(Halve(s)))
  }

  /** What the config reader does to them afterwards. */
  function Read(s: string): string {
    Halve(s)
  }

  /******* What is meant *******/

  predicate AtName(s: string) {
    HasPrefix(s, "$NODE_NAME")
  }

  predicate AtIP(s: string) {
    HasPrefix(s, "$NODE_IP")
  }

  /** One pass from left to right: every `$NODE_NAME` becomes `name`, every `$NODE_IP` becomes `ip`,
      every other `$` becomes `dollar`, and nothing else changes. */
  function Pass(s: string, name: string, ip: string, dollar: string): string {
    if s == "" then ""
    else if AtName(s) then name + Pass(s[10..], name, ip, dollar)
    else if AtIP(s) then ip + Pass(s[8..], name, ip, dollar)
    else if s[0] == '$' then dollar + Pass(s[1..], name, ip, dollar)
    else [s[0]] + Pass(s[1..], name, ip, dollar)
  }

  /** The user's string with only the node variables turned into references to the environment. */
  function EnvForm(s: string): string {
    Pass(s, ENV_NODE_NAME, ENV_NODE_IP, "$")
  }

  /** The same, with every other `$` doubled. */
  function Escaped(s: string): string {
    Pass(s, ENV_NODE_NAME, ENV_NODE_IP, "$$")
  }

  /** The string mentions one of the node variables. */
  predicate MentionsNode(s: string) {
    Contains(s, "$NODE_NAME") || Contains(s, "$NODE_IP")
  }

  /******* How a pass begins *******/

  /** A stretch without `$` is copied. */
  lemma {:induction false} PassPlain(p: string, s: string, name: string, ip: string, dollar: string)
    requires '$' !in p
    ensures Pass(p + s, name, ip, dollar) == p + Pass(s, name, ip, dollar)
  {
    if p == "" {
      assert p + s == s;
    } else {
      var r := p + s;
      assert r[1..] == p[1..] + s && r[0] == p[0];
      PrefixChars(r, "$NODE_NAME");
      PrefixChars(r, "$NODE_IP");
      PassPlain(p[1..], s, name, ip, dollar);
      assert [p[0]] + (p[1..] + Pass(s, name, ip, dollar)) == p + Pass(s, name, ip, dollar);
    }
  }

  lemma PrefixChars(s: string, p: string)
    ensures HasPrefix(s, p) <==> |p| <= |s| && forall i :: 0 <= i < |p| ==> s[i] == p[i]
  {
    if |p| <= |s| {
      assert forall i :: 0 <= i < |p| ==> s[..|p|][i] == s[i];
    }
  }

  lemma PassHead(s: string, name: string, ip: string, dollar: string)
    requires HasPrefix(name, "$") && HasPrefix(ip, "$") && HasPrefix(dollar, "$")
    ensures s == "" ==> Pass(s, name, ip, dollar) == ""
    ensures s != "" ==> Pass(s, name, ip, dollar) != "" && Pass(s, name, ip, dollar)[0] == s[0]
  {
    assert name[..1][0] == name[0] && ip[..1][0] == ip[0] && dollar[..1][0] == dollar[0];
    if s != "" && (AtName(s) || AtIP(s)) {
      assert s[0] == (if AtName(s) then s[..10] else s[..8])[0];
    }
  }

  /** A prefix without `$` is there after the pass exactly if it was there before. */
  lemma {:induction false} PassPrefix(s: string, p: string, name: string, ip: string, dollar: string)
    requires HasPrefix(name, "$") && HasPrefix(ip, "$") && HasPrefix(dollar, "$") && '$' !in p
    ensures HasPrefix(Pass(s, name, ip, dollar), p) <==> HasPrefix(s, p)
  {
    PassHead(s, name, ip, dollar);
    if p != "" && s != "" {
      HeadOfPrefix(s, p);
      HeadOfPrefix(Pass(s, name, ip, dollar), p);
      if s[0] == p[0] {
        assert s == [s[0]] + s[1..];
        PassPlain([s[0]], s[1..], name, ip, dollar);
        assert Pass(s, name, ip, dollar)[1..] == Pass(s[1..], name, ip, dollar);
        PassPrefix(s[1..], p[1..], name, ip, dollar);
      }
    }
  }

  lemma HeadOfPrefix(s: string, p: string)
    requires s != "" && p != ""
    ensures HasPrefix(s, p) <==> s[0] == p[0] && HasPrefix(s[1..], p[1..])
  {
    if |p| <= |s| {
      assert s[..|p|] == [s[0]] + s[1..][..|p| - 1];
      assert p == [p[0]] + p[1..];
    }
  }

  /** After a pass whose pieces begin with `$` and something else than `N`, `$N` is nowhere first. */
  lemma PassSecond(s: string, name: string, ip: string, dollar: string)
    requires HasPrefix(name, "$") && HasPrefix(ip, "$") && HasPrefix(dollar, "$")
    requires |name| >= 2 && |ip| >= 2 && |dollar| >= 2 && name[1] != 'N' && ip[1] != 'N' && dollar[1] != 'N'
    ensures !HasPrefix(Pass(s, name, ip, dollar), "$N")
  {
    PassHead(s, name, ip, dollar);
    var r := Pass(s, name, ip, dollar);
    if s != "" && s[0] == '$' {
      assert |r| >= 2 && r[1] != 'N';
      assert r[..2][1] == r[1];
    } else if |r| >= 2 {
      assert r[..2][0] == r[0];
    }
  }

  /******* How a replacement goes over a piece *******/

  lemma {:induction false} CopyPlain(p: string, s: string, old': string, new': string)
    requires '$' !in p && HasPrefix(old', "$")
    ensures ReplaceAll(p + s, old', new') == p + ReplaceAll(s, old', new')
  {
    if p == "" {
      assert p + s == s;
    } else {
      assert (p + s)[1..] == p[1..] + s && (p + s)[0] == p[0];
      HeadOfPrefix(p + s, old');
      assert old'[..1][0] == old'[0];
      CopyPlain(p[1..], s, old', new');
    }
  }

  /** A reference to the environment has one `$` only, so it is left alone. */
  lemma CopyReference(q: string, s: string, old': string, new': string)
    requires '$' !in q && q != "" && HasPrefix(old', "$$")
    ensures ReplaceAll("$" + q + s, old', new') == "$" + q + ReplaceAll(s, old', new')
  {
    var r := "$" + q + s;
    assert r[1..] == q + s && r[1] == q[0];
    PrefixChars(old', "$$");
    PrefixChars(r, old');
    assert old'[1] == '$';
    CopyPlain(q, s, old', new');
    assert "$" + (q + ReplaceAll(s, old', new')) == "$" + q + ReplaceAll(s, old', new');
  }

  /** Two `$` that do not begin an occurrence are copied. */
  lemma CopyDollars(u: string, rest: string, new': string)
    requires HasPrefix(rest, "N") && !HasPrefix(u, rest) && !HasPrefix(u, "$N")
    ensures ReplaceAll("$$" + u, "$$" + rest, new') == "$$" + ReplaceAll(u, "$$" + rest, new')
  {
    var old' := "$$" + rest;
    var r := "$$" + u;
    assert r[1..] == "$" + u && r[2..] == u && r[1..][1..] == u;
    assert old'[1..] == "$" + rest && old'[2..] == rest && old'[1..][1..] == rest;
    HeadOfPrefix(r, old');
    HeadOfPrefix(r[1..], old'[1..]);
    PrefixChars(r[1..], old');
    PrefixChars(rest, "N");
    PrefixChars(u, "$N");
    assert old'[1] == '$' && old'[2] == 'N';
    assert |u| >= 2 ==> r[1..][1] == u[0] && r[1..][2] == u[1];
    assert "$" + ("$" + ReplaceAll(u, old', new')) == "$$" + ReplaceAll(u, old', new');
  }

  /******* The stages *******/

  lemma DoubleAtName(s: string)
    requires AtName(s)
    ensures Double(s) == "$$NODE_NAME" + Double(s[10..])
  {
    assert s == "$" + ("NODE_NAME" + s[10..]);
    DoubleDollar("NODE_NAME", s[10..]);
  }

  lemma DoubleAtIP(s: string)
    requires AtIP(s)
    ensures Double(s) == "$$NODE_IP" + Double(s[8..])
  {
    assert s == "$" + ("NODE_IP" + s[8..]);
    DoubleDollar("NODE_IP", s[8..]);
  }

  lemma DoubleFirst(s: string)
    requires s != ""
    ensures Double(s) == (if s[0] == '$' then "$$" else [s[0]]) + Double(s[1..])
  {
    if s[0] == '$' {
      assert s == "$" + ("" + s[1..]);
      DoubleDollar("", s[1..]);
    } else {
      assert s == [s[0]] + s[1..];
      CopyPlain([s[0]], s[1..], "$", "$$");
    }
  }

  lemma {:induction false} DoubleIsPass(s: string)
    ensures Double(s) == Pass(s, "$$NODE_NAME", "$$NODE_IP", "$$")
  {
    if s != "" {
      hide Double, Pass;
      PassStep(s, "$$NODE_NAME", "$$NODE_IP", "$$");
      if AtName(s) {
        DoubleAtName(s);
        DoubleIsPass(s[10..]);
      } else if AtIP(s) {
        DoubleAtIP(s);
        DoubleIsPass(s[8..]);
      } else {
        DoubleFirst(s);
        DoubleIsPass(s[1..]);
      }
    }
  }

  lemma PassStep(s: string, name: string, ip: string, dollar: string)
    requires s != ""
    ensures AtName(s) ==> Pass(s, name, ip, dollar) == name + Pass(s[10..], name, ip, dollar)
    ensures !AtName(s) && AtIP(s) ==> Pass(s, name, ip, dollar) == ip + Pass(s[8..], name, ip, dollar)
    ensures !AtName(s) && !AtIP(s) ==>
      Pass(s, name, ip, dollar) == (if s[0] == '$' then dollar else [s[0]]) + Pass(s[1..], name, ip, dollar)
  {
  }

  lemma DoubleDollar(p: string, s: string)
    requires '$' !in p
    ensures Double("$" + (p + s)) == "$$" + p + Double(s)
  {
    var r := "$" + (p + s);
    assert r[..1] == "$" && r[1..] == p + s;
    CopyPlain(p, s, "$", "$$");
    assert "$$" + (p + Double(s)) == "$$" + p + Double(s);
  }

  lemma {:induction false} FirstVariable(s: string)
    ensures ReplaceAll(Pass(s, "$$NODE_NAME", "$$NODE_IP", "$$"), "$$NODE_NAME", ENV_NODE_NAME)
         == Pass(s, ENV_NODE_NAME, "$$NODE_IP", "$$")
  {
    if s != "" {
      var rest := if AtName(s) then s[10..] else if AtIP(s) then s[8..] else s[1..];
      FirstVariable(rest);
      var u := Pass(rest, "$$NODE_NAME", "$$NODE_IP", "$$");
      PassSteps(s, "$$NODE_NAME", "$$NODE_IP", "$$");
      PassSteps(s, ENV_NODE_NAME, "$$NODE_IP", "$$");
      hide ReplaceAll, HasPrefix, Pass, AtName, AtIP;
      if AtName(s) {
        Matched("$$NODE_NAME", u, ENV_NODE_NAME);
      } else if AtIP(s) {
        CopyIP(u);
      } else if s[0] == '$' {
        AfterDollar(s);
        FirstDollar(rest);
      } else {
        CopyPlain([s[0]], u, "$$NODE_NAME", ENV_NODE_NAME) by { PrefixChars("$$NODE_NAME", "$"); }
      }
    }
  }

  lemma CopyDollarsPiece(q: string, u: string, rest: string, new': string)
    requires '$' !in q && HasPrefix(rest, "N") && !HasPrefix(q + u, rest) && !HasPrefix(q + u, "$N")
    ensures ReplaceAll("$$" + q + u, "$$" + rest, new') == "$$" + q + ReplaceAll(u, "$$" + rest, new')
  {
    assert "$$" + q + u == "$$" + (q + u);
    CopyDollars(q + u, rest, new');
    CopyPlain(q, u, "$$" + rest, new') by { PrefixChars("$$" + rest, "$"); }
    hide ReplaceAll;
    var w := ReplaceAll(u, "$$" + rest, new');
    assert "$$" + (q + w) == "$$" + q + w;
  }

  lemma CopyIP(u: string)
    ensures ReplaceAll("$$NODE_IP" + u, "$$NODE_NAME", ENV_NODE_NAME)
         == "$$NODE_IP" + ReplaceAll(u, "$$NODE_NAME", ENV_NODE_NAME)
  {
    hide ReplaceAll;
    PrefixChars("NODE_IP" + u, "NODE_NAME");
    PrefixChars("NODE_IP" + u, "$N");
    PrefixChars("NODE_NAME", "N");
    assert ("NODE_IP" + u)[5] == 'I' && "NODE_NAME"[5] == 'N' && ("NODE_IP" + u)[0] == 'N';
    CopyDollarsPiece("NODE_IP", u, "NODE_NAME", ENV_NODE_NAME);
    assert "$$" + "NODE_NAME" == "$$NODE_NAME" && "$$" + "NODE_IP" == "$$NODE_IP";
  }

  lemma {:induction false} SecondVariable(s: string)
    ensures ReplaceAll(Pass(s, ENV_NODE_NAME, "$$NODE_IP", "$$"), "$$NODE_IP", ENV_NODE_IP) == Escaped(s)
  {
    if s != "" {
      var rest := if AtName(s) then s[10..] else if AtIP(s) then s[8..] else s[1..];
      SecondVariable(rest);
      var u := Pass(rest, ENV_NODE_NAME, "$$NODE_IP", "$$");
      PassSteps(s, ENV_NODE_NAME, "$$NODE_IP", "$$");
      PassSteps(s, ENV_NODE_NAME, ENV_NODE_IP, "$$");
      hide ReplaceAll, HasPrefix, Pass, AtName, AtIP;
      if AtName(s) {
        assert ENV_NODE_NAME == "$" + "{env:NODE_NAME}";
        CopyReference("{env:NODE_NAME}", u, "$$NODE_IP", ENV_NODE_IP) by { PrefixChars("$$NODE_IP", "$$"); }
      } else if AtIP(s) {
        Matched("$$NODE_IP", u, ENV_NODE_IP);
      } else if s[0] == '$' {
        AfterDollar(s);
        SecondDollar(rest);
      } else {
        CopyPlain([s[0]], u, "$$NODE_IP", ENV_NODE_IP) by { PrefixChars("$$NODE_IP", "$"); }
      }
    }
  }

  lemma Matched(old': string, u: string, new': string)
    requires old' != ""
    ensures ReplaceAll(old' + u, old', new') == new' + ReplaceAll(u, old', new')
  {
    assert (old' + u)[..|old'|] == old' && (old' + u)[|old'|..] == u;
  }

  lemma AfterDollar(s: string)
    requires s != "" && s[0] == '$' && !AtName(s) && !AtIP(s)
    ensures !HasPrefix(s[1..], "NODE_NAME") && !HasPrefix(s[1..], "NODE_IP")
  {
    HeadOfPrefix(s, "$NODE_NAME");
    HeadOfPrefix(s, "$NODE_IP");
    assert "$NODE_NAME"[1..] == "NODE_NAME" && "$NODE_IP"[1..] == "NODE_IP";
  }

  lemma FirstDollar(s: string)
    requires !HasPrefix(s, "NODE_NAME")
    ensures var u := Pass(s, "$$NODE_NAME", "$$NODE_IP", "$$");
      ReplaceAll("$$" + u, "$$NODE_NAME", ENV_NODE_NAME) == "$$" + ReplaceAll(u, "$$NODE_NAME", ENV_NODE_NAME)
  {
    PassPrefix(s, "NODE_NAME", "$$NODE_NAME", "$$NODE_IP", "$$");
    PassSecond(s, "$$NODE_NAME", "$$NODE_IP", "$$");
    assert "$$" + "NODE_NAME" == "$$NODE_NAME";
    CopyDollars(Pass(s, "$$NODE_NAME", "$$NODE_IP", "$$"), "NODE_NAME", ENV_NODE_NAME);
  }

  lemma SecondDollar(s: string)
    requires !HasPrefix(s, "NODE_IP")
    ensures var u := Pass(s, ENV_NODE_NAME, "$$NODE_IP", "$$");
      ReplaceAll("$$" + u, "$$NODE_IP", ENV_NODE_IP) == "$$" + ReplaceAll(u, "$$NODE_IP", ENV_NODE_IP)
  {
    PassPrefix(s, "NODE_IP", ENV_NODE_NAME, "$$NODE_IP", "$$");
    PassSecond(s, ENV_NODE_NAME, "$$NODE_IP", "$$");
    assert "$$" + "NODE_IP" == "$$NODE_IP";
    CopyDollars(Pass(s, ENV_NODE_NAME, "$$NODE_IP", "$$"), "NODE_IP", ENV_NODE_IP);
  }

  lemma {:induction false} HalveEscaped(s: string)
    ensures Halve(Escaped(s)) == EnvForm(s)
  {
    if s != "" {
      var rest := if AtName(s) then s[10..] else if AtIP(s) then s[8..] else s[1..];
      HalveEscaped(rest);
      var u := Escaped(rest);
      if AtName(s) {
        assert ENV_NODE_NAME == "$" + "{env:NODE_NAME}";
        CopyReference("{env:NODE_NAME}", u, "$$", "$");
      } else if AtIP(s) {
        assert ENV_NODE_IP == "$" + "{env:NODE_IP}";
        CopyReference("{env:NODE_IP}", u, "$$", "$");
      } else if s[0] == '$' {
        Matched("$$", u, "$");
      } else {
        CopyPlain([s[0]], u, "$$", "$");
      }
    }
  }

  /******* The theorems *******/

  /** Doubling and substituting is the one pass that escapes. */
  lemma SubstDoubleIsEscaped(t: string)
    ensures SubstEnv(Double(t)) == Escaped(t)
  {
    DoubleIsPass(t);
    FirstVariable(t);
    SecondVariable(t);
  }

  /** For every string: doubled, substituted and halved again, it is the user's string with only the
      node variables turned into references to the environment. */
  lemma EscapingSquare(t: string)
    ensures Halve(SubstEnv(Double(t))) == EnvForm(t)
    ensures
      var doubled := ReplaceAll(t, "$", "$$");
      var named := ReplaceAll(doubled, "$$NODE_NAME", "${env:NODE_NAME}");
      var substituted := ReplaceAll(named, "$$NODE_IP", "${env:NODE_IP}");
      ReplaceAll(substituted, "$$", "$")
      == ReplaceAll(ReplaceAll(t, "$NODE_NAME", "${env:NODE_NAME}"), "$NODE_IP", "${env:NODE_IP}")
  {
    SubstDoubleIsEscaped(t);
    HalveEscaped(t);
    EnvFormReplaces(t);
    hide ReplaceAll;
  }

  /** What the target allocator reads for any string in the user's configuration. */
  lemma WhatTheAllocatorReads(s: string)
    ensures Read(Validate(s)) == EnvForm(Halve(s))
    ensures var halved := ReplaceAll(s, "$$", "$");
      Read(Validate(s))
      == ReplaceAll(ReplaceAll(halved, "$NODE_NAME", "${env:NODE_NAME}"), "$NODE_IP", "${env:NODE_IP}")
  {
    EscapingSquare(Halve(s));
    EnvFormReplaces(Halve(s));
    hide ReplaceAll;
  }

  /** Without the substitution the reader undoes the validator. */
  lemma {:induction false} HalveDouble(t: string)
    ensures Halve(Double(t)) == t
  {
    if t != "" {
      assert t == [t[0]] + t[1..];
      HalveDouble(t[1..]);
      if t[0] == '$' {
        assert t == "$" + ("" + t[1..]);
        DoubleDollar("", t[1..]);
        Matched("$$", Double(t[1..]), "$");
      } else {
        CopyPlain([t[0]], t[1..], "$", "$$");
        CopyPlain([t[0]], Double(t[1..]), "$$", "$");
      }
    }
  }

  lemma {:induction false} NothingToRefer(t: string, dollar: string)
    requires !MentionsNode(t)
    ensures Pass(t, ENV_NODE_NAME, ENV_NODE_IP, dollar) == Pass(t, "$$NODE_NAME", "$$NODE_IP", dollar)
    ensures EnvForm(t) == t
  {
    if t != "" {
      NothingToRefer(t[1..], dollar);
    }
  }

  /** Escaping the outcome once more escapes the references themselves: their `$` is doubled like every
      other one, and nothing else changes. */
  lemma {:induction false} EscapedAgain(t: string)
    ensures Escaped(EnvForm(t)) == Pass(t, "$" + ENV_NODE_NAME, "$" + ENV_NODE_IP, "$$")
  {
    if t != "" {
      PassSteps(t, ENV_NODE_NAME, ENV_NODE_IP, "$");
      PassSteps(t, "$" + ENV_NODE_NAME, "$" + ENV_NODE_IP, "$$");
      var rest := if AtName(t) then t[10..] else if AtIP(t) then t[8..] else t[1..];
      EscapedAgain(rest);
      hide HasPrefix, Contains, Pass, AtName, AtIP, MentionsNode;
      if AtName(t) {
        EscapedReferences(EnvForm(rest));
      } else if AtIP(t) {
        EscapedReferences(EnvForm(rest));
      } else if t[0] == '$' {
        AfterDollar(t);
        EscapedDollarAgain(rest);
      } else {
        PassPlain([t[0]], EnvForm(rest), ENV_NODE_NAME, ENV_NODE_IP, "$$");
      }
    }
  }

  /** Every reference makes that longer. */
  lemma {:induction false} EscapedAgainGrows(t: string)
    ensures |Escaped(EnvForm(t))| >= |Escaped(t)|
    ensures MentionsNode(t) ==> |Escaped(EnvForm(t))| > |Escaped(t)|
  {
    EscapedAgain(t);
    PassGrows(t);
  }

  lemma {:induction false} PassGrows(t: string)
    ensures |Pass(t, "$" + ENV_NODE_NAME, "$" + ENV_NODE_IP, "$$")| >= |Escaped(t)|
    ensures MentionsNode(t) ==> |Pass(t, "$" + ENV_NODE_NAME, "$" + ENV_NODE_IP, "$$")| > |Escaped(t)|
  {
    if t != "" {
      PassSteps(t, ENV_NODE_NAME, ENV_NODE_IP, "$$");
      PassSteps(t, "$" + ENV_NODE_NAME, "$" + ENV_NODE_IP, "$$");
      var rest := if AtName(t) then t[10..] else if AtIP(t) then t[8..] else t[1..];
      PassGrows(rest);
      GrowsByMention(t, rest);
      hide HasPrefix, Contains, Pass, AtName, AtIP, MentionsNode;
    }
  }

  lemma EscapedReferences(u: string)
    ensures Escaped(ENV_NODE_NAME + u) == "$" + ENV_NODE_NAME + Escaped(u)
    ensures Escaped(ENV_NODE_IP + u) == "$" + ENV_NODE_IP + Escaped(u)
  {
    hide Pass;
    EscapedReference("{env:NODE_NAME}", u) by { PrefixChars("{env:NODE_NAME}", "{"); }
    assert "$" + "{env:NODE_NAME}" + u == ENV_NODE_NAME + u;
    EscapedReference("{env:NODE_IP}", u) by { PrefixChars("{env:NODE_IP}", "{"); }
    assert "$" + "{env:NODE_IP}" + u == ENV_NODE_IP + u;
  }

  lemma GrowsByMention(t: string, rest: string)
    requires t != "" && rest == if AtName(t) then t[10..] else if AtIP(t) then t[8..] else t[1..]
    ensures !AtName(t) && !AtIP(t) && MentionsNode(t) ==> MentionsNode(rest)
  {
  }

  lemma EscapedDollar(u: string)
    requires !HasPrefix(u, "NODE_NAME") && !HasPrefix(u, "NODE_IP")
    ensures Escaped("$" + u) == "$$" + Escaped(u)
  {
    var r := "$" + u;
    assert r[1..] == u;
    HeadOfPrefix(r, "$NODE_NAME");
    HeadOfPrefix(r, "$NODE_IP");
    assert "$NODE_NAME"[1..] == "NODE_NAME" && "$NODE_IP"[1..] == "NODE_IP";
  }

  lemma EscapedDollarAgain(s: string)
    requires !HasPrefix(s, "NODE_NAME") && !HasPrefix(s, "NODE_IP")
    ensures Escaped("$" + EnvForm(s)) == "$$" + Escaped(EnvForm(s))
  {
    PassPrefix(s, "NODE_NAME", ENV_NODE_NAME, ENV_NODE_IP, "$");
    PassPrefix(s, "NODE_IP", ENV_NODE_NAME, ENV_NODE_IP, "$");
    EscapedDollar(EnvForm(s));
  }

  /** One step of the pass. */
  lemma PassSteps(s: string, name: string, ip: string, dollar: string)
    requires s != ""
    ensures AtName(s) ==> Pass(s, name, ip, dollar) == name + Pass(s[10..], name, ip, dollar)
    ensures !AtName(s) && AtIP(s) ==> Pass(s, name, ip, dollar) == ip + Pass(s[8..], name, ip, dollar)
    ensures !AtName(s) && !AtIP(s) && s[0] == '$' ==>
      Pass(s, name, ip, dollar) == dollar + Pass(s[1..], name, ip, dollar)
    ensures !AtName(s) && !AtIP(s) && s[0] != '$' ==>
      Pass(s, name, ip, dollar) == [s[0]] + Pass(s[1..], name, ip, dollar)
    ensures AtName(s) ==> |s| >= 10
    ensures AtIP(s) ==> |s| >= 8
  {
  }

  lemma EscapedReference(q: string, u: string)
    requires '$' !in q && HasPrefix(q, "{")
    ensures Escaped("$" + q + u) == "$$" + (q + Escaped(u))
  {
    assert "$" + q + u == "$" + (q + u);
    assert q[..1][0] == (q + u)[0];
    HeadOfPrefix(q + u, "NODE_NAME");
    HeadOfPrefix(q + u, "NODE_IP");
    EscapedDollar(q + u);
    PassPlain(q, u, ENV_NODE_NAME, ENV_NODE_IP, "$$");
  }

  /** Validating twice is the same as validating once exactly for the strings that mention neither
      variable once their `$$` are halved. */
  lemma ValidateIdempotent(s: string)
    ensures Validate(Validate(s)) == Validate(s) <==> !MentionsNode(Halve(s))
  {
    var t := Halve(s);
    SubstDoubleIsEscaped(t);
    HalveEscaped(t);
    SubstDoubleIsEscaped(EnvForm(t));
    if MentionsNode(t) {
      EscapedAgainGrows(t);
    } else {
      NothingToRefer(t, "$$");
    }
  }

  /** What validating twice makes of any string. */
  lemma ValidateTwice(s: string)
    ensures Validate(Validate(s)) == Pass(Halve(s), "$" + ENV_NODE_NAME, "$" + ENV_NODE_IP, "$$")
  {
    var t := Halve(s);
    SubstDoubleIsEscaped(t);
    HalveEscaped(t);
    SubstDoubleIsEscaped(EnvForm(t));
    EscapedAgain(t);
  }

  /** One string for which validating twice is not the same as validating once. */
  lemma ValidateTwiceDiffers()
    ensures Validate("$NODE_NAME") == ENV_NODE_NAME && Validate(Validate("$NODE_NAME")) == "$" + ENV_NODE_NAME
  {
    var s := "$NODE_NAME";
    assert s[10..] == "" && s[..10] == s;
    assert '$' !in "NODE_NAME" && s == "$" + "NODE_NAME";
    HalveOneDollar("NODE_NAME");
    SubstDoubleIsEscaped(s);
    ValidateTwice(s);
    hide HasPrefix, ReplaceAll, Pass;
    PassVariable(ENV_NODE_NAME, ENV_NODE_IP, "$$");
    PassVariable("$" + ENV_NODE_NAME, "$" + ENV_NODE_IP, "$$");
  }

  lemma PassVariable(name: string, ip: string, dollar: string)
    ensures Pass("$NODE_NAME", name, ip, dollar) == name
  {
    var s := "$NODE_NAME";
    assert s[10..] == "" && s[..10] == s;
    assert Pass("", name, ip, dollar) == "" && name + "" == name;
  }

  lemma HalveOneDollar(q: string)
    requires '$' !in q
    ensures Halve("$" + q) == "$" + q
  {
    var r := "$" + q;
    assert r[1..] == q && q + "" == q;
    CopyPlain(q, "", "$$", "$");
    if q != "" {
      assert r[1] == q[0] && q[0] in q;
    }
    SecondLetter(r);
    assert ReplaceAll("", "$$", "$") == "" && q + "" == q;
  }

  lemma SecondLetter(r: string)
    ensures HasPrefix(r, "$$") ==> |r| >= 2 && r[1] == '$'
  {
    assert |r| >= 2 ==> r[..2][1] == r[1];
  }

  /******* The one pass is what two replacements in the user's string would do *******/

  lemma {:induction false} PassIdentity(s: string)
    ensures Pass(s, "$NODE_NAME", "$NODE_IP", "$") == s
  {
    if s != "" {
      PassIdentity(if AtName(s) then s[10..] else if AtIP(s) then s[8..] else s[1..]);
    }
  }

  lemma CopyDollar(u: string, rest: string, new': string)
    requires !HasPrefix(u, rest)
    ensures ReplaceAll("$" + u, "$" + rest, new') == "$" + ReplaceAll(u, "$" + rest, new')
  {
    HeadOfPrefix("$" + u, "$" + rest);
    assert ("$" + u)[1..] == u && ("$" + rest)[1..] == rest;
  }

  lemma {:induction false} UserName(s: string)
    ensures ReplaceAll(s, "$NODE_NAME", ENV_NODE_NAME) == Pass(s, ENV_NODE_NAME, "$NODE_IP", "$")
  {
    if s != "" {
      var rest := if AtName(s) then s[10..] else if AtIP(s) then s[8..] else s[1..];
      UserName(rest);
      PassSteps(s, ENV_NODE_NAME, "$NODE_IP", "$");
      if AtIP(s) && !AtName(s) {
        assert s == "$" + s[1..] && "$" + "NODE_NAME" == "$NODE_NAME";
        UserIPKept(rest);
        assert s == "$NODE_IP" + rest;
      } else if !AtName(s) && s[0] != '$' {
        assert s == [s[0]] + s[1..];
        CopyPlain([s[0]], s[1..], "$NODE_NAME", ENV_NODE_NAME);
      }
    }
  }

  lemma UserIPKept(u: string)
    ensures ReplaceAll("$NODE_IP" + u, "$NODE_NAME", ENV_NODE_NAME)
         == "$NODE_IP" + ReplaceAll(u, "$NODE_NAME", ENV_NODE_NAME)
  {
    hide ReplaceAll;
    PrefixChars("NODE_IP" + u, "NODE_NAME");
    assert ("NODE_IP" + u)[5] == 'I' && "NODE_NAME"[5] == 'N';
    CopyPiece("NODE_IP", u, "NODE_NAME", ENV_NODE_NAME);
    assert "$" + "NODE_NAME" == "$NODE_NAME" && "$" + "NODE_IP" == "$NODE_IP";
  }

  lemma {:induction false} UserIP(s: string)
    ensures ReplaceAll(Pass(s, ENV_NODE_NAME, "$NODE_IP", "$"), "$NODE_IP", ENV_NODE_IP) == EnvForm(s)
  {
    if s != "" {
      var rest := if AtName(s) then s[10..] else if AtIP(s) then s[8..] else s[1..];
      UserIP(rest);
      PassSteps(s, ENV_NODE_NAME, "$NODE_IP", "$");
      PassSteps(s, ENV_NODE_NAME, ENV_NODE_IP, "$");
      var u := Pass(rest, ENV_NODE_NAME, "$NODE_IP", "$");
      if AtName(s) {
        UserReferenceKept(u);
      } else if AtIP(s) {
        Matched("$NODE_IP", u, ENV_NODE_IP);
      } else if s[0] == '$' {
        AfterDollar(s);
        PassPrefix(rest, "NODE_IP", ENV_NODE_NAME, "$NODE_IP", "$");
        assert "$" + "NODE_IP" == "$NODE_IP";
        CopyDollar(u, "NODE_IP", ENV_NODE_IP);
      } else {
        CopyPlain([s[0]], u, "$NODE_IP", ENV_NODE_IP);
      }
    }
  }

  lemma CopyPiece(q: string, u: string, rest: string, new': string)
    requires '$' !in q && !HasPrefix(q + u, rest)
    ensures ReplaceAll("$" + q + u, "$" + rest, new') == "$" + q + ReplaceAll(u, "$" + rest, new')
  {
    assert "$" + q + u == "$" + (q + u);
    CopyDollar(q + u, rest, new');
    assert HasPrefix("$" + rest, "$") by { PrefixChars("$" + rest, "$"); }
    CopyPlain(q, u, "$" + rest, new');
    hide ReplaceAll;
    var w := ReplaceAll(u, "$" + rest, new');
    assert "$" + (q + w) == "$" + q + w;
  }

  lemma UserReferenceKept(u: string)
    ensures ReplaceAll(ENV_NODE_NAME + u, "$NODE_IP", ENV_NODE_IP)
         == ENV_NODE_NAME + ReplaceAll(u, "$NODE_IP", ENV_NODE_IP)
  {
    hide ReplaceAll;
    PrefixChars("{env:NODE_NAME}" + u, "NODE_IP");
    assert ("{env:NODE_NAME}" + u)[0] == '{';
    CopyPiece("{env:NODE_NAME}", u, "NODE_IP", ENV_NODE_IP);
    assert "$" + "NODE_IP" == "$NODE_IP" && "$" + "{env:NODE_NAME}" == ENV_NODE_NAME;
  }

  /** The form the allocator reads is the user's string with the variables replaced one after the
      other. */
  lemma EnvFormReplaces(t: string)
    ensures EnvForm(t) == ReplaceAll(ReplaceAll(t, "$NODE_NAME", "${env:NODE_NAME}"), "$NODE_IP", "${env:NODE_IP}")
  {
    UserName(t);
    UserIP(t);
  }

  /******* Relabel rules *******/

  /** A value of a relabel rule: the YAML may lack it or hold something else than a string. */
  datatype Value = Absent | Other | Text(text: string)

  /** A replacement that is present is a string; for anything else both programs crash. */
  datatype Rule = Rule(regex: Value, replacement: Value) {
    predicate Wellformed() {
      !replacement.Other?
    }
  }

  /** The validator's loop over the rules of a scrape config. */
  method ValidateRules(rules: array<Rule>)
    requires forall i :: 0 <= i < rules.Length ==> rules[i].Wellformed()
    modifies rules
    ensures forall i :: 0 <= i < rules.Length ==> Validated(old(rules[i]).regex, rules[i].regex)
    ensures forall i :: 0 <= i < rules.Length ==> Validated(old(rules[i]).replacement, rules[i].replacement)
  {
    for i := 0 to rules.Length
      invariant forall j :: 0 <= j < i ==> Validated(old(rules[j]).regex, rules[j].regex)
      invariant forall j :: 0 <= j < i ==> Validated(old(rules[j]).replacement, rules[j].replacement)
      invariant forall j :: i <= j < rules.Length ==> rules[j] == old(rules[j])
    {
      var rule := rules[i];
      if rule.regex.Text? {
        var modified := ReplaceAll(rule.regex.text, "$$", "$");
        modified := ReplaceAll(modified, "$", "$$");
        modified := ReplaceAll(modified, "$$NODE_NAME", "${env:NODE_NAME}");
        modified := ReplaceAll(modified, "$$NODE_IP", "${env:NODE_IP}");
        rule := rule.(regex := Text(modified));
      }
      if !rule.replacement.Absent? {
        var modified := ReplaceAll(rule.replacement.text, "$$", "$");
        modified := ReplaceAll(modified, "$", "$$");
        modified := ReplaceAll(modified, "$$NODE_NAME", "${env:NODE_NAME}");
        modified := ReplaceAll(modified, "$$NODE_IP", "${env:NODE_IP}");
        rule := rule.(replacement := Text(modified));
      }
      rules[i] := rule;
    }
  }

  /** A string is halved, doubled and substituted; anything else stays as it is. */
  ghost predicate Validated(before: Value, after: Value) {
    if before.Text? then after == Text(Validate(before.text)) else after == before
  }

  /** A string is halved. */
  ghost predicate WasRead(before: Value, after: Value) {
    if before.Text? then after == Text(ReplaceAll(before.text, "$$", "$")) else after == before
  }

  /** The config reader's loop over the same rules. */
  method ReadRules(rules: array<Rule>)
    requires forall i :: 0 <= i < rules.Length ==> rules[i].Wellformed()
    modifies rules
    ensures forall i :: 0 <= i < rules.Length ==> WasRead(old(rules[i]).regex, rules[i].regex)
    ensures forall i :: 0 <= i < rules.Length ==> WasRead(old(rules[i]).replacement, rules[i].replacement)
  {
    for i := 0 to rules.Length
      invariant forall j :: 0 <= j < i ==> WasRead(old(rules[j]).regex, rules[j].regex)
      invariant forall j :: 0 <= j < i ==> WasRead(old(rules[j]).replacement, rules[j].replacement)
      invariant forall j :: i <= j < rules.Length ==> rules[j] == old(rules[j])
    {
      var rule := rules[i];
      if rule.regex.Text? {
        rule := rule.(regex := Text(ReplaceAll(rule.regex.text, "$$", "$")));
      }
      if !rule.replacement.Absent? {
        rule := rule.(replacement := Text(ReplaceAll(rule.replacement.text, "$$", "$")));
      }
      rules[i] := rule;
    }
  }

  /** After both programs: the doubled dollars of a string are halved, then its node variables are
      references to the environment; anything else is as before. */
  ghost predicate Resolved(before: Value, after: Value) {
    if before.Text? then
      var halved := ReplaceAll(before.text, "$$", "$");
      after == Text(ReplaceAll(ReplaceAll(halved, "$NODE_NAME", "${env:NODE_NAME}"), "$NODE_IP", "${env:NODE_IP}"))
    else after == before
  }

  /** Both programs together, on every rule. */
  method ValidateThenRead(rules: array<Rule>)
    requires forall i :: 0 <= i < rules.Length ==> rules[i].Wellformed()
    modifies rules
    ensures forall i :: 0 <= i < rules.Length ==>
      Resolved(old(rules[i]).regex, rules[i].regex) && Resolved(old(rules[i]).replacement, rules[i].replacement)
  {
    hide Validated, WasRead, Resolved;
    ValidateRules(rules);
    ghost var validated := rules[..];
    forall i | 0 <= i < rules.Length ensures rules[i].Wellformed() {
      RulesSquare(old(rules[i]).replacement, rules[i].replacement, Absent);
    }
    ReadRules(rules);
    forall i | 0 <= i < rules.Length
      ensures Resolved(old(rules[i]).regex, rules[i].regex)
      ensures Resolved(old(rules[i]).replacement, rules[i].replacement)
    {
      RulesSquare(old(rules[i]).regex, validated[i].regex, rules[i].regex);
      RulesSquare(old(rules[i]).replacement, validated[i].replacement, rules[i].replacement);
    }
  }

  lemma RulesSquare(before: Value, between: Value, after: Value)
    requires Validated(before, between)
    ensures !before.Other? ==> !between.Other?
    ensures WasRead(between, after) ==> Resolved(before, after)
  {
    hide ReplaceAll;
    if before.Text? {
      WhatTheAllocatorReads(before.text);
    }
  }
}
