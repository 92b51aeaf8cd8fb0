/** When the two programs change nothing but the references: the validator takes a doubled dollar of the
    user's own for an escaped one and halves it. */
module Dollars {
  import opened GoStrings
  import opened Escaping

  function Dollars(s: string): nat {
    if s == "" then 0 else (if s[0] == '$' then 1 else 0) + Dollars(s[1..])
  }

  lemma {:induction false} DollarsAddUp(p: string, s: string)
    ensures Dollars(p + s) == Dollars(p) + Dollars(s)
  {
    if p == "" {
      assert p + s == s;
    } else {
      assert (p + s)[1..] == p[1..] + s;
      DollarsAddUp(p[1..], s);
    }
  }

  lemma {:induction false} NoDollars(s: string)
    requires '$' !in s
    ensures Dollars(s) == 0
  {
    if s != "" {
      NoDollars(s[1..]);
    }
  }

  lemma OneDollar(q: string)
    requires '$' !in q
    ensures Dollars("$" + q) == 1
  {
    assert ("$" + q)[1..] == q;
    NoDollars(q);
  }

  /** A variable and its reference have one dollar each. */
  lemma DollarsOfNames()
    ensures Dollars(ENV_NODE_NAME) == 1 && Dollars(ENV_NODE_IP) == 1
    ensures Dollars("$NODE_NAME") == 1 && Dollars("$NODE_IP") == 1 && Dollars("$") == 1 && Dollars("$$") == 2
  {
    hide Dollars;
    OneDollar("{env:NODE_NAME}");
    OneDollar("{env:NODE_IP}");
    OneDollar("NODE_NAME");
    OneDollar("NODE_IP");
    OneDollar("");
    assert "$" + "{env:NODE_NAME}" == ENV_NODE_NAME && "$" + "{env:NODE_IP}" == ENV_NODE_IP;
    assert "$" + "NODE_NAME" == "$NODE_NAME" && "$" + "NODE_IP" == "$NODE_IP" && "$" + "" == "$";
    DollarsAddUp("$", "$");
    assert "$" + "$" == "$$";
  }

  lemma Pieces(t: string)
    requires t != ""
    ensures AtName(t) ==> |t| >= 10 && t == "$NODE_NAME" + t[10..]
    ensures AtIP(t) ==> |t| >= 8 && t == "$NODE_IP" + t[8..]
    ensures t == [t[0]] + t[1..]
  {
  }

  /** Inserting references keeps the number of dollars. */
  lemma {:induction false} ReferencesKeepDollars(t: string)
    ensures Dollars(EnvForm(t)) == Dollars(t)
  {
    if t != "" {
      hide Dollars, Pass, AtName, AtIP;
      PassSteps(t, ENV_NODE_NAME, ENV_NODE_IP, "$");
      DollarsOfNames();
      Pieces(t);
      if AtName(t) {
        ReferencesKeepDollars(t[10..]);
        Replaced("$NODE_NAME", t[10..], ENV_NODE_NAME, EnvForm(t[10..]));
      } else if AtIP(t) {
        ReferencesKeepDollars(t[8..]);
        Replaced("$NODE_IP", t[8..], ENV_NODE_IP, EnvForm(t[8..]));
      } else {
        ReferencesKeepDollars(t[1..]);
        Replaced([t[0]], t[1..], [t[0]], EnvForm(t[1..]));
      }
    }
  }

  lemma Replaced(p: string, s: string, q: string, u: string)
    requires Dollars(p) == Dollars(q) && Dollars(s) == Dollars(u)
    ensures Dollars(p + s) == Dollars(q + u)
  {
    DollarsAddUp(p, s);
    DollarsAddUp(q, u);
  }

  lemma HalveStep(s: string)
    requires s != ""
    ensures HasPrefix(s, "$$") ==> s == "$$" + s[2..] && Halve(s) == "$" + Halve(s[2..]) && Contains(s, "$$")
    ensures !HasPrefix(s, "$$") ==>
      s == [s[0]] + s[1..] && Halve(s) == [s[0]] + Halve(s[1..]) && (Contains(s, "$$") <==> Contains(s[1..], "$$"))
  {
  }

  /** Halving takes a dollar away exactly from the strings with two in a row. */
  lemma {:induction false} HalvingDropsDollars(s: string)
    ensures Contains(s, "$$") ==> Dollars(Halve(s)) < Dollars(s)
    ensures !Contains(s, "$$") ==> Halve(s) == s
    ensures Dollars(Halve(s)) <= Dollars(s)
  {
    if s == "" {
      assert Halve(s) == s;
    } else {
      hide Dollars, Halve, Contains;
      HalveStep(s);
      if HasPrefix(s, "$$") {
        HalvingDropsDollars(s[2..]);
        DollarsOfNames();
        DollarsAddUp("$$", s[2..]);
        DollarsAddUp("$", Halve(s[2..]));
      } else {
        HalvingDropsDollars(s[1..]);
        DollarsAddUp([s[0]], s[1..]);
        DollarsAddUp([s[0]], Halve(s[1..]));
      }
    }
  }

  /** What the target allocator reads is the user's string with only the references inserted, exactly if
      the string has no two dollars in a row. */
  lemma OnlyReferencesInserted(s: string)
    ensures Read(Validate(s)) == EnvForm(s) <==> !Contains(s, "$$")
  {
    WhatTheAllocatorReads(s);
    HalvingDropsDollars(s);
    ReferencesKeepDollars(s);
    ReferencesKeepDollars(Halve(s));
    hide Dollars, Halve, Contains, EnvForm;
  }

  /** The shortest string that comes out changed. */
  lemma DoubledDollarIsLost()
    ensures Read(Validate("$$")) == "$" && EnvForm("$$") == "$$"
  {
    var s := "$$";
    WhatTheAllocatorReads(s);
    assert s[2..] == "" && s[..2] == s && s[1..] == "$" && "$"[1..] == "";
    assert Halve(s) == "$" + Halve("");
    assert Halve("") == "";
    NoVariables("$");
    NoVariables(s);
  }

  lemma NoVariables(t: string)
    requires t == "$" || t == "$$"
    ensures EnvForm(t) == t
  {
    assert !MentionsNode(t) by {
      Short(t);
    }
    NothingToRefer(t, "$");
  }

  /** A string that is shorter than the variables mentions none. */
  lemma {:induction false} Short(t: string)
    requires |t| < 8
    ensures !MentionsNode(t)
  {
    if t != "" {
      Short(t[1..]);
    }
  }
}
