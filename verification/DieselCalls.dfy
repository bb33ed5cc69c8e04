/** What whole macros of DIESEL give: calls by name, IF, and names that are not known
    (lib/diesel.c). */
module DieselCalls {
  import opened Seqs
  import opened Diesel
  import opened DieselLiteral

  /** A macro of a plain, known name. */
  lemma NamedValue(lib: Library, name: string, argv: seq<string>, n: nat, depth: nat, vars: Vars)
    requires depth <= MAXDEPTH && Below([name] + argv, n)
    requires Plain(name) && |name| <= STRLIMIT && UpperCase(name) == name && Known(lib, name)
    ensures Below(argv, n)
    ensures var r := FunctionValue(lib, name, argv, n, depth, vars);
            var v := MacroValue(lib, [name] + argv, n, depth, vars);
            && v.vars == r.vars && (r.stat == TRUE ==> v == r) && (r.stat != TRUE ==> v.stat == DIAGNOSTIC)
  {
    BelowTail(name, argv, n);
    PlainEval(lib, name, depth, vars);
    assert ([name] + argv)[1..] == argv;
    hide Eval, FunctionValue;
  }

  lemma BelowTail(x: string, argv: seq<string>, n: nat)
    requires Below([x] + argv, n)
    ensures Below(argv, n)
  {
    assert forall k :: 0 <= k < |argv| ==> argv[k] == ([x] + argv)[k + 1];
  }

  /** A string that is one macro of a plain, known name with quoted arguments. */
  lemma CallValue(lib: Library, name: string, xs: seq<string>, depth: nat, vars: Vars)
    requires depth <= MAXDEPTH && Plain(name) && Literal(xs) && |xs| < MAXARGS && |name| + Total(xs) <= STRLIMIT
    requires UpperCase(name) == name && Known(lib, name)
    ensures var s := CallOf(name, xs);
            && Below(xs, |s|)
            && var f := FunctionValue(lib, name, xs, |s|, depth, vars); var r := Eval(lib, s, depth, vars);
               && r.vars == f.vars
               && (f.stat == TRUE && |f.out| <= STRLIMIT ==> r == Outcome(0, f.out, f.vars))
  {
    hide Eval, MacroMode, CallOf, CopyFrom, MacroValue, FunctionValue, UpperCase, Args, CountEos, Literal, Plain,
         Total, Known;
    var s := CallOf(name, xs);
    LiteralArguments(name, xs);
    CallLong(name, xs);
    WholeCall(lib, s, depth, vars);
    CallFails(lib, s, depth, vars);
    NamedValue(lib, name, xs, |s|, depth, vars);
  }

  // ----- Calls that give no value -----

  /** A string that is one macro that does not fit. */
  lemma CallTooLong(lib: Library, name: string, xs: seq<string>, depth: nat, vars: Vars)
    requires depth <= MAXDEPTH && Plain(name) && Literal(xs) && |name| <= STRLIMIT
    requires |xs| >= MAXARGS || |name| + Total(xs) > STRLIMIT
    ensures Eval(lib, CallOf(name, xs), depth, vars).stat > 0
  {
    hide Eval, MacroMode, CallOf, CopyFrom, MacroValue, Args, CountEos, Literal, Plain, Total;
    LiteralArguments(name, xs);
    CallLong(name, xs);
    WholeCall(lib, CallOf(name, xs), depth, vars);
  }

  /** A string that is one macro whose value is a diagnostic. */
  lemma CallDiagnosed(lib: Library, s: string, depth: nat, vars: Vars)
    requires depth <= MAXDEPTH && |s| >= 2 && CopyFrom(s, 0, false, 0) == Scan(1, 1, "")
    ensures var m := MacroMode(s, 1);
            m.stat > 0 ==>
              && m.stat <= CountEos(m.out) && Below(Args(m.out, m.stat), |s|)
              && var v := MacroValue(lib, Args(m.out, m.stat), |s|, depth, vars);
                 v.stat == DIAGNOSTIC && |v.out| <= STRLIMIT ==>
                   Eval(lib, s, depth, vars) == Outcome(m.at, v.out, v.vars)
  {
    hide EvalFrom, MacroValue, Args, CountEos, MacroMode, CopyFrom;
    EvalStep(lib, s, 0, "", depth, vars);
    var m := MacroMode(s, 1);
    if m.stat > 0 {
      var v := MacroValue(lib, Args(m.out, m.stat), |s|, depth, vars);
      assert "" + "" + v.out == v.out;
    }
  }

  /** A name that is not in the table is shown with question marks, and the column is returned. */
  lemma UnknownMacro(lib: Library, name: string, xs: seq<string>, depth: nat, vars: Vars)
    requires depth <= MAXDEPTH && Plain(name) && Literal(xs) && |xs| < MAXARGS
    requires |name| + Total(xs) <= STRLIMIT && |name| + 7 <= STRLIMIT && !Known(lib, UpperCase(name))
    ensures var s := CallOf(name, xs);
            Eval(lib, s, depth, vars) == Outcome(|s|, " @(" + UpperCase(name) + ")?? ", vars)
  {
    hide Eval, MacroMode, CallOf, CopyFrom, Args, CountEos, Literal, Plain, Total, Known, UpperCase;
    var s := CallOf(name, xs);
    LiteralArguments(name, xs);
    CallLong(name, xs);
    CallDiagnosed(lib, s, depth, vars);
    UpperShort(name);
    PlainEval(lib, name, depth, vars);
    assert ([name] + xs)[0] == name;
    UnknownValue(lib, name, xs, |s|, depth, vars);
  }

  lemma UnknownValue(lib: Library, name: string, xs: seq<string>, n: nat, depth: nat, vars: Vars)
    requires depth <= MAXDEPTH && Below([name] + xs, n) && Plain(name) && |name| <= STRLIMIT
    requires !Known(lib, UpperCase(name))
    ensures MacroValue(lib, [name] + xs, n, depth, vars)
         == Outcome(DIAGNOSTIC, " @(" + UpperCase(name) + ")?? ", vars)
  {
    PlainEval(lib, name, depth, vars);
    hide Eval, UpperCase, Known;
  }

  lemma {:induction false} UpperShort(s: string)
    ensures |UpperCase(s)| <= |s|
  {
    if s != "" && s[0] != '\0' {
      UpperShort(s[1..]);
    }
  }

  /** A function that fails is shown with its name, and the column is returned. */
  lemma FailedMacro(lib: Library, name: string, xs: seq<string>, depth: nat, vars: Vars)
    requires depth <= MAXDEPTH && Plain(name) && Literal(xs) && |xs| < MAXARGS && |name| + Total(xs) <= STRLIMIT
    requires |name| + 8 <= STRLIMIT && UpperCase(name) == name && Known(lib, name)
    ensures var s := CallOf(name, xs);
            && Below(xs, |s|)
            && var f := FunctionValue(lib, name, xs, |s|, depth, vars);
               f.stat == FALSE ==> Eval(lib, s, depth, vars) == Outcome(|s|, " @(" + name + ",??) ", f.vars)
  {
    hide Eval, MacroMode, CallOf, CopyFrom, MacroValue, Args, CountEos, Literal, Plain, Total, Known, UpperCase,
         FunctionValue;
    var s := CallOf(name, xs);
    LiteralArguments(name, xs);
    CallLong(name, xs);
    CallDiagnosed(lib, s, depth, vars);
    FailedValue(lib, name, xs, |s|, depth, vars);
  }

  lemma FailedValue(lib: Library, name: string, xs: seq<string>, n: nat, depth: nat, vars: Vars)
    requires depth <= MAXDEPTH && Below([name] + xs, n) && Plain(name) && |name| <= STRLIMIT
    requires UpperCase(name) == name && Known(lib, name)
    ensures Below(xs, n)
    ensures var f := FunctionValue(lib, name, xs, n, depth, vars);
            f.stat == FALSE ==>
              MacroValue(lib, [name] + xs, n, depth, vars) == Outcome(DIAGNOSTIC, " @(" + name + ",??) ", f.vars)
  {
    BelowTail(name, xs, n);
    PlainEval(lib, name, depth, vars);
    assert ([name] + xs)[1..] == xs;
    hide Eval, FunctionValue;
  }

  // ----- IF -----

  /** IF evaluates its condition, and then exactly the branch it chooses: the second argument when
      the condition is not 0, the third when it is, and none when there is no third.  Output and
      variables are those of that branch. */
  lemma IfChooses(lib: Library, argv: seq<string>, n: nat, depth: nat, vars: Vars)
    requires depth <= MAXDEPTH && Below(argv, n) && 2 <= |argv| <= 3
    ensures var c := Eval(lib, argv[0], depth, vars); var r := If(lib, argv, n, depth, vars);
            if c.stat != 0 || lib.scan(c.out) == None then r == Outcome(FALSE, "", c.vars)
            else if lib.scan(c.out) != Some(0) then
              var yes := Eval(lib, argv[1], depth, c.vars);
              r == if yes.stat == 0 then yes.(stat := TRUE) else Outcome(FALSE, "", yes.vars)
            else if |argv| == 3 then
              var no := Eval(lib, argv[2], depth, c.vars);
              r == if no.stat == 0 then no.(stat := TRUE) else Outcome(FALSE, "", no.vars)
            else r == Outcome(TRUE, "", c.vars)
  {
    hide Eval;
  }

  /** @(IF,..) of doubly quoted texts c, a and b: a when c is a number other than 0, b when it is 0,
      and a diagnostic when it is none, exactly as long as the macro fits the scanner's buffer. */
  lemma IfExactly(lib: Library, c: string, a: string, b: string, depth: nat, vars: Vars)
    requires EOS !in c && EOS !in a && EOS !in b && depth <= MAXDEPTH
    ensures var s := CallOf("IF", [Quoted(c), Quoted(a), Quoted(b)]); var r := Eval(lib, s, depth, vars);
            if 5 + |Quoted(c)| + |Quoted(a)| + |Quoted(b)| > STRLIMIT then r.stat > 0
            else if lib.scan(c) == None then r == Outcome(|s|, " @(IF,??) ", vars)
            else r == Outcome(0, if lib.scan(c) != Some(0) then a else b, vars)
  {
    hide Eval, Quoted, CallOf, FunctionValue, If, Total;
    var xs := [Quoted(c), Quoted(a), Quoted(b)];
    NoEosInQuoted(c);
    NoEosInQuoted(a);
    NoEosInQuoted(b);
    ThreeTotal(xs);
    UpperStays("IF");
    if 5 + |Quoted(c)| + |Quoted(a)| + |Quoted(b)| > STRLIMIT {
      CallTooLong(lib, "IF", xs, depth, vars);
    } else {
      CallValue(lib, "IF", xs, depth, vars);
      FailedMacro(lib, "IF", xs, depth, vars);
      var n := |CallOf("IF", xs)|;
      IfCalled(lib, xs, n, depth, vars);
      IfQuoted(lib, c, a, b, n, depth, vars);
    }
  }

  lemma ThreeTotal(xs: seq<string>)
    requires |xs| == 3
    ensures Total(xs) == 3 + |xs[0]| + |xs[1]| + |xs[2]|
  {
    TwoTotal(xs[1..]);
  }

  lemma IfCalled(lib: Library, argv: seq<string>, n: nat, depth: nat, vars: Vars)
    requires depth <= MAXDEPTH && Below(argv, n)
    ensures FunctionValue(lib, "IF", argv, n, depth, vars) == If(lib, argv, n, depth, vars)
  {
    hide SetVar, GetVar, Equal, EvalAgain, If, Other, Cleared;
  }

  lemma IfQuoted(lib: Library, c: string, a: string, b: string, n: nat, depth: nat, vars: Vars)
    requires EOS !in c && EOS !in a && EOS !in b && depth <= MAXDEPTH
    requires |Quoted(c)| <= STRLIMIT && |Quoted(a)| <= STRLIMIT && |Quoted(b)| <= STRLIMIT
    requires Below([Quoted(c), Quoted(a), Quoted(b)], n)
    ensures If(lib, [Quoted(c), Quoted(a), Quoted(b)], n, depth, vars)
         == if lib.scan(c) == None then Outcome(FALSE, "", vars)
            else Outcome(TRUE, if lib.scan(c) != Some(0) then a else b, vars)
  {
    NoEosInQuoted(c);
    NoEosInQuoted(a);
    NoEosInQuoted(b);
    LiteralExactly(lib, c, depth, vars);
    LiteralExactly(lib, a, depth, vars);
    LiteralExactly(lib, b, depth, vars);
    hide Eval, Quoted, If;
    IfChooses(lib, [Quoted(c), Quoted(a), Quoted(b)], n, depth, vars);
  }

  /** Without a third text it gives nothing for 0. */
  lemma IfWithoutElse(lib: Library, c: string, a: string, depth: nat, vars: Vars)
    requires EOS !in c && EOS !in a && depth <= MAXDEPTH
    ensures var s := CallOf("IF", [Quoted(c), Quoted(a)]); var r := Eval(lib, s, depth, vars);
            if 4 + |Quoted(c)| + |Quoted(a)| > STRLIMIT then r.stat > 0
            else if lib.scan(c) == None then r == Outcome(|s|, " @(IF,??) ", vars)
            else r == Outcome(0, if lib.scan(c) != Some(0) then a else "", vars)
  {
    hide Eval, Quoted, CallOf, FunctionValue, If, Total;
    var xs := [Quoted(c), Quoted(a)];
    NoEosInQuoted(c);
    NoEosInQuoted(a);
    TwoTotal(xs);
    UpperStays("IF");
    if 4 + |Quoted(c)| + |Quoted(a)| > STRLIMIT {
      CallTooLong(lib, "IF", xs, depth, vars);
    } else {
      CallValue(lib, "IF", xs, depth, vars);
      FailedMacro(lib, "IF", xs, depth, vars);
      var n := |CallOf("IF", xs)|;
      IfCalled(lib, xs, n, depth, vars);
      LiteralExactly(lib, c, depth, vars);
      LiteralExactly(lib, a, depth, vars);
      IfChooses(lib, xs, n, depth, vars);
    }
  }
}
