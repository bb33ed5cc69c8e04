/** The DIESEL macro language: what the evaluator of lib/diesel.c makes of a string. */
module Diesel {
  import opened Seqs

  // lib/diesel.h
  const EOS: char := '\0'
  const MAXARGS: nat := 10
  const MAXSTR: nat := 19200
  const MAXDEPTH: nat := 32
  const MACROCHAR: char := '@'
  const ARGOPEN: char := '('
  const ARGCLOSE: char := ')'
  const ARGSEP: char := ','
  const QUOTE: char := '"'
  const STRLIMIT: nat := MAXSTR - 20
  const OverFlow: string := " @(++)"

  const FALSE: int := 0
  const TRUE: int := 1
  const DIAGNOSTIC: int := 2

  /** A C string ends at its first NUL. */
  function Ch(s: string, i: nat): char {
    if i < |s| then s[i] else EOS
  }

  /** Where the string read from position i on ends. */
  function End(s: string, i: nat): (e: nat)
    ensures e >= i && (i <= |s| ==> e <= |s|)
    decreases |s| - i
  {
    if Ch(s, i) == EOS then i else End(s, i + 1)
  }

  // ----- Copying up to a macro -----

  /** What a scan returns, where it leaves the input, and what it wrote. */
  datatype Scan = Scan(stat: int, at: nat, out: string)

  function Emit(c: string, r: Scan): Scan {
    r.(out := c + r.out)
  }

  lemma EmitTwice(a: string, b: string, r: Scan)
    ensures Emit(a, Emit(b, r)) == Emit(a + b, r)
  {
    assert a + (b + r.out) == (a + b) + r.out;
  }

  lemma EmitIs(a: string, r: Scan)
    ensures Emit(a, r) == Scan(r.stat, r.at, a + r.out)
  {
  }

  lemma EmitNone(r: Scan)
    ensures Emit("", r) == r
  {
  }

  /** copymode from position i on, inside a quoted string or not, after n characters. */
  function CopyFrom(s: string, i: nat, instring: bool, n: nat): (r: Scan)
    requires i <= |s|
    ensures i <= r.at <= |s| && r.stat in {-1, 0, 1}
    ensures r.stat == 1 ==> i < r.at && Ch(s, r.at) == ARGOPEN
    decreases |s| - i
  {
    var ch := Ch(s, i);
    if ch == EOS then Scan(if instring then -1 else 0, i, "")
    else if ch == QUOTE && !instring then CopyFrom(s, i + 1, true, n)
    else if ch == QUOTE && Ch(s, i + 1) != QUOTE then CopyFrom(s, i + 1, false, n)
    else if ch == MACROCHAR && !instring && Ch(s, i + 1) == ARGOPEN then Scan(1, i + 1, "")
    else
      var next := if ch == QUOTE then i + 2 else i + 1;
      if n + 1 > STRLIMIT then Scan(0, End(s, next), [ch] + OverFlow)
      else Emit([ch], CopyFrom(s, next, instring, n + 1))
  }

  // ----- Scanning a macro -----

  /** macromode's loop, at bracket depth `depth`, after nargs arguments and n characters. */
  function ArgsFrom(s: string, i: nat, instring: bool, depth: nat, nargs: nat, n: nat): (r: Scan)
    requires i <= |s|
    ensures i <= r.at <= |s|
    decreases |s| - i
  {
    var ch := Ch(s, i);
    if ch == EOS then Scan(-1, i, [EOS])
    else if ch == QUOTE && !instring then ArgsFrom(s, i + 1, true, depth, nargs, n)
    else if ch == QUOTE && Ch(s, i + 1) != QUOTE then ArgsFrom(s, i + 1, false, depth, nargs, n)
    else if ch == ARGCLOSE && !instring && depth == 0 then Scan(nargs + 1, i + 1, [EOS])
    else if ch == ARGSEP && !instring && depth == 0 && nargs >= MAXARGS - 1 then Scan(-1, End(s, i + 1), OverFlow)
    else
      var splits := ch == ARGSEP && !instring && depth == 0;
      var next := if ch == QUOTE then i + 2 else i + 1;
      var ch' := if splits then EOS else ch;
      if n + 1 > STRLIMIT then Scan(-1, End(s, next), [ch'] + OverFlow)
      else
        Emit([ch'], ArgsFrom(s, next, instring,
          if instring then depth else if ch == ARGOPEN then depth + 1 else if ch == ARGCLOSE then depth - 1 else depth,
          if splits then nargs + 1 else nargs, n + 1))
  }

  /** macromode. */
  function MacroMode(s: string, i: nat): (r: Scan)
    requires i < |s|
    ensures i <= r.at <= |s|
  {
    if s[i] == ARGOPEN then ArgsFrom(s, i + 1, false, 0, 0, 0)
    else Scan(0, i, [MACROCHAR, s[i]])
  }

  // ----- The arguments -----

  function CountEos(t: string): nat {
    if t == "" then 0 else (if t[0] == EOS then 1 else 0) + CountEos(t[1..])
  }

  /** The first `n` strings of a buffer of terminated strings, as macrovalue finds them. */
  function Args(t: string, n: nat): (a: seq<string>)
    requires n <= CountEos(t)
    ensures |a| == n
    ensures forall x :: x in a ==> |x| < |t| && EOS !in x
    decreases n
  {
    if n == 0 then []
    else
      EosThere(t);
      var k := End(t, 0);
      [t[..k]] + Args(t[k + 1..], n - 1)
  }

  lemma {:induction false} EosThere(t: string)
    requires CountEos(t) > 0
    ensures var k := End(t, 0);
            k < |t| && t[k] == EOS && EOS !in t[..k] && CountEos(t[k + 1..]) == CountEos(t) - 1
    decreases |t|
  {
    if t[0] != EOS {
      EosThere(t[1..]);
      EndShift(t, 0);
      var k := End(t[1..], 0);
      assert t[1..][k + 1..] == t[k + 2..] && t[..k + 1] == [t[0]] + t[1..][..k];
    }
  }

  lemma {:induction false} EndShift(t: string, i: nat)
    requires i < |t|
    ensures End(t, i + 1) == End(t[1..], i) + 1
    decreases |t| - i
  {
    if Ch(t, i + 1) != EOS {
      EndShift(t, i + 1);
    }
  }

  /** Which characters move the scan on without being written. */
  lemma ArgsSilent(s: string, i: nat, instring: bool, depth: nat, nargs: nat, n: nat)
    requires i < |s|
    ensures Ch(s, i) == QUOTE && !instring ==>
            ArgsFrom(s, i, instring, depth, nargs, n) == ArgsFrom(s, i + 1, true, depth, nargs, n)
    ensures Ch(s, i) == QUOTE && instring && Ch(s, i + 1) != QUOTE
            ==> ArgsFrom(s, i, instring, depth, nargs, n) == ArgsFrom(s, i + 1, false, depth, nargs, n)
    ensures Ch(s, i) == ARGCLOSE && !instring && depth == 0
            ==> ArgsFrom(s, i, instring, depth, nargs, n) == Scan(nargs + 1, i + 1, [EOS])
    ensures Ch(s, i) == ARGSEP && !instring && depth == 0 && nargs >= MAXARGS - 1
            ==> ArgsFrom(s, i, instring, depth, nargs, n) == Scan(-1, End(s, i + 1), OverFlow)
  {
  }

  /** Any other is: a doubled quote, a separator, or the character itself. */
  lemma ArgsWritten(s: string, i: nat, instring: bool, depth: nat, nargs: nat, n: nat, ch: char, next: nat,
      depth': nat, nargs': nat)
    requires i < |s| && Ch(s, i) != EOS && next <= |s|
    requires if Ch(s, i) == QUOTE then
               instring && Ch(s, i + 1) == QUOTE && ch == QUOTE && next == i + 2 && depth' == depth && nargs' == nargs
             else if Ch(s, i) == ARGSEP && !instring && depth == 0 then
               nargs < MAXARGS - 1 && ch == EOS && next == i + 1 && depth' == depth && nargs' == nargs + 1
             else
               && ch == Ch(s, i) && next == i + 1 && nargs' == nargs
               && depth' == if instring then depth
                            else if ch == ARGOPEN then depth + 1 else if ch == ARGCLOSE then depth - 1 else depth
    ensures ArgsFrom(s, i, instring, depth, nargs, n)
         == if n + 1 > STRLIMIT then Scan(-1, End(s, next), [ch] + OverFlow)
            else Emit([ch], ArgsFrom(s, next, instring, depth', nargs', n + 1))
  {
  }

  lemma ArgsEnd(s: string, i: nat, instring: bool, depth: nat, nargs: nat, n: nat)
    requires i <= |s| && Ch(s, i) == EOS
    ensures ArgsFrom(s, i, instring, depth, nargs, n) == Scan(-1, i, [EOS])
  {
  }

  lemma CountFront(c: char, rest: string)
    requires rest != ""
    ensures var t := [c] + rest;
            CountEos(t) == (if c == EOS then 1 else 0) + CountEos(rest) && t[|t| - 1] == rest[|rest| - 1]
  {
    assert ([c] + rest)[1..] == rest;
  }

  lemma CountOne()
    ensures CountEos([EOS]) == 1
  {
    assert [EOS][1..] == "";
  }

  /** A valid macro has at least one argument, its name, and at most MAXARGS; exactly that
      many terminated strings are written, and they are shorter than the macro. */
  lemma {:induction false} ArgsCounted(s: string, i: nat, instring: bool, depth: nat, nargs: nat, n: nat)
    requires i <= |s| && nargs < MAXARGS
    ensures var r := ArgsFrom(s, i, instring, depth, nargs, n);
            r.stat > 0 ==> nargs < r.stat <= MAXARGS && r.stat == nargs + CountEos(r.out) && |r.out| <= |s| - i
                           && r.out[|r.out| - 1] == EOS
    ensures ArgsFrom(s, i, instring, depth, nargs, n).out != ""
    decreases |s| - i
  {
    hide ArgsFrom, CountEos, End;
    var ch := Ch(s, i);
    if ch == EOS {
      ArgsEnd(s, i, instring, depth, nargs, n);
    } else {
      ArgsSilent(s, i, instring, depth, nargs, n);
      if ch == QUOTE && !(instring && Ch(s, i + 1) == QUOTE) {
        ArgsCounted(s, i + 1, !instring, depth, nargs, n);
      } else if ch == ARGCLOSE && !instring && depth == 0 {
        CountOne();
      } else if !(ch == ARGSEP && !instring && depth == 0 && nargs >= MAXARGS - 1) {
        var splits := ch == ARGSEP && !instring && depth == 0;
        var next := if ch == QUOTE then i + 2 else i + 1;
        var depth' := if instring then depth
                      else if ch == ARGOPEN then depth + 1 else if ch == ARGCLOSE then depth - 1 else depth;
        var nargs' := if splits then nargs + 1 else nargs;
        var c: char := if splits then EOS else ch;
        ArgsWritten(s, i, instring, depth, nargs, n, c, next, depth', nargs');
        if n + 1 <= STRLIMIT {
          ArgsCounted(s, next, instring, depth', nargs', n + 1);
          CountFront(c, ArgsFrom(s, next, instring, depth', nargs', n + 1).out);
        }
      }
    }
  }

  lemma MacroArgs(s: string, i: nat)
    requires i < |s| && MacroMode(s, i).stat > 0
    ensures var r := MacroMode(s, i);
            && 1 <= r.stat <= MAXARGS && r.stat == CountEos(r.out) && |r.out| < |s|
            && r.out[|r.out| - 1] == EOS && r.at > i
  {
    ArgsCounted(s, i + 1, false, 0, 0, 0);
  }

  // ----- Variables -----

  /** A chain of variables, newest first. */
  type Chain = seq<(string, string)>

  function Lookup(v: Chain, name: string): Option<string> {
    if v == [] then None else if v[0].0 == name then Some(v[0].1) else Lookup(v[1..], name)
  }

  /** Change the first variable of that name. */
  function Changed(v: Chain, name: string, value: string): Chain {
    if v == [] then [] else if v[0].0 == name then [(name, value)] + v[1..] else [v[0]] + Changed(v[1..], name, value)
  }

  /** What is done to the variables: one gets a value, or all are removed. */
  datatype Event = Set(name: string, value: string) | Clear

  /** The chain, all that was done to the variables so far, and whether a pointer into a chain
      that had been freed was followed: what the program does from then on is not defined. */
  datatype Vars = Vars(chain: Chain, events: seq<Event>, dangling: bool)

  /** How often the chain was freed. */
  function Frees(events: seq<Event>): nat {
    if events == [] then 0
    else Frees(events[..|events| - 1]) + if events[|events| - 1] == Clear then 1 else 0
  }

  /** Whether a pointer to the first variable of v points to a freed one at w. */
  predicate Stale(v: Vars, w: Vars) {
    v.chain != [] && Frees(v.events) != Frees(w.events)
  }

  // ----- What the evaluator takes from elsewhere -----

  /** What a built-in function not modelled here does next: have an argument evaluated, or be done. */
  datatype Want = Argument(arg: nat) | Done(stat: int, out: string)

  /** Those functions, by name, and what sscanf's "%i" makes of a string. */
  datatype Library = Library(names: set<string>, step: (string, seq<string>, seq<string>) -> Want,
      scan: string -> Option<int>)

  datatype Outcome = Outcome(stat: int, out: string, vars: Vars)

  function ArgAt(argv: seq<string>, k: nat): string {
    if k < |argv| then argv[k] else ""
  }

  /** Every argument is shorter than n. */
  predicate Below(argv: seq<string>, n: nat) {
    n > 0 && forall k :: 0 <= k < |argv| ==> |argv[k]| < n
  }

  // ----- Evaluation -----
  //
  // `depth` counts the enclosing evaluations of EVAL.  Each evaluation of an argument is on
  // a shorter string, and each re-scan by EVAL raises the depth.

  /** diesel: 0, -1 when the input ends in a quoted string, or the column of an error. */
  function Eval(lib: Library, s: string, depth: nat, vars: Vars): Outcome
    requires depth <= MAXDEPTH
    decreases MAXDEPTH - depth, |s|, 2, 0
  {
    EvalFrom(lib, s, 0, "", depth, vars)
  }

  function EvalFrom(lib: Library, s: string, i: nat, out: string, depth: nat, vars: Vars): Outcome
    requires depth <= MAXDEPTH && i <= |s|
    decreases MAXDEPTH - depth, |s|, 1, |s| - i
  {
    var c := CopyFrom(s, i, false, 0);
    if c.stat != 1 then Outcome(c.stat, out + c.out, vars)
    else
      AtOpen(s, i);
      var m := MacroMode(s, c.at);
      if m.stat <= 0 then Outcome(m.at, out + c.out + [MACROCHAR, '?'], vars)
      else
        MacroArgs(s, c.at);
        var v := MacroValue(lib, Args(m.out, m.stat), |s|, depth, vars);
        if v.stat <= 0 then Outcome(m.at, out + c.out + [MACROCHAR, '?'], v.vars)
        else if |out + c.out| + |v.out| > STRLIMIT then Outcome(m.at, out + c.out + OverFlow, v.vars)
        else if v.stat == DIAGNOSTIC then Outcome(m.at, out + c.out + v.out, v.vars)
        else EvalFrom(lib, s, m.at, out + c.out + v.out, depth, v.vars)
  }

  /** macrovalue: the name is evaluated, looked up, and its function called. */
  function MacroValue(lib: Library, args: seq<string>, n: nat, depth: nat, vars: Vars): Outcome
    requires depth <= MAXDEPTH && args != [] && Below(args, n)
    decreases MAXDEPTH - depth, n, 0, 3
  {
    var name := Eval(lib, args[0], depth, vars);
    if name.stat != 0 then Outcome(FALSE, "", name.vars)
    else
      var macname := UpperCase(name.out);
      if Known(lib, macname) then
        var r := FunctionValue(lib, macname, args[1..], n, depth, name.vars);
        if r.stat == FALSE then Outcome(DIAGNOSTIC, " @(" + macname + ",??) ", r.vars)
        else if r.stat != TRUE then r.(stat := DIAGNOSTIC)
        else r
      else Outcome(DIAGNOSTIC, " @(" + macname + ")?? ", name.vars)
  }

  predicate Known(lib: Library, name: string) {
    name in {"CLEAR", "EQ", "EVAL", "IF", "GETVAR", "SETVAR"} || name in lib.names
  }

  function FunctionValue(lib: Library, name: string, argv: seq<string>, n: nat, depth: nat, vars: Vars): Outcome
    requires depth <= MAXDEPTH && Below(argv, n)
    decreases MAXDEPTH - depth, n, 0, 2
  {
    if name == "EQ" then Equal(lib, argv, n, depth, vars)
    else if name == "EVAL" then EvalAgain(lib, argv, n, depth, vars)
    else if name == "IF" then If(lib, argv, n, depth, vars)
    else if name == "GETVAR" then GetVar(lib, argv, n, depth, vars)
    else if name == "SETVAR" then SetVar(lib, argv, n, depth, vars)
    else if name == "CLEAR" then Outcome(TRUE, "", Cleared(vars))
    else Other(lib, name, argv, [], n, depth, vars)
  }

  /** f_equal. */
  function Equal(lib: Library, argv: seq<string>, n: nat, depth: nat, vars: Vars): Outcome
    requires depth <= MAXDEPTH && Below(argv, n)
    decreases MAXDEPTH - depth, n, 0, 0
  {
    if |argv| != 2 then Outcome(FALSE, "", vars)
    else
      var a := Eval(lib, argv[0], depth, vars);
      if a.stat != 0 then Outcome(FALSE, "", a.vars)
      else
        var b := Eval(lib, argv[1], depth, a.vars);
        if b.stat != 0 then Outcome(FALSE, "", b.vars)
        else Outcome(TRUE, if a.out == b.out then "1" else "0", b.vars)
  }

  /** f_eval. */
  function EvalAgain(lib: Library, argv: seq<string>, n: nat, depth: nat, vars: Vars): Outcome
    requires depth <= MAXDEPTH && Below(argv, n)
    decreases MAXDEPTH - depth, n, 0, 0
  {
    if depth >= MAXDEPTH || |argv| != 1 then Outcome(FALSE, "", vars)
    else
      var a := Eval(lib, argv[0], depth, vars);
      if a.stat != 0 then Outcome(FALSE, "", a.vars)
      else
        var r := Eval(lib, a.out, depth + 1, a.vars);
        r.(stat := if r.stat == 0 then TRUE else FALSE)
  }

  /** f_if. */
  function If(lib: Library, argv: seq<string>, n: nat, depth: nat, vars: Vars): Outcome
    requires depth <= MAXDEPTH && Below(argv, n)
    decreases MAXDEPTH - depth, n, 0, 0
  {
    if |argv| < 2 || |argv| > 3 then Outcome(FALSE, "", vars)
    else
      var c := Eval(lib, argv[0], depth, vars);
      if c.stat != 0 || lib.scan(c.out) == None then Outcome(FALSE, "", c.vars)
      else if lib.scan(c.out).value == 0 && |argv| == 2 then Outcome(TRUE, "", c.vars)
      else
        var r := Eval(lib, argv[if lib.scan(c.out).value != 0 then 1 else 2], depth, c.vars);
        if r.stat != 0 then Outcome(FALSE, "", r.vars) else r.(stat := TRUE)
  }

  /** f_clear. */
  function Cleared(vars: Vars): Vars {
    Vars([], vars.events + [Clear], vars.dangling)
  }

  /** The part of the chain that was there when it was `had` long. */
  function Older(v: Chain, had: nat): Chain {
    if had <= |v| then v[|v| - had..] else v
  }

  /** f_getvar: it looks at the chain as it was before its argument was evaluated, which is
      freed memory if there was one and the argument has cleared it. */
  function GetVar(lib: Library, argv: seq<string>, n: nat, depth: nat, vars: Vars): Outcome
    requires depth <= MAXDEPTH && Below(argv, n)
    decreases MAXDEPTH - depth, n, 0, 0
  {
    if |argv| != 1 then Outcome(FALSE, "", vars)
    else
      var a := Eval(lib, argv[0], depth, vars);
      if a.stat != 0 then Outcome(FALSE, "", a.vars)
      else if Stale(vars, a.vars) then Outcome(FALSE, "", a.vars.(dangling := true))
      else
        match Lookup(Older(a.vars.chain, |vars.chain|), a.out)
        case Some(value) => Outcome(TRUE, value, a.vars)
        case None => Outcome(FALSE, "", a.vars)
  }

  /** What f_setvar makes of the chain, when it was `had` long at the call. */
  function Stored(v: Chain, had: nat, name: string, value: string): Chain {
    if had > |v| || Lookup(Older(v, had), name) == None then [(name, value)] + v
    else v[..|v| - had] + Changed(Older(v, had), name, value)
  }

  function Assigned(v: Vars, had: nat, name: string, value: string): Vars {
    Vars(Stored(v.chain, had, name, value), v.events + [Set(name, value)], v.dangling)
  }

  /** f_setvar: it too looks at the chain as it was at the call. */
  function SetVar(lib: Library, argv: seq<string>, n: nat, depth: nat, vars: Vars): Outcome
    requires depth <= MAXDEPTH && Below(argv, n)
    decreases MAXDEPTH - depth, n, 0, 0
  {
    if |argv| != 2 then Outcome(FALSE, "", vars)
    else
      var a := Eval(lib, argv[0], depth, vars);
      if a.stat != 0 then Outcome(FALSE, "", a.vars)
      else
        var b := Eval(lib, argv[1], depth, a.vars);
        if b.stat != 0 then Outcome(FALSE, "", b.vars)
        else if Stale(vars, b.vars) then Outcome(FALSE, "", b.vars.(dangling := true))
        else Outcome(TRUE, "", Assigned(b.vars, |vars.chain|, a.out, b.out))
  }

  /** Any other function of the table: it evaluates its arguments one at a time, each at most once. */
  function Other(lib: Library, name: string, argv: seq<string>, vals: seq<string>, n: nat, depth: nat,
      vars: Vars): Outcome
    requires depth <= MAXDEPTH && Below(argv, n) && |vals| <= |argv|
    decreases MAXDEPTH - depth, n, 0, 1, |argv| - |vals|
  {
    match lib.step(name, argv, vals)
    case Done(stat, out) => Outcome(stat, out, vars)
    case Argument(k) =>
      var a := Eval(lib, ArgAt(argv, k), depth, vars);
      if a.stat != 0 || |vals| == |argv| then Outcome(FALSE, "", a.vars)
      else Other(lib, name, argv, vals + [a.out], n, depth, a.vars)
  }

  lemma AtOpen(s: string, i: nat)
    requires i <= |s| && CopyFrom(s, i, false, 0).stat == 1
    ensures i < CopyFrom(s, i, false, 0).at < |s|
  {
  }

  /** One turn of diesel's loop. */
  lemma EvalStep(lib: Library, s: string, i: nat, out: string, depth: nat, vars: Vars)
    requires depth <= MAXDEPTH && i <= |s|
    ensures var c := CopyFrom(s, i, false, 0); var r := EvalFrom(lib, s, i, out, depth, vars);
            if c.stat != 1 then r == Outcome(c.stat, out + c.out, vars)
            else
              && c.at < |s|
              && var m := MacroMode(s, c.at);
                 if m.stat <= 0 then r == Outcome(m.at, out + c.out + [MACROCHAR, '?'], vars)
                 else
                   && m.stat == CountEos(m.out) && m.at > i && Below(Args(m.out, m.stat), |s|)
                   && var v := MacroValue(lib, Args(m.out, m.stat), |s|, depth, vars);
                      r == if v.stat <= 0 then Outcome(m.at, out + c.out + [MACROCHAR, '?'], v.vars)
                           else if |out + c.out| + |v.out| > STRLIMIT then Outcome(m.at, out + c.out + OverFlow, v.vars)
                           else if v.stat == DIAGNOSTIC then Outcome(m.at, out + c.out + v.out, v.vars)
                           else EvalFrom(lib, s, m.at, out + c.out + v.out, depth, v.vars)
  {
    var c := CopyFrom(s, i, false, 0);
    if c.stat == 1 {
      AtOpen(s, i);
      if MacroMode(s, c.at).stat > 0 {
        MacroArgs(s, c.at);
      }
    }
    hide MacroValue, Args, CountEos, MacroMode, CopyFrom;
  }
}
