/** The DIESEL evaluator as lib/diesel.c runs it: scans that move through the input, a depth
    counter and a chain of variables that last from one evaluation to the next. */
module DieselRun {
  import opened Seqs
  import opened Diesel
  import opened DieselVars

  lemma EmitEnd(a: string, stat: int, at: nat, out: string)
    ensures Emit(a, Scan(stat, at, out)) == Scan(stat, at, a + out)
    ensures Emit("", Scan(stat, at, out)) == Scan(stat, at, out)
  {
  }

  /** Skip to the end of the string. */
  method SkipToEnd(s: string, i: nat) returns (e: nat)
    ensures e == End(s, i)
  {
    e := i;
    while Ch(s, e) != EOS
      invariant End(s, i) == End(s, e)
      decreases |s| - e
    {
      e := e + 1;
    }
  }

  /** copymode. */
  method CopyMode(s: string, start: nat) returns (r: Scan)
    requires start <= |s|
    ensures r == CopyFrom(s, start, false, 0)
  {
    var ip, op, instring := start, "", false;
    while Ch(s, ip) != EOS
      invariant ip <= |s| && |op| <= STRLIMIT
      invariant CopyFrom(s, start, false, 0) == Emit(op, CopyFrom(s, ip, instring, |op|))
      decreases |s| - ip
    {
      ghost var was := op;
      var ch := Ch(s, ip);
      ip := ip + 1;
      if ch == QUOTE {
        if instring {
          if Ch(s, ip) == QUOTE {
            op := op + [QUOTE];
            ip := ip + 1;
          } else {
            instring := false;
          }
        } else {
          instring := true;
        }
      } else {
        if ch == MACROCHAR && !instring && Ch(s, ip) == ARGOPEN {
          return Scan(1, ip, op);
        }
        op := op + [ch];
      }
      if |op| > STRLIMIT {
        var end := SkipToEnd(s, ip);
        assert was + ([ch] + OverFlow) == op + OverFlow;
        return Scan(0, end, op + OverFlow);
      }
      if op != was { EmitTwice(was, [ch], CopyFrom(s, ip, instring, |op|)); }
    }
    r := Scan(if instring then -1 else 0, ip, op);
  }

  /** macromode. */
  method ScanMacro(s: string, start: nat) returns (r: Scan)
    requires start < |s|
    ensures r == MacroMode(s, start)
  {
    if s[start] != ARGOPEN {
      return Scan(0, start, [MACROCHAR, s[start]]);
    }
    hide Emit, ArgsFrom, End;
    var ip, op, instring := start + 1, "", false;
    var nargs: nat, depth: nat := 0, 0;
    ghost var all := MacroMode(s, start);
    EmitEnd("", all.stat, all.at, all.out);
    while Ch(s, ip) != EOS
      invariant ip <= |s| && |op| <= STRLIMIT
      invariant all == Emit(op, ArgsFrom(s, ip, instring, depth, nargs, |op|))
      decreases |s| - ip
    {
      ArgsSilent(s, ip, instring, depth, nargs, |op|);
      ghost var at, level, count := ip, depth, nargs;
      var ch := Ch(s, ip);
      var writes := true;
      ip := ip + 1;
      if ch == QUOTE {
        if instring && Ch(s, ip) == QUOTE {
          ip := ip + 1;
        } else {
          instring := !instring;
          writes := false;
        }
      } else if ch == ARGOPEN && !instring {
        depth := depth + 1;
      } else if ch == ARGCLOSE && !instring {
        if depth == 0 {
          EmitEnd(op, nargs + 1, ip, [EOS]);
          return Scan(nargs + 1, ip, op + [EOS]);
        }
        depth := depth - 1;
      } else if ch == ARGSEP && !instring && depth == 0 {
        if nargs >= MAXARGS - 1 {
          var end := SkipToEnd(s, ip);
          EmitEnd(op, -1, end, OverFlow);
          return Scan(-1, end, op + OverFlow);
        }
        nargs := nargs + 1;
        ch := EOS;
      }
      if writes {
        ArgsWritten(s, at, instring, level, count, |op|, ch, ip, depth, nargs);
        op := op + [ch];
        if |op| > STRLIMIT {
          var end := SkipToEnd(s, ip);
          EmitCut(all, op, ch, end);
          return Scan(-1, end, op + OverFlow);
        }
        EmitTwice(op[..|op| - 1], [ch], ArgsFrom(s, ip, instring, depth, nargs, |op|));
      }
    }
    ArgsEnd(s, ip, instring, depth, nargs, |op|);
    EmitEnd(op, -1, ip, [EOS]);
    r := Scan(-1, ip, op + [EOS]);
  }

  lemma EmitCut(all: Scan, op: string, ch: char, end: nat)
    requires op != "" && op[|op| - 1] == ch && all == Emit(op[..|op| - 1], Scan(-1, end, [ch] + OverFlow))
    ensures all == Scan(-1, end, op + OverFlow)
  {
    assert op[..|op| - 1] + ([ch] + OverFlow) == op + OverFlow;
  }

  /** Where each of the terminated strings of a buffer starts and ends (macrovalue's argv). */
  method SplitArgs(t: string, n: nat) returns (argv: seq<string>)
    requires n <= CountEos(t)
    ensures argv == Args(t, n)
  {
    argv := [];
    var args, i := t, 0;
    while i < n
      invariant i <= n && n - i <= CountEos(args)
      invariant Args(t, n) == argv + Args(args, n - i)
    {
      hide Args, CountEos;
      ArgsNext(args, n - i);
      var end := SkipToEnd(args, 0);
      assert argv + ([args[..end]] + Args(args[end + 1..], n - i - 1))
             == (argv + [args[..end]]) + Args(args[end + 1..], n - i - 1);
      argv := argv + [args[..end]];
      args := args[end + 1..];
      i := i + 1;
    }
  }

  lemma ArgsNext(t: string, n: nat)
    requires 0 < n <= CountEos(t)
    ensures var k := End(t, 0);
            k < |t| && n - 1 <= CountEos(t[k + 1..]) && Args(t, n) == [t[..k]] + Args(t[k + 1..], n - 1)
  {
    EosThere(t);
  }

  lemma LookupStep(v: Chain, name: string)
    requires v != []
    ensures Lookup(v, name) == if v[0].0 == name then Some(v[0].1) else Lookup(v[1..], name)
  {
  }

  lemma ChangedAt(v: Chain, k: nat, name: string, value: string)
    requires k < |v| && v[k].0 == name && forall j :: 0 <= j < k ==> v[j].0 != name
    ensures Changed(v, name, value) == v[k := (name, value)]
    decreases k
  {
    if k > 0 {
      ChangedAt(v[1..], k - 1, name, value);
      assert [v[0]] + v[1..][k - 1 := (name, value)] == v[k := (name, value)];
    } else {
      assert [(name, value)] + v[1..] == v[0 := (name, value)];
    }
  }

  class Interpreter {
    const lib: Library
    /** f_eval's count of the evaluations under way. */
    var depth: nat
    var varlist: Chain
    /** How often the chain was freed: a pointer into it is only good as long as this stays. */
    var frees: nat
    ghost var events: seq<Event>
    ghost var dangling: bool

    ghost predicate Valid()
      reads this
    {
      frees == Frees(events)
    }

    ghost function View(): Vars
      reads this
    {
      Vars(varlist, events, dangling)
    }

    constructor (lib: Library)
      ensures Valid() && this.lib == lib && depth == 0 && View() == Vars([], [], false) && Agrees(View())
    {
      this.lib, depth, varlist, frees, events, dangling := lib, 0, [], 0, [], false;
    }

    /** Search the chain from where it began when it was `had` long. */
    method FindVar(had: nat, name: string) returns (at: nat)
      requires had <= |varlist|
      ensures |varlist| - had <= at <= |varlist|
      ensures at < |varlist| ==> varlist[at].0 == name && Lookup(Older(varlist, had), name) == Some(varlist[at].1)
      ensures at == |varlist| ==> Lookup(Older(varlist, had), name) == None
      ensures forall j :: |varlist| - had <= j < at ==> varlist[j].0 != name
    {
      at := |varlist| - had;
      while at < |varlist| && varlist[at].0 != name
        invariant |varlist| - had <= at <= |varlist|
        invariant forall j :: |varlist| - had <= j < at ==> varlist[j].0 != name
        invariant Lookup(Older(varlist, had), name) == Lookup(varlist[at..], name)
      {
        LookupStep(varlist[at..], name);
        assert varlist[at..][1..] == varlist[at + 1..];
        at := at + 1;
      }
    }

    /** diesel. */
    method Diesel(s: string) returns (stat: int, out: string)
      requires Valid() && depth <= MAXDEPTH
      modifies this
      ensures Valid() && depth == old(depth)
      ensures Outcome(stat, out, View()) == Eval(lib, s, depth, old(View()))
      decreases MAXDEPTH - depth, |s|, 2
    {
      hide EvalFrom, MacroValue, Args, CountEos, MacroMode, CopyFrom;
      var inp := 0;
      out := "";
      ghost var result := EvalFrom(lib, s, 0, "", depth, View());
      while true
        invariant Valid() && inp <= |s| && depth == old(depth)
        invariant result == EvalFrom(lib, s, inp, out, depth, View())
        decreases |s| - inp
      {
        EvalStep(lib, s, inp, out, depth, View());
        var c := CopyMode(s, inp);
        out := out + c.out;
        if c.stat != 1 {
          return c.stat, out;
        }
        AtOpen(s, inp);
        var m := ScanMacro(s, c.at);
        if m.stat <= 0 {
          return m.at, out + [MACROCHAR, '?'];
        }
        MacroArgs(s, c.at);
        var args := SplitArgs(m.out, m.stat);
        var mstat, margs := Value(args, |s|);
        if mstat <= 0 {
          return m.at, out + [MACROCHAR, '?'];
        }
        if |out| + |margs| > STRLIMIT {
          return m.at, out + OverFlow;
        }
        out := out + margs;
        if mstat == DIAGNOSTIC {
          return m.at, out;
        }
        inp := m.at;
      }
    }

    /** macrovalue. */
    method Value(args: seq<string>, ghost n: nat) returns (mstat: int, out: string)
      requires Valid() && depth <= MAXDEPTH && args != [] && Below(args, n)
      modifies this
      ensures Valid() && depth == old(depth)
      ensures Outcome(mstat, out, View()) == MacroValue(lib, args, n, depth, old(View()))
      decreases MAXDEPTH - depth, n, 1
    {
      hide Eval, FunctionValue;
      var stat, name := Diesel(args[0]);
      if stat != 0 {
        return FALSE, "";
      }
      var macname := UpperCase(name);
      if Known(lib, macname) {
        mstat, out := Call(macname, args[1..], n);
        if mstat == FALSE { out := " @(" + macname + ",??) "; }
        if mstat != TRUE { mstat := DIAGNOSTIC; }
      } else {
        mstat, out := DIAGNOSTIC, " @(" + macname + ")?? ";
      }
    }

    /** The function of that name in the table. */
    method Call(name: string, argv: seq<string>, ghost n: nat) returns (mstat: int, out: string)
      requires Valid() && depth <= MAXDEPTH && Below(argv, n)
      modifies this
      ensures Valid() && depth == old(depth)
      ensures Outcome(mstat, out, View()) == FunctionValue(lib, name, argv, n, depth, old(View()))
      decreases MAXDEPTH - depth, n, 0, 2
    {
      hide Equal, EvalAgain, If, GetVar, SetVar, Other;
      if name == "EQ" {
        mstat, out := FEqual(argv, n);
      } else if name == "EVAL" {
        mstat, out := FEval(argv, n);
      } else if name == "IF" {
        mstat, out := FIf(argv, n);
      } else if name == "GETVAR" {
        mstat, out := FGetVar(argv, n);
      } else if name == "SETVAR" {
        mstat, out := FSetVar(argv, n);
      } else if name == "CLEAR" {
        mstat, out := FClear(argv, n);
      } else {
        mstat, out := FOther(name, argv, n);
      }
    }

    method FEqual(argv: seq<string>, ghost n: nat) returns (mstat: int, out: string)
      requires Valid() && depth <= MAXDEPTH && Below(argv, n)
      modifies this
      ensures Valid() && depth == old(depth)
      ensures Outcome(mstat, out, View()) == Equal(lib, argv, n, depth, old(View()))
      decreases MAXDEPTH - depth, n, 0, 0
    {
      hide Eval;
      if |argv| != 2 { return FALSE, ""; }
      var stat, arg1 := Diesel(argv[0]);
      if stat != 0 { return FALSE, ""; }
      var arg2;
      stat, arg2 := Diesel(argv[1]);
      if stat != 0 { return FALSE, ""; }
      return TRUE, if arg1 == arg2 then "1" else "0";
    }

    method FEval(argv: seq<string>, ghost n: nat) returns (mstat: int, out: string)
      requires Valid() && depth <= MAXDEPTH && Below(argv, n)
      modifies this
      ensures Valid() && depth == old(depth)
      ensures Outcome(mstat, out, View()) == EvalAgain(lib, argv, n, depth, old(View()))
      decreases MAXDEPTH - depth, n, 0, 0
    {
      hide Eval;
      if depth >= MAXDEPTH { return FALSE, ""; }
      if |argv| != 1 { return FALSE, ""; }
      var stat, arg := Diesel(argv[0]);
      if stat != 0 { return FALSE, ""; }
      depth := depth + 1;
      stat, out := Diesel(arg);
      depth := depth - 1;
      mstat := if stat == 0 then TRUE else FALSE;
    }

    method FIf(argv: seq<string>, ghost n: nat) returns (mstat: int, out: string)
      requires Valid() && depth <= MAXDEPTH && Below(argv, n)
      modifies this
      ensures Valid() && depth == old(depth)
      ensures Outcome(mstat, out, View()) == If(lib, argv, n, depth, old(View()))
      decreases MAXDEPTH - depth, n, 0, 0
    {
      hide Eval;
      if |argv| < 2 || |argv| > 3 { return FALSE, ""; }
      var stat, earg := Diesel(argv[0]);
      if stat != 0 { return FALSE, ""; }
      var bval := lib.scan(earg);
      if bval.None? { return FALSE, ""; }
      if bval.value != 0 {
        stat, out := Diesel(argv[1]);
      } else if |argv| > 2 {
        stat, out := Diesel(argv[2]);
      } else {
        out := "";
      }
      if stat != 0 { return FALSE, ""; }
      mstat := TRUE;
    }

    /** Freeing the variables is counted here, since the memory itself is not modelled. */
    method FClear(argv: seq<string>, ghost n: nat) returns (mstat: int, out: string)
      requires Valid() && depth <= MAXDEPTH && Below(argv, n)
      modifies this
      ensures Valid() && depth == old(depth)
      ensures Outcome(mstat, out, View()) == Outcome(TRUE, "", Cleared(old(View())))
      decreases MAXDEPTH - depth, n, 0, 0
    {
      hide Frees;
      LastEvent(events, Clear, "");
      varlist, frees, events := [], frees + 1, events + [Clear];
      return TRUE, "";
    }

    method FGetVar(argv: seq<string>, ghost n: nat) returns (mstat: int, out: string)
      requires Valid() && depth <= MAXDEPTH && Below(argv, n)
      modifies this
      ensures Valid() && depth == old(depth)
      ensures Outcome(mstat, out, View()) == GetVar(lib, argv, n, depth, old(View()))
      decreases MAXDEPTH - depth, n, 0, 0
    {
      hide Eval, Lookup, Follows, Older, Frees;
      var vp, era := |varlist|, frees;
      if |argv| != 1 { return FALSE, ""; }
      EvalFollows(lib, argv[0], depth, View());
      var stat, vname := Diesel(argv[0]);
      if stat != 0 { return FALSE, ""; }
      PointerStays(old(View()), View());
      if vp != 0 && frees != era {
        dangling := true;
        return FALSE, "";
      }
      var at := FindVar(vp, vname);
      if at == |varlist| { return FALSE, ""; }
      return TRUE, varlist[at].1;
    }

    method FSetVar(argv: seq<string>, ghost n: nat) returns (mstat: int, out: string)
      requires Valid() && depth <= MAXDEPTH && Below(argv, n)
      modifies this
      ensures Valid() && depth == old(depth)
      ensures Outcome(mstat, out, View()) == SetVar(lib, argv, n, depth, old(View()))
      decreases MAXDEPTH - depth, n, 0, 0
    {
      hide Eval, Lookup, Follows, Older, Frees, Stored;
      var vp, era := |varlist|, frees;
      if |argv| != 2 { return FALSE, ""; }
      EvalFollows(lib, argv[0], depth, View());
      var stat, vname := Diesel(argv[0]);
      if stat != 0 { return FALSE, ""; }
      FollowsFurther(old(View()), View());
      EvalFollows(lib, argv[1], depth, View());
      var vvalue;
      stat, vvalue := Diesel(argv[1]);
      if stat != 0 { return FALSE, ""; }
      PointerStays(old(View()), View());
      if vp != 0 && frees != era {
        dangling := true;
        return FALSE, "";
      }
      var at := FindVar(vp, vname);
      StoredAt(varlist, vp, vname, vvalue, at);
      LastEvent(events, Set(vname, vvalue), "");
      events := events + [Set(vname, vvalue)];
      if at < |varlist| {
        varlist := varlist[at := (vname, vvalue)];
      } else {
        varlist := [(vname, vvalue)] + varlist;
      }
      return TRUE, "";
    }

    /** A function that is not modelled: it has its arguments evaluated one at a time. */
    method FOther(name: string, argv: seq<string>, ghost n: nat) returns (mstat: int, out: string)
      requires Valid() && depth <= MAXDEPTH && Below(argv, n)
      modifies this
      ensures Valid() && depth == old(depth)
      ensures Outcome(mstat, out, View()) == Other(lib, name, argv, [], n, depth, old(View()))
      decreases MAXDEPTH - depth, n, 0, 0
    {
      hide Eval;
      var vals := [];
      while true
        invariant Valid() && |vals| <= |argv| && depth == old(depth)
        invariant Other(lib, name, argv, vals, n, depth, View()) == Other(lib, name, argv, [], n, depth, old(View()))
        decreases |argv| - |vals|
      {
        match lib.step(name, argv, vals)
        case Done(stat, text) => return stat, text;
        case Argument(k) =>
          var stat, val := Diesel(ArgAt(argv, k));
          if stat != 0 || |vals| == |argv| { return FALSE, ""; }
          vals := vals + [val];
      }
    }
  }

  /** What a pointer to the first variable of the chain still is, and whether f_getvar may follow it. */
  lemma PointerStays(v: Vars, w: Vars)
    requires Follows(v, w)
    ensures !Stale(v, w) ==> |v.chain| <= |w.chain|
  {
    if !Stale(v, w) {
      NotStale(v, w);
    }
  }

  /** Changing the variable that was found, or putting a new one in front. */
  lemma StoredAt(v: Chain, had: nat, name: string, value: string, at: nat)
    requires had <= |v| && |v| - had <= at <= |v| && forall j :: |v| - had <= j < at ==> v[j].0 != name
    requires at < |v| ==> v[at].0 == name && Lookup(Older(v, had), name).Some?
    requires at == |v| ==> Lookup(Older(v, had), name) == None
    ensures Stored(v, had, name, value) == if at < |v| then v[at := (name, value)] else [(name, value)] + v
  {
    if at < |v| {
      var o := Older(v, had);
      ChangedAt(o, at - (|v| - had), name, value);
      assert v[..|v| - had] + o[at - (|v| - had) := (name, value)] == v[at := (name, value)];
    }
  }
}
