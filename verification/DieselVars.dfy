/** What evaluation does to the variables of DIESEL (f_getvar and f_setvar of lib/diesel.c). */
module DieselVars {
  import opened Seqs
  import opened Diesel
  import opened DieselLiteral
  import opened DieselCalls

  predicate Named(v: Chain, name: string) {
    exists k :: 0 <= k < |v| && v[k].0 == name
  }

  /** The chain v is still there at the end of w, with the same names in the same places, and
      nothing before it has one of those names. */
  predicate Grows(v: Chain, w: Chain) {
    && |v| <= |w|
    && (forall k :: 0 <= k < |v| ==> w[|w| - |v| + k].0 == v[k].0)
    && (forall k :: 0 <= k < |w| - |v| ==> !Named(v, w[k].0))
  }

  lemma GrowsOn(u: Chain, v: Chain, w: Chain)
    requires Grows(u, v) && Grows(v, w)
    ensures Grows(u, w)
  {
    forall k | 0 <= k < |w| - |u|
      ensures !Named(u, w[k].0)
    {
      if k < |w| - |v| {
        forall j | 0 <= j < |u|
          ensures u[j].0 != w[k].0
        {
          assert v[|v| - |u| + j].0 == u[j].0;
        }
      } else {
        var j := k - (|w| - |v|);
        assert w[|w| - |v| + j].0 == v[j].0;
      }
    }
    forall k | 0 <= k < |u|
      ensures w[|w| - |u| + k].0 == u[k].0
    {
      assert w[|w| - |v| + (|v| - |u| + k)].0 == v[|v| - |u| + k].0;
    }
  }

  lemma {:induction false} LookupNamed(v: Chain, name: string)
    ensures Lookup(v, name).Some? <==> Named(v, name)
  {
    if v != [] {
      LookupNamed(v[1..], name);
      if Named(v[1..], name) {
        var k :| 0 <= k < |v[1..]| && v[1..][k].0 == name;
        assert v[k + 1].0 == name;
      }
      if Named(v, name) && v[0].0 != name {
        var k :| 0 <= k < |v| && v[k].0 == name;
        assert v[1..][k - 1].0 == name;
      }
    }
  }

  /** A name that nothing in front has is looked up behind. */
  lemma {:induction false} LookupBehind(front: Chain, v: Chain, name: string)
    requires !Named(front, name)
    ensures Lookup(front + v, name) == Lookup(v, name)
  {
    if front == [] {
      assert front + v == v;
    } else {
      assert front[0].0 != name;
      forall k | 0 <= k < |front[1..]|
        ensures front[1..][k].0 != name
      {
        assert front[1..][k] == front[k + 1];
      }
      LookupBehind(front[1..], v, name);
      assert (front + v)[1..] == front[1..] + v;
    }
  }

  lemma {:induction false} LookupFront(front: Chain, v: Chain, w: Chain, name: string)
    requires Lookup(v, name) == Lookup(w, name)
    ensures Lookup(front + v, name) == Lookup(front + w, name)
  {
    if front == [] {
      assert front + v == v && front + w == w;
    } else {
      LookupFront(front[1..], v, w, name);
      assert (front + v)[1..] == front[1..] + v && (front + w)[1..] == front[1..] + w;
    }
  }

  lemma {:induction false} ChangedIs(v: Chain, name: string, value: string)
    requires Named(v, name)
    ensures var w := Changed(v, name, value);
            && |w| == |v| && (forall k :: 0 <= k < |v| ==> w[k].0 == v[k].0)
            && Lookup(w, name) == Some(value)
            && forall other :: other != name ==> Lookup(w, other) == Lookup(v, other)
  {
    if v[0].0 == name {
      assert ([(name, value)] + v[1..])[1..] == v[1..];
    } else {
      var k :| 0 <= k < |v| && v[k].0 == name;
      assert v[1..][k - 1].0 == name;
      ChangedIs(v[1..], name, value);
      assert ([v[0]] + Changed(v[1..], name, value))[1..] == Changed(v[1..], name, value);
    }
  }

  lemma OlderNamed(v: Chain, w: Chain, name: string)
    requires Grows(v, w)
    ensures Named(Older(w, |v|), name) <==> Named(v, name)
    ensures |v| <= |w| && Older(w, |v|) == w[|w| - |v|..] && w == w[..|w| - |v|] + Older(w, |v|)
    ensures Named(v, name) ==> !Named(w[..|w| - |v|], name)
  {
    var o := Older(w, |v|);
    assert |o| == |v| && forall k :: 0 <= k < |v| ==> o[k].0 == v[k].0;
  }

  /** Storing keeps the chain of the call, sets that variable and no other. */
  lemma StoredIs(u: Chain, v: Chain, name: string, value: string)
    requires Grows(u, v)
    ensures var w := Stored(v, |u|, name, value);
            && Grows(u, w) && Lookup(w, name) == Some(value)
            && forall other :: other != name ==> Lookup(w, other) == Lookup(v, other)
  {
    hide Grows, Changed, Lookup, Named;
    var o := Older(v, |u|);
    OlderNamed(u, v, name);
    LookupNamed(o, name);
    assert |o| == |u|;
    if Named(o, name) {
      ChangedIs(o, name, value);
      ChangedBehind(u, v, Changed(o, name, value), name);
    } else {
      NewInFront(u, v, name, value);
    }
  }

  lemma NewInFront(u: Chain, v: Chain, name: string, value: string)
    requires Grows(u, v) && !Named(u, name)
    ensures var w := [(name, value)] + v;
            && Grows(u, w) && Lookup(w, name) == Some(value)
            && forall other :: other != name ==> Lookup(w, other) == Lookup(v, other)
  {
    var w := [(name, value)] + v;
    assert w[1..] == v;
  }

  /** A chain c with the names of u behind the newer part of v. */
  lemma ChangedBehind(u: Chain, v: Chain, c: Chain, name: string)
    requires Grows(u, v) && |c| == |u| && (forall k :: 0 <= k < |c| ==> c[k].0 == Older(v, |u|)[k].0)
    requires forall other :: other != name ==> Lookup(c, other) == Lookup(Older(v, |u|), other)
    requires Named(u, name)
    ensures var w := v[..|v| - |u|] + c;
            && Grows(u, w) && Lookup(w, name) == Lookup(c, name)
            && forall other :: other != name ==> Lookup(w, other) == Lookup(v, other)
  {
    hide Lookup;
    var front, o := v[..|v| - |u|], Older(v, |u|);
    OlderNamed(u, v, name);
    LookupBehind(front, c, name);
    forall other | other != name
      ensures Lookup(front + c, other) == Lookup(v, other)
    {
      LookupFront(front, c, o, other);
    }
  }

  // ----- The whole evaluator -----

  /** What was last done to the variable of that name. */
  function Latest(events: seq<Event>, name: string): Option<string> {
    if events == [] then None
    else
      match events[|events| - 1]
      case Clear => None
      case Set(n, value) => if n == name then Some(value) else Latest(events[..|events| - 1], name)
  }

  /** The chain gives every name the value last set since it was cleared, and no other name one. */
  ghost predicate Agrees(v: Vars) {
    forall name :: Lookup(v.chain, name) == Latest(v.events, name)
  }

  /** How the variables may change from v to w. */
  ghost predicate Follows(v: Vars, w: Vars) {
    && v.events <= w.events
    && Frees(v.events) <= Frees(w.events)
    && (v.dangling ==> w.dangling)
    && (Frees(v.events) == Frees(w.events) ==> Grows(v.chain, w.chain))
    && (Agrees(v) ==> Agrees(w))
  }

  lemma FollowsNot(v: Vars)
    ensures Follows(v, v)
  {
  }

  lemma FollowsFurther(u: Vars, v: Vars)
    requires Follows(u, v)
    ensures forall w :: Follows(v, w) ==> Follows(u, w)
  {
    hide Grows, Agrees, Frees;
    forall w | Follows(v, w)
      ensures Follows(u, w)
    {
      if Frees(u.events) == Frees(w.events) {
        GrowsOn(u.chain, v.chain, w.chain);
      }
    }
  }

  lemma LastEvent(events: seq<Event>, e: Event, name: string)
    ensures Frees(events + [e]) == Frees(events) + if e == Clear then 1 else 0
    ensures Latest(events + [e], name)
         == match e case Clear => None case Set(n, value) => if n == name then Some(value) else Latest(events, name)
  {
    assert (events + [e])[..|events|] == events;
  }

  lemma ClearFollows(v: Vars)
    ensures Follows(v, Cleared(v)) && Agrees(Cleared(v))
  {
    forall name
      ensures Lookup(Cleared(v).chain, name) == Latest(Cleared(v).events, name)
    {
      LastEvent(v.events, Clear, name);
    }
    LastEvent(v.events, Clear, "");
  }

  lemma DanglingFollows(v: Vars)
    ensures Follows(v, v.(dangling := true))
  {
    GrowsNot(v.chain);
  }

  lemma GrowsNot(v: Chain)
    ensures Grows(v, v)
  {
  }

  lemma AnyGrows(v: Chain)
    ensures Grows([], v)
  {
  }

  /** A chain that was not freed is still there. */
  lemma NotStale(v: Vars, w: Vars)
    requires Follows(v, w) && !Stale(v, w)
    ensures Grows(v.chain, w.chain)
  {
    hide Grows, Agrees, Frees;
    AnyGrows(w.chain);
  }

  lemma AssignedFollows(u: Vars, v: Vars, name: string, value: string)
    requires Follows(u, v) && !Stale(u, v)
    ensures Follows(u, Assigned(v, |u.chain|, name, value))
  {
    hide Grows, Frees, Stored, Lookup, Latest;
    NotStale(u, v);
    StoredIs(u.chain, v.chain, name, value);
    var w := Assigned(v, |u.chain|, name, value);
    forall other
      ensures Latest(w.events, other) == if other == name then Some(value) else Latest(v.events, other)
    {
      LastEvent(v.events, Set(name, value), other);
    }
    LastEvent(v.events, Set(name, value), name);
  }

  lemma EvalFollows(lib: Library, s: string, depth: nat, vars: Vars)
    requires depth <= MAXDEPTH
    ensures Follows(vars, Eval(lib, s, depth, vars).vars)
    decreases MAXDEPTH - depth, |s|, 2, 0
  {
    EvalFromFollows(lib, s, 0, "", depth, vars);
  }

  lemma EvalFromFollows(lib: Library, s: string, i: nat, out: string, depth: nat, vars: Vars)
    requires depth <= MAXDEPTH && i <= |s|
    ensures Follows(vars, EvalFrom(lib, s, i, out, depth, vars).vars)
    decreases MAXDEPTH - depth, |s|, 1, |s| - i
  {
    hide MacroValue, Follows, CopyFrom, MacroMode, Args;
    FollowsNot(vars);
    var c := CopyFrom(s, i, false, 0);
    if c.stat == 1 {
      AtOpen(s, i);
      var m := MacroMode(s, c.at);
      if m.stat > 0 {
        MacroArgs(s, c.at);
        MacroValueFollows(lib, Args(m.out, m.stat), |s|, depth, vars);
        var v := MacroValue(lib, Args(m.out, m.stat), |s|, depth, vars);
        EvalFromFollows(lib, s, m.at, out + c.out + v.out, depth, v.vars);
        FollowsFurther(vars, v.vars);
      }
    }
  }

  lemma MacroValueFollows(lib: Library, args: seq<string>, n: nat, depth: nat, vars: Vars)
    requires depth <= MAXDEPTH && args != [] && Below(args, n)
    ensures Follows(vars, MacroValue(lib, args, n, depth, vars).vars)
    decreases MAXDEPTH - depth, n, 0, 3
  {
    hide Eval, FunctionValue, Follows;
    EvalFollows(lib, args[0], depth, vars);
    var name := Eval(lib, args[0], depth, vars);
    if name.stat == 0 {
      CallFollows(lib, UpperCase(name.out), args[1..], n, depth, name.vars);
      FollowsFurther(vars, name.vars);
    }
  }

  lemma CallFollows(lib: Library, name: string, argv: seq<string>, n: nat, depth: nat, vars: Vars)
    requires depth <= MAXDEPTH && Below(argv, n)
    ensures Follows(vars, FunctionValue(lib, name, argv, n, depth, vars).vars)
    decreases MAXDEPTH - depth, n, 0, 2
  {
    hide Equal, EvalAgain, If, GetVar, SetVar, Other, Follows, Cleared;
    if name == "EQ" || name == "EVAL" || name == "IF" {
      ReadersFollow(lib, argv, n, depth, vars);
    } else if name == "GETVAR" {
      GetVarFollows(lib, argv, n, depth, vars);
    } else if name == "SETVAR" {
      SetVarFollows(lib, argv, n, depth, vars);
    } else if name == "CLEAR" {
      ClearFollows(vars);
    } else {
      OtherFollows(lib, name, argv, [], n, depth, vars);
    }
  }

  lemma ReadersFollow(lib: Library, argv: seq<string>, n: nat, depth: nat, vars: Vars)
    requires depth <= MAXDEPTH && Below(argv, n)
    ensures Follows(vars, Equal(lib, argv, n, depth, vars).vars)
            && Follows(vars, EvalAgain(lib, argv, n, depth, vars).vars)
    ensures Follows(vars, If(lib, argv, n, depth, vars).vars)
    decreases MAXDEPTH - depth, n, 0, 1
  {
    hide Eval, Follows;
    FollowsNot(vars);
    if argv != [] {
      EvalFollows(lib, argv[0], depth, vars);
      var a := Eval(lib, argv[0], depth, vars);
      FollowsFurther(vars, a.vars);
      if |argv| > 1 { EvalFollows(lib, argv[1], depth, a.vars); }
      if |argv| > 2 { EvalFollows(lib, argv[2], depth, a.vars); }
      if depth < MAXDEPTH { EvalFollows(lib, a.out, depth + 1, a.vars); }
    }
  }

  lemma GetVarFollows(lib: Library, argv: seq<string>, n: nat, depth: nat, vars: Vars)
    requires depth <= MAXDEPTH && Below(argv, n)
    ensures Follows(vars, GetVar(lib, argv, n, depth, vars).vars)
    decreases MAXDEPTH - depth, n, 0, 1
  {
    hide Eval, Follows, Stale, Older;
    FollowsNot(vars);
    if |argv| == 1 {
      EvalFollows(lib, argv[0], depth, vars);
      var a := Eval(lib, argv[0], depth, vars);
      FollowsFurther(vars, a.vars);
      DanglingFollows(a.vars);
    }
  }

  lemma SetVarFollows(lib: Library, argv: seq<string>, n: nat, depth: nat, vars: Vars)
    requires depth <= MAXDEPTH && Below(argv, n)
    ensures Follows(vars, SetVar(lib, argv, n, depth, vars).vars)
    decreases MAXDEPTH - depth, n, 0, 1
  {
    hide Eval, Follows, Assigned, Stale;
    FollowsNot(vars);
    if |argv| == 2 {
      EvalFollows(lib, argv[0], depth, vars);
      var a := Eval(lib, argv[0], depth, vars);
      FollowsFurther(vars, a.vars);
      EvalFollows(lib, argv[1], depth, a.vars);
      var b := Eval(lib, argv[1], depth, a.vars);
      FollowsFurther(vars, b.vars);
      DanglingFollows(b.vars);
      if !Stale(vars, b.vars) {
        AssignedFollows(vars, b.vars, a.out, b.out);
      }
    }
  }

  lemma OtherFollows(lib: Library, name: string, argv: seq<string>, vals: seq<string>, n: nat, depth: nat, vars: Vars)
    requires depth <= MAXDEPTH && Below(argv, n) && |vals| <= |argv|
    ensures Follows(vars, Other(lib, name, argv, vals, n, depth, vars).vars)
    decreases MAXDEPTH - depth, n, 0, 1, |argv| - |vals|
  {
    hide Eval, Follows;
    FollowsNot(vars);
    match lib.step(name, argv, vals)
    case Done(_, _) =>
    case Argument(k) =>
      EvalFollows(lib, ArgAt(argv, k), depth, vars);
      var a := Eval(lib, ArgAt(argv, k), depth, vars);
      if a.stat == 0 && |vals| < |argv| {
        OtherFollows(lib, name, argv, vals + [a.out], n, depth, a.vars);
        FollowsFurther(vars, a.vars);
      }
  }

  /** Whether a CLEAR ran between v and w. */
  predicate ClearedSince(v: Vars, w: Vars)
    requires v.events <= w.events
  {
    Clear in w.events[|v.events|..]
  }

  lemma {:induction false} FreesSince(v: seq<Event>, w: seq<Event>)
    requires v <= w
    ensures Frees(v) <= Frees(w)
    ensures Frees(v) == Frees(w) <==> Clear !in w[|v|..]
    decreases |w|
  {
    if v == w {
      assert w[|v|..] == [];
    } else {
      var n := |w| - 1;
      FreesSince(v, w[..n]);
      assert w[|v|..] == w[..n][|v|..] + [w[n]];
    }
  }

  /** Without a CLEAR no evaluation removes or renames a variable, or puts one in front of another
      of the same name that was there before; with one, what is left is what was set since. */
  lemma EvalGrows(lib: Library, s: string, depth: nat, vars: Vars)
    requires depth <= MAXDEPTH
    ensures var w := Eval(lib, s, depth, vars).vars;
            && vars.events <= w.events
            && (!w.dangling ==>
                  && !vars.dangling
                  && (!ClearedSince(vars, w) ==> Grows(vars.chain, w.chain))
                  && (Agrees(vars) ==> Agrees(w)))
  {
    hide Eval, Grows, Agrees, Frees;
    EvalFollows(lib, s, depth, vars);
    FreesSince(vars.events, Eval(lib, s, depth, vars).vars.events);
  }

  /** The variables after a run of evaluations. */
  function EvalAll(lib: Library, inputs: seq<string>, vars: Vars): Vars {
    if inputs == [] then vars else EvalAll(lib, inputs[1..], Eval(lib, inputs[0], 0, vars).vars)
  }

  /** After any run of evaluations, CLEAR included, a variable has the value that was set last
      since the last CLEAR, or there is none, as long as no freed variable was looked at. */
  lemma {:induction false} RunLatest(lib: Library, inputs: seq<string>, vars: Vars, name: string)
    requires Agrees(vars) && !EvalAll(lib, inputs, vars).dangling
    ensures var w := EvalAll(lib, inputs, vars);
            vars.events <= w.events && Lookup(w.chain, name) == Latest(w.events, name)
    decreases |inputs|
  {
    hide Eval, Frees, Grows, Follows;
    if inputs != [] {
      var v := Eval(lib, inputs[0], 0, vars).vars;
      RunFollows(lib, inputs[1..], v);
      EvalGrows(lib, inputs[0], 0, vars);
      RunLatest(lib, inputs[1..], v, name);
    }
  }

  lemma {:induction false} RunFollows(lib: Library, inputs: seq<string>, vars: Vars)
    ensures vars.dangling ==> EvalAll(lib, inputs, vars).dangling
    decreases |inputs|
  {
    hide Eval, Agrees, Grows, Frees;
    if inputs != [] {
      EvalFollows(lib, inputs[0], 0, vars);
      RunFollows(lib, inputs[1..], Eval(lib, inputs[0], 0, vars).vars);
    }
  }

  /** A string without a macro changes no variable: an argument like that never clears any. */
  lemma NoMacro(lib: Library, s: string, depth: nat, vars: Vars)
    requires depth <= MAXDEPTH && CopyFrom(s, 0, false, 0).stat != 1
    ensures Eval(lib, s, depth, vars).vars == vars && !Stale(vars, Eval(lib, s, depth, vars).vars)
  {
    hide CopyFrom, MacroMode, MacroValue;
  }

  /** A SETVAR whose arguments can be evaluated follows a dangling pointer exactly when they
      cleared variables that were there.  Otherwise its variable has the new value, whatever
      its arguments did to the chain, and no other variable changed since. */
  lemma SetVarSets(lib: Library, argv: seq<string>, n: nat, depth: nat, vars: Vars)
    requires depth <= MAXDEPTH && Below(argv, n) && |argv| == 2
    requires var a := Eval(lib, argv[0], depth, vars); a.stat == 0 && Eval(lib, argv[1], depth, a.vars).stat == 0
    ensures var a := Eval(lib, argv[0], depth, vars); var b := Eval(lib, argv[1], depth, a.vars);
            var r := SetVar(lib, argv, n, depth, vars); var w := r.vars.chain;
            && vars.events <= b.vars.events
            && (r.vars.dangling <==> b.vars.dangling || (vars.chain != [] && ClearedSince(vars, b.vars)))
            && (!r.vars.dangling ==>
                  && r.stat == TRUE && r.out == "" && Lookup(w, a.out) == Some(b.out)
                  && forall other :: other != a.out ==> Lookup(w, other) == Lookup(b.vars.chain, other))
  {
    hide Eval, Follows, Stored, Grows, Frees, Lookup;
    var a := Eval(lib, argv[0], depth, vars);
    var b := Eval(lib, argv[1], depth, a.vars);
    EvalFollows(lib, argv[0], depth, vars);
    EvalFollows(lib, argv[1], depth, a.vars);
    FollowsFurther(vars, a.vars);
    FollowsEvents(vars, b.vars);
    if !Stale(vars, b.vars) {
      NotStale(vars, b.vars);
      StoredIs(vars.chain, b.vars.chain, a.out, b.out);
    }
  }

  lemma FollowsEvents(v: Vars, w: Vars)
    requires Follows(v, w)
    ensures v.events <= w.events && (v.dangling ==> w.dangling)
    ensures Stale(v, w) <==> v.chain != [] && ClearedSince(v, w)
  {
    hide Grows, Agrees, Frees;
    FreesSince(v.events, w.events);
  }

  /** GETVAR follows a dangling pointer exactly when its argument cleared variables that were
      there.  Otherwise it gives the value its variable has now, exactly when the variable was
      there before the argument was evaluated. */
  lemma GetVarGets(lib: Library, argv: seq<string>, n: nat, depth: nat, vars: Vars)
    requires depth <= MAXDEPTH && Below(argv, n) && |argv| == 1 && Eval(lib, argv[0], depth, vars).stat == 0
    ensures var a := Eval(lib, argv[0], depth, vars); var r := GetVar(lib, argv, n, depth, vars);
            && vars.events <= a.vars.events
            && (r.vars.dangling <==> a.vars.dangling || (vars.chain != [] && ClearedSince(vars, a.vars)))
            && (!r.vars.dangling ==>
                  && r.vars == a.vars
                  && (r.stat == TRUE <==> Named(vars.chain, a.out))
                  && (r.stat == TRUE ==> Some(r.out) == Lookup(a.vars.chain, a.out)))
  {
    hide Eval, Follows, Grows, Frees;
    var a := Eval(lib, argv[0], depth, vars);
    EvalFollows(lib, argv[0], depth, vars);
    FollowsEvents(vars, a.vars);
    if !Stale(vars, a.vars) {
      NotStale(vars, a.vars);
      GetOlder(vars.chain, a.vars.chain, a.out);
    }
  }

  lemma GetOlder(v: Chain, w: Chain, name: string)
    requires Grows(v, w)
    ensures Lookup(Older(w, |v|), name).Some? <==> Named(v, name)
    ensures Named(v, name) ==> Lookup(Older(w, |v|), name) == Lookup(w, name)
  {
    OlderNamed(v, w, name);
    LookupNamed(Older(w, |v|), name);
    if Named(v, name) {
      LookupBehind(w[..|w| - |v|], Older(w, |v|), name);
    }
  }

  // ----- Whole macros -----

  /** The functions for variables are called by name. */
  lemma CalledByName(lib: Library, argv: seq<string>, n: nat, depth: nat, vars: Vars)
    requires depth <= MAXDEPTH && Below(argv, n)
    ensures FunctionValue(lib, "SETVAR", argv, n, depth, vars) == SetVar(lib, argv, n, depth, vars)
    ensures FunctionValue(lib, "GETVAR", argv, n, depth, vars) == GetVar(lib, argv, n, depth, vars)
    ensures FunctionValue(lib, "CLEAR", argv, n, depth, vars) == Outcome(TRUE, "", Cleared(vars))
  {
    hide SetVar, GetVar, Equal, EvalAgain, If, Other, Cleared;
  }

  /** The whole of MacroClear: no variable is left. */
  lemma ClearsAll(lib: Library, depth: nat, vars: Vars)
    requires depth <= MAXDEPTH
    ensures Eval(lib, "@(CLEAR)", depth, vars) == Outcome(0, "", Vars([], vars.events + [Clear], vars.dangling))
  {
    assert "@(CLEAR)" == CallOf("CLEAR", []);
    UpperStays("CLEAR");
    hide Eval, FunctionValue, UpperCase, CallOf;
    CallValue(lib, "CLEAR", [], depth, vars);
    CalledByName(lib, [], |CallOf("CLEAR", [])|, depth, vars);
  }

  /** A GETVAR whose argument clears the variables: when there were any, it goes on to look at
      memory that is freed. */
  lemma GetOfClearDangles(lib: Library, depth: nat, vars: Vars)
    requires depth <= MAXDEPTH && vars.chain != []
    ensures Eval(lib, "@(GETVAR,\"@(CLEAR)\")", depth, vars).vars.dangling
  {
    hide Eval, FunctionValue, CallOf, GetVar;
    QuotedClear();
    GetCalls(lib, "@(CLEAR)", depth, vars);
    GetDangles(lib, |CallOf("GETVAR", ["@(CLEAR)"])|, depth, vars);
  }

  /** A GETVAR of a quoted text. */
  lemma GetCalls(lib: Library, t: string, depth: nat, vars: Vars)
    requires EOS !in t && depth <= MAXDEPTH && 7 + |t| <= STRLIMIT
    ensures var s := CallOf("GETVAR", [t]);
            && Below([t], |s|)
            && var f := GetVar(lib, [t], |s|, depth, vars); var r := Eval(lib, s, depth, vars);
               && r.vars == f.vars
               && (f.stat == TRUE && |f.out| <= STRLIMIT ==> r == Outcome(0, f.out, f.vars))
  {
    hide Eval, FunctionValue, UpperCase, CallOf, GetVar, Total;
    OneTotal([t]);
    UpperStays("GETVAR");
    CallValue(lib, "GETVAR", [t], depth, vars);
    CalledByName(lib, [t], |CallOf("GETVAR", [t])|, depth, vars);
  }

  lemma GetDangles(lib: Library, n: nat, depth: nat, vars: Vars)
    requires depth <= MAXDEPTH && vars.chain != [] && Below(["@(CLEAR)"], n)
    ensures GetVar(lib, ["@(CLEAR)"], n, depth, vars).vars.dangling
  {
    hide Eval, GetVar;
    ClearsAll(lib, depth, vars);
    GetVarGets(lib, ["@(CLEAR)"], n, depth, vars);
    assert (vars.events + [Clear])[|vars.events|..] == [Clear];
  }

  lemma QuotedClear()
    ensures CallOf("GETVAR", ["@(CLEAR)"]) == "@(GETVAR,\"@(CLEAR)\")"
  {
    hide Doubled;
    var xs := ["@(CLEAR)"];
    NoQuotes(xs[0]);
    var rest := xs[1..];
    assert rest == [] && CallRest(rest) == ")";
  }

  lemma {:induction false} NoQuotes(t: string)
    requires QUOTE !in t
    ensures Doubled(t) == t
  {
    if t != "" {
      NoQuotes(t[1..]);
      assert t == [t[0]] + t[1..];
    }
  }

  /** Setting a variable to any text and getting it back gives the text, and the chain is not
      changed by getting. */
  lemma SetThenGet(lib: Library, name: string, value: string, depth: nat, vars: Vars)
    requires EOS !in name && EOS !in value && depth <= MAXDEPTH
    requires 8 + |Quoted(name)| + |Quoted(value)| <= STRLIMIT
    ensures var set_ := Eval(lib, CallOf("SETVAR", [Quoted(name), Quoted(value)]), depth, vars);
            var get := Eval(lib, CallOf("GETVAR", [Quoted(name)]), depth, set_.vars);
            && set_.stat == 0 && set_.out == "" && set_.vars.dangling == vars.dangling
            && set_.vars.events == vars.events + [Set(name, value)]
            && get == Outcome(0, value, set_.vars)
            && forall other :: other != name ==> Lookup(set_.vars.chain, other) == Lookup(vars.chain, other)
  {
    hide Eval, Stored, Lookup, CallOf, Quoted;
    NoEosInQuoted(name);
    NoEosInQuoted(value);
    SetQuoted(lib, name, value, depth, vars);
    GrowsNot(vars.chain);
    StoredIs(vars.chain, vars.chain, name, value);
    GetQuoted(lib, name, depth, Assigned(vars, |vars.chain|, name, value));
  }

  lemma SetQuoted(lib: Library, name: string, value: string, depth: nat, vars: Vars)
    requires EOS !in name && EOS !in value && depth <= MAXDEPTH
    requires 8 + |Quoted(name)| + |Quoted(value)| <= STRLIMIT
    ensures Eval(lib, CallOf("SETVAR", [Quoted(name), Quoted(value)]), depth, vars)
         == Outcome(0, "", Assigned(vars, |vars.chain|, name, value))
  {
    hide Eval, Quoted, CallOf, FunctionValue, UpperCase, SetVar, Assigned, Total;
    var xs := [Quoted(name), Quoted(value)];
    NoEosInQuoted(name);
    NoEosInQuoted(value);
    TwoTotal(xs);
    UpperStays("SETVAR");
    CallValue(lib, "SETVAR", xs, depth, vars);
    var n := |CallOf("SETVAR", xs)|;
    CalledByName(lib, xs, n, depth, vars);
    SetVarQuoted(lib, name, value, n, depth, vars);
  }

  lemma SetVarQuoted(lib: Library, name: string, value: string, n: nat, depth: nat, vars: Vars)
    requires EOS !in name && EOS !in value && depth <= MAXDEPTH && |Quoted(name)| + |Quoted(value)| <= STRLIMIT
    requires Below([Quoted(name), Quoted(value)], n)
    ensures SetVar(lib, [Quoted(name), Quoted(value)], n, depth, vars)
         == Outcome(TRUE, "", Assigned(vars, |vars.chain|, name, value))
  {
    NoEosInQuoted(name);
    NoEosInQuoted(value);
    LiteralExactly(lib, name, depth, vars);
    LiteralExactly(lib, value, depth, vars);
    hide Eval, Quoted, Assigned;
  }

  lemma GetQuoted(lib: Library, name: string, depth: nat, vars: Vars)
    requires EOS !in name && depth <= MAXDEPTH && 7 + |Quoted(name)| <= STRLIMIT
    requires Lookup(vars.chain, name).Some? && |Lookup(vars.chain, name).value| <= STRLIMIT
    ensures Eval(lib, CallOf("GETVAR", [Quoted(name)]), depth, vars) == Outcome(0, Lookup(vars.chain, name).value, vars)
  {
    hide Eval, Quoted, CallOf, GetVar;
    NoEosInQuoted(name);
    GetCalls(lib, Quoted(name), depth, vars);
    GetVarQuoted(lib, name, |CallOf("GETVAR", [Quoted(name)])|, depth, vars);
  }

  lemma GetVarQuoted(lib: Library, name: string, n: nat, depth: nat, vars: Vars)
    requires EOS !in name && depth <= MAXDEPTH && |Quoted(name)| <= STRLIMIT && Lookup(vars.chain, name).Some?
    requires Below([Quoted(name)], n)
    ensures GetVar(lib, [Quoted(name)], n, depth, vars) == Outcome(TRUE, Lookup(vars.chain, name).value, vars)
  {
    NoEosInQuoted(name);
    LiteralExactly(lib, name, depth, vars);
    assert Older(vars.chain, |vars.chain|) == vars.chain;
    hide Eval, Quoted;
  }
}
