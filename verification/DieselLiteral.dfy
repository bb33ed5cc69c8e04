/** What quoting guarantees in DIESEL: literal text passes through evaluation, and through the
    arguments of a macro, unchanged (lib/diesel.c). */
module DieselLiteral {
  import opened Seqs
  import opened Diesel

  function Doubled(t: string): string {
    if t == "" then "" else (if t[0] == QUOTE then [QUOTE, QUOTE] else [t[0]]) + Doubled(t[1..])
  }

  /** The text as a quoted string. */
  function Quoted(t: string): string {
    [QUOTE] + Doubled(t) + [QUOTE]
  }

  /** From position i on, s has the quoted text t and its closing quote, with no other quote
      behind that. */
  predicate QuotedAt(s: string, i: nat, t: string)
    decreases |t|
  {
    if t == "" then Ch(s, i) == QUOTE && Ch(s, i + 1) != QUOTE
    else
      && Ch(s, i) == t[0] != EOS
      && (t[0] == QUOTE ==> Ch(s, i + 1) == QUOTE)
      && QuotedAt(s, i + Width(t[0]), t[1..])
  }

  function Width(c: char): nat {
    if c == QUOTE then 2 else 1
  }

  lemma DoubledWidth(t: string)
    ensures |Doubled(t)| == if t == "" then 0 else Width(t[0]) + |Doubled(t[1..])|
  {
  }

  lemma {:induction false} QuotedHere(pre: string, t: string, post: string)
    requires EOS !in t && (post == "" || post[0] != QUOTE)
    ensures QuotedAt(pre + Doubled(t) + [QUOTE] + post, |pre|, t)
    decreases |t|
  {
    var s := pre + Doubled(t) + [QUOTE] + post;
    if t == "" {
      assert Doubled(t) == "";
    } else {
      var c := if t[0] == QUOTE then [QUOTE, QUOTE] else [t[0]];
      assert Doubled(t) == c + Doubled(t[1..]);
      assert s == (pre + c) + Doubled(t[1..]) + [QUOTE] + post;
      QuotedHere(pre + c, t[1..], post);
    }
  }

  lemma QuotedInside(s: string, i: nat, t: string)
    requires QuotedAt(s, i, t)
    ensures i < i + |Doubled(t)| + 1 <= |s|
    decreases |t|
  {
    DoubledWidth(t);
    if t != "" {
      QuotedInside(s, i + Width(t[0]), t[1..]);
    }
  }

  lemma CutStep(t: string, k: nat)
    requires k < |t|
    ensures [t[0]] + (t[1..][..k] + OverFlow) == t[..k + 1] + OverFlow
  {
    assert t[..k + 1] == [t[0]] + t[1..][..k];
  }

  /** One character of the text is copied. */
  lemma CopyOne(s: string, i: nat, t: string, n: nat)
    requires QuotedAt(s, i, t) && t != "" && i + Width(t[0]) <= |s| && n <= STRLIMIT
    ensures QuotedAt(s, i + Width(t[0]), t[1..])
    ensures n + 1 <= STRLIMIT ==> CopyFrom(s, i, true, n) == Emit([t[0]], CopyFrom(s, i + Width(t[0]), true, n + 1))
    ensures n + 1 > STRLIMIT ==> CopyFrom(s, i, true, n).stat == 0 && CopyFrom(s, i, true, n).out == [t[0]] + OverFlow
  {
  }

  /** Copying a quoted text writes the text, and goes on behind it, as long as it fits. */
  lemma {:induction false} CopyQuoted(s: string, i: nat, t: string, n: nat)
    requires QuotedAt(s, i, t) && i + |Doubled(t)| < |s| && n <= STRLIMIT
    ensures n + |t| <= STRLIMIT ==>
              CopyFrom(s, i, true, n) == Emit(t, CopyFrom(s, i + |Doubled(t)| + 1, false, n + |t|))
    ensures n + |t| > STRLIMIT ==>
              CopyFrom(s, i, true, n).stat == 0 && CopyFrom(s, i, true, n).out == t[..STRLIMIT + 1 - n] + OverFlow
    decreases |t|
  {
    DoubledWidth(t);
    if t != "" {
      hide Doubled, CopyFrom, Emit, QuotedAt, Width;
      var next := i + Width(t[0]);
      CopyOne(s, i, t, n);
      if n + 1 <= STRLIMIT {
        CopyQuoted(s, next, t[1..], n + 1);
        assert t == [t[0]] + t[1..];
        if n + |t| <= STRLIMIT {
          EmitTwice([t[0]], t[1..], CopyFrom(s, i + |Doubled(t)| + 1, false, n + |t|));
        } else {
          EmitIs([t[0]], CopyFrom(s, next, true, n + 1));
          CutStep(t, STRLIMIT - n);
        }
      } else {
        assert t[..1] == [t[0]];
      }
    } else {
      EmitNone(CopyFrom(s, i + 1, false, n));
    }
  }

  lemma ScanOne(s: string, i: nat, t: string, depth: nat, nargs: nat, n: nat)
    requires QuotedAt(s, i, t) && t != "" && i + Width(t[0]) <= |s| && n <= STRLIMIT
    ensures n + 1 <= STRLIMIT ==>
              ArgsFrom(s, i, true, depth, nargs, n)
                == Emit([t[0]], ArgsFrom(s, i + Width(t[0]), true, depth, nargs, n + 1))
    ensures n + 1 > STRLIMIT ==> ArgsFrom(s, i, true, depth, nargs, n).stat == -1
  {
  }

  /** Scanning a quoted argument does the same. */
  lemma {:induction false} ScanQuoted(s: string, i: nat, t: string, depth: nat, nargs: nat, n: nat)
    requires QuotedAt(s, i, t) && i + |Doubled(t)| < |s| && n <= STRLIMIT
    ensures n + |t| <= STRLIMIT ==>
              ArgsFrom(s, i, true, depth, nargs, n)
                == Emit(t, ArgsFrom(s, i + |Doubled(t)| + 1, false, depth, nargs, n + |t|))
    ensures n + |t| > STRLIMIT ==> ArgsFrom(s, i, true, depth, nargs, n).stat == -1
    decreases |t|
  {
    DoubledWidth(t);
    if t != "" {
      hide Doubled, ArgsFrom, Emit;
      ScanOne(s, i, t, depth, nargs, n);
      if n + 1 <= STRLIMIT {
        ScanQuoted(s, i + Width(t[0]), t[1..], depth, nargs, n + 1);
        assert t == [t[0]] + t[1..];
        if n + |t| <= STRLIMIT {
          EmitTwice([t[0]], t[1..], ArgsFrom(s, i + |Doubled(t)| + 1, false, depth, nargs, n + |t|));
        }
      }
    } else {
      EmitNone(ArgsFrom(s, i + 1, false, depth, nargs, n));
    }
  }

  lemma QuotedWhole(t: string)
    requires EOS !in t
    ensures QuotedAt(Quoted(t), 1, t) && |Quoted(t)| == |Doubled(t)| + 2
    ensures Ch(Quoted(t), 0) == QUOTE
  {
    QuotedHere([QUOTE], t, "");
    assert Quoted(t) == [QUOTE] + Doubled(t) + [QUOTE] + "";
  }

  /** Any text quoted once evaluates to itself, quotes, commas, brackets and macros in it
      included; past the length limit it is cut and marked. */
  lemma LiteralExactly(lib: Library, t: string, depth: nat, vars: Vars)
    requires EOS !in t && depth <= MAXDEPTH
    ensures Eval(lib, Quoted(t), depth, vars)
         == Outcome(0, if |t| <= STRLIMIT then t else t[..STRLIMIT + 1] + OverFlow, vars)
  {
    var s := Quoted(t);
    QuotedWhole(t);
    CopyQuoted(s, 1, t, 0);
    hide Quoted, Doubled, QuotedAt;
    assert CopyFrom(s, 0, false, 0) == CopyFrom(s, 1, true, 0);
    assert CopyFrom(s, |s|, false, |t|) == Scan(0, |s|, "");
    assert t + "" == t && "" + t == t;
    if |t| > STRLIMIT {
      assert "" + (t[..STRLIMIT + 1] + OverFlow) == t[..STRLIMIT + 1] + OverFlow;
    }
  }

  // ----- Arguments -----

  /** The rest of a macro whose remaining arguments are these texts, each quoted. */
  function CallRest(xs: seq<string>): string {
    if xs == [] then [ARGCLOSE] else [ARGSEP] + Quoted(xs[0]) + CallRest(xs[1..])
  }

  /** What the scan writes for them. */
  function Joined(xs: seq<string>): string {
    if xs == [] then [EOS] else [EOS] + xs[0] + Joined(xs[1..])
  }

  function Total(xs: seq<string>): nat {
    if xs == [] then 0 else 1 + |xs[0]| + Total(xs[1..])
  }

  predicate Literal(xs: seq<string>) {
    forall k :: 0 <= k < |xs| ==> EOS !in xs[k]
  }

  /** From position i on, s has those arguments and the closing bracket. */
  predicate CallAt(s: string, i: nat, xs: seq<string>)
    decreases |xs|
  {
    if xs == [] then Ch(s, i) == ARGCLOSE
    else
      && Ch(s, i) == ARGSEP && Ch(s, i + 1) == QUOTE && QuotedAt(s, i + 2, xs[0])
      && CallAt(s, i + 3 + |Doubled(xs[0])|, xs[1..])
  }

  lemma {:induction false} CallHere(pre: string, xs: seq<string>, post: string)
    requires Literal(xs)
    ensures CallAt(pre + CallRest(xs) + post, |pre|, xs)
    decreases |xs|
  {
    var s := pre + CallRest(xs) + post;
    if xs != [] {
      var d, more := Doubled(xs[0]), CallRest(xs[1..]);
      var head := pre + [ARGSEP, QUOTE];
      assert s == head + d + [QUOTE] + (more + post);
      QuotedHere(head, xs[0], more + post);
      var pre' := head + d + [QUOTE];
      assert s == pre' + more + post && |pre'| == |pre| + 3 + |d|;
      CallHere(pre', xs[1..], post);
      assert s[|pre|] == ARGSEP && s[|pre| + 1] == QUOTE;
    }
  }

  lemma CallParts(s: string, i: nat, xs: seq<string>)
    requires CallAt(s, i, xs)
    ensures i < |s| && (xs == [] ==> s[i] == ARGCLOSE && |CallRest(xs)| == 1)
    ensures xs != [] ==>
              var next := i + 3 + |Doubled(xs[0])|;
              && next < |s| && s[i] == ARGSEP && s[i + 1] == QUOTE
              && QuotedAt(s, i + 2, xs[0]) && CallAt(s, next, xs[1..])
              && |CallRest(xs)| == 3 + |Doubled(xs[0])| + |CallRest(xs[1..])|
  {
    if xs != [] {
      QuotedInside(s, i + 2, xs[0]);
      var next := i + 3 + |Doubled(xs[0])|;
      assert CallAt(s, next, xs[1..]);
    }
  }

  /** A separator and the quote behind it. */
  lemma ScanSep(s: string, i: nat, nargs: nat, n: nat)
    requires i + 2 <= |s| && s[i] == ARGSEP && s[i + 1] == QUOTE
    ensures if nargs < MAXARGS - 1 && n + 1 <= STRLIMIT
            then ArgsFrom(s, i, false, 0, nargs, n) == Emit([EOS], ArgsFrom(s, i + 2, true, 0, nargs + 1, n + 1))
            else ArgsFrom(s, i, false, 0, nargs, n).stat == -1
  {
  }

  lemma ScanClose(s: string, i: nat, nargs: nat, n: nat)
    requires i < |s| && s[i] == ARGCLOSE
    ensures ArgsFrom(s, i, false, 0, nargs, n) == Scan(nargs + 1, i + 1, [EOS])
  {
  }

  /** The scan hands over exactly the texts when they fit in number and length, and fails when
      they do not. */
  lemma {:induction false} ScanCall(s: string, i: nat, xs: seq<string>, nargs: nat, n: nat)
    requires i <= |s| && CallAt(s, i, xs) && n <= STRLIMIT && nargs < MAXARGS
    ensures var r := ArgsFrom(s, i, false, 0, nargs, n);
            if n + Total(xs) <= STRLIMIT && nargs + |xs| < MAXARGS
            then r == Scan(nargs + |xs| + 1, i + |CallRest(xs)|, Joined(xs))
            else r.stat == -1
    decreases |xs|
  {
    hide Doubled, QuotedAt, ArgsFrom, Emit, CallAt, Ch, Quoted, End, CallRest;
    CallParts(s, i, xs);
    if xs == [] {
      ScanClose(s, i, nargs, n);
    } else {
      ScanSep(s, i, nargs, n);
    }
    if xs != [] && nargs < MAXARGS - 1 && n + 1 <= STRLIMIT {
      var next := i + 3 + |Doubled(xs[0])|;
      ScanQuoted(s, i + 2, xs[0], 0, nargs + 1, n + 1);
      EmitIs([EOS], ArgsFrom(s, i + 2, true, 0, nargs + 1, n + 1));
      if n + 1 + |xs[0]| <= STRLIMIT {
        ScanCall(s, next, xs[1..], nargs + 1, n + 1 + |xs[0]|);
        EmitTwice([EOS], xs[0], ArgsFrom(s, next, false, 0, nargs + 1, n + 1 + |xs[0]|));
        EmitIs([EOS] + xs[0], ArgsFrom(s, next, false, 0, nargs + 1, n + 1 + |xs[0]|));
      }
    }
  }

  /** Taking the written strings apart again. */
  lemma {:induction false} ArgsJoined(first: string, xs: seq<string>)
    requires EOS !in first && Literal(xs)
    ensures CountEos(first + Joined(xs)) == |xs| + 1
    ensures Args(first + Joined(xs), |xs| + 1) == [first] + xs
    decreases |xs|
  {
    hide End, CountEos, Args;
    FirstPart(first, Joined(xs));
    if xs == [] {
      NoEos();
      ArgsStep(first, Joined(xs), 1);
      assert Joined(xs)[1..] == "";
      NoArgs("");
    } else {
      ArgsJoined(xs[0], xs[1..]);
      assert Joined(xs)[1..] == xs[0] + Joined(xs[1..]);
      ArgsStep(first, Joined(xs), |xs| + 1);
      assert [xs[0]] + xs[1..] == xs;
    }
  }

  lemma NoEos()
    ensures CountEos("") == 0
  {
  }

  lemma NoArgs(t: string)
    ensures Args(t, 0) == []
  {
  }

  lemma ArgsStep(first: string, rest: string, n: nat)
    requires EOS !in first && rest != "" && rest[0] == EOS && 0 < n <= CountEos(first + rest)
    ensures n - 1 <= CountEos(rest[1..]) && Args(first + rest, n) == [first] + Args(rest[1..], n - 1)
  {
    hide End, CountEos;
    FirstPart(first, rest);
  }

  lemma {:induction false} FirstPart(first: string, rest: string)
    requires EOS !in first && rest != "" && rest[0] == EOS
    ensures var t := first + rest;
            End(t, 0) == |first| && t[..|first|] == first && t[|first| + 1..] == rest[1..]
            && CountEos(t) == 1 + CountEos(rest[1..])
    decreases |first|
  {
    var t := first + rest;
    if first == "" {
      assert t == rest;
    } else {
      FirstPart(first[1..], rest);
      assert t[1..] == first[1..] + rest;
      EndShift(t, 0);
    }
  }

  // ----- Whole macros -----

  /** A macro whose arguments are these texts, each quoted. */
  function CallOf(name: string, xs: seq<string>): string {
    [MACROCHAR, ARGOPEN] + name + CallRest(xs)
  }

  /** Plain letters, which stand for themselves. */
  predicate Plain(name: string) {
    forall k :: 0 <= k < |name| ==> name[k] !in {EOS, QUOTE, MACROCHAR, ARGOPEN, ARGCLOSE, ARGSEP}
  }

  lemma {:induction false} ScanPlain(s: string, i: nat, name: string, n: nat)
    requires Plain(name) && i + |name| <= |s| && s[i..i + |name|] == name && n + |name| <= STRLIMIT
    ensures ArgsFrom(s, i, false, 0, 0, n) == Emit(name, ArgsFrom(s, i + |name|, false, 0, 0, n + |name|))
    decreases |name|
  {
    hide Emit, ArgsFrom;
    if name == "" {
      EmitNone(ArgsFrom(s, i, false, 0, 0, n));
    } else {
      assert s[i] == s[i..i + |name|][0] == name[0];
      assert s[i + 1..i + 1 + |name[1..]|] == s[i..i + |name|][1..];
      ScanPlainOne(s, i, n);
      ScanPlain(s, i + 1, name[1..], n + 1);
      assert name == [name[0]] + name[1..];
      EmitTwice([name[0]], name[1..], ArgsFrom(s, i + |name|, false, 0, 0, n + |name|));
    }
  }

  lemma ScanPlainOne(s: string, i: nat, n: nat)
    requires i < |s| && s[i] !in {EOS, QUOTE, MACROCHAR, ARGOPEN, ARGCLOSE, ARGSEP} && n + 1 <= STRLIMIT
    ensures ArgsFrom(s, i, false, 0, 0, n) == Emit([s[i]], ArgsFrom(s, i + 1, false, 0, 0, n + 1))
  {
  }

  lemma {:induction false} CopyPlain(name: string, i: nat)
    requires Plain(name) && i <= |name| <= STRLIMIT
    ensures CopyFrom(name, i, false, i) == Scan(0, |name|, name[i..])
    decreases |name| - i
  {
    if i < |name| {
      CopyPlain(name, i + 1);
      assert name[i..] == [name[i]] + name[i + 1..];
    }
  }

  lemma ScanOfCall(pre: string, name: string, xs: seq<string>, post: string)
    requires Plain(name) && Literal(xs) && |name| <= STRLIMIT
    ensures var s := pre + CallOf(name, xs) + post; var i := |pre|;
            && |s| >= i + 2 && s[i] == MACROCHAR && s[i + 1] == ARGOPEN
            && MacroMode(s, i + 1).at > 0
            && if |name| + Total(xs) <= STRLIMIT && |xs| < MAXARGS
               then MacroMode(s, i + 1) == Scan(|xs| + 1, i + |CallOf(name, xs)|, name + Joined(xs))
               else MacroMode(s, i + 1).stat == -1
  {
    hide ArgsFrom, CallAt, CallRest, Emit, Joined, Total, Plain, Literal;
    var s := pre + CallOf(name, xs) + post;
    var head := pre + [MACROCHAR, ARGOPEN] + name;
    assert s == head + CallRest(xs) + post;
    CallHere(head, xs, post);
    var i := |pre| + 2;
    assert s[i..i + |name|] == name;
    CallParts(s, |head|, xs);
    ScanPlain(s, i, name, 0);
    ScanCall(s, |head|, xs, 0, |name|);
    EmitIs(name, ArgsFrom(s, |head|, false, 0, 0, |name|));
  }

  /** A macro with quoted arguments, wherever it stands: macromode hands over its name and exactly
      the texts when they fit, and fails when they do not. */
  lemma ArgumentsAt(pre: string, name: string, xs: seq<string>, post: string)
    requires Plain(name) && Literal(xs) && |name| <= STRLIMIT
    ensures var s := pre + CallOf(name, xs) + post; var i := |pre|;
            && |s| >= i + 2 && s[i] == MACROCHAR && s[i + 1] == ARGOPEN
            && var r := MacroMode(s, i + 1);
               if |name| + Total(xs) <= STRLIMIT && |xs| < MAXARGS
               then r.stat == |xs| + 1 && r.at == i + |CallOf(name, xs)| && CountEos(r.out) == r.stat
                    && Args(r.out, r.stat) == [name] + xs
               else r.stat == -1 && r.at > 0
  {
    assert EOS !in name;
    hide Args, CountEos, CopyFrom, Joined, Total, MacroMode, CallOf;
    ScanOfCall(pre, name, xs, post);
    ArgsJoined(name, xs);
  }

  /** The same for a string that is that macro alone. */
  lemma LiteralArguments(name: string, xs: seq<string>)
    requires Plain(name) && Literal(xs) && |name| <= STRLIMIT
    ensures var s := CallOf(name, xs); var r := MacroMode(s, 1);
            && CopyFrom(s, 0, false, 0) == Scan(1, 1, "")
            && if |name| + Total(xs) <= STRLIMIT && |xs| < MAXARGS
               then r.stat == |xs| + 1 && r.at == |s| && CountEos(r.out) == r.stat && Args(r.out, r.stat) == [name] + xs
               else r.stat == -1 && r.at > 0
  {
    hide Args, CountEos, CopyFrom, Total, MacroMode, CallOf, Plain, Literal;
    ArgumentsAt("", name, xs, "");
    assert "" + CallOf(name, xs) + "" == CallOf(name, xs);
    CopyOpen(CallOf(name, xs));
  }

  lemma CopyOpen(s: string)
    requires |s| >= 2 && s[0] == MACROCHAR && s[1] == ARGOPEN
    ensures CopyFrom(s, 0, false, 0) == Scan(1, 1, "")
  {
  }

  lemma PlainEval(lib: Library, name: string, depth: nat, vars: Vars)
    requires Plain(name) && |name| <= STRLIMIT && depth <= MAXDEPTH
    ensures Eval(lib, name, depth, vars) == Outcome(0, name, vars)
  {
    CopyPlain(name, 0);
    assert name[0..] == name && "" + name == name;
    hide CopyFrom;
  }

  /** @(EQ,..) of two doubly quoted texts, whatever is in them: 1 when they are equal and 0 when
      they are not, exactly as long as the macro fits in the scanner's buffer. */
  lemma EqualExactly(lib: Library, a: string, b: string, depth: nat, vars: Vars)
    requires EOS !in a && EOS !in b && depth <= MAXDEPTH
    ensures var r := Eval(lib, CallOf("EQ", [Quoted(a), Quoted(b)]), depth, vars);
            if 4 + |Quoted(a)| + |Quoted(b)| <= STRLIMIT
            then r == Outcome(0, if a == b then "1" else "0", vars)
            else r.stat > 0
  {
    hide Eval, MacroMode, Quoted, CallOf, CopyFrom, MacroValue, Total, Args, CountEos;
    var xs := [Quoted(a), Quoted(b)];
    var s := CallOf("EQ", xs);
    NoEosInQuoted(a);
    NoEosInQuoted(b);
    CallLong("EQ", xs);
    LiteralArguments("EQ", xs);
    TwoTotal(xs);
    WholeCall(lib, s, depth, vars);
    if 4 + |Quoted(a)| + |Quoted(b)| <= STRLIMIT {
      assert ["EQ"] + xs == ["EQ", Quoted(a), Quoted(b)];
      EqualValue(lib, a, b, |s|, depth, vars);
    }
  }

  /** A string that is one macro. */
  lemma WholeCall(lib: Library, s: string, depth: nat, vars: Vars)
    requires depth <= MAXDEPTH && |s| >= 2 && CopyFrom(s, 0, false, 0) == Scan(1, 1, "")
    ensures var m := MacroMode(s, 1);
            if m.stat <= 0 then Eval(lib, s, depth, vars).stat == m.at
            else
              && m.stat <= CountEos(m.out) && Below(Args(m.out, m.stat), |s|)
              && var v := MacroValue(lib, Args(m.out, m.stat), |s|, depth, vars);
                 m.at == |s| && v.stat == TRUE && |v.out| <= STRLIMIT ==>
                   Eval(lib, s, depth, vars) == Outcome(0, v.out, v.vars)
  {
    hide EvalFrom, MacroValue, Args, CountEos, MacroMode, CopyFrom;
    EvalStep(lib, s, 0, "", depth, vars);
    var m := MacroMode(s, 1);
    if m.stat > 0 {
      var v := MacroValue(lib, Args(m.out, m.stat), |s|, depth, vars);
      EvalAtEnd(lib, s, v.out, depth, v.vars);
      assert "" + "" + v.out == v.out;
    }
  }

  lemma EvalAtEnd(lib: Library, s: string, out: string, depth: nat, vars: Vars)
    requires depth <= MAXDEPTH
    ensures EvalFrom(lib, s, |s|, out, depth, vars) == Outcome(0, out, vars)
  {
    assert out + "" == out;
  }

  lemma TwoTotal(xs: seq<string>)
    requires |xs| == 2
    ensures Total(xs) == 2 + |xs[0]| + |xs[1]|
  {
    assert xs[1..][1..] == [];
    assert Total(xs[1..]) == 1 + |xs[1]|;
  }

  lemma {:induction false} NoEosInQuoted(t: string)
    requires EOS !in t
    ensures EOS !in Quoted(t) && |Doubled(t)| >= |t| && |Quoted(t)| >= |t|
    decreases |t|
  {
    if t != "" {
      NoEosInQuoted(t[1..]);
    }
  }

  lemma EqualValue(lib: Library, a: string, b: string, n: nat, depth: nat, vars: Vars)
    requires EOS !in a && EOS !in b && depth <= MAXDEPTH && 4 + |Quoted(a)| + |Quoted(b)| <= STRLIMIT
    requires Below(["EQ", Quoted(a), Quoted(b)], n)
    ensures MacroValue(lib, ["EQ", Quoted(a), Quoted(b)], n, depth, vars)
            == Outcome(TRUE, if a == b then "1" else "0", vars)
  {
    var args := ["EQ", Quoted(a), Quoted(b)];
    assert args[1..] == [Quoted(a), Quoted(b)];
    PlainEval(lib, "EQ", depth, vars);
    EqualQuoted(lib, a, b, n, depth, vars);
    hide Eval, Quoted, Equal;
    UpperStays("EQ");
  }

  lemma EqualQuoted(lib: Library, a: string, b: string, n: nat, depth: nat, vars: Vars)
    requires EOS !in a && EOS !in b && depth <= MAXDEPTH && |Quoted(a)| + |Quoted(b)| <= STRLIMIT
    requires Below([Quoted(a), Quoted(b)], n)
    ensures Equal(lib, [Quoted(a), Quoted(b)], n, depth, vars) == Outcome(TRUE, if a == b then "1" else "0", vars)
  {
    NoEosInQuoted(a);
    NoEosInQuoted(b);
    LiteralExactly(lib, a, depth, vars);
    LiteralExactly(lib, b, depth, vars);
    hide Eval, Quoted;
  }

  /** EVAL re-scans: evaluating @(EVAL,..) of a doubly quoted text is evaluating the text one
      level deeper, as long as the result fits; at the deepest level it is an error. */
  lemma EvalRescans(lib: Library, t: string, depth: nat, vars: Vars)
    requires EOS !in t && depth <= MAXDEPTH && 5 + |Quoted(t)| <= STRLIMIT
    ensures var s := CallOf("EVAL", [Quoted(t)]);
            if depth == MAXDEPTH then Eval(lib, s, depth, vars).stat > 0
            else
              var r := Eval(lib, t, depth + 1, vars);
              if r.stat == 0 && |r.out| <= STRLIMIT then Eval(lib, s, depth, vars) == r
              else Eval(lib, s, depth, vars).stat > 0
  {
    hide Eval, MacroMode, Quoted, CallOf, CopyFrom, MacroValue, Args, CountEos, Total;
    var xs := [Quoted(t)];
    var s := CallOf("EVAL", xs);
    NoEosInQuoted(t);
    OneTotal(xs);
    LiteralArguments("EVAL", xs);
    CallLong("EVAL", xs);
    WholeCall(lib, s, depth, vars);
    CallFails(lib, s, depth, vars);
    assert ["EVAL"] + xs == ["EVAL", Quoted(t)];
    RescanValue(lib, t, |s|, depth, vars);
  }

  lemma OneTotal(xs: seq<string>)
    requires |xs| == 1
    ensures Total(xs) == 1 + |xs[0]|
  {
    assert xs[1..] == [];
  }

  lemma CallLong(name: string, xs: seq<string>)
    ensures |CallOf(name, xs)| >= 2
  {
  }

  /** A string that is one macro whose value is an error or too long. */
  lemma CallFails(lib: Library, s: string, depth: nat, vars: Vars)
    requires depth <= MAXDEPTH && |s| >= 2 && CopyFrom(s, 0, false, 0) == Scan(1, 1, "")
    ensures var m := MacroMode(s, 1);
            m.stat > 0 ==>
              && m.stat <= CountEos(m.out) && Below(Args(m.out, m.stat), |s|)
              && var v := MacroValue(lib, Args(m.out, m.stat), |s|, depth, vars);
                 v.stat != TRUE || |v.out| > STRLIMIT ==>
                   var r := Eval(lib, s, depth, vars); r.stat == m.at > 0 && r.vars == v.vars
  {
    hide EvalFrom, MacroValue, Args, CountEos, MacroMode, CopyFrom;
    EvalStep(lib, s, 0, "", depth, vars);
    var m := MacroMode(s, 1);
    if m.stat > 0 {
      MacroStat(lib, Args(m.out, m.stat), |s|, depth, vars);
      assert "" + "" == "";
    }
  }

  lemma MacroStat(lib: Library, args: seq<string>, n: nat, depth: nat, vars: Vars)
    requires depth <= MAXDEPTH && args != [] && Below(args, n)
    ensures MacroValue(lib, args, n, depth, vars).stat in {FALSE, TRUE, DIAGNOSTIC}
  {
    hide Eval, FunctionValue, UpperCase;
  }

  lemma RescanValue(lib: Library, t: string, n: nat, depth: nat, vars: Vars)
    requires EOS !in t && depth <= MAXDEPTH && |Quoted(t)| <= STRLIMIT && Below(["EVAL", Quoted(t)], n)
    ensures var v := MacroValue(lib, ["EVAL", Quoted(t)], n, depth, vars);
            if depth == MAXDEPTH then v.stat != TRUE
            else
              var r := Eval(lib, t, depth + 1, vars);
              if r.stat == 0 then v == r.(stat := TRUE) else v.stat != TRUE
  {
    hide Eval, Quoted, EvalAgain, UpperCase;
    assert ["EVAL", Quoted(t)][1..] == [Quoted(t)];
    PlainEval(lib, "EVAL", depth, vars);
    UpperStays("EVAL");
    Rescan(lib, t, n, depth, vars);
  }

  lemma Rescan(lib: Library, t: string, n: nat, depth: nat, vars: Vars)
    requires EOS !in t && depth <= MAXDEPTH && |Quoted(t)| <= STRLIMIT && Below([Quoted(t)], n)
    ensures var v := EvalAgain(lib, [Quoted(t)], n, depth, vars);
            if depth == MAXDEPTH then v.stat == FALSE
            else
              var r := Eval(lib, t, depth + 1, vars);
              v == r.(stat := if r.stat == 0 then TRUE else FALSE)
  {
    NoEosInQuoted(t);
    LiteralExactly(lib, t, depth, vars);
    hide Eval, Quoted;
  }
}
