/** Templates: texts and variables one behind the other, and what they expand to (lib/diesel.c). */
module DieselTemplate {
  import opened Seqs
  import opened Diesel
  import opened DieselLiteral
  import opened DieselCalls
  import opened DieselVars

  datatype Piece = Text(t: string) | Variable(name: string)

  /** A piece as DIESEL writes it. */
  function Written(p: Piece): string {
    match p
    case Text(t) => Quoted(t)
    case Variable(name) => CallOf("GETVAR", [Quoted(name)])
  }

  function Source(ps: seq<Piece>): string {
    if ps == [] then "" else Written(ps[0]) + Source(ps[1..])
  }

  /** What it stands for. */
  function Meaning(p: Piece, v: Chain): string {
    match p
    case Text(t) => t
    case Variable(name) => var r := Lookup(v, name); if r.Some? then r.value else ""
  }

  function Expanded(ps: seq<Piece>, v: Chain): string {
    if ps == [] then "" else Meaning(ps[0], v) + Expanded(ps[1..], v)
  }

  predicate PieceOk(p: Piece, v: Chain) {
    match p
    case Text(t) => EOS !in t
    case Variable(name) => EOS !in name && Lookup(v, name).Some? && 7 + |Quoted(name)| <= STRLIMIT
  }

  /** Two quoted texts in a row would be one text with a quote in it. */
  predicate Proper(ps: seq<Piece>, v: Chain) {
    && (forall k :: 0 <= k < |ps| ==> PieceOk(ps[k], v))
    && (forall k :: 0 < k < |ps| ==> !(ps[k - 1].Text? && ps[k].Text?))
  }

  lemma ProperRest(ps: seq<Piece>, v: Chain)
    requires Proper(ps, v) && ps != []
    ensures Proper(ps[1..], v) && PieceOk(ps[0], v)
    ensures ps[0].Text? && |ps| > 1 ==> ps[1].Variable?
  {
    assert forall k :: 0 <= k < |ps[1..]| ==> ps[1..][k] == ps[k + 1];
  }

  /** Copying comes to the macro that stands at i, or to the end. */
  lemma CopyStops(s: string, i: nat, n: nat)
    requires i <= |s|
    ensures i == |s| ==> CopyFrom(s, i, false, n) == Scan(0, i, "")
    ensures i + 1 < |s| && s[i] == MACROCHAR && s[i + 1] == ARGOPEN ==> CopyFrom(s, i, false, n) == Scan(1, i + 1, "")
  {
  }

  /** Copying a quoted text, up to what stands behind it. */
  lemma CopyText(pre: string, t: string, post: string)
    requires EOS !in t && |t| <= STRLIMIT && (post == "" || post[0] != QUOTE)
    ensures var s := pre + Quoted(t) + post; var j := |pre| + |Quoted(t)|;
            CopyFrom(s, |pre|, false, 0) == Emit(t, CopyFrom(s, j, false, |t|))
  {
    hide CopyFrom, Doubled, Emit, QuotedAt;
    var s := pre + Quoted(t) + post;
    assert s == (pre + [QUOTE]) + Doubled(t) + [QUOTE] + post;
    QuotedHere(pre + [QUOTE], t, post);
    CopyQuoted(s, |pre| + 1, t, 0);
    QuoteOpens(s, |pre|);
  }

  lemma QuoteOpens(s: string, i: nat)
    requires i < |s| && s[i] == QUOTE
    ensures CopyFrom(s, i, false, 0) == CopyFrom(s, i + 1, true, 0)
  {
  }

  lemma VariableValue(lib: Library, name: string, n: nat, depth: nat, vars: Vars)
    requires depth <= MAXDEPTH && PieceOk(Variable(name), vars.chain) && Below(["GETVAR"] + [Quoted(name)], n)
    ensures MacroValue(lib, ["GETVAR"] + [Quoted(name)], n, depth, vars)
         == Outcome(TRUE, Meaning(Variable(name), vars.chain), vars)
  {
    hide MacroValue, Quoted, GetVar, FunctionValue, Lookup;
    var xs := [Quoted(name)];
    UpperStays("GETVAR");
    NamedValue(lib, "GETVAR", xs, n, depth, vars);
    CalledByName(lib, xs, n, depth, vars);
    GetVarQuoted(lib, name, n, depth, vars);
  }

  /** What the scan of that macro hands over. */
  lemma VariableScanned(s: string, pre: string, name: string, post: string)
    requires EOS !in name && 7 + |Quoted(name)| <= STRLIMIT
    requires s == pre + CallOf("GETVAR", [Quoted(name)]) + post
    ensures var call := CallOf("GETVAR", [Quoted(name)]);
            && |s| > |pre| + 1
            && var m := MacroMode(s, |pre| + 1);
               m.stat == 2 == CountEos(m.out) && m.at == |pre| + |call| && Args(m.out, 2) == ["GETVAR"] + [Quoted(name)]
  {
    hide MacroMode, CallOf, Args, CountEos, Total, Quoted;
    NoEosInQuoted(name);
    OneTotal([Quoted(name)]);
    ArgumentsAt(pre, "GETVAR", [Quoted(name)], post);
  }

  /** What the loop does with a macro of two arguments that evaluates well. */
  lemma GoodCall(lib: Library, s: string, i: nat, out: string, depth: nat, vars: Vars, at: nat, text: string,
                 args: seq<string>, value: string)
    requires depth <= MAXDEPTH && i <= |s| && at < |s| && args != [] && Below(args, |s|)
    requires CopyFrom(s, i, false, 0) == Scan(1, at, text)
    requires var m := MacroMode(s, at); m.stat == 2 == CountEos(m.out) && Args(m.out, 2) == args
    requires MacroValue(lib, args, |s|, depth, vars) == Outcome(TRUE, value, vars)
    requires |out + text| + |value| <= STRLIMIT
    ensures MacroMode(s, at).at <= |s|
    ensures EvalFrom(lib, s, i, out, depth, vars)
         == EvalFrom(lib, s, MacroMode(s, at).at, out + text + value, depth, vars)
  {
    hide EvalFrom, MacroMode, CopyFrom, MacroValue, Args, CountEos;
    EvalStep(lib, s, i, out, depth, vars);
  }

  lemma {:induction false} DoubledLonger(t: string)
    ensures |Doubled(t)| >= |t|
  {
    if t != "" { DoubledLonger(t[1..]); }
  }

  lemma GetVarBelow(s: string, pre: string, name: string, post: string)
    requires s == pre + CallOf("GETVAR", [Quoted(name)]) + post
    ensures Below(["GETVAR"] + [Quoted(name)], |s|) && |pre| + |CallOf("GETVAR", [Quoted(name)])| <= |s|
  {
    var q := Quoted(name);
    assert [q][1..] == [];
    assert CallRest([q][1..]) == [ARGCLOSE];
    DoubledLonger(q);
    assert |CallRest([q])| == 2 + |Quoted(q)|;
    assert CallOf("GETVAR", [q]) == [MACROCHAR, ARGOPEN] + "GETVAR" + CallRest([q]);
  }

  /** One variable of the template, from where the loop comes to it with `text` just copied. */
  lemma VariableStep(lib: Library, s: string, i: nat, pre: string, name: string, post: string, text: string,
                     out: string, depth: nat, vars: Vars)
    requires depth <= MAXDEPTH && i <= |pre| && s == pre + CallOf("GETVAR", [Quoted(name)]) + post
    requires PieceOk(Variable(name), vars.chain) && CopyFrom(s, i, false, 0) == Scan(1, |pre| + 1, text)
    requires |out + text| + |Meaning(Variable(name), vars.chain)| <= STRLIMIT
    ensures EvalFrom(lib, s, i, out, depth, vars)
         == EvalFrom(lib, s, |pre| + |CallOf("GETVAR", [Quoted(name)])|,
                     out + text + Meaning(Variable(name), vars.chain), depth, vars)
  {
    hide EvalFrom, MacroMode, CallOf, CopyFrom, MacroValue, Args, CountEos, Quoted, Meaning, Lookup, Below;
    VariableScanned(s, pre, name, post);
    GetVarBelow(s, pre, name, post);
    var value := Meaning(Variable(name), vars.chain);
    var args := ["GETVAR"] + [Quoted(name)];
    hide PieceOk;
    VariableValue(lib, name, |s|, depth, vars);
    GoodCall(lib, s, i, out, depth, vars, |pre| + 1, text, args, value);
  }

  /** From position |pre| on, with `out` written so far. */
  lemma {:induction false} PiecesExpand(lib: Library, pre: string, ps: seq<Piece>, out: string, depth: nat, vars: Vars)
    requires depth <= MAXDEPTH && Proper(ps, vars.chain) && |out| + |Expanded(ps, vars.chain)| <= STRLIMIT
    ensures EvalFrom(lib, pre + Source(ps), |pre|, out, depth, vars) == Outcome(0, out + Expanded(ps, vars.chain), vars)
    decreases |ps|, 1
  {
    hide EvalFrom, CopyFrom, Lookup, PieceOk, Quoted, CallOf, Proper;
    var s := pre + Source(ps);
    if ps == [] {
      assert s == pre && out + "" == out;
      EvalAtEnd(lib, s, out, depth, vars);
    } else {
      ProperRest(ps, vars.chain);
      match ps[0]
      case Variable(name) =>
        var call := CallOf("GETVAR", [Quoted(name)]);
        assert s == pre + call + Source(ps[1..]) && s == (pre + call) + Source(ps[1..]);
        CallOpens(s, pre, name, Source(ps[1..]));
        VariableStep(lib, s, |pre|, pre, name, Source(ps[1..]), "", out, depth, vars);
        var value := Meaning(ps[0], vars.chain);
        PiecesExpand(lib, pre + call, ps[1..], out + "" + value, depth, vars);
        assert out + "" + value + Expanded(ps[1..], vars.chain) == out + (value + Expanded(ps[1..], vars.chain));
      case Text(t) => TextExpands(lib, pre, ps, out, depth, vars);
    }
  }

  lemma CallOpens(s: string, pre: string, name: string, post: string)
    requires s == pre + CallOf("GETVAR", [Quoted(name)]) + post
    ensures CopyFrom(s, |pre|, false, 0) == Scan(1, |pre| + 1, "")
  {
    hide CopyFrom, Quoted;
    CopyStops(s, |pre|, 0);
  }

  /** The text alone, at the end of the template. */
  lemma LastText(lib: Library, pre: string, t: string, out: string, depth: nat, vars: Vars)
    requires depth <= MAXDEPTH && EOS !in t && |t| <= STRLIMIT
    ensures EvalFrom(lib, pre + Quoted(t), |pre|, out, depth, vars) == Outcome(0, out + t, vars)
  {
    hide EvalFrom, CopyFrom, Quoted, MacroMode, MacroValue, Args, CountEos;
    var s := pre + Quoted(t);
    assert s == pre + Quoted(t) + "";
    CopyText(pre, t, "");
    CopyStops(s, |s|, |t|);
    assert t + "" == t;
    EvalStep(lib, s, |pre|, out, depth, vars);
  }

  lemma SingleText(ps: seq<Piece>, v: Chain)
    requires |ps| == 1 && ps[0].Text?
    ensures Source(ps) == Quoted(ps[0].t) && Expanded(ps, v) == ps[0].t
  {
    hide Quoted;
    assert ps[1..] == [];
    assert Source(ps[1..]) == "";
    assert Expanded(ps[1..], v) == "";
    assert Source(ps) == Written(ps[0]) + "";
    assert Expanded(ps, v) == Meaning(ps[0], v) + "";
    assert Quoted(ps[0].t) + "" == Quoted(ps[0].t) && ps[0].t + "" == ps[0].t;
  }

  lemma TextThenVariable(ps: seq<Piece>, v: Chain)
    requires |ps| > 1 && ps[0].Text? && ps[1].Variable?
    ensures ps[1..][1..] == ps[2..] && ps[1..][0] == ps[1]
    ensures Source(ps) == Quoted(ps[0].t) + (CallOf("GETVAR", [Quoted(ps[1].name)]) + Source(ps[2..]))
    ensures Expanded(ps, v) == ps[0].t + (Meaning(ps[1], v) + Expanded(ps[2..], v))
  {
    hide Quoted, CallOf;
    assert ps[1..][1..] == ps[2..];
    assert Source(ps[1..]) == Written(ps[1]) + Source(ps[2..]);
    assert Expanded(ps[1..], v) == Meaning(ps[1], v) + Expanded(ps[2..], v);
  }

  lemma Regrouped(a: string, b: string, c: string, d: string)
    ensures a + (b + (c + d)) == a + b + (c + d) == a + b + c + d
  {
  }

  lemma Lengths(a: string, b: string, c: string, d: string)
    ensures |a + b| + |c| <= |a| + |b + (c + d)|
    ensures |a + b + c| + |d| == |a| + |b + (c + d)|
  {
  }

  lemma TextExpands(lib: Library, pre: string, ps: seq<Piece>, out: string, depth: nat, vars: Vars)
    requires depth <= MAXDEPTH && Proper(ps, vars.chain) && |out| + |Expanded(ps, vars.chain)| <= STRLIMIT
    requires ps != [] && ps[0].Text?
    ensures EvalFrom(lib, pre + Source(ps), |pre|, out, depth, vars) == Outcome(0, out + Expanded(ps, vars.chain), vars)
    decreases |ps|, 0
  {
    hide EvalFrom, CopyFrom, Lookup, Quoted, CallOf, Proper;
    ProperRest(ps, vars.chain);
    var t, rest := ps[0].t, ps[1..];
    if rest == [] {
      assert Expanded(rest, vars.chain) == "";
      SingleText(ps, vars.chain);
      LastText(lib, pre, t, out, depth, vars);
    } else {
      ProperRest(rest, vars.chain);
      var name, more := rest[0].name, rest[1..];
      var call, before := CallOf("GETVAR", [Quoted(name)]), pre + Quoted(t);
      var s := pre + Source(ps);
      TextThenVariable(ps, vars.chain);
      hide Source, Expanded, Meaning;
      Regrouped(pre, Quoted(t), call, Source(more));
      CallFront(name, Source(more));
      CopyText(pre, t, call + Source(more));
      CopyStops(s, |before|, |t|);
      assert CopyFrom(s, |pre|, false, 0) == Scan(1, |before| + 1, t) by { assert t + "" == t; }
      var value := Meaning(rest[0], vars.chain);
      Lengths(out, t, value, Expanded(more, vars.chain));
      VariableStep(lib, s, |pre|, before, name, Source(more), t, out, depth, vars);
      PiecesExpand(lib, before + call, more, out + t + value, depth, vars);
      Regrouped(out, t, value, Expanded(more, vars.chain));
    }
  }

  lemma CallFront(name: string, post: string)
    ensures var s := CallOf("GETVAR", [Quoted(name)]) + post; |s| >= 2 && s[0] == MACROCHAR && s[1] == ARGOPEN
  {
    hide Quoted;
  }

  /** A template evaluates to its texts and the values of its variables, in order, as long as they
      fit; no variable changes. */
  lemma TemplateExpands(lib: Library, ps: seq<Piece>, depth: nat, vars: Vars)
    requires depth <= MAXDEPTH && Proper(ps, vars.chain) && |Expanded(ps, vars.chain)| <= STRLIMIT
    ensures Eval(lib, Source(ps), depth, vars) == Outcome(0, Expanded(ps, vars.chain), vars)
  {
    hide EvalFrom, Lookup, PieceOk, Proper;
    PiecesExpand(lib, "", ps, "", depth, vars);
    assert "" + Source(ps) == Source(ps) && "" + Expanded(ps, vars.chain) == Expanded(ps, vars.chain);
  }
}
