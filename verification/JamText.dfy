/** How a message's lines become subfields and text when a message is stored, and how
    subfields and text become lines again when it is read (lib/jammsg.c). */
module JamText {
  import opened Seqs
  import opened JamFormat

  /** MAX_LINE_LENGTH of lib/msg.h; snprintf keeps one char less. */
  const MAX_LINE_LENGTH: nat := 2048

  function Clip(s: string, n: nat): string {
    if |s| <= n then s else s[..n]
  }

  function Skip(s: string, n: nat): string {
    if n <= |s| then s[n..] else ""
  }

  // ----- Storing -----

  const SOH: char := '\U{1}'

  predicate IsControl(line: string) {
    HasPrefix(line, [SOH]) || HasPrefix(line, "SEEN-BY:")
  }

  /** The subfield a control line is stored as; a "SEEN-BY:" line without the space
      matches no case and is stored nowhere. */
  function LineSubs(line: string): seq<Subfield> {
    if !IsControl(line) then []
    else if HasPrefix(line, [SOH] + "PID: ") then [Subfield(PID, line[6..])]
    else if HasPrefix(line, [SOH] + "MSGID: ") then [Subfield(MSGID, line[8..])]
    else if HasPrefix(line, [SOH] + "REPLY: ") then [Subfield(REPLYID, line[8..])]
    else if HasPrefix(line, [SOH] + "PATH: ") then [Subfield(PATH2D, line[7..])]
    else if HasPrefix(line, [SOH] + "Via") then [Subfield(TRACE, Skip(line, 5))]
    else if HasPrefix(line, "SEEN-BY: ") then [Subfield(SEENBY2D, line[9..])]
    else if HasPrefix(line, [SOH]) then [Subfield(FTSKLUDGE, line[1..])]
    else []
  }

  function LineText(line: string): string {
    if IsControl(line) then "" else line + "\r"
  }

  function LinesSubs(lines: seq<string>): seq<Subfield> {
    Flat(LineSubs, lines)
  }

  function BodyText(lines: seq<string>): string {
    Flat(LineText, lines)
  }

  // ----- Reading -----

  function ShowSub(s: Subfield): string {
    Clip(if s.id == MSGID then [SOH] + "MSGID: " + s.data
         else if s.id == REPLYID then [SOH] + "REPLY: " + s.data
         else if s.id == PID then [SOH] + "PID: " + s.data
         else if s.id == TRACE then [SOH] + "Via " + s.data
         else if s.id == SEENBY2D then "SEEN-BY: " + s.data
         else if s.id == PATH2D then [SOH] + "PATH: " + s.data
         else if HasPrefix(s.data, "AREA:") then s.data
         else [SOH] + s.data,
         MAX_LINE_LENGTH - 1)
  }

  /** Lines shown before the body. */
  function TopLine(s: Subfield): seq<string> {
    if s.id in {MSGID, REPLYID, PID, TRACE, FTSKLUDGE} then [ShowSub(s)] else []
  }

  /** Lines shown after the body. */
  function BottomLine(s: Subfield): seq<string> {
    if s.id in {SEENBY2D, PATH2D} then [ShowSub(s)] else []
  }

  /** Lines finished by a carriage return, and the unfinished one; line feeds vanish. */
  function Scan(t: string): (r: (seq<string>, string)) {
    if t == "" then ([], "")
    else
      var (lines, line) := Scan(t[..|t| - 1]);
      var c := t[|t| - 1];
      if c == '\r' then (lines + [line], "")
      else if c == '\n' then (lines, line)
      else (lines, line + [c])
  }

  function ReadLines(subs: seq<Subfield>, text: string): seq<string> {
    Flat(TopLine, subs) + Scan(text).0 + Flat(BottomLine, subs)
  }

  // ----- Storing and then reading -----

  datatype Kind = Kludge | Routing | Body

  function KindOf(line: string): Kind {
    if HasPrefix(line, "SEEN-BY:") || HasPrefix(line, [SOH] + "PATH: ") then Routing
    else if HasPrefix(line, [SOH]) then Kludge
    else Body
  }

  function OfKind(k: Kind): string -> seq<string> {
    line => if KindOf(line) == k then [line] else []
  }

  /** What storing and reading makes of one line. */
  function Shown(line: string): seq<string> {
    match KindOf(line)
    case Kludge => Flat(TopLine, LineSubs(line))
    case Routing => Flat(BottomLine, LineSubs(line))
    case Body => Scan(line + "\r").0
  }

  function ShownOfKind(k: Kind): string -> seq<string> {
    line => if KindOf(line) == k then Shown(line) else []
  }

  /** The lines that survive storing and reading. */
  predicate Faithful(line: string) {
    if KindOf(line) == Body then '\r' !in line && '\n' !in line
    else
      && |line| < MAX_LINE_LENGTH
      && (HasPrefix(line, "SEEN-BY:") ==> HasPrefix(line, "SEEN-BY: "))
      && (HasPrefix(line, [SOH] + "Via") ==> HasPrefix(line, [SOH] + "Via "))
      && !HasPrefix(line, [SOH] + "AREA:")
  }

  lemma {:induction false} ScanConcat(a: string, b: string)
    requires Scan(a).1 == ""
    ensures Scan(a + b) == (Scan(a).0 + Scan(b).0, Scan(b).1)
  {
    if b == "" {
      assert a + b == a && Scan(a).0 + [] == Scan(a).0;
    } else {
      ScanConcat(a, b[..|b| - 1]);
      assert (a + b)[..|a + b| - 1] == a + b[..|b| - 1];
      var (lines, line) := Scan(b[..|b| - 1]);
      assert Scan(a).0 + (lines + [line]) == (Scan(a).0 + lines) + [line];
    }
  }

  /** A line feed or carriage return inside a line never comes back inside a line. */
  lemma {:induction false} ScanClean(t: string)
    ensures '\r' !in Scan(t).1 && '\n' !in Scan(t).1
    ensures forall l :: l in Scan(t).0 ==> '\r' !in l && '\n' !in l
    ensures '\r' !in t && '\n' !in t ==> Scan(t) == ([], t)
  {
    if t != "" {
      ScanClean(t[..|t| - 1]);
      assert t == t[..|t| - 1] + [t[|t| - 1]];
    }
  }

  lemma BodyShown(line: string)
    requires KindOf(line) == Body
    ensures Scan(line + "\r").1 == "" && |Shown(line)| >= 1
    ensures Shown(line) == [line] <==> Faithful(line)
  {
    assert (line + "\r")[..|line|] == line;
    ScanClean(line);
    ScanClean(line + "\r");
    if Shown(line) == [line] {
      assert line in Shown(line);
    }
  }

  lemma {:induction false} BodyScan(lines: seq<string>)
    ensures Scan(BodyText(lines)) == (Flat(ShownOfKind(Body), lines), "")
  {
    if lines != [] {
      var n := |lines| - 1;
      BodyScan(lines[..n]);
      var line := lines[n];
      assert IsControl(line) <==> KindOf(line) != Body by { PrefixOfPath(line); }
      var shown := Flat(ShownOfKind(Body), lines[..n]);
      assert Flat(ShownOfKind(Body), lines) == shown + ShownOfKind(Body)(line);
      if IsControl(line) {
        assert BodyText(lines) == BodyText(lines[..n]);
        assert shown + [] == shown;
      } else {
        BodyShown(line);
        ScanConcat(BodyText(lines[..n]), line + "\r");
      }
    }
  }

  lemma PrefixOfPath(line: string)
    ensures HasPrefix(line, [SOH] + "PATH: ") ==> HasPrefix(line, [SOH])
  {
  }

  lemma FlatOne<S, T>(f: S -> seq<T>, x: S)
    ensures Flat(f, [x]) == f(x)
  {
    assert Flat(f, [x][..0]) == [];
  }

  /** The subfield of a tagged line, when the tag is written back in full. */
  lemma TagBack(line: string, tag: string)
    requires HasPrefix(line, tag)
    ensures tag + line[|tag|..] == line
  {
  }

  lemma ClipSame(line: string, n: nat)
    ensures Clip(line, n) == line <==> |line| <= n
  {
  }

  predicate Tagged(line: string) {
    || HasPrefix(line, [SOH] + "PID: ") || HasPrefix(line, [SOH] + "MSGID: ")
    || HasPrefix(line, [SOH] + "REPLY: ") || HasPrefix(line, [SOH] + "PATH: ")
    || HasPrefix(line, "SEEN-BY: ") || HasPrefix(line, [SOH] + "Via ")
  }

  lemma TaggedShown(line: string)
    requires Tagged(line)
    ensures |LineSubs(line)| == 1 && ShowSub(LineSubs(line)[0]) == Clip(line, MAX_LINE_LENGTH - 1)
    ensures KindOf(line) == Routing <==> LineSubs(line)[0].id in {SEENBY2D, PATH2D}
    ensures KindOf(line) != Body && (KindOf(line) == Kludge ==> LineSubs(line)[0].id in {MSGID, REPLYID, PID, TRACE})
  {
    assert line[0] == SOH || line[0] == 'S';
    if HasPrefix(line, [SOH] + "PID: ") { TagBack(line, [SOH] + "PID: "); assert line[2] == 'I'; }
    else if HasPrefix(line, [SOH] + "MSGID: ") { TagBack(line, [SOH] + "MSGID: "); }
    else if HasPrefix(line, [SOH] + "REPLY: ") { TagBack(line, [SOH] + "REPLY: "); }
    else if HasPrefix(line, [SOH] + "PATH: ") { TagBack(line, [SOH] + "PATH: "); }
    else if HasPrefix(line, [SOH] + "Via ") { TagBack(line, [SOH] + "Via "); assert HasPrefix(line, [SOH] + "Via"); }
    else { TagBack(line, "SEEN-BY: "); assert HasPrefix(line, "SEEN-BY:"); }
  }

  /** The control lines with no tag of their own: dropped, mangled, or kept whole. */
  lemma UntaggedShown(line: string)
    requires KindOf(line) != Body && !Tagged(line)
    ensures KindOf(line) == Routing ==> LineSubs(line) == []
    ensures KindOf(line) == Kludge ==>
              && |LineSubs(line)| == 1 && LineSubs(line)[0].id in {TRACE, FTSKLUDGE}
              && (ShowSub(LineSubs(line)[0]) == line <==> Faithful(line))
  {
    assert HasPrefix(line, "SEEN-BY:") ==> line[0] == 'S';
    if HasPrefix(line, [SOH] + "Via") {
      var shown := [SOH] + "Via " + Skip(line, 5);
      assert shown[4] == ' ' && |line| >= 4 && (|line| > 4 ==> line[4] != ' ');
    } else if KindOf(line) == Kludge {
      TagBack(line, [SOH]);
      assert HasPrefix(line[1..], "AREA:") <==> HasPrefix(line, [SOH] + "AREA:");
    }
  }

  /** A kludge gives one line before the body and none after, a routing line at most one
      after the body and none before; which of them come back unchanged. */
  lemma ControlShown(line: string)
    requires KindOf(line) != Body
    ensures Flat(TopLine, LineSubs(line)) == ShownOfKind(Kludge)(line)
    ensures Flat(BottomLine, LineSubs(line)) == ShownOfKind(Routing)(line)
    ensures if KindOf(line) == Kludge then |Shown(line)| == 1 else |Shown(line)| <= 1
    ensures Shown(line) == [line] <==> Faithful(line)
  {
    var subs := LineSubs(line);
    if Tagged(line) {
      TaggedShown(line);
      TaggedFaithful(line);
      ClipSame(line, MAX_LINE_LENGTH - 1);
    } else {
      UntaggedShown(line);
    }
    if subs != [] {
      assert subs == [subs[0]];
      FlatOne(TopLine, subs[0]);
      FlatOne(BottomLine, subs[0]);
    }
  }

  lemma TaggedFaithful(line: string)
    requires Tagged(line)
    ensures Faithful(line) <==> |line| < MAX_LINE_LENGTH
  {
    TaggedShown(line);
    assert line[0] == SOH ==> line[1] in {'P', 'M', 'R', 'V'};
    assert HasPrefix(line, "SEEN-BY:") ==> line[0] == 'S';
    assert HasPrefix(line, [SOH] + "Via") ==> line[1] == 'V';
    assert line[1] != 'A' ==> !HasPrefix(line, [SOH] + "AREA:");
    assert HasPrefix(line, [SOH] + "Via ") ==> line[1] == 'V';
  }

  /** Subfields of the header proper give no lines. */
  predicate Silent(s: Subfield) {
    TopLine(s) == [] && BottomLine(s) == []
  }

  lemma {:induction false} SilentFlat(subs: seq<Subfield>)
    requires forall s :: s in subs ==> Silent(s)
    ensures Flat(TopLine, subs) == [] && Flat(BottomLine, subs) == []
  {
    if subs != [] {
      var last := subs[|subs| - 1];
      SilentFlat(subs[..|subs| - 1]);
      assert Silent(last);
      assert Flat(TopLine, subs) == [] + TopLine(last) && Flat(BottomLine, subs) == [] + BottomLine(last);
    }
  }

  function AsWritten(lines: seq<string>): seq<string> {
    Flat(OfKind(Kludge), lines) + Flat(OfKind(Body), lines) + Flat(OfKind(Routing), lines)
  }

  function AsShown(lines: seq<string>): seq<string> {
    Flat(ShownOfKind(Kludge), lines) + Flat(ShownOfKind(Body), lines) + Flat(ShownOfKind(Routing), lines)
  }

  /** Reading back what was stored: the kludges in order, the body lines in order, then
      the SEEN-BY and PATH lines in order, each as `Shown` says. */
  lemma StoredThenRead(head: seq<Subfield>, lines: seq<string>)
    requires forall s :: s in head ==> Silent(s)
    ensures ReadLines(head + LinesSubs(lines), BodyText(lines))
         == AsShown(lines)
  {
    forall l | l in lines
      ensures ShownOfKind(Kludge)(l) == Flat(TopLine, LineSubs(l))
      ensures ShownOfKind(Routing)(l) == Flat(BottomLine, LineSubs(l))
    {
      LineShown(l);
    }
    FlatFlat(TopLine, LineSubs, ShownOfKind(Kludge), lines);
    FlatFlat(BottomLine, LineSubs, ShownOfKind(Routing), lines);
    AfterHead(head, LinesSubs(lines), BodyText(lines));
    BodyScan(lines);
  }

  lemma LineShown(l: string)
    ensures ShownOfKind(Kludge)(l) == Flat(TopLine, LineSubs(l))
    ensures ShownOfKind(Routing)(l) == Flat(BottomLine, LineSubs(l))
  {
    if KindOf(l) != Body {
      ControlShown(l);
    } else {
      PrefixOfPath(l);
      assert LineSubs(l) == [];
    }
  }

  lemma AfterHead(head: seq<Subfield>, subs: seq<Subfield>, text: string)
    requires forall s :: s in head ==> Silent(s)
    ensures ReadLines(head + subs, text) == ReadLines(subs, text)
  {
    FlatConcat(TopLine, head, subs);
    FlatConcat(BottomLine, head, subs);
    SilentFlat(head);
    var top, bottom := Flat(TopLine, subs), Flat(BottomLine, subs);
    assert [] + top == top && [] + bottom == bottom;
  }

  predicate SectionBack(k: Kind, lines: seq<string>) {
    Flat(ShownOfKind(k), lines) == Flat(OfKind(k), lines)
  }

  /** Every section comes back as it went in exactly when every line is faithful. */
  lemma FaithfulExactly(lines: seq<string>)
    ensures SectionBack(Kludge, lines) && SectionBack(Body, lines) && SectionBack(Routing, lines)
       <==> forall l :: l in lines ==> Faithful(l)
  {
    hide SectionBack, Faithful, LineExactly;
    forall l | l in lines
      ensures LineExactly(l)
    {
      LineIsExact(l);
    }
    SectionExactly(Kludge, lines);
    SectionExactly(Body, lines);
    SectionExactly(Routing, lines);
  }

  /** A line's section gives it back, and no more or fewer lines, iff it is faithful. */
  predicate LineExactly(l: string) {
    && (Shown(l) == [l] <==> Faithful(l))
    && (KindOf(l) == Kludge ==> |Shown(l)| == 1)
    && (KindOf(l) == Body ==> |Shown(l)| >= 1)
    && (KindOf(l) == Routing ==> |Shown(l)| <= 1)
  }

  lemma LineIsExact(l: string)
    ensures LineExactly(l)
  {
    if KindOf(l) == Body { BodyShown(l); } else { ControlShown(l); }
  }

  lemma SectionExactly(k: Kind, lines: seq<string>)
    requires forall l :: l in lines ==> LineExactly(l)
    ensures SectionBack(k, lines)
       <==> forall l :: l in lines && KindOf(l) == k ==> Faithful(l)
  {
    hide Shown, KindOf, Faithful;
    var shown, kept := ShownOfKind(k), OfKind(k);
    assert forall l :: l in lines ==> (shown(l) == kept(l) <==> (KindOf(l) == k ==> Faithful(l)));
    if k == Routing {
      FlatEqual(kept, shown, lines);
    } else {
      FlatEqual(shown, kept, lines);
    }
  }

  /** The whole text comes back, sections one behind the other, exactly when every line is
      faithful: what one section loses another never makes up for. */
  lemma WholeExactly(lines: seq<string>)
    ensures AsShown(lines) == AsWritten(lines) <==> forall l :: l in lines ==> Faithful(l)
  {
    hide Flat, Faithful;
    FaithfulExactly(lines);
    KludgesCounted(lines);
    BodiesClean(lines);
    var k', b', r' := Flat(ShownOfKind(Kludge), lines), Flat(ShownOfKind(Body), lines),
      Flat(ShownOfKind(Routing), lines);
    var k, b, r := Flat(OfKind(Kludge), lines), Flat(OfKind(Body), lines), Flat(OfKind(Routing), lines);
    if k' + b' + r' == k + b + r {
      SameParts(k', b', r', k, b, r);
    }
  }

  /** Three parts of which the first are equally long and the second agree as soon as one begins
      with the other. */
  lemma SameParts<T>(k': seq<T>, b': seq<T>, r': seq<T>, k: seq<T>, b: seq<T>, r: seq<T>)
    requires k' + b' + r' == k + b + r && |k'| == |k| && |b'| >= |b|
    requires b <= b' ==> b' == b
    ensures k' == k && b' == b && r' == r
  {
    assert (k' + b' + r')[..|k|] == k' && (k + b + r)[..|k|] == k;
    assert (k' + b' + r')[|k|..] == b' + r' && (k + b + r)[|k|..] == b + r;
    assert b'[..|b|] == (b' + r')[..|b|] == b;
    assert (b' + r')[|b|..] == r' && (b + r)[|b|..] == r;
  }

  lemma {:induction false} KludgesCounted(lines: seq<string>)
    ensures |Flat(ShownOfKind(Kludge), lines)| == |Flat(OfKind(Kludge), lines)|
  {
    if lines != [] {
      hide Shown, KindOf;
      KludgesCounted(lines[..|lines| - 1]);
      LineIsExact(lines[|lines| - 1]);
    }
  }

  /** Lines shown have no carriage return or line feed in them, so those written come back at the
      front only when they had none either. */
  lemma {:induction false} BodiesClean(lines: seq<string>)
    ensures var b', b := Flat(ShownOfKind(Body), lines), Flat(OfKind(Body), lines);
            && |b'| >= |b|
            && (forall l :: l in b' ==> '\r' !in l && '\n' !in l)
            && (b <= b' ==> b' == b)
  {
    if lines != [] {
      hide Shown, KindOf, Faithful;
      var n := |lines| - 1;
      BodiesClean(lines[..n]);
      BodyClean(lines[n]);
      BodyParts(Flat(ShownOfKind(Body), lines[..n]), Flat(OfKind(Body), lines[..n]), ShownOfKind(Body)(lines[n]),
                OfKind(Body)(lines[n]));
    }
  }

  /** Of one line: as many lines or more, none with a line end in it, and just the line when it
      has none. */
  predicate Clean(shown: seq<string>, written: seq<string>) {
    && |shown| >= |written|
    && (forall l :: l in shown ==> '\r' !in l && '\n' !in l)
    && ((forall l :: l in written ==> '\r' !in l && '\n' !in l) ==> shown == written)
  }

  lemma BodyClean(line: string)
    ensures Clean(ShownOfKind(Body)(line), OfKind(Body)(line))
  {
    if KindOf(line) == Body {
      ScanClean(line + "\r");
      BodyShown(line);
      assert line in OfKind(Body)(line);
    }
  }

  lemma BodyParts(b': seq<string>, b: seq<string>, x': seq<string>, x: seq<string>)
    requires Clean(x', x) && |b'| >= |b| && (forall l :: l in b' ==> '\r' !in l && '\n' !in l) && (b <= b' ==> b' == b)
    ensures b + x <= b' + x' ==> b' + x' == b + x
  {
    if b + x <= b' + x' {
      assert b == (b' + x')[..|b|] == b'[..|b|];
      assert x == (b + x)[|b|..] == (b' + x')[|b|..|b| + |x|] == x'[..|x|];
    }
  }

  /** Three lines that are not faithful, and what becomes of them. */
  lemma UnfaithfulLines()
    ensures Shown("SEEN-BY:x") == [] && Shown([SOH] + "AREA:x") == ["AREA:x"]
            && Shown([SOH] + "Viax") == [[SOH] + "Via "]
    ensures !Faithful("SEEN-BY:x") && !Faithful([SOH] + "AREA:x") && !Faithful([SOH] + "Viax")
  {
    SeenByLost();
    AreaBared();
    ViaCut();
  }

  lemma SeenByLost()
    ensures Shown("SEEN-BY:x") == [] && !Faithful("SEEN-BY:x")
  {
    var l := "SEEN-BY:x";
    assert l[..8] == "SEEN-BY:" && l[0] == 'S' && l[8] == 'x';
    assert KindOf(l) == Routing && LineSubs(l) == [];
  }

  lemma AreaBared()
    ensures Shown([SOH] + "AREA:x") == ["AREA:x"] && !Faithful([SOH] + "AREA:x")
  {
    AreaStored();
    hide Flat, LineSubs;
    assert ([SOH] + "AREA:x")[..6] == [SOH] + "AREA:";
    assert "AREA:x"[..5] == "AREA:";
    FlatOne(TopLine, Subfield(FTSKLUDGE, "AREA:x"));
  }

  lemma AreaStored()
    ensures KindOf([SOH] + "AREA:x") == Kludge && LineSubs([SOH] + "AREA:x") == [Subfield(FTSKLUDGE, "AREA:x")]
  {
    var l := [SOH] + "AREA:x";
    assert l[0] == SOH && l[1] == 'A' && l[1..] == "AREA:x";
  }

  lemma ViaCut()
    ensures Shown([SOH] + "Viax") == [[SOH] + "Via "] && !Faithful([SOH] + "Viax")
  {
    var l := [SOH] + "Viax";
    assert l[..4] == [SOH] + "Via" && l[0] == SOH && l[1] == 'V' && l[4] == 'x' && l[5..] == "";
    assert LineSubs(l) == [Subfield(TRACE, "")];
    FlatOne(TopLine, Subfield(TRACE, ""));
    assert [SOH] + "Via " + "" == [SOH] + "Via ";
  }
}
