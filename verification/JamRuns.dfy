/** The operations on one message area, and what each of them keeps (lib/jammsg.c). */
module JamRuns {
  import opened Seqs
  import opened LittleEndian
  import opened JamFormat
  import opened JamText
  import opened JamModel
  import opened JamOps
  import opened JamPack
  import opened JamLastRead

  datatype Area = Area(info: JamHdrInfo, base: seq<Stored>, lr: seq<LastRead>)

  // ----- The operations -----

  function AfterAdd(a: Area, m: MsgBuf, lines: seq<string>): Area {
    a.(info := Counted(a.info, 1).(modCounter := ToU32(a.info.modCounter + 1)),
       base := a.base + [Compose(a.base, a.info.activeMsgs, m, lines)])
  }

  function AfterDelete(a: Area, n: U32): Area {
    match FindLive(a.base, n)
    case None => a
    case Some(i) => a.(info := Counted(a.info, -1), base := SetHdr(a.base, i, MarkDeleted(a.base[i].hdr)))
  }

  function AfterWrite(a: Area, n: U32, m: MsgBuf): Area {
    match FindLive(a.base, n)
    case None => a
    case Some(i) => a.(base := SetHdr(a.base, i, Rewrite(a.base[i].hdr, m)))
  }

  /** The active count is corrected only when a message was written. */
  function PackedActive(a: Area): U32 {
    if LiveOnly(a.base) != [] then ToU32(|LiveOnly(a.base)|) else a.info.activeMsgs
  }

  function AfterPack(a: Area, users: Option<seq<U32>>): Area {
    Area(a.info.(activeMsgs := PackedActive(a)), Packed(a.base), Flat(PackLast(a.base, PackedActive(a), users), a.lr))
  }

  function AfterMark(a: Area, user: LastRead, num: U32, highest: U32): Area {
    a.(lr := ReadTo(a.lr, user, num, highest))
  }

  // ----- The invariant -----

  predicate Sound(a: Area, r: nat) {
    && WellFormed(a.base) && Fits(a.base)
    && NumberedFrom(a.base, r)
    && a.info.activeMsgs == |LiveOnly(a.base)|
  }

  /** How replacing one message changes the number of live ones. */
  lemma LiveReplaced(base: seq<Stored>, i: nat, s: Stored)
    requires i < |base|
    ensures |LiveOnly(base[i := s])| - (if Live(s) then 1 else 0) == |LiveOnly(base)| - (if Live(base[i]) then 1 else 0)
  {
    var base' := base[i := s];
    FlatSplit(KeepLive, base, i);
    FlatSplit(KeepLive, base', i);
    assert base'[..i] == base[..i] && base'[i + 1..] == base[i + 1..];
  }

  lemma NewWellFormed(base: seq<Stored>, s: Stored)
    requires WellFormed(base) && Fits(base + [s])
    requires s.hdr.signature == SIGNATURE && s.hdr.subfieldLen == ToU32(|SubsBytes(s.subs)|)
    requires s.hdr.txtLen == ToU32(|s.text|) && s.hdr.txtOffset == ToU32(|Texts(base)|)
    requires forall x :: x in s.subs ==> Readable(x)
    ensures WellFormed(base + [s])
  {
    hide Flat, HdrBytes;
    var b := base + [s];
    var n := |base|;
    assert b[..n] == base;
    OffStep(b, n);
    OffLast(b);
    assert b[..n + 1] == b;
    forall i | 0 <= i < |b|
      ensures WellFormedAt(b, i)
    {
      if i < n {
        assert WellFormedAt(base, i);
        assert b[..i] == base[..i];
      }
    }
  }

  lemma ReadableHead(m: MsgBuf)
    requires BufferFits(m)
    ensures forall s :: s in HeadSubs(m) ==> Readable(s)
  {
  }

  lemma {:induction false} ReadableLines(lines: seq<string>)
    requires forall l :: l in lines ==> Storable(l)
    ensures forall s :: s in LinesSubs(lines) ==> Readable(s)
  {
    if lines != [] {
      hide LineSubs, Readable;
      var k := |lines| - 1;
      ReadableLines(lines[..k]);
      LineSubIds(lines[k]);
      assert Storable(lines[k]);
    }
  }

  function RestartAfterAdd(a: Area, r: nat): nat {
    if a.info.activeMsgs == 0 then |a.base| else r
  }

  lemma LiveAfterRestart(base: seq<Stored>, r: nat)
    requires NumberedFrom(base, r)
    ensures LiveOnly(base) != [] ==> r < |base|
    ensures LiveOnly(base) == [] ==> forall j :: 0 <= j < |base| ==> !Live(base[j])
  {
    LiveAfter(base, r);
    LiveOnlyPositions(base);
  }

  lemma AppendNumbered(base: seq<Stored>, r: nat, r': nat, s: Stored)
    requires NumberedFrom(base, r) && r' <= |base|
    requires r' == r || (r' == |base| && forall j :: 0 <= j < |base| ==> !Live(base[j]))
    requires Num(s) == |base| - r' + 1
    ensures NumberedFrom(base + [s], r')
  {
  }

  lemma AddNumbered(a: Area, r: nat, m: MsgBuf, lines: seq<string>)
    requires NumberedFrom(a.base, r) && a.info.activeMsgs == |LiveOnly(a.base)| && |a.base| < MAX_FILE
    ensures NumberedFrom(AfterAdd(a, m, lines).base, RestartAfterAdd(a, r))
  {
    hide Flat, LineSubs, LineText, HeadSubs, OrFlags, LiveOnly;
    LiveAfterRestart(a.base, r);
    var s := Compose(a.base, a.info.activeMsgs, m, lines);
    assert Num(s) == Highest(a.base, a.info.activeMsgs) + 1;
    AppendNumbered(a.base, r, RestartAfterAdd(a, r), s);
  }

  /** Adding keeps the invariant exactly when the buffer is not marked deleted: a deleted
      message would be counted active. */
  lemma AddSound(a: Area, r: nat, m: MsgBuf, lines: seq<string>)
    requires Sound(a, r) && BufferFits(m) && forall l :: l in lines ==> Storable(l)
    requires Fits(AfterAdd(a, m, lines).base)
    ensures WellFormed(AfterAdd(a, m, lines).base)
    ensures Sound(AfterAdd(a, m, lines), RestartAfterAdd(a, r)) <==> !m.flags.deleted
  {
    hide Flat, HdrBytes, LineSubs, LineText, HeadSubs;
    var b := AfterAdd(a, m, lines).base;
    var s := b[|a.base|];
    OffInside(b, |a.base|);
    ReadableHead(m);
    ReadableLines(lines);
    NewWellFormed(a.base, s);
    AddNumbered(a, r, m, lines);
    AddCount(a.base, s);
    LiveBound(a.base);
    assert Live(s) <==> !m.flags.deleted;
  }

  lemma AddCount(base: seq<Stored>, s: Stored)
    ensures |LiveOnly(base + [s])| == |LiveOnly(base)| + if Live(s) then 1 else 0
  {
    assert (base + [s])[..|base|] == base;
  }

  lemma SetHdrWell(base: seq<Stored>, i: nat, h: JamHdr)
    requires WellFormed(base) && Fits(base) && i < |base|
    requires h.signature == SIGNATURE && h.subfieldLen == base[i].hdr.subfieldLen
    requires h.txtLen == base[i].hdr.txtLen && h.txtOffset == base[i].hdr.txtOffset
    ensures WellFormed(SetHdr(base, i, h)) && Fits(SetHdr(base, i, h))
  {
    hide Flat, HdrBytes;
    var b := SetHdr(base, i, h);
    forall j | 0 <= j < |b|
      ensures WellFormedAt(b, j)
    {
      SameOffsets(base, b, i, j);
      assert WellFormedAt(base, j);
    }
    FlatLengths(RecBytes, b, base);
    FlatLengths(TextOf, b, base);
  }

  lemma SetHdrNumbered(base: seq<Stored>, r: nat, i: nat, h: JamHdr)
    requires NumberedFrom(base, r) && i < |base|
    requires h.msgNum == Num(base[i]) && (Live(base[i]) || h.attribute[DELETED_BIT])
    ensures NumberedFrom(SetHdr(base, i, h), r)
  {
  }

  lemma Marked(h: JamHdr)
    ensures MarkDeleted(h) == h.(attribute := MarkDeleted(h).attribute) && MarkDeleted(h).attribute[DELETED_BIT]
  {
  }

  lemma DeleteSound(a: Area, r: nat, n: U32)
    requires Sound(a, r)
    ensures Sound(AfterDelete(a, n), r)
  {
    var f := FindLive(a.base, n);
    if f.Some? {
      hide FindLive, WellFormed, Fits, NumberedFrom, LiveOnly, MarkDeleted, SetHdr, ToU32;
      DeleteFound(a.base, r, f.value);
      OneLess(a.info.activeMsgs);
    }
  }

  lemma OneLess(x: U32)
    ensures x > 0 ==> ToU32(x + -1) == x - 1
  {
  }

  lemma DeleteFound(base: seq<Stored>, r: nat, i: nat)
    requires WellFormed(base) && Fits(base) && NumberedFrom(base, r) && i < |base| && Live(base[i])
    ensures var b := SetHdr(base, i, MarkDeleted(base[i].hdr));
            WellFormed(b) && Fits(b) && NumberedFrom(b, r) && |LiveOnly(b)| == |LiveOnly(base)| - 1
  {
    hide Flat, HdrBytes, NumberedFrom, LiveOnly, WellFormed, Fits;
    Marked(base[i].hdr);
    SignedAt(base, i);
    SetHdrWell(base, i, MarkDeleted(base[i].hdr));
    SetHdrNumbered(base, r, i, MarkDeleted(base[i].hdr));
    LiveReplaced(base, i, base[i].(hdr := MarkDeleted(base[i].hdr)));
  }

  lemma SignedAt(base: seq<Stored>, i: nat)
    requires WellFormed(base) && i < |base|
    ensures base[i].hdr.signature == SIGNATURE
  {
    assert WellFormedAt(base, i);
  }

  lemma RewriteLive(h: JamHdr, m: MsgBuf)
    ensures var h' := Rewrite(h, m);
            && h'.attribute[DELETED_BIT] == (h.attribute[DELETED_BIT] || m.flags.deleted)
            && h' == h.(attribute := h'.attribute, replyTo := m.original, replyNext := m.reply,
                        dateReceived := m.read, msgIdCRC := m.msgIdCRC, replyCRC := m.replyCRC)
  {
  }

  /** The number in the buffer does not matter. */
  lemma RewriteSame(h: JamHdr, m: MsgBuf, m': MsgBuf)
    requires m' == m.(id := m'.id)
    ensures SetFlags(h.(attribute := OnlyDeleted(h.attribute)), m') == Rewrite(h, m)
  {
  }

  /** Rewriting a header keeps the invariant exactly when no message is found or the
      buffer is not marked deleted: the message would stay counted active. */
  lemma WriteSound(a: Area, r: nat, n: U32, m: MsgBuf)
    requires Sound(a, r)
    ensures WellFormed(AfterWrite(a, n, m).base) && NumberedFrom(AfterWrite(a, n, m).base, r)
    ensures Sound(AfterWrite(a, n, m), r) <==> FindLive(a.base, n).None? || !m.flags.deleted
  {
    var f := FindLive(a.base, n);
    if f.Some? {
      hide Flat, HdrBytes, FindLive, NumberedFrom, LiveOnly, OrFlags;
      var i := f.value;
      assert WellFormedAt(a.base, i);
      RewriteLive(a.base[i].hdr, m);
      SetHdrWell(a.base, i, Rewrite(a.base[i].hdr, m));
      SetHdrNumbered(a.base, r, i, Rewrite(a.base[i].hdr, m));
      var s := a.base[i].(hdr := Rewrite(a.base[i].hdr, m));
      assert Live(s) <==> !m.flags.deleted;
      LiveReplaced(a.base, i, s);
    }
  }

  /** Reading message i again under its number gives that buffer, and nothing else has changed. */
  predicate ReadsAs(a: Area, b: Area, i: nat, n: U32, m: MsgBuf)
    requires i < |a.base|
  {
    && |b.base| == |a.base| && Load(n, b.base[i]) == m
    && b.base[i].subs == a.base[i].subs && b.base[i].text == a.base[i].text && Num(b.base[i]) == Num(a.base[i])
    && (forall j :: 0 <= j < |a.base| && j != i ==> b.base[j] == a.base[j])
    && b.lr == a.lr
  }

  /** A header written is read with the flags, links and date of the buffer, flags that were
      cleared in it included; its names, subject, addresses and other dates are as before. */
  lemma WriteShown(a: Area, n: U32, m: MsgBuf)
    requires FindLive(a.base, n).Some?
    ensures var i := FindLive(a.base, n).value; var was := Load(n, a.base[i]);
            && ReadsAs(a, AfterWrite(a, n, m), i, n,
                       was.(flags := m.flags, original := m.original, reply := m.reply, read := m.read))
            && AfterWrite(a, n, m).info == a.info
  {
    hide OrFlags, GetFlags, LoadSubs, NoBits;
    var i := FindLive(a.base, n).value;
    var h := a.base[i].hdr;
    NoneLeft(h.attribute);
    FlagsBack(m.flags);
    LoadsAs(n, a.base[i], Rewrite(h, m));
  }

  /** Of a live message no attribute bit is kept. */
  lemma NoneLeft(a: Bits32)
    requires !a[DELETED_BIT]
    ensures OnlyDeleted(a) == NoBits()
  {
  }

  /** What a header says of the buffer, the subfields do not touch. */
  lemma LoadsAs(n: U32, s: Stored, h: JamHdr)
    requires h.dateWritten == s.hdr.dateWritten && h.dateProcessed == s.hdr.dateProcessed
    ensures Load(n, s.(hdr := h))
         == Load(n, s).(flags := GetFlags(h.attribute), read := h.dateReceived,
                        original := h.replyTo, reply := h.replyNext)
  {
    hide GetFlags, LoadSubs;
    SubsApart(LoadHdr(n, s.hdr), LoadHdr(n, h), s.subs);
  }

  lemma {:induction false} SubsApart(m: MsgBuf, m': MsgBuf, subs: seq<Subfield>)
    requires m' == m.(flags := m'.flags, read := m'.read, original := m'.original, reply := m'.reply)
    ensures LoadSubs(m', subs)
         == LoadSubs(m, subs).(flags := m'.flags, read := m'.read, original := m'.original, reply := m'.reply)
  {
    if subs != [] {
      SubsApart(m, m', subs[..|subs| - 1]);
    }
  }

  /** A deleted message is read as before but for its deleted flag. */
  lemma DeleteShown(a: Area, n: U32)
    requires FindLive(a.base, n).Some?
    ensures var i := FindLive(a.base, n).value; var was := Load(n, a.base[i]); var b := AfterDelete(a, n);
            && ReadsAs(a, b, i, n, was.(flags := was.flags.(deleted := true)))
            && b.info == a.info.(activeMsgs := ToU32(a.info.activeMsgs - 1))
  {
    hide LoadSubs;
    var i := FindLive(a.base, n).value;
    var h := a.base[i].hdr;
    LoadsAs(n, a.base[i], MarkDeleted(h));
    MarkedFlags(h);
    FlagsOf(n, a.base[i]);
  }

  lemma MarkedFlags(h: JamHdr)
    ensures GetFlags(MarkDeleted(h).attribute) == GetFlags(h.attribute).(deleted := true)
  {
  }

  lemma FlagsOf(n: U32, s: Stored)
    ensures var m := Load(n, s);
            && m.flags == GetFlags(s.hdr.attribute) && m.read == s.hdr.dateReceived
            && m.original == s.hdr.replyTo && m.reply == s.hdr.replyNext
  {
    hide GetFlags, LoadSubs;
    SubsFlags(LoadHdr(n, s.hdr), s.subs);
  }

  lemma {:induction false} SubsFlags(m: MsgBuf, subs: seq<Subfield>)
    ensures var r := LoadSubs(m, subs);
            r.flags == m.flags && r.read == m.read && r.original == m.original && r.reply == m.reply
  {
    if subs != [] {
      SubsFlags(m, subs[..|subs| - 1]);
    }
  }

  lemma PackSound(a: Area, r: nat, users: Option<seq<U32>>)
    requires Sound(a, r)
    ensures Sound(AfterPack(a, users), 0)
    ensures PackedActive(a) == |LiveOnly(a.base)|
  {
    hide Flat;
    PackKeeps(a.base);
    LiveBound(a.base);
    assert forall i :: 0 <= i < |Packed(a.base)| ==> KeptAt(Packed(a.base), LiveOnly(a.base), i);
  }

  // ----- Sound areas -----

  /** The area JAM_Open creates when there is none. */
  function Created(now: U32): Area {
    Area(JamHdrInfo(SIGNATURE, now, 0, 0, 0, 1, seq(1000, _ => '\0')), [], [])
  }

  /** What soundness means for the files: headers with their subfields tile the header file
      from offset 1024, texts tile the text file, the count is right, and live numbers
      strictly increase along the index. */
  lemma SoundMeans(a: Area, r: nat)
    requires Sound(a, r)
    ensures Off(a.base, 0) == INFO_SIZE && Off(a.base, |a.base|) == |HdrFile(a.info, a.base)|
    ensures TxtOff(a.base, 0) == 0 && TxtOff(a.base, |a.base|) == |Texts(a.base)|
    ensures forall i :: 0 <= i < |a.base| ==>
              && Off(a.base, i + 1) == Off(a.base, i) + HDR_SIZE + a.base[i].hdr.subfieldLen
              && TxtOff(a.base, i) == a.base[i].hdr.txtOffset
              && TxtOff(a.base, i + 1) == a.base[i].hdr.txtOffset + a.base[i].hdr.txtLen
    ensures a.info.activeMsgs == |LivePositions(a.base)|
    ensures LiveIncreasing(a.base)
  {
    hide Flat, HdrBytes;
    OffLast(a.base);
    assert a.base[..0] == [] && Records([]) == "" && Texts([]) == "" by { EmptyFlat(); }
    forall i | 0 <= i < |a.base|
      ensures Off(a.base, i + 1) == Off(a.base, i) + HDR_SIZE + a.base[i].hdr.subfieldLen
      ensures TxtOff(a.base, i) == a.base[i].hdr.txtOffset
      ensures TxtOff(a.base, i + 1) == a.base[i].hdr.txtOffset + a.base[i].hdr.txtLen
    {
      assert WellFormedAt(a.base, i);
      OffStep(a.base, i);
    }
    LiveOnlyPositions(a.base);
  }

  lemma EmptyFlat()
    ensures Records([]) == "" && Texts([]) == ""
  {
  }

  predicate LiveIncreasing(base: seq<Stored>) {
    forall i, j :: 0 <= i < j < |base| && Live(base[i]) && Live(base[j]) ==> Num(base[i]) < Num(base[j])
  }
}
