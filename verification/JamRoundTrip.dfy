/** A message stored by JAM_AddMsg and read back by JAM_Read (lib/jammsg.c), and the lastread
    pointers of a user who has read one (mbsebbs/mail.c). */
module JamRoundTrip {
  import opened Seqs
  import opened LittleEndian
  import opened JamFormat
  import opened JamText
  import opened JamModel
  import opened JamOps
  import opened JamPack
  import opened JamLastRead
  import opened JamRuns
  import opened JamFiles
  import opened JamBase

  /** Body lines short enough never to be wrapped. */
  predicate ShortLines(lines: seq<string>, width: nat) {
    width > 0 && forall l :: l in lines && !IsControl(l) ==> |l| < width && |l| <= MAX_LINE_LENGTH
  }

  lemma {:induction false} ScanShorter(t: string)
    ensures |Scan(t).1| <= |t|
  {
    if t != "" {
      ScanShorter(t[..|t| - 1]);
    }
  }

  lemma ScanEnd(line: string)
    ensures Scan(line + "\r").1 == ""
  {
  }

  lemma NarrowAppend(a: string, line: string, width: nat)
    requires Narrow(a, width) && Scan(a).1 == "" && |line| < width && |line| <= MAX_LINE_LENGTH
    ensures Narrow(a + (line + "\r"), width)
  {
    hide Scan;
    var t := a + (line + "\r");
    forall p | 0 <= p <= |t|
      ensures |Scan(t[..p]).1| < width && |Scan(t[..p]).1| <= MAX_LINE_LENGTH
    {
      if p <= |a| {
        assert t[..p] == a[..p];
      } else {
        var x := (line + "\r")[..p - |a|];
        assert t[..p] == a + x;
        ScanConcat(a, x);
        ScanShorter(x);
        if p == |t| { assert x == line + "\r"; ScanEnd(line); }
      }
    }
  }

  lemma {:induction false} NarrowBody(lines: seq<string>, width: nat)
    requires ShortLines(lines, width)
    ensures Narrow(BodyText(lines), width)
  {
    hide BodyText, Narrow, Scan, IsControl;
    if lines == [] {
      NarrowNothing(width);
    } else {
      var n := |lines| - 1;
      NarrowBody(lines[..n], width);
      BodyScan(lines[..n]);
      BodyStep(lines);
      assert lines[n] in lines;
      if IsControl(lines[n]) {
        assert BodyText(lines[..n]) + "" == BodyText(lines[..n]);
      } else {
        NarrowAppend(BodyText(lines[..n]), lines[n], width);
      }
    }
  }

  lemma NarrowNothing(width: nat)
    requires width > 0
    ensures BodyText([]) == "" && Narrow("", width)
  {
    assert forall p :: 0 <= p <= 0 ==> ""[..p] == "";
  }

  lemma BodyStep(lines: seq<string>)
    requires lines != []
    ensures BodyText(lines) == BodyText(lines[..|lines| - 1]) + LineText(lines[|lines| - 1])
  {
  }

  lemma {:induction false} ShowKeeps(m: MsgBuf, subs: seq<Subfield>)
    ensures ShowIds(m, subs) == m.(msgid := ShowIds(m, subs).msgid)
  {
    if subs != [] {
      ShowKeeps(m, subs[..|subs| - 1]);
    }
  }

  /** The new message is the one its number finds. */
  lemma NewFound(a: Area, r: nat, m: MsgBuf, lines: seq<string>)
    requires Sound(a, r) && BufferFits(m) && (forall l :: l in lines ==> Storable(l)) && !m.flags.deleted
    requires Fits(AfterAdd(a, m, lines).base)
    ensures var b := AfterAdd(a, m, lines).base; var n := |a.base|;
            && Sound(AfterAdd(a, m, lines), RestartAfterAdd(a, r)) && LiveIncreasing(a.base) && LiveIncreasing(b)
            && |b| == n + 1 && b[n] == Compose(a.base, a.info.activeMsgs, m, lines) && FindLive(b, Num(b[n])) == Some(n)
  {
    hide Sound, FindLive, Compose, LiveIncreasing, Fits, Storable;
    var b := AfterAdd(a, m, lines).base;
    AddSound(a, r, m, lines);
    SoundMeans(a, r);
    SoundMeans(AfterAdd(a, m, lines), RestartAfterAdd(a, r));
    NewLive(a, m, lines);
    FoundIs(b, |a.base|, Num(b[|a.base|]));
  }

  lemma NewLive(a: Area, m: MsgBuf, lines: seq<string>)
    requires !m.flags.deleted
    ensures Live(Compose(a.base, a.info.activeMsgs, m, lines))
  {
    hide HeadSubs, LinesSubs, BodyText, Texts, SubsBytes, OrFlags;
    FlagsBack(m.flags);
  }

  /** Storing the message in the buffer and reading it back: names, subject, dates, links and
      all stored flags return.  Of the lines the kludges come first, then the body, then the
      routing lines, each section in order and each line as storing left it; they are all back
      exactly when every line is faithful. */
  method StoreAndRead(jam: MessageBase, width: nat, ghost r: nat) returns (ok: bool)
    requires jam.Valid() && Sound(jam.Contents(), r)
    requires BufferFits(jam.msg) && (forall l :: l in jam.text ==> Storable(l)) && !jam.msg.flags.deleted
    requires Fits(AfterAdd(jam.Contents(), jam.msg, jam.text).base) && ShortLines(jam.text, width)
    modifies jam
    ensures jam.Valid() && ok
    ensures jam.Contents() == AfterAdd(old(jam.Contents()), old(jam.msg), old(jam.text))
    ensures var m, b := old(jam.msg), jam.msg;
            && b.from == m.from && b.to == m.to && b.subject == m.subject && b.toAddress == m.toAddress
            && (m.fromAddress != "" ==> b.fromAddress == m.fromAddress)
            && b.flags == m.flags && b.written == m.written && b.arrived == m.arrived && b.read == m.read
            && b.reply == m.reply && b.original == m.original
    ensures jam.text == AsShown(old(jam.text))
    ensures jam.text == AsWritten(old(jam.text)) <==> forall l :: l in old(jam.text) ==> Faithful(l)
  {
    hide Sound, FindLive, Compose, LiveIncreasing, Fits, Storable, Flat, AfterAdd, Load, ReadLines, ShowIds,
         ShortLines, Faithful, Narrow, BufferFits, AsShown, AsWritten;
    ghost var a, m, lines := jam.Contents(), jam.msg, jam.text;
    NewFound(a, r, m, lines);
    NarrowBody(lines, width);
    ComposedText(a.base, a.info.activeMsgs, m, lines);
    jam.AddMsg();
    ghost var s := jam.base[|a.base|];
    var n := jam.msg.id;
    LastIs(jam.base, a.base);
    ok := jam.Read(n, width);
    StoredThenLoaded(a.base, a.info.activeMsgs, m, lines, n);
    StoredThenShown(a.base, a.info.activeMsgs, m, lines);
    ShowKeeps(Load(n, s), s.subs);
  }

  lemma LastIs(b: seq<Stored>, base: seq<Stored>)
    requires |b| == |base| + 1
    ensures b[|b| - 1] == b[|base|]
  {
  }

  lemma ComposedText(base: seq<Stored>, active: U32, m: MsgBuf, lines: seq<string>)
    ensures Compose(base, active, m, lines).text == BodyText(lines)
  {
  }

  /** Read_a_Msg, when it has shown message num.  With the area locked, the user's pointers are
      changed or added when the caller wants that, and always for netmail. */
  method MarkRead(jam: MessageBase, user: LastRead, num: U32, highest: U32, locked: bool, updateLR: bool, netmail: bool)
    requires jam.Valid()
    modifies jam`lrFile, jam`lastReadRec
    ensures jam.Valid()
    ensures jam.Contents() == if locked && (updateLR || netmail) then AfterMark(old(jam.Contents()), user, num, highest)
                              else old(jam.Contents())
  {
    hide FindLast, Indexed, WellFormed, Fits, HdrFile, Texts;
    if !locked || !(updateLR || netmail) {
      return;
    }
    var found, lr := jam.GetLastRead(user);
    if found {
      lr := lr.(lastReadMsg := num);
      if num > lr.highReadMsg {
        lr := lr.(highReadMsg := num);
      }
      if lr.highReadMsg > highest {
        lr := lr.(highReadMsg := highest);
      }
      jam.SetLastRead(lr);
    } else {
      jam.NewLastRead(user.(lastReadMsg := num, highReadMsg := num));
    }
  }
}
