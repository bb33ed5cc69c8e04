/** What each operation of lib/jammsg.c does to the list of stored messages. */
module JamOps {
  import opened Seqs
  import opened LittleEndian
  import opened JamFormat
  import opened JamText
  import opened JamModel

  predicate Live(s: Stored) {
    !s.hdr.attribute[DELETED_BIT]
  }

  function KeepLive(s: Stored): seq<Stored> {
    if Live(s) then [s] else []
  }

  /** The live messages in index order. */
  function LiveOnly(base: seq<Stored>): seq<Stored> {
    Flat(KeepLive, base)
  }

  function Num(s: Stored): U32 {
    s.hdr.msgNum
  }

  // ----- Adding -----

  function SetFlags(h: JamHdr, m: MsgBuf): JamHdr {
    h.(attribute := OrFlags(h.attribute, m.flags), replyTo := m.original, replyNext := m.reply,
       dateReceived := m.read, msgIdCRC := m.msgIdCRC, replyCRC := m.replyCRC)
  }

  const ZERO_HDR := JamHdr(0, 0, 0, 0, 0, 0, 0, 0, 0, 0, 0, 0, 0, NoBits(), 0, 0, 0, 0, 0)

  function NewHdr(num: U32, m: MsgBuf): JamHdr {
    SetFlags(ZERO_HDR.(signature := SIGNATURE, revision := REVISION, msgNum := num,
                       dateWritten := m.written, dateProcessed := m.arrived), m)
  }

  /** The subfields JAM_AddMsg writes before the message's own lines. */
  function HeadSubs(m: MsgBuf): seq<Subfield> {
    [Subfield(SENDERNAME, m.from)]
    + (if m.to != "" then [Subfield(RECVRNAME, m.to)] else [])
    + [Subfield(SUBJECT, m.subject)]
    + (if m.fromAddress != "" then [Subfield(OADDRESS, m.fromAddress)] else [])
    + (if m.toAddress != "" then [Subfield(DADDRESS, m.toAddress)] else [])
  }

  /** JAM_Highest: the number of the last indexed message, live or not, unless the base
      counts no active message. */
  function Highest(base: seq<Stored>, active: U32): U32 {
    if active > 0 && base != [] then Num(base[|base| - 1]) else 0
  }

  function Compose(base: seq<Stored>, active: U32, m: MsgBuf, lines: seq<string>): Stored {
    var subs := HeadSubs(m) + LinesSubs(lines);
    var text := BodyText(lines);
    Stored(NewHdr(ToU32(Highest(base, active) + 1), m).(
             subfieldLen := ToU32(|SubsBytes(subs)|),
             txtOffset := ToU32(|Texts(base)|),
             txtLen := ToU32(|text|)),
           subs, text)
  }

  /** A line whose stored subfield fits the buffers it is read back to, and which the
      "\001Via" case, that skips five chars, does not run past. */
  predicate Storable(line: string) {
    line != [SOH] + "Via" && (LineSubs(line) != [] ==> Readable(LineSubs(line)[0]))
  }

  function Counted(info: JamHdrInfo, delta: int): JamHdrInfo {
    info.(activeMsgs := ToU32(info.activeMsgs + delta))
  }

  // ----- Finding -----

  predicate IsLiveNumber(s: Stored, n: U32) {
    Live(s) && Num(s) == n
  }

  /** One linear search: the first live message numbered n. */
  function FindLive(base: seq<Stored>, n: U32): (r: Option<nat>)
    ensures r.Some? ==> r.value < |base| && IsLiveNumber(base[r.value], n)
                        && forall j :: 0 <= j < r.value ==> !IsLiveNumber(base[j], n)
    ensures r.None? ==> forall j :: 0 <= j < |base| ==> !IsLiveNumber(base[j], n)
  {
    if base == [] then None
    else
      var k := |base| - 1;
      var r := FindLive(base[..k], n);
      if r.Some? then r
      else if IsLiveNumber(base[k], n) then Some(k)
      else None
  }

  // ----- Changing one header -----

  function MarkDeleted(h: JamHdr): JamHdr {
    h.(attribute := h.attribute[DELETED_BIT := true])
  }

  /** `Attribute &= MSG_DELETED`. */
  function OnlyDeleted(a: Bits32): Bits32 {
    NoBits()[DELETED_BIT := a[DELETED_BIT]]
  }

  function Rewrite(h: JamHdr, m: MsgBuf): JamHdr {
    SetFlags(h.(attribute := OnlyDeleted(h.attribute)), m)
  }

  function SetHdr(base: seq<Stored>, i: nat, h: JamHdr): seq<Stored>
    requires i < |base|
  {
    base[i := base[i].(hdr := h)]
  }

  // ----- Reading -----

  /** JAM_ReadHeader's action on one subfield. */
  function LoadSub(m: MsgBuf, s: Subfield): MsgBuf {
    if s.id == SENDERNAME then m.(from := Clip(s.data, NAME_LEN))
    else if s.id == RECVRNAME then m.(to := Clip(s.data, NAME_LEN))
    else if s.id == SUBJECT then m.(subject := Clip(s.data, NAME_LEN))
    else if s.id == OADDRESS then m.(fromAddress := Clip(s.data, NAME_LEN))
    else if s.id == DADDRESS then m.(toAddress := Clip(s.data, NAME_LEN))
    else if s.id == MSGID then m.(msgid := s.data)
    else if s.id == REPLYID then m.(replyid := s.data)
    else m
  }

  function LoadSubs(m: MsgBuf, subs: seq<Subfield>): MsgBuf {
    if subs == [] then m else LoadSub(LoadSubs(m, subs[..|subs| - 1]), subs[|subs| - 1])
  }

  function LoadHdr(n: U32, h: JamHdr): MsgBuf {
    EMPTY_MSG.(id := n, current := n, flags := GetFlags(h.attribute), written := h.dateWritten,
               arrived := h.dateProcessed, read := h.dateReceived, original := h.replyTo, reply := h.replyNext)
  }

  /** The part of a MSGID line up to the first '@' or space. */
  function MsgidAddress(s: string): string {
    if s == "" || s[0] == '@' || s[0] == ' ' then "" else [s[0]] + MsgidAddress(s[1..])
  }

  function FillAddress(m: MsgBuf): MsgBuf {
    if m.fromAddress == "" && m.msgid != "" then m.(fromAddress := MsgidAddress(m.msgid)) else m
  }

  /** The buffer after JAM_ReadHeader found message s under number n. */
  function Load(n: U32, s: Stored): MsgBuf {
    FillAddress(LoadSubs(LoadHdr(n, s.hdr), s.subs))
  }

  /** The data of the last subfield of a type. */
  function LastOf(subs: seq<Subfield>, id: nat): Option<string> {
    if subs == [] then None
    else if subs[|subs| - 1].id == id then Some(subs[|subs| - 1].data)
    else LastOf(subs[..|subs| - 1], id)
  }

  /** What is loaded for a type: its last subfield, or what was there. */
  function Loaded(subs: seq<Subfield>, id: nat, was: string): string {
    var d := LastOf(subs, id);
    if d.None? then was else if id in {MSGID, REPLYID} then d.value else Clip(d.value, NAME_LEN)
  }

  /** Each subfield type fills its own field of the buffer and no other. */
  lemma {:induction false} LoadsByType(m: MsgBuf, subs: seq<Subfield>)
    ensures LoadSubs(m, subs) == m.(
              from := Loaded(subs, SENDERNAME, m.from), to := Loaded(subs, RECVRNAME, m.to),
              subject := Loaded(subs, SUBJECT, m.subject), fromAddress := Loaded(subs, OADDRESS, m.fromAddress),
              toAddress := Loaded(subs, DADDRESS, m.toAddress), msgid := Loaded(subs, MSGID, m.msgid),
              replyid := Loaded(subs, REPLYID, m.replyid))
  {
    if subs != [] {
      hide Clip;
      LoadsByType(m, subs[..|subs| - 1]);
    }
  }

  /** The address of a MSGID line is what stands before its first '@' or space. */
  lemma {:induction false} MsgidAddressIs(s: string)
    ensures var r := MsgidAddress(s);
            && r <= s && '@' !in r && ' ' !in r
            && (r != s ==> s[|r|] in {'@', ' '})
  {
    if s != "" && s[0] != '@' && s[0] != ' ' {
      MsgidAddressIs(s[1..]);
      assert s == [s[0]] + s[1..];
    }
  }

  /** The sender's address that is read: that of the OADDRESS subfield, or of the MSGID line when
      there is none or it is empty. */
  lemma SenderAddress(n: U32, s: Stored)
    ensures var own := Loaded(s.subs, OADDRESS, ""); var id := Loaded(s.subs, MSGID, "");
            && Load(n, s).fromAddress == (if own != "" || id == "" then own else MsgidAddress(id))
            && Load(n, s).msgid == id && Load(n, s).replyid == Loaded(s.subs, REPLYID, "")
  {
    hide LoadSubs, Loaded, MsgidAddress, GetFlags;
    LoadsByType(LoadHdr(n, s.hdr), s.subs);
  }

  lemma BitBack(f: Flags, k: nat)
    requires k < 32
    ensures OrFlags(NoBits(), f)[k] == FlagBit(f, k)
  {
  }

  lemma FlagsBackLow(f: Flags)
    ensures var g := GetFlags(OrFlags(NoBits(), f));
            && g.local == f.local && g.intransit == f.intransit && g.isPrivate == f.isPrivate
            && g.received == f.received && g.sent == f.sent && g.killSent == f.killSent
            && g.archiveSent == f.archiveSent && g.hold == f.hold && g.crash == f.crash
            && g.immediate == f.immediate && g.direct == f.direct && g.gate == f.gate
            && g.fileRequest == f.fileRequest && g.fileAttach == f.fileAttach && g.truncFile == f.truncFile
  {
    hide OrFlags;
    BitBack(f, 0); BitBack(f, 1); BitBack(f, 2); BitBack(f, 3); BitBack(f, 4); BitBack(f, 5); BitBack(f, 6);
    BitBack(f, 7); BitBack(f, 8); BitBack(f, 9); BitBack(f, 10); BitBack(f, 11); BitBack(f, 12);
    BitBack(f, 13); BitBack(f, 14);
  }

  lemma FlagsBackHigh(f: Flags)
    ensures var g := GetFlags(OrFlags(NoBits(), f));
            && g.killFile == f.killFile && g.receiptRequest == f.receiptRequest
            && g.confirmRequest == f.confirmRequest && g.orphan == f.orphan && g.encrypt == f.encrypt
            && g.compressed == f.compressed && g.escaped == f.escaped && g.forcePU == f.forcePU
            && g.localmail == f.localmail && g.echomail == f.echomail && g.netmail == f.netmail
            && g.nodisplay == f.nodisplay && g.locked == f.locked && g.deleted == f.deleted
  {
    hide OrFlags;
    BitBack(f, 15); BitBack(f, 16); BitBack(f, 17); BitBack(f, 18); BitBack(f, 19); BitBack(f, 20);
    BitBack(f, 21); BitBack(f, 22); BitBack(f, 23); BitBack(f, 24); BitBack(f, 25); BitBack(f, 29);
    BitBack(f, 30); BitBack(f, 31);
  }

  /** No flag is lost in the attribute word, and none takes another's bit. */
  lemma FlagsBack(f: Flags)
    ensures GetFlags(OrFlags(NoBits(), f)) == f
  {
    hide GetFlags, OrFlags;
    FlagsBackLow(f);
    FlagsBackHigh(f);
  }

  /** The attribute word on disk. */
  function AttributeWord(f: Flags): U32 {
    BitsWord(OrFlags(NoBits(), f))
  }

  predicate Has(w: U32, mask: nat)
    requires mask > 0
  {
    w / mask % 2 == 1
  }

  lemma AttributeBit(f: Flags, k: nat)
    requires k < 32
    ensures Has(AttributeWord(f), Pow2(k)) <==> FlagBit(f, k)
  {
    BitOfValue(OrFlags(NoBits(), f), k);
    BitBack(f, k);
  }

  lemma LowPowers()
    ensures Pow2(0) == 0x1 && Pow2(1) == 0x2 && Pow2(2) == 0x4 && Pow2(3) == 0x8 && Pow2(4) == 0x10
    ensures Pow2(5) == 0x20 && Pow2(6) == 0x40 && Pow2(7) == 0x80 && Pow2(8) == 0x100 && Pow2(9) == 0x200
    ensures Pow2(10) == 0x400 && Pow2(11) == 0x800 && Pow2(12) == 0x1000 && Pow2(13) == 0x2000 && Pow2(14) == 0x4000
  {
  }

  lemma HighPowers()
    ensures Pow2(15) == 0x8000 && Pow2(16) == 0x10000 && Pow2(17) == 0x20000 && Pow2(18) == 0x40000
    ensures Pow2(19) == 0x80000 && Pow2(20) == 0x100000 && Pow2(21) == 0x200000 && Pow2(22) == 0x400000
    ensures Pow2(23) == 0x800000 && Pow2(24) == 0x1000000 && Pow2(25) == 0x2000000
    ensures Pow2(29) == 0x20000000 && Pow2(30) == 0x40000000 && Pow2(31) == 0x80000000
  {
    LowPowers();
    assert Pow2(26) == 0x4000000 && Pow2(27) == 0x8000000 && Pow2(28) == 0x10000000;
  }

  /** Every flag has the value in the attribute word that lib/jam.h gives it. */
  lemma FlagValuesLow(f: Flags)
    ensures var w := AttributeWord(f);
            && (f.local <==> Has(w, 0x1)) && (f.intransit <==> Has(w, 0x2))
            && (f.isPrivate <==> Has(w, 0x4)) && (f.received <==> Has(w, 0x8))
            && (f.sent <==> Has(w, 0x10)) && (f.killSent <==> Has(w, 0x20))
            && (f.archiveSent <==> Has(w, 0x40)) && (f.hold <==> Has(w, 0x80))
            && (f.crash <==> Has(w, 0x100)) && (f.immediate <==> Has(w, 0x200))
            && (f.direct <==> Has(w, 0x400)) && (f.gate <==> Has(w, 0x800))
            && (f.fileRequest <==> Has(w, 0x1000)) && (f.fileAttach <==> Has(w, 0x2000))
            && (f.truncFile <==> Has(w, 0x4000))
  {
    hide AttributeWord, Pow2, Has;
    LowPowers();
    AttributeBit(f, 0); AttributeBit(f, 1); AttributeBit(f, 2); AttributeBit(f, 3); AttributeBit(f, 4);
    AttributeBit(f, 5); AttributeBit(f, 6); AttributeBit(f, 7); AttributeBit(f, 8); AttributeBit(f, 9);
    AttributeBit(f, 10); AttributeBit(f, 11); AttributeBit(f, 12); AttributeBit(f, 13); AttributeBit(f, 14);
  }

  lemma FlagValuesMiddle(f: Flags)
    ensures var w := AttributeWord(f);
            && (f.killFile <==> Has(w, 0x8000)) && (f.receiptRequest <==> Has(w, 0x10000))
            && (f.confirmRequest <==> Has(w, 0x20000)) && (f.orphan <==> Has(w, 0x40000))
            && (f.encrypt <==> Has(w, 0x80000)) && (f.compressed <==> Has(w, 0x100000))
            && (f.escaped <==> Has(w, 0x200000)) && (f.forcePU <==> Has(w, 0x400000))
  {
    hide AttributeWord, Pow2, Has;
    HighPowers();
    AttributeBit(f, 15); AttributeBit(f, 16); AttributeBit(f, 17); AttributeBit(f, 18); AttributeBit(f, 19);
    AttributeBit(f, 20); AttributeBit(f, 21); AttributeBit(f, 22);
  }

  lemma FlagValuesHigh(f: Flags)
    ensures var w := AttributeWord(f);
            && (f.localmail <==> Has(w, 0x800000)) && (f.echomail <==> Has(w, 0x1000000))
            && (f.netmail <==> Has(w, 0x2000000)) && (f.nodisplay <==> Has(w, 0x20000000))
            && (f.locked <==> Has(w, 0x40000000)) && (f.deleted <==> Has(w, 0x80000000))
  {
    hide AttributeWord, Pow2, Has;
    HighPowers();
    AttributeBit(f, 23); AttributeBit(f, 24); AttributeBit(f, 25); AttributeBit(f, 29); AttributeBit(f, 30);
    AttributeBit(f, 31);
  }

  lemma LineSubIds(line: string)
    ensures |LineSubs(line)| <= 1
    ensures LineSubs(line) != [] ==> LineSubs(line)[0].id in {PID, MSGID, REPLYID, PATH2D, TRACE, SEENBY2D, FTSKLUDGE}
  {
  }

  lemma {:induction false} LoadConcat(m: MsgBuf, a: seq<Subfield>, b: seq<Subfield>)
    ensures LoadSubs(m, a + b) == LoadSubs(LoadSubs(m, a), b)
  {
    if b == [] {
      assert a + b == a;
    } else {
      assert (a + b)[..|a + b| - 1] == a + b[..|b| - 1];
      LoadConcat(m, a, b[..|b| - 1]);
    }
  }

  lemma LoadOne(m: MsgBuf, subs: seq<Subfield>)
    requires |subs| <= 1
    requires subs != [] ==> subs[0].id in {PID, MSGID, REPLYID, PATH2D, TRACE, SEENBY2D, FTSKLUDGE}
    ensures LoadSubs(m, subs).(msgid := m.msgid, replyid := m.replyid) == m
  {
    if subs != [] {
      assert LoadSubs(m, subs[..0]) == m;
    }
  }

  /** Lines give no name, subject or address subfield. */
  lemma {:induction false} LoadLines(m: MsgBuf, lines: seq<string>)
    ensures LoadSubs(m, LinesSubs(lines)).(msgid := m.msgid, replyid := m.replyid) == m
  {
    if lines != [] {
      hide LineSubs, LoadSubs;
      var k := |lines| - 1;
      var before, last := LinesSubs(lines[..k]), LineSubs(lines[k]);
      LoadLines(m, lines[..k]);
      LineSubIds(lines[k]);
      LoadConcat(m, before, last);
      LoadOne(LoadSubs(m, before), last);
    }
  }

  lemma LoadIf(m: MsgBuf, before: seq<Subfield>, c: bool, s: Subfield)
    ensures LoadSubs(m, before + if c then [s] else [])
         == if c then LoadSub(LoadSubs(m, before), s) else LoadSubs(m, before)
  {
    if c {
      assert (before + [s])[..|before|] == before;
    } else {
      assert before + [] == before;
    }
  }

  lemma LoadNone(m: MsgBuf)
    ensures LoadSubs(m, []) == m
  {
  }

  /** A name that fits its field is loaded whole. */
  lemma LoadName(m: MsgBuf, x: string)
    requires |x| <= NAME_LEN
    ensures LoadSub(m, Subfield(SENDERNAME, x)) == m.(from := x) && LoadSub(m, Subfield(RECVRNAME, x)) == m.(to := x)
    ensures LoadSub(m, Subfield(SUBJECT, x)) == m.(subject := x)
    ensures LoadSub(m, Subfield(OADDRESS, x)) == m.(fromAddress := x)
    ensures LoadSub(m, Subfield(DADDRESS, x)) == m.(toAddress := x)
  {
  }

  lemma LoadHead(m0: MsgBuf, m: MsgBuf)
    requires BufferFits(m) && m0.to == "" && m0.fromAddress == "" && m0.toAddress == ""
    ensures LoadSubs(m0, HeadSubs(m)) == m0.(from := m.from, to := m.to, subject := m.subject,
                                             fromAddress := m.fromAddress, toAddress := m.toAddress)
  {
    hide LoadSubs, LoadSub, Clip;
    var s1 := [Subfield(SENDERNAME, m.from)];
    var s2 := s1 + if m.to != "" then [Subfield(RECVRNAME, m.to)] else [];
    var s3 := s2 + [Subfield(SUBJECT, m.subject)];
    var s4 := s3 + if m.fromAddress != "" then [Subfield(OADDRESS, m.fromAddress)] else [];
    LoadNone(m0);
    assert [] + s1 == s1;
    LoadIf(m0, [], true, Subfield(SENDERNAME, m.from));
    LoadName(m0, m.from);
    var m1 := m0.(from := m.from);
    LoadIf(m0, s1, m.to != "", Subfield(RECVRNAME, m.to));
    LoadName(m1, m.to);
    var m2 := m1.(to := m.to);
    LoadIf(m0, s2, true, Subfield(SUBJECT, m.subject));
    LoadName(m2, m.subject);
    var m3 := m2.(subject := m.subject);
    LoadIf(m0, s3, m.fromAddress != "", Subfield(OADDRESS, m.fromAddress));
    LoadName(m3, m.fromAddress);
    LoadIf(m0, s4, m.toAddress != "", Subfield(DADDRESS, m.toAddress));
    LoadName(m3.(fromAddress := m.fromAddress), m.toAddress);
  }

  /** Reading the header of a message just stored gives its names, subject, dates, links
      and every stored flag back. */
  lemma StoredThenLoaded(base: seq<Stored>, active: U32, m: MsgBuf, lines: seq<string>, n: U32)
    requires BufferFits(m)
    ensures var r := Load(n, Compose(base, active, m, lines));
            && r.from == m.from && r.to == m.to && r.subject == m.subject && r.toAddress == m.toAddress
            && (m.fromAddress != "" ==> r.fromAddress == m.fromAddress)
            && r.flags == m.flags
            && r.written == m.written && r.arrived == m.arrived && r.read == m.read
            && r.reply == m.reply && r.original == m.original
  {
    var s := Compose(base, active, m, lines);
    var m0 := LoadHdr(n, s.hdr);
    LoadConcat(m0, HeadSubs(m), LinesSubs(lines));
    LoadHead(m0, m);
    LoadLines(LoadSubs(m0, HeadSubs(m)), lines);
    FlagsBack(m.flags);
  }

  lemma HeadSilent(m: MsgBuf)
    ensures forall s :: s in HeadSubs(m) ==> Silent(s)
  {
  }

  /** And reading its text gives the lines, section by section, each as storing left it: all of
      them back exactly when every line is faithful. */
  lemma StoredThenShown(base: seq<Stored>, active: U32, m: MsgBuf, lines: seq<string>)
    ensures var s := Compose(base, active, m, lines);
            && ReadLines(s.subs, s.text) == AsShown(lines)
            && (ReadLines(s.subs, s.text) == AsWritten(lines) <==> forall l :: l in lines ==> Faithful(l))
  {
    hide HeadSubs, AsShown, AsWritten, NewHdr, ReadLines, Faithful, BodyText, LinesSubs;
    HeadSilent(m);
    StoredThenRead(HeadSubs(m), lines);
    WholeExactly(lines);
  }
}
