/** The JAM message base as lib/jammsg.c works on it: four files, a cursor in the index,
    and the buffers its functions share. */
module JamBase {
  import opened Seqs
  import opened LittleEndian
  import opened JamFormat
  import opened JamText
  import opened JamModel
  import opened JamOps
  import opened JamPack
  import opened JamLastRead
  import opened JamRuns
  import opened JamFiles

  class MessageBase {
    var hdrFile: string
    var txtFile: string
    var idxFile: seq<IdxRec>
    var lrFile: seq<LastRead>
    /** The position in the index file, in records. */
    var idxPos: nat
    /** The record of the lastread file the last search stopped at. */
    var lastReadRec: nat
    var info: JamHdrInfo
    var hdr: JamHdr
    var msg: MsgBuf
    /** The lines of the message text. */
    var text: seq<string>
    /** The messages the files hold. */
    ghost var base: seq<Stored>

    ghost predicate Valid()
      reads this
    {
      && hdrFile == HdrFile(info, base)
      && txtFile == Texts(base)
      && Indexed(idxFile, base)
      && WellFormed(base) && Fits(base)
      && idxPos <= |idxFile| == |base|
    }

    ghost function Contents(): Area
      reads this
    {
      Area(info, base, lrFile)
    }

    /** JAM_Open when there are no files yet. */
    constructor (now: U32)
      ensures Valid() && Contents() == Created(now)
    {
      hdrFile := InfoBytes(Created(now).info);
      txtFile, idxFile, lrFile := "", [], [];
      idxPos, lastReadRec := 0, 0;
      info := Created(now).info;
      hdr := ZERO_HDR;
      msg := EMPTY_MSG;
      text := [];
      base := [];
    }

    /** JAM_Open of the files that are there. */
    method Open()
      requires Valid()
      modifies this`info, this`idxPos, this`msg
      ensures Valid() && Contents() == old(Contents())
      ensures idxPos == 0 && msg == old(msg).(id := 0)
    {
      hide Flat, ParseInfo, InfoBytes, WellFormed, Indexed, Fits;
      InfoBack(info, base);
      info := ParseInfo(hdrFile[..INFO_SIZE]);
      idxPos := 0;
      msg := msg.(id := 0);
    }

    /** Read the next index record and the header it points at. */
    method ReadIndexed() returns (got: bool)
      requires Valid()
      modifies this`idxPos, this`hdr
      ensures Valid()
      ensures got == (old(idxPos) < |base|)
      ensures got ==> idxPos == old(idxPos) + 1 && hdr == base[old(idxPos)].hdr
      ensures got ==> hdr.msgNum == Num(base[old(idxPos)]) && (hdr.attribute[DELETED_BIT] <==> !Live(base[old(idxPos)]))
      ensures !got ==> idxPos == old(idxPos) && hdr == old(hdr)
    {
      hide Flat, HdrBytes, ParseHdr, WellFormed, HdrFile, HdrAt, SubsBytes;
      got := idxPos < |idxFile|;
      if got {
        OffInside(base, idxPos);
        ReadBack(info, base, idxPos);
        hdr := HdrAt(hdrFile, idxFile[idxPos].hdrOffset);
        idxPos := idxPos + 1;
      }
    }

    method Highest() returns (n: U32)
      requires Valid()
      modifies this`idxPos, this`hdr, this`msg
      ensures Valid() && n == JamOps.Highest(base, info.activeMsgs) && msg == old(msg).(id := n)
    {
      hide HdrFile, Texts, WellFormed, Fits, Indexed;
      n := 0;
      if info.activeMsgs > 0 {
        // A seek before the start of an empty index fails and leaves the cursor alone.
        if |idxFile| > 0 { idxPos := |idxFile| - 1; }
        var got := ReadIndexed();
        if got { n := hdr.msgNum; }
      }
      msg := msg.(id := n);
    }

    method Lowest() returns (n: U32)
      requires Valid()
      modifies this`idxPos, this`hdr, this`msg
      ensures Valid() && msg == old(msg).(id := n)
      ensures n == if info.activeMsgs > 0 && base != [] then Num(base[0]) else 0
    {
      hide HdrFile, Texts, WellFormed, Fits, Indexed;
      n := 0;
      if info.activeMsgs > 0 {
        idxPos := 0;
        var got := ReadIndexed();
        if got { n := hdr.msgNum; }
      }
      msg := msg.(id := n);
    }

    /** JAM_Next's scan from the beginning of the index. */
    method ScanAbove(n: U32) returns (ok: bool, m: U32)
      requires Valid() && LiveIncreasing(base)
      modifies this`idxPos, this`hdr
      ensures Valid()
      ensures ok ==> IsNext(base, n, m) && 0 < idxPos && IsLiveNumber(base[idxPos - 1], m)
      ensures !ok ==> m == n && AtMostBefore(base, |base|, n)
    {
      hide HdrFile, Texts, WellFormed, Fits, Indexed, LiveIncreasing, IsNext, AtMostBefore, Live, Num;
      ok, m := false, n;
      ScanEnds(base, n);
      idxPos := 0;
      var again := true;
      while again
        invariant Valid() && (again || ok || idxPos == |base|) && (again ==> !ok)
        invariant !ok ==> m == n && AtMostBefore(base, idxPos, n)
        invariant ok ==> IsNext(base, n, m) && 0 < idxPos && IsLiveNumber(base[idxPos - 1], m)
        decreases |base| - idxPos, again
      {
        var got := ReadIndexed();
        if got && !hdr.attribute[DELETED_BIT] && hdr.msgNum > m {
          FoundNext(base, idxPos - 1, n);
          m := hdr.msgNum;
          ok := true;
        } else if got {
          PassedUp(base, idxPos - 1, n);
        }
        again := !ok && idxPos < |idxFile|;
      }
    }

    /** JAM_Next's first attempt: from just before the cursor, look for live message n and
        then for the next live one. */
    method SearchOn(n: U32) returns (seen: bool, ok: bool, m: U32)
      requires Valid() && LiveIncreasing(base)
      modifies this`idxPos, this`hdr
      ensures Valid()
      ensures ok ==> IsNext(base, n, m) && 0 < idxPos && IsLiveNumber(base[idxPos - 1], m)
      ensures !ok ==> m == n && (seen ==> AtMostBefore(base, |base|, n))
    {
      hide HdrFile, Texts, WellFormed, Fits, Indexed, LiveIncreasing, IsNext, AtMostBefore, Live, Num;
      seen, ok, m := false, false, n;
      if idxPos >= 1 { idxPos := idxPos - 1; }
      var again := true;
      while again
        invariant Valid() && (again || ok || idxPos == |base|) && (again ==> !ok)
        invariant !ok ==> m == n && (seen ==> AtMostBefore(base, idxPos, n))
        invariant ok ==> IsNext(base, n, m) && 0 < idxPos && IsLiveNumber(base[idxPos - 1], m)
        decreases |base| - idxPos, again
      {
        var got := ReadIndexed();
        if got {
          if seen && !hdr.attribute[DELETED_BIT] && hdr.msgNum > m {
            FoundNext(base, idxPos - 1, n);
            m := hdr.msgNum;
            ok := true;
          }
          if !hdr.attribute[DELETED_BIT] && hdr.msgNum == m {
            LiveSplits(base, idxPos - 1);
            seen := true;
          } else if seen && !ok {
            PassedUp(base, idxPos - 1, n);
          }
        }
        again := !ok && idxPos < |idxFile|;
      }
    }

    /** The least live number above n, from wherever the cursor is. */
    method Next(n: U32) returns (ok: bool, m: U32)
      requires Valid() && LiveIncreasing(base)
      requires info.activeMsgs > 0 <==> exists i :: 0 <= i < |base| && Live(base[i])
      modifies this`idxPos, this`hdr, this`msg
      ensures Valid()
      ensures ok ==> IsNext(base, n, m) && 0 < idxPos && IsLiveNumber(base[idxPos - 1], m)
      ensures !ok ==> m == n && AtMostBefore(base, |base|, n)
      ensures msg == old(msg).(id := if ok then m else if info.activeMsgs > 0 then 0 else old(msg.id))
    {
      hide HdrFile, Texts, WellFormed, Fits, Indexed, LiveIncreasing, IsNext, AtMostBefore, Live, Num;
      ok, m := false, n;
      ScanEnds(base, n);
      if info.activeMsgs > 0 {
        var mayBeNext;
        mayBeNext, ok, m := SearchOn(n);
        if !ok && !mayBeNext {
          ok, m := ScanAbove(n);
        }
        msg := msg.(id := 0);
        if ok { msg := msg.(id := m); }
      }
    }

    /** JAM_Previous's two scans, down from index position `from`; the first also waits
        until it has seen live message n. */
    method SearchDown(n: U32, from: int, waits: bool) returns (seen: bool, ok: bool, m: U32)
      requires Valid() && LiveIncreasing(base) && -1 <= from < |base|
      requires waits || from == |base| - 1
      modifies this`idxPos, this`hdr
      ensures Valid()
      ensures ok ==> IsPrevious(base, n, m) && 0 < idxPos && IsLiveNumber(base[idxPos - 1], m)
      ensures !ok ==> m == n && (seen || !waits ==> AtLeastFrom(base, 0, n))
    {
      hide HdrFile, Texts, WellFormed, Fits, Indexed, LiveIncreasing, IsPrevious, AtLeastFrom, Live, Num;
      seen, ok, m := false, false, n;
      ScanEnds(base, n);
      var pos := from;
      while !ok && pos >= 0
        invariant Valid() && -1 <= pos < |base|
        invariant !ok ==> m == n && (seen || !waits ==> AtLeastFrom(base, pos + 1, n))
        invariant ok ==> IsPrevious(base, n, m) && 0 < idxPos && IsLiveNumber(base[idxPos - 1], m)
        decreases pos
      {
        idxPos := pos;
        var got := ReadIndexed();
        if got {
          if (seen || !waits) && !hdr.attribute[DELETED_BIT] && hdr.msgNum < m {
            FoundPrevious(base, pos, n);
            m := hdr.msgNum;
            ok := true;
          }
          if !hdr.attribute[DELETED_BIT] && hdr.msgNum == m {
            LiveSplits(base, pos);
            seen := true;
          } else if (seen || !waits) && !ok {
            PassedDown(base, pos, n);
          }
        }
        pos := pos - 1;
      }
    }

    /** The greatest live number below n, from wherever the cursor is. */
    method Previous(n: U32) returns (ok: bool, m: U32)
      requires Valid() && LiveIncreasing(base)
      requires info.activeMsgs > 0 <==> exists i :: 0 <= i < |base| && Live(base[i])
      modifies this`idxPos, this`hdr, this`msg
      ensures Valid()
      ensures ok ==> IsPrevious(base, n, m) && 0 < idxPos && IsLiveNumber(base[idxPos - 1], m)
      ensures !ok ==> m == n && AtLeastFrom(base, 0, n)
      ensures msg == old(msg).(id := if ok then m else if info.activeMsgs > 0 then 0 else old(msg.id))
    {
      hide HdrFile, Texts, WellFormed, Fits, Indexed, LiveIncreasing, IsPrevious, AtLeastFrom, Live, Num;
      ok, m := false, n;
      ScanEnds(base, n);
      if info.activeMsgs > 0 {
        var mayBeNext := false;
        if idxPos >= 1 {
          mayBeNext, ok, m := SearchDown(n, idxPos - 1, true);
        }
        if !ok && !mayBeNext {
          mayBeNext, ok, m := SearchDown(n, |idxFile| - 1, false);
        }
        msg := msg.(id := 0);
        if ok { msg := msg.(id := m); }
      }
    }

    // ----- Reading -----

    /** The scan from the beginning that JAM_ReadHeader and JAM_WriteHeader fall back to. */
    method ScanFor(n: U32) returns (ok: bool)
      requires Valid() && LiveIncreasing(base)
      modifies this`idxPos, this`hdr
      ensures Valid()
      ensures ok ==> 0 < idxPos && FindLive(base, n) == Some(idxPos - 1) && hdr == base[idxPos - 1].hdr
      ensures !ok ==> FindLive(base, n) == None
    {
      hide HdrFile, Texts, WellFormed, Fits, Indexed, LiveIncreasing, NotBefore, FindLive;
      ok := false;
      NotFound(base, n);
      idxPos := 0;
      var again := true;
      while again
        invariant Valid() && (again || ok || idxPos == |base|) && (again ==> !ok)
        invariant !ok ==> NotBefore(base, idxPos, n)
        invariant ok ==> 0 < idxPos && FindLive(base, n) == Some(idxPos - 1) && hdr == base[idxPos - 1].hdr
        decreases |base| - idxPos, again
      {
        var got := ReadIndexed();
        if got && !hdr.attribute[DELETED_BIT] && hdr.msgNum == n {
          FoundIs(base, idxPos - 1, n);
          ok := true;
        } else if got {
          NotBeforeStep(base, idxPos - 1, n);
        }
        again := !ok && idxPos < |idxFile|;
      }
    }

    /** Step the cursor back one record; at the start the seek fails and it stays. */
    method BackOne()
      requires Valid()
      modifies this`idxPos
      ensures Valid() && idxPos == if old(idxPos) > 0 then old(idxPos) - 1 else 0
    {
      if idxPos > 0 { idxPos := idxPos - 1; }
    }

    /** Read the record at the cursor and test it. */
    method TryHere(n: U32) returns (ok: bool)
      requires Valid() && LiveIncreasing(base)
      modifies this`idxPos, this`hdr
      ensures Valid()
      ensures ok ==> 0 < idxPos && FindLive(base, n) == Some(idxPos - 1) && hdr == base[idxPos - 1].hdr
    {
      hide HdrFile, Texts, WellFormed, Fits, Indexed, LiveIncreasing, FindLive;
      var got := ReadIndexed();
      ok := got && !hdr.attribute[DELETED_BIT] && hdr.msgNum == n;
      if ok { FoundIs(base, idxPos - 1, n); }
    }

    /** The three stages of JAM_ReadHeader's lookup: the record before the cursor, when the
        buffer claims it; the record at the cursor, when the buffer claims the one before;
        a scan. */
    method Locate(n: U32) returns (ok: bool)
      requires Valid() && LiveIncreasing(base)
      modifies this`idxPos, this`hdr, this`msg
      ensures Valid()
      ensures ok ==> 0 < idxPos && FindLive(base, n) == Some(idxPos - 1) && hdr == base[idxPos - 1].hdr
      ensures !ok ==> FindLive(base, n) == None && msg == old(msg).(id := 0)
    {
      hide HdrFile, Texts, WellFormed, Fits, Indexed, LiveIncreasing, FindLive;
      ok := false;
      if msg.id == n {
        BackOne();
        ok := TryHere(n);
      }
      if ToU32(msg.id + 1) == n && !ok {
        ok := TryHere(n);
      }
      if !ok {
        msg := msg.(id := 0);
        ok := ScanFor(n);
      }
    }

    /** Put one subfield of a header into the buffer. */
    method TakeSubfield(id: SubId, data: string)
      modifies this`msg
      ensures msg == LoadSub(old(msg), Subfield(id, data))
    {
      match id
      case 2 => msg := msg.(from := if |data| > 100 then data[..100] else data);
      case 3 => msg := msg.(to := if |data| > 100 then data[..100] else data);
      case 6 => msg := msg.(subject := if |data| > 100 then data[..100] else data);
      case 0 => msg := msg.(fromAddress := if |data| > 100 then data[..100] else data);
      case 1 => msg := msg.(toAddress := if |data| > 100 then data[..100] else data);
      case 4 => msg := msg.(msgid := data);
      case 5 => msg := msg.(replyid := data);
      case _ =>
    }

    /** JAM_ReadHeader's three-stage lookup finds what one linear search finds, leaves the
        cursor just past it, and fills the buffer from its header and subfields. */
    method ReadHeader(n: U32) returns (ok: bool)
      requires Valid() && LiveIncreasing(base)
      modifies this`idxPos, this`hdr, this`msg, this`text
      ensures Valid() && text == []
      ensures ok <==> FindLive(base, n).Some?
      ensures ok ==> FindLive(base, n) == Some(idxPos - 1) && hdr == base[idxPos - 1].hdr
                     && msg == Load(n, base[idxPos - 1])
      ensures !ok ==> msg == EMPTY_MSG
    {
      hide HdrFile, Texts, WellFormed, Fits, Indexed, LiveIncreasing, FindLive;
      msg, text := EMPTY_MSG.(id := msg.id), [];
      ok := Locate(n);
      if ok {
        msg := EMPTY_MSG.(id := n, current := n, flags := GetFlags(hdr.attribute), written := hdr.dateWritten,
                          arrived := hdr.dateProcessed, read := hdr.dateReceived,
                          original := hdr.replyTo, reply := hdr.replyNext);
        LoadSubfields(idxPos - 1);
        FillFromAddress();
      }
    }

    /** The walk over the subfields behind the header just read. */
    method LoadSubfields(ghost i: nat)
      requires Valid() && 0 < idxPos && i == idxPos - 1 && hdr == base[i].hdr
      modifies this`msg
      ensures msg == LoadSubs(old(msg), base[i].subs)
    {
      hide Flat, HdrBytes, HdrFile, Texts, SubIdAt, SubLenAt, HdrAt, SubsBytes, WellFormed, Indexed, LoadSubs;
      SubfieldsThere(i);
      ghost var s := base[i];
      var at := idxFile[idxPos - 1].hdrOffset;
      var buf := hdrFile[at + HDR_SIZE..at + HDR_SIZE + hdr.subfieldLen];
      var rest: int := |buf|;
      var pos := 0;
      ghost var k := 0;
      WalkEnds(s, 0);
      while rest > 0
        invariant k <= |s.subs| && rest == |buf| - |SubsBytes(s.subs[..k])|
        invariant rest > 0 ==> pos == |SubsBytes(s.subs[..k])|
        invariant rest == 0 ==> k == |s.subs|
        invariant rest >= 0 && hdr == base[i].hdr && base == old(base) && hdrFile == old(hdrFile)
        invariant msg == LoadSubs(old(msg), s.subs[..k])
        decreases rest
      {
        WalkEnds(s, k);
        WalkStep(s, k);
        WalkEnds(s, k + 1);
        LoadNext(old(msg), s.subs, k);
        var id, len := SubIdAt(buf[pos..]), SubLenAt(buf[pos..]);
        pos := pos + SUB_HDR;
        TakeSubfield(id, buf[pos..][..len]);
        rest := rest - (SUB_HDR + len);
        if rest > 0 { pos := pos + len; }
        k := k + 1;
      }
      assert s.subs[..k] == s.subs;
    }

    /** The index entry, the header and the subfields of message i are where they should be. */
    lemma SubfieldsThere(i: nat)
      requires Valid() && i < |base|
      ensures var at := idxFile[i].hdrOffset; var n := base[i].hdr.subfieldLen;
              && at + HDR_SIZE + n <= |hdrFile| && n == |SubsBytes(base[i].subs)|
              && hdrFile[at + HDR_SIZE..at + HDR_SIZE + n] == SubsBytes(base[i].subs)
      ensures LoadSubs(msg, base[i].subs[..0]) == msg
    {
      hide Flat, HdrBytes, HdrFile, HdrAt, SubsBytes;
      assert WellFormedAt(base, i);
      OffInside(base, i);
      ReadBack(info, base, i);
    }

    /** Without a sender address, take it from the MSGID line. */
    method FillFromAddress()
      modifies this`msg
      ensures msg == FillAddress(old(msg))
    {
      if msg.fromAddress == "" && msg.msgid != "" {
        var address := CopyAddress(msg.msgid);
        msg := msg.(fromAddress := address);
      }
    }

    static method CopyAddress(s: string) returns (address: string)
      ensures address == MsgidAddress(s)
    {
      address := "";
      var i := 0;
      while i < |s| && s[i] != '@' && s[i] != ' '
        invariant i <= |s| && MsgidAddress(s) == address + MsgidAddress(s[i..])
      {
        address := address + [s[i]];
        i := i + 1;
      }
    }

    /** Turn one subfield into a line: before the body at once, after it by way of `bottom`. */
    method ShowSubfield(s: Subfield, bottom: seq<string>) returns (bottom': seq<string>)
      modifies this`msg, this`text
      ensures text == old(text) + TopLine(s) && bottom' == bottom + BottomLine(s)
      ensures msg == if s.id == MSGID then old(msg).(msgid := Clip(s.data, 79)) else old(msg)
    {
      bottom' := bottom;
      match s.id
      case 4 =>
        msg := msg.(msgid := Clip(s.data, 79));
        text := text + [Clip([SOH] + "MSGID: " + s.data, MAX_LINE_LENGTH - 1)];
      case 5 => text := text + [Clip([SOH] + "REPLY: " + s.data, MAX_LINE_LENGTH - 1)];
      case 7 => text := text + [Clip([SOH] + "PID: " + s.data, MAX_LINE_LENGTH - 1)];
      case 8 => text := text + [Clip([SOH] + "Via " + s.data, MAX_LINE_LENGTH - 1)];
      case 2000 =>
        if HasPrefix(s.data, "AREA:") {
          text := text + [Clip(s.data, MAX_LINE_LENGTH - 1)];
        } else {
          text := text + [Clip([SOH] + s.data, MAX_LINE_LENGTH - 1)];
        }
      case 2001 => bottom' := bottom + [Clip("SEEN-BY: " + s.data, MAX_LINE_LENGTH - 1)];
      case 2002 => bottom' := bottom + [Clip([SOH] + "PATH: " + s.data, MAX_LINE_LENGTH - 1)];
      case _ =>
    }

    /** JAM_Read's walk over the subfields. */
    method ShowSubfields(ghost i: nat) returns (bottom: seq<string>)
      requires Valid() && 0 < idxPos && i == idxPos - 1 && hdr == base[i].hdr && text == []
      modifies this`msg, this`text
      ensures text == Flat(TopLine, base[i].subs) && bottom == Flat(BottomLine, base[i].subs)
      ensures msg == ShowIds(old(msg), base[i].subs)
    {
      hide Flat, HdrBytes, HdrFile, Texts, SubIdAt, SubLenAt, HdrAt, SubsBytes, WellFormed, Indexed, ShowIds, TopLine,
           BottomLine;
      SubfieldsThere(i);
      ghost var s := base[i];
      var at := idxFile[idxPos - 1].hdrOffset;
      var buf := hdrFile[at + HDR_SIZE..at + HDR_SIZE + hdr.subfieldLen];
      var rest: int := |buf|;
      var pos := 0;
      ghost var k := 0;
      bottom := [];
      WalkEnds(s, 0);
      ShowStart(msg, s.subs);
      while rest > 0
        invariant k <= |s.subs| && rest == |buf| - |SubsBytes(s.subs[..k])|
        invariant rest > 0 ==> pos == |SubsBytes(s.subs[..k])|
        invariant rest == 0 ==> k == |s.subs|
        invariant rest >= 0 && hdr == base[i].hdr && base == old(base) && hdrFile == old(hdrFile)
        invariant text == Flat(TopLine, s.subs[..k]) && bottom == Flat(BottomLine, s.subs[..k])
        invariant msg == ShowIds(old(msg), s.subs[..k])
        decreases rest
      {
        WalkEnds(s, k);
        WalkStep(s, k);
        WalkEnds(s, k + 1);
        ShowNext(old(msg), s.subs, k);
        var id, len := SubIdAt(buf[pos..]), SubLenAt(buf[pos..]);
        pos := pos + SUB_HDR;
        bottom := ShowSubfield(Subfield(id, buf[pos..][..len]), bottom);
        rest := rest - (SUB_HDR + len);
        if rest > 0 { pos := pos + len; }
        k := k + 1;
      }
      assert s.subs[..k] == s.subs;
    }

    /** Run one block of text through the line builder. */
    method ShowBlock(block: string, line0: string, width: nat, ghost t: string, ghost p: nat, ghost top: seq<string>)
      returns (line: string)
      requires p + |block| <= |t| && block == t[p..p + |block|] && Narrow(t, width)
      requires text == top + Scan(t[..p]).0 && line0 == Scan(t[..p]).1
      modifies this`text
      ensures text == top + Scan(t[..p + |block|]).0 && line == Scan(t[..p + |block|]).1
    {
      hide Scan, Narrow;
      line := line0;
      var nCol := |line|;
      var i := 0;
      while i < |block|
        invariant i <= |block| && nCol == |line|
        invariant text == top + Scan(t[..p + i]).0 && line == Scan(t[..p + i]).1
      {
        ScanStep(t, p + i);
        assert block[i] == t[p + i];
        if block[i] == '\r' {
          text := text + [line];
          line, nCol := "", 0;
        } else if block[i] != '\n' {
          line, nCol := line + [block[i]], nCol + 1;
          NarrowAt(t, width, p + i + 1);
          assert nCol < width;
        }
        i := i + 1;
      }
    }

    /** JAM_Read's copy of the text, in blocks of the buffer's size. */
    method ShowText(width: nat, ghost i: nat)
      requires Valid() && i < |base| && hdr == base[i].hdr && Narrow(base[i].text, width)
      modifies this`text
      ensures text == old(text) + Scan(base[i].text).0
    {
      hide Flat, HdrBytes, HdrFile, SubsBytes, Indexed, Narrow, Scan;
      assert WellFormedAt(base, i);
      ReadBack(info, base, i);
      ghost var t := base[i].text;
      ghost var from := hdr.txtOffset;
      var at := hdr.txtOffset;
      var left: nat := hdr.txtLen;
      var line := "";
      ScanNothing();
      assert t[..0] == "" && old(text) + [] == old(text);
      var again := true;
      while again
        invariant at == from + |t| - left && left <= |t| && (again || left == 0)
        invariant txtFile == old(txtFile) && txtFile[from..from + |t|] == t
        invariant text == old(text) + Scan(t[..|t| - left]).0 && line == Scan(t[..|t| - left]).1
        decreases left, again
      {
        var nRead := if MAX_LINE_LENGTH + 1 > left then left else MAX_LINE_LENGTH + 1;
        var block := txtFile[at..at + nRead];
        SliceSlice(txtFile, from, |t|, |t| - left, nRead);
        line := ShowBlock(block, line, width, t, |t| - left, old(text));
        at := at + nRead;
        left := left - nRead;
        again := left > 0;
      }
      assert t[..|t|] == t;
    }

    method AppendLines(lines: seq<string>)
      modifies this`text
      ensures text == old(text) + lines
    {
      var k := 0;
      while k < |lines|
        invariant k <= |lines| && text == old(text) + lines[..k]
      {
        text := text + [lines[k]];
        k := k + 1;
      }
      assert lines[..k] == lines;
    }

    /** JAM_Read: the header into the buffer, and the lines of the message. */
    method Read(n: U32, width: nat) returns (ok: bool)
      requires Valid() && LiveIncreasing(base)
      requires FindLive(base, n).Some? ==> Narrow(base[FindLive(base, n).value].text, width)
      modifies this`idxPos, this`hdr, this`msg, this`text
      ensures Valid()
      ensures ok <==> FindLive(base, n).Some?
      ensures ok ==> FindLive(base, n) == Some(idxPos - 1)
                     && text == ReadLines(base[idxPos - 1].subs, base[idxPos - 1].text)
                     && msg == ShowIds(Load(n, base[idxPos - 1]), base[idxPos - 1].subs)
    {
      hide Flat, HdrFile, Texts, WellFormed, Fits, Indexed, FindLive, Narrow, Load, Scan, ShowIds;
      text := [];
      ok := ReadHeader(n);
      if ok {
        BackOne();
        var _ := ReadIndexed();
        ghost var s := base[idxPos - 1];
        var bottom := ShowSubfields(idxPos - 1);
        ShowText(width, idxPos - 1);
        AppendLines(bottom);
      }
    }

    // ----- Writing -----

    /** Read the information block, change the counters, and write it back. */
    method UpdateInfo(active: int, modified: int, ghost b: seq<Stored>)
      requires hdrFile == HdrFile(info, b)
      modifies this`hdrFile, this`info
      ensures info == Counted(old(info), active).(modCounter := ToU32(old(info).modCounter + modified))
      ensures hdrFile == HdrFile(info, b)
    {
      hide Flat, ParseInfo, InfoBytes;
      InfoBack(info, b);
      info := ParseInfo(hdrFile[..INFO_SIZE]);
      info := info.(activeMsgs := ToU32(info.activeMsgs + active));
      info := info.(modCounter := ToU32(info.modCounter + modified));
      assert hdrFile[INFO_SIZE..] == Records(b);
      hdrFile := Overwrite(hdrFile, 0, InfoBytes(info));
    }

    /** AddSubfield: append one subfield to the header file. */
    method AddSubfield(id: SubId, data: string) returns (len: U32)
      modifies this`hdrFile
      ensures hdrFile == old(hdrFile) + SubBytes(Subfield(id, data)) && len == ToU32(SUB_HDR + |data|)
    {
      hdrFile := hdrFile + WordsBytes([id, ToU32(|data|)]);
      hdrFile := hdrFile + data;
      len := ToU32(|data| + SUB_HDR);
    }

    /** The header being composed and the subfields written so far. */
    ghost predicate Composing(front: string, subs: seq<Subfield>)
      reads this
    {
      hdrFile == front + SubsBytes(subs) && hdr.subfieldLen == ToU32(|SubsBytes(subs)|)
    }

    method GrowSubfields(id: SubId, data: string, ghost front: string, ghost subs: seq<Subfield>)
      requires Composing(front, subs)
      modifies this`hdrFile, this`hdr
      ensures Composing(front, subs + [Subfield(id, data)])
      ensures hdr == old(hdr).(subfieldLen := hdr.subfieldLen)
    {
      hide SubBytes, SubsBytes, ToU32;
      SubsGrow(subs, Subfield(id, data));
      WordSum(SUB_HDR + |data|, hdr.subfieldLen);
      WordSum(|SubsBytes(subs)|, SUB_HDR + |data|);
      var len := AddSubfield(id, data);
      hdr := hdr.(subfieldLen := ToU32(hdr.subfieldLen + len));
    }

    /** The subfields for the names, the subject and the addresses. */
    method AddHeadSubfields(ghost front: string)
      requires Composing(front, [])
      modifies this`hdrFile, this`hdr
      ensures Composing(front, HeadSubs(msg))
      ensures hdr == old(hdr).(subfieldLen := hdr.subfieldLen)
    {
      hide Composing;
      ghost var s1 := [Subfield(SENDERNAME, msg.from)];
      ghost var s2 := s1 + if msg.to != "" then [Subfield(RECVRNAME, msg.to)] else [];
      ghost var s3 := s2 + [Subfield(SUBJECT, msg.subject)];
      ghost var s4 := s3 + if msg.fromAddress != "" then [Subfield(OADDRESS, msg.fromAddress)] else [];
      GrowSubfields(SENDERNAME, msg.from, front, []);
      assert [] + s1 == s1;
      if msg.to != "" { GrowSubfields(RECVRNAME, msg.to, front, s1); }
      assert msg.to == "" ==> s2 == s1;
      GrowSubfields(SUBJECT, msg.subject, front, s2);
      if msg.fromAddress != "" { GrowSubfields(OADDRESS, msg.fromAddress, front, s3); }
      assert msg.fromAddress == "" ==> s4 == s3;
      if msg.toAddress != "" { GrowSubfields(DADDRESS, msg.toAddress, front, s4); }
      assert msg.toAddress == "" ==> HeadSubs(msg) == s4;
    }

    /** One control line of the message becomes a subfield. */
    method StoreControl(line: string, ghost front: string, ghost subs: seq<Subfield>)
      requires Composing(front, subs) && line != [SOH] + "Via" && IsControl(line)
      modifies this`hdrFile, this`hdr
      ensures Composing(front, subs + LineSubs(line))
      ensures hdr == old(hdr).(subfieldLen := hdr.subfieldLen)
    {
      hide Composing;
      TagsDiffer(line);
      var oke := false;
      if HasPrefix(line, [SOH] + "PID: ") { GrowSubfields(PID, line[6..], front, subs); oke := true; }
      if HasPrefix(line, [SOH] + "MSGID: ") { GrowSubfields(MSGID, line[8..], front, subs); oke := true; }
      if HasPrefix(line, [SOH] + "REPLY: ") { GrowSubfields(REPLYID, line[8..], front, subs); oke := true; }
      if HasPrefix(line, [SOH] + "PATH: ") { GrowSubfields(PATH2D, line[7..], front, subs); oke := true; }
      if HasPrefix(line, [SOH] + "Via") { GrowSubfields(TRACE, line[5..], front, subs); oke := true; }
      if HasPrefix(line, "SEEN-BY: ") { GrowSubfields(SEENBY2D, line[9..], front, subs); oke := true; }
      if !oke && HasPrefix(line, [SOH]) { GrowSubfields(FTSKLUDGE, line[1..], front, subs); oke := true; }
      assert subs + [] == subs;
    }

    /** One line of the message: a control line becomes a subfield, any other is text. */
    method StoreLine(line: string, ghost front: string, ghost subs: seq<Subfield>)
      requires Composing(front, subs) && line != [SOH] + "Via"
      modifies this`hdrFile, this`txtFile, this`hdr
      ensures Composing(front, subs + LineSubs(line))
      ensures txtFile == old(txtFile) + LineText(line)
      ensures hdr == old(hdr).(subfieldLen := hdr.subfieldLen, txtLen := ToU32(old(hdr.txtLen) + |LineText(line)|))
    {
      hide LineSubs, LineText, SubsBytes, ToU32;
      LineCases(line);
      assert txtFile + "" == txtFile && subs + [] == subs;
      if HasPrefix(line, [SOH]) || HasPrefix(line, "SEEN-BY:") {
        StoreControl(line, front, subs);
        WordSum(hdr.txtLen, 0);
      } else {
        WordSum(hdr.txtLen + |line|, 1);
        txtFile := txtFile + line;
        hdr := hdr.(txtLen := ToU32(hdr.txtLen + |line|));
        txtFile := txtFile + "\r";
        hdr := hdr.(txtLen := ToU32(hdr.txtLen + 1));
        assert old(txtFile) + line + "\r" == old(txtFile) + (line + "\r");
      }
    }

    /** Write the message in the buffer, numbered num, at the end of the files: its index
        record, a first header, its subfields, its text, and the final header. */
    method WriteMessage(num: U32, ghost s: Stored)
      requires forall l :: l in text ==> Storable(l)
      requires s.subs == HeadSubs(msg) + LinesSubs(text) && s.text == BodyText(text)
      requires s.hdr == NewHdr(num, msg).(subfieldLen := ToU32(|SubsBytes(s.subs)|),
                                          txtOffset := ToU32(|txtFile|), txtLen := ToU32(|s.text|))
      modifies this`hdrFile, this`txtFile, this`idxFile, this`idxPos, this`hdr, this`msg
      ensures hdrFile == old(hdrFile) + RecBytes(s) && txtFile == old(txtFile) + s.text
      ensures idxFile == old(idxFile) + [IdxRec(0, ToU32(|old(hdrFile)|))] && idxPos == |idxFile|
      ensures msg == old(msg).(id := num)
    {
      hide HdrBytes, SubsBytes, LinesSubs, BodyText, HeadSubs, OrFlags, Storable;
      ghost var head := HeadSubs(msg);
      hdr := ZERO_HDR.(signature := SIGNATURE, revision := REVISION, msgNum := num,
                       dateWritten := msg.written, dateProcessed := msg.arrived);
      hdr := SetFlags(hdr, msg);
      var at := |hdrFile|;
      idxFile := idxFile + [IdxRec(0, ToU32(at))];
      idxPos := |idxFile|;
      hdrFile := hdrFile + HdrBytes(hdr);
      ghost var first, front := HdrBytes(hdr), hdrFile;
      NoSubs();
      assert front + "" == front;
      AddHeadSubfields(front);
      msg := msg.(id := hdr.msgNum);
      hdr := hdr.(txtOffset := ToU32(|txtFile|), txtLen := 0);
      StoreLines(front, head);
      assert hdr == s.hdr;
      // The final header goes over the first one.
      HeaderOver(old(hdrFile), first, SubsBytes(s.subs), HdrBytes(hdr));
      hdrFile := Overwrite(hdrFile, at, HdrBytes(hdr));
    }

    /** JAM_AddMsg: append the message in the buffer, with its lines, to the base. */
    method AddMsg()
      requires Valid() && BufferFits(msg) && (forall l :: l in text ==> Storable(l))
      requires Fits(AfterAdd(Contents(), msg, text).base)
      modifies this
      ensures Valid() && Contents() == AfterAdd(old(Contents()), old(msg), old(text))
      ensures text == old(text) && msg == old(msg).(id := Num(base[|base| - 1])) && idxPos == |base|
    {
      hide HdrFile, Texts, Fits, HdrBytes, SubsBytes, LinesSubs, BodyText, HeadSubs, Indexed, WellFormed, OrFlags,
           Storable, RecBytes;
      ghost var s := Compose(base, info.activeMsgs, msg, text);
      ghost var b := base + [s];
      var top: int := Highest();
      SameHead(old(msg), msg);
      AddedFiles(info, base, s);
      WriteMessage(ToU32(top + 1), s);
      UpdateInfo(1, 1, b);
      AddedIndex(old(idxFile), base, s);
      AddedWell(old(Contents()), old(msg), text);
      base := b;
    }

    /** All lines, first to last. */
    method StoreLines(ghost front: string, ghost head: seq<Subfield>)
      requires Composing(front, head) && hdr.txtLen == 0
      requires forall l :: l in text ==> Storable(l)
      modifies this`hdrFile, this`txtFile, this`hdr
      ensures Composing(front, head + LinesSubs(text))
      ensures txtFile == old(txtFile) + BodyText(text)
      ensures hdr == old(hdr).(subfieldLen := hdr.subfieldLen, txtLen := ToU32(|BodyText(text)|))
    {
      hide Flat, Composing, LineSubs, LineText;
      ghost var start := hdr;
      var k := 0;
      NoLines(head);
      assert old(txtFile) + "" == old(txtFile) && text[..0] == [];
      while k < |text|
        invariant k <= |text| && text == old(text) && msg == old(msg)
        invariant Composing(front, head + LinesSubs(text[..k]))
        invariant txtFile == old(txtFile) + BodyText(text[..k])
        invariant hdr == start.(subfieldLen := hdr.subfieldLen, txtLen := ToU32(|BodyText(text[..k])|))
      {
        assert Storable(text[k]);
        FlatTake(LineSubs, text, k);
        FlatTake(LineText, text, k);
        assert (head + LinesSubs(text[..k])) + LineSubs(text[k]) == head + LinesSubs(text[..k + 1]);
        StoreLine(text[k], front, head + LinesSubs(text[..k]));
        k := k + 1;
      }
      assert text[..k] == text;
    }

    /** Write the header in `hdr` over that of message i. */
    method WriteHdrAt(ghost i: nat)
      requires Valid() && i < |base| && 0 < idxPos && i == idxPos - 1
      requires hdr.signature == SIGNATURE && hdr.subfieldLen == base[i].hdr.subfieldLen
      requires hdr.txtLen == base[i].hdr.txtLen && hdr.txtOffset == base[i].hdr.txtOffset
      modifies this`hdrFile, this`base
      ensures Valid() && base == SetHdr(old(base), i, hdr)
    {
      hide Flat, HdrBytes, HdrFile, SubsBytes, InfoBytes, WellFormed, WellFormedAt;
      var at := idxFile[idxPos - 1].hdrOffset;
      OffInside(base, i);
      WriteBack(info, base, i, hdr);
      SetHdrWell(base, i, hdr);
      hdrFile := Overwrite(hdrFile, at, HdrBytes(hdr));
      base := SetHdr(base, i, hdr);
    }

    /** JAM_Delete: mark the live message numbered n deleted and count one active less. */
    method Delete(n: U32) returns (ok: bool)
      requires Valid() && LiveIncreasing(base)
      modifies this
      ensures Valid() && Contents() == AfterDelete(old(Contents()), n)
      ensures ok <==> FindLive(old(base), n).Some?
      ensures ok ==> FindLive(old(base), n) == Some(idxPos - 1)
    {
      hide HdrFile, Texts, WellFormed, Fits, Indexed, LiveIncreasing, FindLive, Load, LiveOnly, MarkDeleted, ToU32;
      ok := ReadHeader(n);
      if ok {
        SignedAt(base, idxPos - 1);
        Marked(hdr);
        hdr := MarkDeleted(hdr);
        BackOne();
        ok := idxPos < |idxFile|;
        if ok {
          idxPos := idxPos + 1;
          WriteHdrAt(idxPos - 1);
          UpdateInfo(-1, 0, base);
          SameInfo(old(info));
        }
      }
    }

    /** JAM_WriteHeader: put the buffer's flags, links and dates into the header of the live
        message numbered n. */
    method WriteHeader(n: U32) returns (ok: bool)
      requires Valid() && LiveIncreasing(base)
      modifies this
      ensures Valid() && Contents() == AfterWrite(old(Contents()), n, old(msg))
      ensures ok <==> FindLive(old(base), n).Some?
      ensures ok ==> FindLive(old(base), n) == Some(idxPos - 1)
      ensures msg == old(msg).(id := if ok then n else 0) && text == old(text)
    {
      hide HdrFile, Texts, WellFormed, Fits, Indexed, LiveIncreasing, FindLive, OrFlags, SetFlags, OnlyDeleted;
      ok := false;
      if msg.id == n {
        BackOne();
        ok := TryHere(n);
      }
      if !ok {
        msg := msg.(id := 0);
        ok := ScanFor(n);
      }
      if ok {
        FoundLive(base, n);
        SignedAt(base, idxPos - 1);
        RewriteLive(hdr, old(msg));
        RewriteSame(hdr, old(msg), msg.(id := hdr.msgNum));
        msg := msg.(id := hdr.msgNum);
        hdr := hdr.(attribute := OnlyDeleted(hdr.attribute));
        hdr := SetFlags(hdr, msg);
        WriteHdrAt(idxPos - 1);
      }
    }

    // ----- Packing -----

    /** Change every pointer equal to the old number of a message to its new one. */
    method RewritePointers(num: U32, newNum: U32)
      modifies this`lrFile
      ensures lrFile == seq(|old(lrFile)|, k requires 0 <= k < |old(lrFile)| => Rewritten(old(lrFile)[k], num, newNum))
    {
      ghost var was := lrFile;
      var count := |lrFile|;
      var i := 0;
      while i < count
        invariant i <= count == |lrFile| == |was|
        invariant forall k :: 0 <= k < i ==> lrFile[k] == Rewritten(was[k], num, newNum)
        invariant forall k :: i <= k < count ==> lrFile[k] == was[k]
      {
        var lr := lrFile[i];
        if (lr.lastReadMsg == num || lr.highReadMsg == num) && num != newNum {
          if lr.lastReadMsg == num { lr := lr.(lastReadMsg := newNum); }
          if lr.highReadMsg == num { lr := lr.(highReadMsg := newNum); }
          lrFile := lrFile[i := lr];
        }
        i := i + 1;
      }
    }

    /** Copy the text of a message in blocks of MAX_TEXT bytes. */
    method CopyText(from: nat, len: nat, txt: string) returns (txt': string)
      requires from + len <= |txtFile|
      ensures txt' == txt + txtFile[from..from + len]
    {
      txt' := txt;
      var at, left := from, len;
      var again := true;
      assert txtFile[from..from] == "";
      while again
        invariant at == from + (len - left) && 0 <= left <= len && (again || left == 0)
        invariant txt' == txt + txtFile[from..at]
        decreases left, again
      {
        var toRead := if MAX_TEXT > left then left else MAX_TEXT;
        assert txtFile[from..at] + txtFile[at..at + toRead] == txtFile[from..at + toRead];
        txt' := txt' + txtFile[at..at + toRead];
        at := at + toRead;
        left := left - toRead;
        again := left > 0;
      }
    }

    /** One pass over the header file: the new header, text and index files, with the
        pointers rewritten on the way. */
    method PackMessages() returns (newHdr: string, newTxt: string, newIdx: seq<IdxRec>, written: U32)
      requires Valid()
      modifies this`hdr, this`lrFile
      ensures newHdr == HdrFile(info, Packed(base)) && newTxt == Texts(Packed(base)) && Indexed(newIdx, Packed(base))
      ensures written == |LiveOnly(base)|
      ensures lrFile == Remapped(base, old(lrFile))
    {
      hide Flat, HdrBytes, ParseHdr, HdrFile, SubsBytes, InfoBytes, Indexed, Off, TxtOff, Renumber, Remapped,
           WellFormed, LiveOnly, Texts, HdrAt, Fits;
      PackStart(info, base, lrFile);
      newHdr, newTxt, newIdx := InfoBytes(info), "", [];
      var at := INFO_SIZE;
      var number: U32 := 0;
      written := 0;
      ghost var i := 0;
      while at + HDR_SIZE <= |hdrFile|
        invariant i <= |base| && at == Off(base, i) && Valid()
        invariant newHdr == HdrFile(info, Renumber(LiveOnly(base[..i])))
                  && newTxt == Texts(Renumber(LiveOnly(base[..i])))
        invariant Indexed(newIdx, Renumber(LiveOnly(base[..i])))
        invariant number == written == |LiveOnly(base[..i])|
        invariant lrFile == Remapped(base[..i], old(lrFile))
        decreases |hdrFile| - at
      {
        PackRead(info, base, i);
        RemappedStep(base, i, old(lrFile));
        LiveStep(base, i);
        hdr := HdrAt(hdrFile, at);
        at := at + HDR_SIZE;
        if hdr.attribute[DELETED_BIT] {
          at := at + hdr.subfieldLen;
          RewritePointers(hdr.msgNum, number);
        } else {
          number := number + 1;
          written := written + 1;
          RewritePointers(hdr.msgNum, number);
          newHdr, newTxt, newIdx := KeepMessage(at, number, newHdr, newTxt, newIdx, i);
          at := at + hdr.subfieldLen;
        }
        i := i + 1;
      }
      FileSize(info, base);
      PackAll(base, i);
    }

    /** A message that is not deleted: it gets the next number and goes behind those kept so far. */
    method KeepMessage(at: nat, number: U32, newHdr: string, newTxt: string, newIdx: seq<IdxRec>, ghost i: nat)
        returns (newHdr': string, newTxt': string, newIdx': seq<IdxRec>)
      requires Valid() && i < |base| && hdr == base[i].hdr && Live(base[i]) && at == Off(base, i) + HDR_SIZE
      requires newHdr == HdrFile(info, Renumber(LiveOnly(base[..i]))) && newTxt == Texts(Renumber(LiveOnly(base[..i])))
      requires Indexed(newIdx, Renumber(LiveOnly(base[..i]))) && number == |LiveOnly(base[..i])| + 1
      requires at <= |hdrFile|
      modifies this`hdr
      ensures newHdr' == HdrFile(info, Renumber(LiveOnly(base[..i + 1])))
              && newTxt' == Texts(Renumber(LiveOnly(base[..i + 1])))
      ensures Indexed(newIdx', Renumber(LiveOnly(base[..i + 1])))
      ensures Valid() && hdr.subfieldLen == base[i].hdr.subfieldLen
    {
      hide Flat, HdrBytes, ParseHdr, HdrFile, SubsBytes, InfoBytes, Indexed, Off, TxtOff, Renumber, Remapped,
           WellFormed, LiveOnly, Texts, HdrAt, Fits;
      PackRead(info, base, i);
      LiveStep(base, i);
      PackStep(info, base, i);
      IndexStep(newIdx, base, i);
      newIdx' := newIdx + [IdxRec(0, ToU32(|newHdr|))];
      var from := hdr.txtOffset;
      var len := hdr.txtLen;
      hdr := hdr.(txtOffset := ToU32(|newTxt|));
      hdr := hdr.(msgNum := number);
      newHdr' := newHdr + HdrBytes(hdr);
      newHdr' := newHdr' + hdrFile[at..at + hdr.subfieldLen];
      newTxt' := CopyText(from, len, newTxt);
    }

    // ----- The lastread file -----

    /** Search the user's record and give him its pointers. */
    method GetLastRead(user: LastRead) returns (found: bool, lr: LastRead)
      modifies this`lastReadRec
      ensures lastReadRec == FindLast(lrFile, user) && found == (lastReadRec < |lrFile|)
      ensures lr == Pointers(lrFile, user)
    {
      hide FindLast;
      lr := user;
      lastReadRec := 0;
      while lastReadRec < |lrFile|
        invariant lastReadRec <= |lrFile| && lr == user
        invariant forall j :: 0 <= j < lastReadRec ==> !IsOf(lrFile[j], user)
      {
        var rec := lrFile[lastReadRec];
        if rec.userID == rec.userCRC && rec.userCRC == user.userCRC {
          FindIs(lrFile, user, lastReadRec);
          return true, lr.(lastReadMsg := rec.lastReadMsg, highReadMsg := rec.highReadMsg);
        }
        if rec.userID != rec.userCRC && rec.userID == user.userID {
          FindIs(lrFile, user, lastReadRec);
          return true, lr.(lastReadMsg := rec.lastReadMsg, highReadMsg := rec.highReadMsg);
        }
        lastReadRec := lastReadRec + 1;
      }
      FindIs(lrFile, user, lastReadRec);
      found := false;
    }

    /** Write over the record the last search stopped at. */
    method SetLastRead(lr: LastRead)
      modifies this`lrFile
      ensures lrFile == Written(old(lrFile), lastReadRec, lr)
    {
      if lastReadRec < |lrFile| {
        lrFile := lrFile[lastReadRec := lr];
      } else {
        lrFile := lrFile + seq(lastReadRec - |lrFile|, _ => NO_RECORD) + [lr];
      }
    }

    method NewLastRead(lr: LastRead)
      modifies this`lrFile
      ensures lrFile == old(lrFile) + [lr]
    {
      lrFile := lrFile + [lr];
    }

    /** Copy the lastread records: reset or limit the pointers, drop the users that are gone. */
    method PackPointers(users: Option<seq<U32>>) returns (newLr: seq<LastRead>)
      ensures newLr == Flat(CopyLast(info.activeMsgs, users), lrFile)
    {
      hide Flat, Retained;
      newLr := [];
      var i := 0;
      FlatNothing(CopyLast(info.activeMsgs, users));
      assert lrFile[..0] == [];
      while i < |lrFile|
        invariant i <= |lrFile| && newLr == Flat(CopyLast(info.activeMsgs, users), lrFile[..i])
      {
        FlatTake(CopyLast(info.activeMsgs, users), lrFile, i);
        var lr := lrFile[i];
        if info.activeMsgs == 0 && (lr.lastReadMsg != 0 || lr.highReadMsg != 0) {
          lr := lr.(lastReadMsg := 0, highReadMsg := 0);
        }
        if info.activeMsgs != 0 && lr.lastReadMsg > info.activeMsgs {
          lr := lr.(lastReadMsg := info.activeMsgs);
        }
        if info.activeMsgs != 0 && lr.highReadMsg > info.activeMsgs {
          lr := lr.(highReadMsg := info.activeMsgs);
        }
        assert lr == ClipLast(info.activeMsgs, lrFile[i]);
        var kept := KeepRecord(lr, users);
        newLr := newLr + kept;
        i := i + 1;
      }
      assert lrFile[..i] == lrFile;
    }

    method KeepRecord(lr: LastRead, users: Option<seq<U32>>) returns (kept: seq<LastRead>)
      ensures kept == Retained(lr, users)
    {
      kept := [];
      if users.Some? {
        var crcs := users.value;
        if lr.userID == lr.userCRC && lr.userCRC != 0 {
          var copy := lr;
          var myrec := 0;
          while myrec < |crcs|
            invariant myrec <= |crcs|
            invariant copy == lr.(userID := GoldEDUser(lr, crcs[..myrec])) && kept == GoldEDCopies(lr, crcs[..myrec])
          {
            assert crcs[..myrec + 1][..myrec] == crcs[..myrec];
            if copy.userCRC == crcs[myrec] { copy := copy.(userID := ToU32(myrec)); }
            myrec := myrec + 1;
            kept := kept + [copy];
          }
          assert crcs[..myrec] == crcs;
        } else if lr.userID < |crcs| && crcs[lr.userID] == lr.userCRC {
          kept := [lr];
        }
      } else {
        kept := [lr];
      }
    }

    /** Correct the active count in the new header file when messages were written. */
    method CorrectCount(file: string, written: U32, ghost p: seq<Stored>) returns (file': string)
      requires file == HdrFile(info, p)
      modifies this`info
      ensures info == old(info).(activeMsgs := if written != 0 then written else old(info).activeMsgs)
      ensures file' == HdrFile(info, p)
    {
      hide Flat, HdrFile, InfoBytes, ParseInfo;
      file' := file;
      if written != 0 {
        InfoBack(info, p);
        InfoFits(info, p);
        info := ParseInfo(file[..INFO_SIZE]);
        if info.activeMsgs != written {
          ghost var was := info;
          info := info.(activeMsgs := written);
          InfoOver(was, info, p);
          file' := Overwrite(file, 0, InfoBytes(info));
        }
      }
    }

    /** JAM_Pack: drop the deleted messages, renumber the rest, move the pointers along. */
    method Pack(users: Option<seq<U32>>)
      requires Valid()
      modifies this
      ensures Valid() && Contents() == AfterPack(old(Contents()), users)
      ensures idxPos == 0 && msg == old(msg).(id := 0)
    {
      hide Flat, HdrFile, InfoBytes, ParseInfo, Texts, Packed, WellFormed, Fits, Indexed, Remapped, CopyLast, PackLast,
           LiveOnly, KeptAt, WellFormedAt, Off, TxtOff, Records;
      InfoBack(info, base);
      InfoFits(info, base);
      info := ParseInfo(hdrFile[..INFO_SIZE]);
      var newHdr, newTxt, newIdx, written := PackMessages();
      ghost var p := Packed(base);
      PackKeeps(base);
      newHdr := CorrectCount(newHdr, written, p);
      IndexedSize(newIdx, p);
      PointersPacked(base, info.activeMsgs, users, old(lrFile));
      var newLr := PackPointers(users);
      ReplaceFiles(newHdr, newTxt, newIdx, newLr, p);
    }

    /** The new files take the place of the old ones, and the base is opened again. */
    method ReplaceFiles(newHdr: string, newTxt: string, newIdx: seq<IdxRec>, newLr: seq<LastRead>, ghost p: seq<Stored>)
      requires newHdr == HdrFile(info, p) && newTxt == Texts(p) && Indexed(newIdx, p) && WellFormed(p) && Fits(p)
      modifies this
      ensures Valid() && Contents() == Area(old(info), p, newLr)
      ensures idxPos == 0 && msg == old(msg).(id := 0)
    {
      hide HdrFile, Texts, WellFormed, Fits;
      hdrFile, txtFile, idxFile, lrFile := newHdr, newTxt, newIdx, newLr;
      idxPos := 0;
      base := p;
      Open();
    }
  }
}
