/** The index and lastread files of a message base, and the steps by which the functions of
    lib/jammsg.c walk over and extend the four files. */
module JamFiles {
  import opened Seqs
  import opened LittleEndian
  import opened JamFormat
  import opened JamText
  import opened JamModel
  import opened JamOps
  import opened JamPack
  import opened JamRuns

  datatype IdxRec = IdxRec(userCRC: U32, hdrOffset: U32)

  predicate Indexed(idx: seq<IdxRec>, base: seq<Stored>) {
    |idx| == |base| && forall i :: 0 <= i < |idx| ==> idx[i] == IdxRec(0, ToU32(Off(base, i)))
  }

  /** No live message before position k is numbered above n. */
  predicate AtMostBefore(base: seq<Stored>, k: nat, n: U32)
    requires k <= |base|
  {
    forall j :: 0 <= j < k && Live(base[j]) ==> Num(base[j]) <= n
  }

  /** No live message from position k on is numbered below n. */
  predicate AtLeastFrom(base: seq<Stored>, k: nat, n: U32)
    requires k <= |base|
  {
    forall j :: k <= j < |base| && Live(base[j]) ==> Num(base[j]) >= n
  }

  lemma PassedUp(base: seq<Stored>, k: nat, n: U32)
    requires k < |base| && AtMostBefore(base, k, n) && (Live(base[k]) ==> Num(base[k]) <= n)
    ensures AtMostBefore(base, k + 1, n)
  {
  }

  lemma PassedDown(base: seq<Stored>, k: nat, n: U32)
    requires k < |base| && AtLeastFrom(base, k + 1, n) && (Live(base[k]) ==> Num(base[k]) >= n)
    ensures AtLeastFrom(base, k, n)
  {
  }

  lemma ScanEnds(base: seq<Stored>, n: U32)
    ensures AtMostBefore(base, 0, n) && AtLeastFrom(base, |base|, n)
    ensures (exists i :: 0 <= i < |base| && Live(base[i])) || (AtMostBefore(base, |base|, n) && AtLeastFrom(base, 0, n))
  {
  }

  lemma LiveSplits(base: seq<Stored>, k: nat)
    requires LiveIncreasing(base) && k < |base| && Live(base[k])
    ensures AtMostBefore(base, k + 1, Num(base[k])) && AtLeastFrom(base, k, Num(base[k]))
  {
  }

  /** m is the least live number above n. */
  predicate IsNext(base: seq<Stored>, n: U32, m: U32) {
    n < m && forall j :: 0 <= j < |base| && Live(base[j]) && Num(base[j]) > n ==> Num(base[j]) >= m
  }

  /** m is the greatest live number below n. */
  predicate IsPrevious(base: seq<Stored>, n: U32, m: U32) {
    m < n && forall j :: 0 <= j < |base| && Live(base[j]) && Num(base[j]) < n ==> Num(base[j]) <= m
  }

  lemma FoundNext(base: seq<Stored>, k: nat, n: U32)
    requires LiveIncreasing(base) && k < |base| && Live(base[k]) && Num(base[k]) > n && AtMostBefore(base, k, n)
    ensures IsNext(base, n, Num(base[k]))
  {
  }

  lemma FoundPrevious(base: seq<Stored>, k: nat, n: U32)
    requires LiveIncreasing(base) && k < |base| && Live(base[k]) && Num(base[k]) < n && AtLeastFrom(base, k + 1, n)
    ensures IsPrevious(base, n, Num(base[k]))
  {
  }

  /** With distinct live numbers, any live message numbered n is the one a linear search finds. */
  lemma FoundIs(base: seq<Stored>, k: nat, n: U32)
    requires LiveIncreasing(base) && k < |base| && IsLiveNumber(base[k], n)
    ensures FindLive(base, n) == Some(k)
  {
    hide FindLive;
    var f := FindLive(base, n);
    assert f.Some?;
    assert IsLiveNumber(base[f.value], n);
  }

  /** No message before position k is live under number n. */
  predicate NotBefore(base: seq<Stored>, k: nat, n: U32)
    requires k <= |base|
  {
    forall j :: 0 <= j < k ==> !IsLiveNumber(base[j], n)
  }

  lemma NotFound(base: seq<Stored>, n: U32)
    ensures NotBefore(base, 0, n)
    ensures NotBefore(base, |base|, n) ==> FindLive(base, n) == None
  {
  }

  lemma NotBeforeStep(base: seq<Stored>, k: nat, n: U32)
    requires k < |base| && NotBefore(base, k, n) && !IsLiveNumber(base[k], n)
    ensures NotBefore(base, k + 1, n)
  {
  }

  /** The subfield block of message i ends where the walk's byte count says. */
  lemma WalkStep(s: Stored, k: nat)
    requires k < |s.subs| && |SubsBytes(s.subs)| < WORD
    ensures var b := SubsBytes(s.subs); var at := |SubsBytes(s.subs[..k])|; var x := s.subs[k];
            && at + SUB_HDR <= |b| && at + SUB_HDR + |x.data| <= |b|
            && |SubsBytes(s.subs[..k + 1])| == at + SUB_HDR + |x.data|
            && SubIdAt(b[at..]) == x.id && SubLenAt(b[at..]) == |x.data|
            && b[at + SUB_HDR..][..|x.data|] == x.data
            && Subfield(SubIdAt(b[at..]), b[at + SUB_HDR..][..|x.data|]) == x
  {
    hide SubsBytes, SubIdAt, SubLenAt;
    SubAt(s.subs, k);
  }

  lemma LoadNext(m: MsgBuf, subs: seq<Subfield>, k: nat)
    requires k < |subs|
    ensures LoadSubs(m, subs[..k + 1]) == LoadSub(LoadSubs(m, subs[..k]), subs[k])
  {
    assert subs[..k + 1][..k] == subs[..k];
  }

  lemma WalkEnds(s: Stored, k: nat)
    requires k <= |s.subs|
    ensures |SubsBytes(s.subs[..k])| <= |SubsBytes(s.subs)|
    ensures |SubsBytes(s.subs[..k])| == |SubsBytes(s.subs)| <==> k == |s.subs|
    ensures SubsBytes(s.subs[..0]) == ""
  {
    assert s.subs == s.subs[..k] + s.subs[k..];
    FlatConcat(SubBytes, s.subs[..k], s.subs[k..]);
    if k < |s.subs| {
      var rest := s.subs[k..];
      FlatSplit(SubBytes, rest, 0);
    }
  }

  /** Every line of the text, finished or not, is shorter than the width and fits the line
      buffer, so JAM_Read never comes to wrap one. */
  predicate Narrow(t: string, width: nat) {
    forall p :: 0 <= p <= |t| ==> |Scan(t[..p]).1| < width && |Scan(t[..p]).1| <= MAX_LINE_LENGTH
  }

  lemma ScanStep(t: string, p: nat)
    requires p < |t|
    ensures var (lines, line) := Scan(t[..p]);
            Scan(t[..p + 1]) == if t[p] == '\r' then (lines + [line], "")
                                else if t[p] == '\n' then (lines, line)
                                else (lines, line + [t[p]])
  {
    assert t[..p + 1][..p] == t[..p];
  }

  /** What JAM_Read does to the buffer: MSGID once more, in 79 chars. */
  function ShowIds(m: MsgBuf, subs: seq<Subfield>): MsgBuf {
    if subs == [] then m
    else
      var k := |subs| - 1;
      if subs[k].id == MSGID then ShowIds(m, subs[..k]).(msgid := Clip(subs[k].data, 79))
      else ShowIds(m, subs[..k])
  }

  lemma ShowNext(m: MsgBuf, subs: seq<Subfield>, k: nat)
    requires k < |subs|
    ensures Flat(TopLine, subs[..k + 1]) == Flat(TopLine, subs[..k]) + TopLine(subs[k])
    ensures Flat(BottomLine, subs[..k + 1]) == Flat(BottomLine, subs[..k]) + BottomLine(subs[k])
    ensures ShowIds(m, subs[..k + 1])
         == if subs[k].id == MSGID then ShowIds(m, subs[..k]).(msgid := Clip(subs[k].data, 79))
            else ShowIds(m, subs[..k])
  {
    FlatTake(TopLine, subs, k);
    FlatTake(BottomLine, subs, k);
    assert subs[..k + 1][..k] == subs[..k];
  }

  lemma SameInfo(info: JamHdrInfo)
    ensures ToU32(info.modCounter + 0) == info.modCounter
  {
  }

  lemma FoundLive(base: seq<Stored>, n: U32)
    requires FindLive(base, n).Some?
    ensures IsLiveNumber(base[FindLive(base, n).value], n)
  {
  }

  const MAX_TEXT: nat := 2048

  function Rewritten(lr: LastRead, num: U32, newNum: U32): LastRead {
    lr.(lastReadMsg := if lr.lastReadMsg == num then newNum else lr.lastReadMsg,
        highReadMsg := if lr.highReadMsg == num then newNum else lr.highReadMsg)
  }

  function RemapLast(base: seq<Stored>, lr: LastRead): LastRead {
    lr.(lastReadMsg := Remap(base, lr.lastReadMsg), highReadMsg := Remap(base, lr.highReadMsg))
  }

  function Remapped(base: seq<Stored>, lrs: seq<LastRead>): seq<LastRead> {
    seq(|lrs|, k requires 0 <= k < |lrs| => RemapLast(base, lrs[k]))
  }

  function ClipLast(active: U32, lr: LastRead): LastRead {
    lr.(lastReadMsg := ClipPointer(active, lr.lastReadMsg), highReadMsg := ClipPointer(active, lr.highReadMsg))
  }

  function CopyLast(active: U32, users: Option<seq<U32>>): LastRead -> seq<LastRead> {
    lr => Retained(ClipLast(active, lr), users)
  }

  lemma RemappedStep(base: seq<Stored>, i: nat, lrs: seq<LastRead>)
    requires i < |base|
    ensures var was := Remapped(base[..i], lrs); var newNum := ToU32(|LiveOnly(base[..i + 1])|);
            Remapped(base[..i + 1], lrs)
            == seq(|was|, k requires 0 <= k < |was| => Rewritten(was[k], Num(base[i]), newNum))
  {
    hide LiveOnly;
    assert base[..i + 1][..i] == base[..i];
  }

  lemma FlatNothing<S, T>(f: S -> seq<T>)
    ensures Flat(f, []) == []
  {
  }

  lemma InfoFits(info: JamHdrInfo, base: seq<Stored>)
    ensures |HdrFile(info, base)| >= INFO_SIZE
  {
  }

  lemma InfoOver(info: JamHdrInfo, info': JamHdrInfo, base: seq<Stored>)
    ensures |HdrFile(info, base)| >= INFO_SIZE
    ensures Overwrite(HdrFile(info, base), 0, InfoBytes(info')) == HdrFile(info', base)
  {
    assert HdrFile(info, base) == [] + InfoBytes(info) + Records(base);
    OverwriteMiddle([], InfoBytes(info), Records(base), InfoBytes(info'));
  }

  lemma FileSize(info: JamHdrInfo, base: seq<Stored>)
    ensures |HdrFile(info, base)| == INFO_SIZE + |Records(base)|
  {
  }

  lemma IndexedSize(idx: seq<IdxRec>, base: seq<Stored>)
    requires Indexed(idx, base)
    ensures |idx| == |base|
  {
  }

  lemma RecordPacked(base: seq<Stored>, active: U32, users: Option<seq<U32>>, lr: LastRead)
    ensures CopyLast(active, users)(RemapLast(base, lr)) == PackLast(base, active, users)(lr)
  {
    hide Remap, Retained, ClipPointer;
    assert ClipLast(active, RemapLast(base, lr)) == MapLast(base, active, lr);
  }

  /** Rewriting and then limiting the pointers is what packing makes of them. */
  lemma PointersPacked(base: seq<Stored>, active: U32, users: Option<seq<U32>>, lrs: seq<LastRead>)
    ensures Flat(CopyLast(active, users), Remapped(base, lrs)) == Flat(PackLast(base, active, users), lrs)
  {
    hide RemapLast, Retained, CopyLast, PackLast;
    var f, g, rs := CopyLast(active, users), PackLast(base, active, users), Remapped(base, lrs);
    forall k | 0 <= k < |lrs|
      ensures f(rs[k]) == g(lrs[k])
    {
      RecordPacked(base, active, users, lrs[k]);
    }
    FlatSame(f, rs, g, lrs);
  }

  lemma PackStart(info: JamHdrInfo, base: seq<Stored>, lrs: seq<LastRead>)
    ensures Off(base, 0) == INFO_SIZE
    ensures LiveOnly(base[..0]) == [] && Renumber([]) == []
    ensures HdrFile(info, []) == InfoBytes(info) && Texts([]) == "" && Indexed([], [])
    ensures Remapped(base[..0], lrs) == lrs
  {
    assert base[..0] == [];
    EmptyFlat();
    assert InfoBytes(info) + "" == InfoBytes(info);
  }

  /** A whole header left to read means a message left to read. */
  lemma PackRead(info: JamHdrInfo, base: seq<Stored>, i: nat)
    requires WellFormed(base) && Fits(base) && i <= |base|
    requires Off(base, i) + HDR_SIZE <= |HdrFile(info, base)|
    ensures i < |base|
    ensures var f := HdrFile(info, base); var h := base[i].hdr; var at := Off(base, i);
            && HdrAt(f, at) == h && at + HDR_SIZE + h.subfieldLen <= |f|
            && f[at + HDR_SIZE..at + HDR_SIZE + h.subfieldLen] == SubsBytes(base[i].subs)
            && Off(base, i + 1) == at + HDR_SIZE + h.subfieldLen
    ensures var h := base[i].hdr;
            && h.txtOffset + h.txtLen <= |Texts(base)|
            && Texts(base)[h.txtOffset..h.txtOffset + h.txtLen] == base[i].text
    ensures |LiveOnly(base[..i])| + 1 < WORD
  {
    hide Flat, HdrBytes, ParseHdr, SubsBytes, InfoBytes, HdrAt, LiveOnly;
    OffLast(base);
    assert i < |base|;
    assert WellFormedAt(base, i);
    OffStep(base, i);
    OffInside(base, i);
    ReadBack(info, base, i);
    LiveBound(base[..i]);
  }

  /** What one live message adds to the new files. */
  lemma PackStep(info: JamHdrInfo, base: seq<Stored>, i: nat)
    requires i < |base| && Live(base[i])
    ensures var packed := Renumber(LiveOnly(base[..i])); var extended := Renumber(LiveOnly(base[..i + 1]));
            var s := base[i];
            var h := s.hdr.(txtOffset := ToU32(|Texts(packed)|)).(msgNum := ToU32(|LiveOnly(base[..i])| + 1));
            && extended == packed + [s.(hdr := h)]
            && HdrFile(info, extended) == HdrFile(info, packed) + HdrBytes(h) + SubsBytes(s.subs)
            && Texts(extended) == Texts(packed) + s.text
  {
    hide HdrBytes, SubsBytes, InfoBytes, LiveOnly;
    var live := LiveOnly(base[..i]);
    var s := base[i];
    LiveStep(base, i);
    RenumberOffsets(live, |live|);
    OffLast(live);
    var packed := Renumber(live);
    var h := s.hdr.(txtOffset := ToU32(|Texts(packed)|)).(msgNum := ToU32(|live| + 1));
    RenumberStep(live, s);
    AddedFiles(info, packed, s.(hdr := h));
  }

  lemma RenumberStep(live: seq<Stored>, s: Stored)
    ensures Renumber(live + [s])
         == Renumber(live) + [s.(hdr := s.hdr.(msgNum := ToU32(|live| + 1), txtOffset := ToU32(|Texts(live)|)))]
  {
    hide Flat;
    var l := live + [s];
    assert l[..|live|] == live;
    forall i | 0 <= i < |live|
      ensures Renumbered(l, i) == Renumbered(live, i)
    {
      assert l[..i] == live[..i];
    }
  }

  lemma IndexStep(idx: seq<IdxRec>, base: seq<Stored>, i: nat)
    requires i < |base| && Live(base[i]) && Indexed(idx, Renumber(LiveOnly(base[..i])))
    ensures var live := LiveOnly(base[..i]);
            forall info :: |HdrFile(info, Renumber(live))| == Off(Renumber(live), |live|)
    ensures Indexed(idx + [IdxRec(0, ToU32(Off(Renumber(LiveOnly(base[..i])), |LiveOnly(base[..i])|)))],
                    Renumber(LiveOnly(base[..i + 1])))
  {
    hide LiveOnly, Renumber, HdrBytes, InfoBytes, SubsBytes;
    var packed := Renumber(LiveOnly(base[..i]));
    PackStep(Created(0).info, base, i);
    var extended := Renumber(LiveOnly(base[..i + 1]));
    AddedIndex(idx, packed, extended[|packed|]);
    assert extended == packed + [extended[|packed|]];
    OffLast(packed);
  }

  lemma PackAll(base: seq<Stored>, i: nat)
    requires i <= |base| && Off(base, i) + HDR_SIZE > INFO_SIZE + |Records(base)|
    ensures base[..i] == base
  {
    OffLast(base);
    if i < |base| {
      OffInside(base, i);
    }
  }

  lemma NoLines(head: seq<Subfield>)
    ensures LinesSubs([]) == [] && BodyText([]) == "" && head + [] == head
  {
  }

  lemma NoSubs()
    ensures SubsBytes([]) == ""
  {
  }

  lemma SubsGrow(subs: seq<Subfield>, s: Subfield)
    ensures SubsBytes(subs + [s]) == SubsBytes(subs) + SubBytes(s)
  {
    assert (subs + [s])[..|subs|] == subs;
  }

  /** The tags of control lines exclude one another. */
  lemma TagsDiffer(line: string)
    ensures HasPrefix(line, [SOH]) ==> !HasPrefix(line, "SEEN-BY: ")
    ensures HasPrefix(line, "SEEN-BY: ") ==> HasPrefix(line, "SEEN-BY:")
    ensures HasPrefix(line, [SOH] + "PID: ") ==> HasPrefix(line, [SOH]) && line[1] == 'P' && line[2] == 'I'
    ensures HasPrefix(line, [SOH] + "MSGID: ") ==> HasPrefix(line, [SOH]) && line[1] == 'M'
    ensures HasPrefix(line, [SOH] + "REPLY: ") ==> HasPrefix(line, [SOH]) && line[1] == 'R'
    ensures HasPrefix(line, [SOH] + "PATH: ") ==> HasPrefix(line, [SOH]) && line[1] == 'P' && line[2] == 'A'
    ensures HasPrefix(line, [SOH] + "Via") ==> HasPrefix(line, [SOH]) && line[1] == 'V'
    ensures HasPrefix(line, [SOH] + "Via") && line != [SOH] + "Via" ==> |line| >= 5
  {
    assert HasPrefix(line, [SOH]) ==> line[0] == SOH;
    assert HasPrefix(line, "SEEN-BY: ") ==> line[0] == 'S';
    if HasPrefix(line, [SOH] + "Via") && |line| == 4 {
      assert line == [SOH] + "Via";
    }
  }

  lemma LineCases(line: string)
    ensures LineText(line) == if IsControl(line) then "" else line + "\r"
    ensures !IsControl(line) ==> LineSubs(line) == []
  {
  }

  /** Adding up in an unsigned int. */
  lemma WordSum(x: int, y: int)
    ensures ToU32(ToU32(x) + y) == ToU32(x + y)
    ensures 0 <= x < WORD ==> ToU32(x) == x
  {
  }

  lemma SameHead(m: MsgBuf, m': MsgBuf)
    requires m' == m.(id := m'.id)
    ensures HeadSubs(m') == HeadSubs(m)
  {
  }

  lemma HeaderOver(file: string, h: string, subs: string, h': string)
    requires |h| == |h'|
    ensures Overwrite(file + h + subs, |file|, h') == file + (h' + subs)
  {
    OverwriteMiddle(file, h, subs, h');
  }

  lemma AddedFiles(info: JamHdrInfo, base: seq<Stored>, s: Stored)
    ensures HdrFile(info, base + [s]) == HdrFile(info, base) + RecBytes(s)
    ensures Texts(base + [s]) == Texts(base) + s.text
    ensures |HdrFile(info, base)| == Off(base, |base|)
  {
    hide HdrBytes, SubsBytes, InfoBytes;
    assert (base + [s])[..|base|] == base;
    OffLast(base);
    assert InfoBytes(info) + (Records(base) + RecBytes(s)) == HdrFile(info, base) + RecBytes(s);
  }

  lemma AddedIndex(idx: seq<IdxRec>, base: seq<Stored>, s: Stored)
    requires Indexed(idx, base)
    ensures Indexed(idx + [IdxRec(0, ToU32(Off(base, |base|)))], base + [s])
  {
    hide Flat;
    var b := base + [s];
    forall i | 0 <= i <= |base|
      ensures Off(b, i) == Off(base, i)
    {
      assert b[..i] == base[..i];
    }
  }

  lemma AddedWell(a: Area, m: MsgBuf, lines: seq<string>)
    requires WellFormed(a.base) && BufferFits(m) && (forall l :: l in lines ==> Storable(l))
    requires Fits(AfterAdd(a, m, lines).base)
    ensures WellFormed(AfterAdd(a, m, lines).base)
  {
    hide Flat, HdrBytes, LineSubs, LineText, HeadSubs;
    ReadableHead(m);
    ReadableLines(lines);
    NewWellFormed(a.base, Compose(a.base, a.info.activeMsgs, m, lines));
  }

  lemma ShowStart(m: MsgBuf, subs: seq<Subfield>)
    ensures Flat(TopLine, subs[..0]) == [] && Flat(BottomLine, subs[..0]) == [] && ShowIds(m, subs[..0]) == m
  {
  }

  lemma ScanNothing()
    ensures Scan("") == ([], "")
  {
  }

  lemma NarrowAt(t: string, width: nat, p: nat)
    requires Narrow(t, width) && p <= |t|
    ensures |Scan(t[..p]).1| < width
  {
  }

  lemma InfoBack(info: JamHdrInfo, base: seq<Stored>)
    ensures ParseInfo(HdrFile(info, base)[..INFO_SIZE]) == info
  {
    assert HdrFile(info, base)[..INFO_SIZE] == InfoBytes(info);
    InfoRoundTrip(info);
  }
}
