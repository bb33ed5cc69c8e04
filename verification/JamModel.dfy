/** A message base as a list of stored messages: what its files hold, what each operation
    does to the list, and what every run of operations keeps (lib/jammsg.c). */
module JamModel {
  import opened Seqs
  import opened LittleEndian
  import opened JamFormat
  import opened JamText

  // ----- The message buffer -----

  /** The one-bit fields of the message buffer that a header stores. */
  datatype Flags = Flags(
    local: bool, intransit: bool, isPrivate: bool, received: bool, sent: bool, killSent: bool,
    archiveSent: bool, hold: bool, crash: bool, immediate: bool, direct: bool, gate: bool,
    fileRequest: bool, fileAttach: bool, truncFile: bool, killFile: bool, receiptRequest: bool,
    confirmRequest: bool, orphan: bool, encrypt: bool, compressed: bool, escaped: bool, forcePU: bool,
    localmail: bool, echomail: bool, netmail: bool, nodisplay: bool, locked: bool, deleted: bool)

  /** Which flag bit k of the attribute word stands for; bits 26 to 28 stand for none. */
  predicate FlagBit(f: Flags, k: nat) {
    if k == 0 then f.local
    else if k == 1 then f.intransit
    else if k == 2 then f.isPrivate
    else if k == 3 then f.received
    else if k == 4 then f.sent
    else if k == 5 then f.killSent
    else if k == 6 then f.archiveSent
    else if k == 7 then f.hold
    else if k == 8 then f.crash
    else if k == 9 then f.immediate
    else if k == 10 then f.direct
    else if k == 11 then f.gate
    else if k == 12 then f.fileRequest
    else if k == 13 then f.fileAttach
    else if k == 14 then f.truncFile
    else if k == 15 then f.killFile
    else if k == 16 then f.receiptRequest
    else if k == 17 then f.confirmRequest
    else if k == 18 then f.orphan
    else if k == 19 then f.encrypt
    else if k == 20 then f.compressed
    else if k == 21 then f.escaped
    else if k == 22 then f.forcePU
    else if k == 23 then f.localmail
    else if k == 24 then f.echomail
    else if k == 25 then f.netmail
    else if k == 29 then f.nodisplay
    else if k == 30 then f.locked
    else if k == 31 then f.deleted
    else false
  }

  function OrFlags(a: Bits32, f: Flags): Bits32 {
    seq(32, k requires 0 <= k < 32 => a[k] || FlagBit(f, k))
  }

  function GetFlags(a: Bits32): Flags {
    Flags(a[0], a[1], a[2], a[3], a[4], a[5], a[6], a[7], a[8], a[9], a[10], a[11], a[12], a[13], a[14], a[15],
          a[16], a[17], a[18], a[19], a[20], a[21], a[22], a[23], a[24], a[25], a[29], a[30], a[31])
  }

  datatype MsgBuf = MsgBuf(
    id: U32,
    current: U32,
    from: string,
    to: string,
    subject: string,
    flags: Flags,
    written: U32,
    arrived: U32,
    read: U32,
    fromAddress: string,
    toAddress: string,
    reply: U32,
    original: U32,
    msgIdCRC: U32,
    replyCRC: U32,
    msgid: string,
    replyid: string)

  /** The buffer after memset to zero. */
  const EMPTY_MSG := MsgBuf(0, 0, "", "", "", GetFlags(NoBits()), 0, 0, 0, "", "", 0, 0, 0, 0, "", "")

  /** Names and addresses are char[101]. */
  const NAME_LEN: nat := 100

  predicate BufferFits(m: MsgBuf) {
    |m.from| <= NAME_LEN && |m.to| <= NAME_LEN && |m.subject| <= NAME_LEN
    && |m.fromAddress| <= NAME_LEN && |m.toAddress| <= NAME_LEN
  }

  // ----- Stored messages and the files that hold them -----

  datatype Stored = Stored(hdr: JamHdr, subs: seq<Subfield>, text: string)

  function RecBytes(s: Stored): (b: string)
    ensures |b| == HDR_SIZE + |SubsBytes(s.subs)|
  {
    HdrBytes(s.hdr) + SubsBytes(s.subs)
  }

  function TextOf(s: Stored): string {
    s.text
  }

  function Records(base: seq<Stored>): string {
    Flat(RecBytes, base)
  }

  function Texts(base: seq<Stored>): string {
    Flat(TextOf, base)
  }

  /** Where the header of message i starts; Off(base, |base|) is the end of the file. */
  function Off(base: seq<Stored>, i: nat): (o: nat)
    requires i <= |base|
    ensures o >= INFO_SIZE
  {
    INFO_SIZE + |Records(base[..i])|
  }

  function TxtOff(base: seq<Stored>, i: nat): nat
    requires i <= |base|
  {
    |Texts(base[..i])|
  }

  function HdrFile(info: JamHdrInfo, base: seq<Stored>): string {
    InfoBytes(info) + Records(base)
  }

  /** File positions are C ints. */
  const MAX_FILE: nat := 0x7fffffff

  predicate Fits(base: seq<Stored>) {
    INFO_SIZE + |Records(base)| <= MAX_FILE && |Texts(base)| <= MAX_FILE
  }

  /** Subfields JAM_AddMsg writes, within the buffers JAM_ReadHeader and JAM_Read copy them to. */
  predicate Readable(s: Subfield) {
    && s.id in {OADDRESS, DADDRESS, SENDERNAME, RECVRNAME, MSGID, REPLYID, SUBJECT, PID, TRACE,
                FTSKLUDGE, SEENBY2D, PATH2D}
    && |s.data| <= MAX_LINE_LENGTH
    && (s.id in {MSGID, REPLYID} ==> |s.data| <= 80)
  }

  predicate WellFormedAt(base: seq<Stored>, i: nat)
    requires i < |base|
  {
    && base[i].hdr.signature == SIGNATURE
    && base[i].hdr.subfieldLen == |SubsBytes(base[i].subs)|
    && base[i].hdr.txtLen == |base[i].text|
    && base[i].hdr.txtOffset == TxtOff(base, i)
    && forall s :: s in base[i].subs ==> Readable(s)
  }

  predicate WellFormed(base: seq<Stored>) {
    forall i :: 0 <= i < |base| ==> WellFormedAt(base, i)
  }

  lemma OffStep(base: seq<Stored>, i: nat)
    requires i < |base|
    ensures Off(base, i + 1) == Off(base, i) + HDR_SIZE + |SubsBytes(base[i].subs)|
    ensures TxtOff(base, i + 1) == TxtOff(base, i) + |base[i].text|
  {
    FlatTake(RecBytes, base, i);
    FlatTake(TextOf, base, i);
  }

  lemma OffLast(base: seq<Stored>)
    ensures Off(base, |base|) == INFO_SIZE + |Records(base)| && TxtOff(base, |base|) == |Texts(base)|
  {
    assert base[..|base|] == base;
  }

  lemma {:induction false} OffMonotone(base: seq<Stored>, i: nat, j: nat)
    requires i <= j <= |base|
    ensures Off(base, i) + HDR_SIZE * (j - i) <= Off(base, j) && TxtOff(base, i) <= TxtOff(base, j)
    decreases j
  {
    if i < j {
      hide Flat, SubsBytes, Off, TxtOff;
      OffStep(base, j - 1);
      OffMonotone(base, i, j - 1);
    }
  }

  /** Message i lies within the files. */
  lemma OffInside(base: seq<Stored>, i: nat)
    requires i < |base|
    ensures Off(base, i) + HDR_SIZE + |SubsBytes(base[i].subs)| <= INFO_SIZE + |Records(base)|
    ensures TxtOff(base, i) + |base[i].text| <= |Texts(base)|
    ensures HDR_SIZE * |base| <= |Records(base)|
  {
    OffStep(base, i);
    OffMonotone(base, i + 1, |base|);
    OffMonotone(base, 0, |base|);
    OffLast(base);
  }

  function HdrAt(file: string, at: nat): JamHdr
    requires at + HDR_SIZE <= |file|
  {
    ParseHdr(file[at..at + HDR_SIZE])
  }

  /** Reading at an index entry finds the header, the subfields right behind it, and the
      text where the header says. */
  lemma ReadBack(info: JamHdrInfo, base: seq<Stored>, i: nat)
    requires i < |base|
    ensures var f := HdrFile(info, base); var at := Off(base, i); var n := |SubsBytes(base[i].subs)|;
            && at + HDR_SIZE + n <= |f|
            && HdrAt(f, at) == base[i].hdr
            && f[at + HDR_SIZE..at + HDR_SIZE + n] == SubsBytes(base[i].subs)
    ensures var at := TxtOff(base, i); var n := |base[i].text|;
            at + n <= |Texts(base)| && Texts(base)[at..at + n] == base[i].text
  {
    hide HdrBytes, ParseHdr, InfoBytes, SubsBytes, Flat;
    FlatSplit(RecBytes, base, i);
    FlatSplit(TextOf, base, i);
    RecParts(InfoBytes(info), Records(base[..i]), HdrBytes(base[i].hdr), SubsBytes(base[i].subs),
      Records(base[i + 1..]));
    HdrRoundTrip(base[i].hdr);
    Middle(Texts(base[..i]), base[i].text, Texts(base[i + 1..]));
  }

  lemma RecParts(info: string, before: string, h: string, s: string, after: string)
    ensures var f := info + (before + (h + s) + after); var at := |info| + |before|;
            && f[at..at + |h|] == h
            && f[at + |h|..at + |h| + |s|] == s
            && forall h': string :: |h'| == |h| ==> Overwrite(f, at, h') == info + (before + (h' + s) + after)
  {
  }

  /** Writing a header over message i's header changes that header and nothing else. */
  lemma WriteBack(info: JamHdrInfo, base: seq<Stored>, i: nat, h: JamHdr)
    requires i < |base|
    ensures var base' := base[i := base[i].(hdr := h)];
            && Off(base, i) + HDR_SIZE <= |HdrFile(info, base)|
            && Overwrite(HdrFile(info, base), Off(base, i), HdrBytes(h)) == HdrFile(info, base')
            && Texts(base') == Texts(base)
            && forall j :: 0 <= j <= |base| ==> Off(base', j) == Off(base, j) && TxtOff(base', j) == TxtOff(base, j)
  {
    var base' := base[i := base[i].(hdr := h)];
    WriteRecord(info, base, i, h);
    forall j | 0 <= j <= |base|
      ensures Off(base', j) == Off(base, j) && TxtOff(base', j) == TxtOff(base, j)
    {
      SameOffsets(base, base', i, j);
    }
    OffLast(base);
    OffLast(base');
    FlatSplit(TextOf, base, i);
    FlatSplit(TextOf, base', i);
    assert base'[..i] == base[..i] && base'[i + 1..] == base[i + 1..];
    OffInside(base, i);
  }

  lemma WriteRecord(info: JamHdrInfo, base: seq<Stored>, i: nat, h: JamHdr)
    requires i < |base|
    ensures var base' := base[i := base[i].(hdr := h)];
            && Off(base, i) + HDR_SIZE <= |HdrFile(info, base)|
            && Overwrite(HdrFile(info, base), Off(base, i), HdrBytes(h)) == HdrFile(info, base')
  {
    hide HdrBytes, InfoBytes, SubsBytes, Flat;
    var base' := base[i := base[i].(hdr := h)];
    OffInside(base, i);
    FlatSplit(RecBytes, base, i);
    FlatSplit(RecBytes, base', i);
    assert base'[..i] == base[..i] && base'[i + 1..] == base[i + 1..];
    RecParts(InfoBytes(info), Records(base[..i]), HdrBytes(base[i].hdr), SubsBytes(base[i].subs),
      Records(base[i + 1..]));
  }

  lemma SameOffsets(base: seq<Stored>, base': seq<Stored>, i: nat, j: nat)
    requires i < |base| && j <= |base|
    requires |base'| == |base| && base' == base[i := base'[i]]
    requires base'[i].subs == base[i].subs && base'[i].text == base[i].text
    ensures Off(base', j) == Off(base, j) && TxtOff(base', j) == TxtOff(base, j)
  {
    hide HdrBytes, SubsBytes, Flat;
    FlatLengths(RecBytes, base'[..j], base[..j]);
    FlatLengths(TextOf, base'[..j], base[..j]);
  }
}
