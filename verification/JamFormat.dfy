/** The records of a JAM message base: the 1024-byte information block, the 76-byte
    message header, and the tagged subfields that follow a header (lib/jam.h). */
module JamFormat {
  import opened LittleEndian
  import opened Seqs

  /** The bytes 'J' 'A' 'M' NUL as one word. */
  const SIGNATURE: U32 := 0x004d414a
  /** CURRENTREVLEV in the low half, the reserved half-word zero. */
  const REVISION: U32 := 1

  const INFO_SIZE: nat := 1024
  const HDR_SIZE: nat := 76

  type Reserved = r: string | |r| == 1000 witness seq(1000, _ => '\0')

  datatype JamHdrInfo = JamHdrInfo(
    signature: U32,
    dateCreated: U32,
    modCounter: U32,
    activeMsgs: U32,
    passwordCRC: U32,
    baseMsgNum: U32,
    reserved: Reserved)

  function InfoBytes(i: JamHdrInfo): (b: string)
    ensures |b| == INFO_SIZE
  {
    WordsBytes([i.signature, i.dateCreated, i.modCounter, i.activeMsgs, i.passwordCRC, i.baseMsgNum]) + i.reserved
  }

  function ParseInfo(b: string): JamHdrInfo
    requires |b| == INFO_SIZE
  {
    var w := BytesWords(b[..24], 6);
    JamHdrInfo(w[0], w[1], w[2], w[3], w[4], w[5], b[24..])
  }

  lemma InfoRoundTrip(i: JamHdrInfo)
    ensures ParseInfo(InfoBytes(i)) == i
  {
    var w := [i.signature, i.dateCreated, i.modCounter, i.activeMsgs, i.passwordCRC, i.baseMsgNum];
    assert InfoBytes(i)[..24] == WordsBytes(w);
    assert InfoBytes(i)[24..] == i.reserved;
    WordsRoundTrip(w);
  }

  /** Revision and the reserved half-word share the word `revision`. */
  datatype JamHdr = JamHdr(
    signature: U32,
    revision: U32,
    subfieldLen: U32,
    timesRead: U32,
    msgIdCRC: U32,
    replyCRC: U32,
    replyTo: U32,
    reply1st: U32,
    replyNext: U32,
    dateWritten: U32,
    dateReceived: U32,
    dateProcessed: U32,
    msgNum: U32,
    attribute: Bits32,
    attribute2: U32,
    txtOffset: U32,
    txtLen: U32,
    passwordCRC: U32,
    cost: U32)

  function HdrWords(h: JamHdr): (ws: seq<U32>)
    ensures |ws| == 19
  {
    [h.signature, h.revision, h.subfieldLen, h.timesRead, h.msgIdCRC, h.replyCRC, h.replyTo, h.reply1st,
     h.replyNext, h.dateWritten, h.dateReceived, h.dateProcessed, h.msgNum, BitsWord(h.attribute),
     h.attribute2, h.txtOffset, h.txtLen, h.passwordCRC, h.cost]
  }

  function HdrBytes(h: JamHdr): (b: string)
    ensures |b| == HDR_SIZE
  {
    WordsBytes(HdrWords(h))
  }

  function ParseHdr(b: string): JamHdr
    requires |b| == HDR_SIZE
  {
    var w := BytesWords(b, 19);
    JamHdr(w[0], w[1], w[2], w[3], w[4], w[5], w[6], w[7], w[8], w[9], w[10], w[11], w[12],
           WordBits(w[13]), w[14], w[15], w[16], w[17], w[18])
  }

  lemma HdrRoundTrip(h: JamHdr)
    ensures ParseHdr(HdrBytes(h)) == h
  {
    WordsRoundTrip(HdrWords(h));
    BitsRoundTrip(h.attribute);
  }

  // Bits of the attribute word with a meaning of their own here.
  const DELETED_BIT: nat := 31

  // Subfield types.
  const OADDRESS: nat := 0
  const DADDRESS: nat := 1
  const SENDERNAME: nat := 2
  const RECVRNAME: nat := 3
  const MSGID: nat := 4
  const REPLYID: nat := 5
  const SUBJECT: nat := 6
  const PID: nat := 7
  const TRACE: nat := 8
  const FTSKLUDGE: nat := 2000
  const SEENBY2D: nat := 2001
  const PATH2D: nat := 2002

  const SUB_HDR: nat := 8

  type SubId = n: nat | n < 0x10000

  datatype Subfield = Subfield(id: SubId, data: string)

  /** LoID, a zero HiID, DatLen, then the data, as AddSubfield writes them. */
  function SubBytes(s: Subfield): (b: string)
    ensures |b| == SUB_HDR + |s.data|
  {
    WordsBytes([s.id, ToU32(|s.data|)]) + s.data
  }

  function SubsBytes(subs: seq<Subfield>): string {
    Flat(SubBytes, subs)
  }

  /** What the walk over a subfield block finds at the start of `b`. */
  function SubIdAt(b: string): SubId
    requires |b| >= SUB_HDR
  {
    BytesWords(b[..8], 2)[0] % 0x10000
  }

  function SubLenAt(b: string): U32
    requires |b| >= SUB_HDR
  {
    BytesWords(b[..8], 2)[1]
  }

  lemma SubHeadParse(s: Subfield, rest: string)
    requires |s.data| < WORD
    ensures SubIdAt(WordsBytes([s.id, ToU32(|s.data|)]) + rest) == s.id
    ensures SubLenAt(WordsBytes([s.id, ToU32(|s.data|)]) + rest) == |s.data|
  {
    hide WordsBytes, BytesWords, WordBytes, BytesWord;
    var ws: seq<U32> := [s.id, ToU32(|s.data|)];
    assert (WordsBytes(ws) + rest)[..8] == WordsBytes(ws);
    WordsRoundTrip(ws);
    assert BytesWords(WordsBytes(ws), 2) == ws;
  }

  lemma SubBytesParse(before: string, s: Subfield, after: string)
    requires |s.data| < WORD
    ensures var b := before + SubBytes(s) + after;
            && SubIdAt(b[|before|..]) == s.id
            && SubLenAt(b[|before|..]) == |s.data|
            && b[|before| + SUB_HDR..][..|s.data|] == s.data
  {
    var words := WordsBytes([s.id, ToU32(|s.data|)]);
    ThreeParts(before, words, s.data, after);
    SubHeadParse(s, s.data + after);
  }

  lemma ThreeParts(before: string, words: string, data: string, after: string)
    ensures var b := before + (words + data) + after;
            && b[|before|..] == words + (data + after)
            && b[|before| + |words|..][..|data|] == data
  {
  }

  /** At the boundary before subfield k the walk reads exactly subfield k. */
  lemma SubAt(subs: seq<Subfield>, k: nat)
    requires k < |subs| && |SubsBytes(subs)| < WORD
    ensures var at := |SubsBytes(subs[..k])|; var s := subs[k]; var b := SubsBytes(subs);
            && |SubsBytes(subs[..k + 1])| == at + SUB_HDR + |s.data| <= |b|
            && SubIdAt(b[at..]) == s.id
            && SubLenAt(b[at..]) == |s.data|
            && b[at + SUB_HDR..][..|s.data|] == s.data
  {
    FlatSplit(SubBytes, subs, k);
    FlatTake(SubBytes, subs, k);
    SubBytesParse(SubsBytes(subs[..k]), subs[k], SubsBytes(subs[k + 1..]));
  }

  // ----- Where things are on disk -----

  /** The word at an offset is that one. */
  predicate WordAt(b: string, at: nat, w: U32) {
    at + 4 <= |b| && b[at..at + 4] == WordBytes(w)
  }

  /** The information block, field by field, as lib/jam.h lays it out; its signature is "JAM". */
  lemma InfoLayout(i: JamHdrInfo)
    ensures var b := InfoBytes(i);
            && WordAt(b, 0, i.signature) && WordAt(b, 4, i.dateCreated) && WordAt(b, 8, i.modCounter)
            && WordAt(b, 12, i.activeMsgs) && WordAt(b, 16, i.passwordCRC) && WordAt(b, 20, i.baseMsgNum)
            && b[24..] == i.reserved
    ensures i.signature == SIGNATURE ==> InfoBytes(i)[..4] == "JAM\0"
  {
    hide WordsBytes, WordBytes;
    var w := [i.signature, i.dateCreated, i.modCounter, i.activeMsgs, i.passwordCRC, i.baseMsgNum];
    var b := InfoBytes(i);
    forall k | 0 <= k < 6
      ensures WordAt(b, 4 * k, w[k])
    {
      WordsAt(w, k);
      assert b[4 * k..4 * k + 4] == WordsBytes(w)[4 * k..4 * k + 4];
    }
    assert WordAt(b, 4 * 0, w[0]) && WordAt(b, 4 * 1, w[1]) && WordAt(b, 4 * 2, w[2]);
    assert WordAt(b, 4 * 3, w[3]) && WordAt(b, 4 * 4, w[4]) && WordAt(b, 4 * 5, w[5]);
    SignatureBytes();
  }

  lemma SignatureBytes()
    ensures WordBytes(SIGNATURE) == "JAM\0"
  {
  }

  /** The message header, field by field. */
  lemma HdrLayout(h: JamHdr)
    ensures var b := HdrBytes(h);
            && WordAt(b, 0, h.signature) && WordAt(b, 4, h.revision) && WordAt(b, 8, h.subfieldLen)
            && WordAt(b, 12, h.timesRead) && WordAt(b, 16, h.msgIdCRC) && WordAt(b, 20, h.replyCRC)
            && WordAt(b, 24, h.replyTo) && WordAt(b, 28, h.reply1st) && WordAt(b, 32, h.replyNext)
            && WordAt(b, 36, h.dateWritten) && WordAt(b, 40, h.dateReceived) && WordAt(b, 44, h.dateProcessed)
            && WordAt(b, 48, h.msgNum) && WordAt(b, 52, BitsWord(h.attribute)) && WordAt(b, 56, h.attribute2)
            && WordAt(b, 60, h.txtOffset) && WordAt(b, 64, h.txtLen) && WordAt(b, 68, h.passwordCRC)
            && WordAt(b, 72, h.cost)
  {
    hide WordsBytes, WordBytes, BitsWord;
    var w, b := HdrWords(h), HdrBytes(h);
    forall k | 0 <= k < 19
      ensures WordAt(b, 4 * k, w[k])
    {
      WordsAt(w, k);
    }
    hide WordAt, HdrBytes;
    assert WordAt(b, 4 * 0, w[0]) && WordAt(b, 4 * 1, w[1]) && WordAt(b, 4 * 2, w[2]) && WordAt(b, 4 * 3, w[3]);
    assert WordAt(b, 4 * 4, w[4]) && WordAt(b, 4 * 5, w[5]) && WordAt(b, 4 * 6, w[6]) && WordAt(b, 4 * 7, w[7]);
    assert WordAt(b, 4 * 8, w[8]) && WordAt(b, 4 * 9, w[9]) && WordAt(b, 4 * 10, w[10]) && WordAt(b, 4 * 11, w[11]);
    assert WordAt(b, 4 * 12, w[12]) && WordAt(b, 4 * 13, w[13]) && WordAt(b, 4 * 14, w[14]);
    assert WordAt(b, 4 * 15, w[15]) && WordAt(b, 4 * 16, w[16]) && WordAt(b, 4 * 17, w[17]) && WordAt(b, 4 * 18, w[18]);
  }

  /** A subfield: its type in the low half of the first word, its length, then its data. */
  lemma SubLayout(s: Subfield)
    requires |s.data| < WORD
    ensures var b := SubBytes(s); WordAt(b, 0, s.id) && WordAt(b, 4, |s.data|) && b[8..] == s.data
  {
    hide WordsBytes, WordBytes;
    var w: seq<U32> := [s.id, ToU32(|s.data|)];
    WordsAt(w, 0);
    WordsAt(w, 1);
    var b := SubBytes(s);
    assert b[0..4] == WordsBytes(w)[4 * 0..4 * 0 + 4] && b[4..8] == WordsBytes(w)[4 * 1..4 * 1 + 4];
  }
}
