/** Frames of the binkp protocol: a two-byte header and up to 32767 bytes, written by
    binkp_send_frame and collected byte by byte by binkp_poll_frame (mbcico/binkp.c). */
module BinkpFrame {
  import opened Seqs

  const MAX_BLKSIZE: nat := 0x7fff
  const SND_BLKSIZE: nat := 4096
  const CONTROL_BLOCK: nat := 0x8000
  const PLZ_BLOCK: nat := 0x4000

  /** What a frame carries; Bad stands for a compressed block that does not uncompress. */
  datatype Frame = Frame(cmd: bool, data: string) | Bad

  /** zlib's compress2 and uncompress with a buffer of PLZ_BLOCK - 1 bytes. */
  datatype Zlib = Zlib(deflate: string -> Option<string>, inflate: string -> Option<string>)

  ghost predicate WorksOn(z: Zlib, d: string) {
    z.deflate(d).Some? ==> 0 < |z.deflate(d).value| < PLZ_BLOCK && z.inflate(z.deflate(d).value) == Some(d)
  }

  // ----- The bytes of a frame -----

  function HeaderBytes(header: nat): (b: string)
    requires header < 0x10000
    ensures |b| == 2
  {
    [(header / 0x100) as char, (header % 0x100) as char]
  }

  /** Is the block sent compressed? */
  predicate Squeezed(plz: bool, z: Zlib, f: Frame)
    requires f.Frame?
  {
    plz && !f.cmd && |f.data| > 20 && z.deflate(f.data).Some? && |z.deflate(f.data).value| < |f.data|
  }

  function Payload(plz: bool, z: Zlib, f: Frame): string
    requires f.Frame?
  {
    if Squeezed(plz, z, f) then z.deflate(f.data).value else f.data
  }

  /** The longest block either side can announce. */
  function Limit(plz: bool): nat {
    if plz then PLZ_BLOCK else CONTROL_BLOCK
  }

  predicate Sendable(plz: bool, f: Frame) {
    f.Frame? && |f.data| < Limit(plz)
  }

  function Header(plz: bool, z: Zlib, f: Frame): nat
    requires f.Frame?
  {
    (if f.cmd then CONTROL_BLOCK else 0) + (if Squeezed(plz, z, f) then PLZ_BLOCK else 0) + |Payload(plz, z, f)|
  }

  ghost function Wire(plz: bool, z: Zlib, f: Frame): string
    requires Sendable(plz, f) && WorksOn(z, f.data)
  {
    HeaderBytes(Header(plz, z, f)) + Payload(plz, z, f)
  }

  ghost predicate AllSendable(plz: bool, z: Zlib, fs: seq<Frame>) {
    forall i :: 0 <= i < |fs| ==> Sendable(plz, fs[i]) && WorksOn(z, fs[i].data)
  }

  ghost function WireAll(plz: bool, z: Zlib, fs: seq<Frame>): string
    requires AllSendable(plz, z, fs)
  {
    if fs == [] then "" else Wire(plz, z, fs[0]) + WireAll(plz, z, fs[1..])
  }

  // ----- Collecting bytes into frames -----

  /** The header formed by the first two bytes. */
  function HeaderOf(raw: string): nat
    requires |raw| >= 2
  {
    raw[0] as int % 0x100 * 0x100 + raw[1] as int % 0x100
  }

  function BlockLen(plz: bool, header: nat): nat {
    header % Limit(plz)
  }

  predicate IsPlz(plz: bool, header: nat) {
    plz && header / PLZ_BLOCK % 2 == 1 && BlockLen(plz, header) > 0
  }

  predicate Complete(plz: bool, raw: string) {
    |raw| >= 2 && |raw| == 2 + BlockLen(plz, HeaderOf(raw))
  }

  function FrameOf(plz: bool, z: Zlib, raw: string): Frame
    requires Complete(plz, raw)
  {
    var header := HeaderOf(raw);
    if IsPlz(plz, header) then
      match z.inflate(raw[2..])
      case Some(d) => Frame(header >= CONTROL_BLOCK, d)
      case None => Bad
    else Frame(header >= CONTROL_BLOCK, raw[2..])
  }

  /** The frames completed by a stream of bytes that follows the bytes in `raw`, and what
      is then left of an unfinished frame. */
  function Decode(plz: bool, z: Zlib, raw: string, stream: string): (seq<Frame>, string)
    decreases |stream|
  {
    if stream == "" then ([], raw)
    else
      var more := raw + [stream[0]];
      if Complete(plz, more) then
        var (fs, left) := Decode(plz, z, "", stream[1..]);
        ([FrameOf(plz, z, more)] + fs, left)
      else
        Decode(plz, z, more, stream[1..])
  }

  /** Where the stream is cut does not matter. */
  lemma {:induction false} DecodeConcat(plz: bool, z: Zlib, raw: string, a: string, b: string)
    ensures var (fs, left) := Decode(plz, z, raw, a);
            var (gs, rest) := Decode(plz, z, left, b);
            Decode(plz, z, raw, a + b) == (fs + gs, rest)
    decreases |a|
  {
    if a == "" {
      assert a + b == b && [] + Decode(plz, z, raw, b).0 == Decode(plz, z, raw, b).0;
    } else {
      assert (a + b)[0] == a[0] && (a + b)[1..] == a[1..] + b;
      var more := raw + [a[0]];
      if Complete(plz, more) {
        DecodeConcat(plz, z, "", a[1..], b);
        var (fs, left) := Decode(plz, z, "", a[1..]);
        var f := FrameOf(plz, z, more);
        assert [f] + (fs + Decode(plz, z, left, b).0) == ([f] + fs) + Decode(plz, z, left, b).0;
      } else {
        DecodeConcat(plz, z, more, a[1..], b);
      }
    }
  }

  /** Bytes that do not finish the frame are only collected. */
  lemma {:induction false} DecodeShort(plz: bool, z: Zlib, raw: string, s: string)
    requires forall k :: 0 < k <= |s| ==> !Complete(plz, raw + s[..k])
    ensures Decode(plz, z, raw, s) == ([], raw + s)
    decreases |s|
  {
    if s == "" {
      assert raw + s == raw;
    } else {
      var more := raw + [s[0]];
      assert raw + s[..1] == more;
      forall k | 0 < k <= |s[1..]|
        ensures !Complete(plz, more + s[1..][..k])
      {
        assert more + s[1..][..k] == raw + s[..k + 1];
      }
      DecodeShort(plz, z, more, s[1..]);
      assert more + s[1..] == raw + s;
    }
  }

  lemma HeaderBack(header: nat, payload: string)
    requires header < 0x10000
    ensures HeaderOf(HeaderBytes(header) + payload) == header
  {
  }

  /** The header says the payload's length, its kind, and whether it is compressed. */
  lemma HeaderParts(plz: bool, z: Zlib, f: Frame)
    requires Sendable(plz, f) && WorksOn(z, f.data)
    ensures var h := Header(plz, z, f);
            && h < 0x10000
            && BlockLen(plz, h) == |Payload(plz, z, f)|
            && (h >= CONTROL_BLOCK <==> f.cmd)
            && (IsPlz(plz, h) <==> Squeezed(plz, z, f))
  {
  }

  /** The bytes of a frame: the top bit of the first marks a command, in PLZ mode the next one a
      compressed block, the rest of the two is the number of bytes behind them, high byte first;
      then the block, compressed only when that is possible and makes it shorter. */
  lemma WireLayout(plz: bool, z: Zlib, f: Frame)
    requires Sendable(plz, f) && WorksOn(z, f.data)
    ensures var w := Wire(plz, z, f);
            && |w| >= 2 && w[0] as int < 0x100 && w[1] as int < 0x100
            && (f.cmd <==> w[0] as int / 0x80 == 1)
            && var packed := plz && w[0] as int / 0x40 % 2 == 1;
               && w[0] as int % (if plz then 0x40 else 0x80) * 0x100 + w[1] as int == |w| - 2
               && (packed <==> plz && !f.cmd && |f.data| > 20 && z.deflate(f.data).Some?
                               && |z.deflate(f.data).value| < |f.data|)
               && w[2..] == if packed then z.deflate(f.data).value else f.data
  {
    HeaderParts(plz, z, f);
    var h, p := Header(plz, z, f), Payload(plz, z, f);
    assert Wire(plz, z, f)[2..] == p;
    HeaderBits(h);
  }

  lemma HeaderBits(h: nat)
    requires h < 0x10000
    ensures (h >= CONTROL_BLOCK) == (h / 0x100 / 0x80 == 1)
    ensures h / PLZ_BLOCK % 2 == h / 0x100 / 0x40 % 2
    ensures h % CONTROL_BLOCK == h / 0x100 % 0x80 * 0x100 + h % 0x100
    ensures h % PLZ_BLOCK == h / 0x100 % 0x40 * 0x100 + h % 0x100
  {
  }

  /** A frame's own bytes give back that frame, and no earlier. */
  lemma DecodeWire(plz: bool, z: Zlib, f: Frame)
    requires Sendable(plz, f) && WorksOn(z, f.data)
    ensures Decode(plz, z, "", Wire(plz, z, f)) == ([f], "")
  {
    var w := Wire(plz, z, f);
    var n := |w| - 1;
    var h, p := Header(plz, z, f), Payload(plz, z, f);
    HeaderParts(plz, z, f);
    HeaderBack(h, p);
    forall k | 0 < k <= n
      ensures !Complete(plz, "" + w[..n][..k])
    {
      assert "" + w[..n][..k] == w[..k];
      if k >= 2 {
        assert HeaderOf(w[..k]) == HeaderOf(w);
      }
    }
    DecodeShort(plz, z, "", w[..n]);
    assert "" + w[..n] == w[..n];
    DecodeConcat(plz, z, "", w[..n], [w[n]]);
    assert w[..n] + [w[n]] == w;
    assert w[2..] == p;
    assert Complete(plz, w) && FrameOf(plz, z, w) == f;
    assert [w[n]][1..] == "" && [] + ([f] + []) == [f];
  }

  /** Any sequence of frames is recovered in order from its bytes. */
  lemma {:induction false} DecodeAll(plz: bool, z: Zlib, fs: seq<Frame>)
    requires AllSendable(plz, z, fs)
    ensures Decode(plz, z, "", WireAll(plz, z, fs)) == (fs, "")
  {
    if fs != [] {
      DecodeWire(plz, z, fs[0]);
      DecodeAll(plz, z, fs[1..]);
      DecodeConcat(plz, z, "", Wire(plz, z, fs[0]), WireAll(plz, z, fs[1..]));
      assert [fs[0]] + fs[1..] == fs;
    }
  }

  // ----- Sending -----

  /** The block size after a block of `len` bytes was packed into `zlen`: the ratio in quarters, in
      pieces of 512 bytes, within the limits. */
  function Adapted(len: nat, zlen: nat): (size: nat)
    requires zlen > 0
    ensures SND_BLKSIZE <= size < PLZ_BLOCK
  {
    var size := len * 4 / zlen * 512;
    if size < SND_BLKSIZE then SND_BLKSIZE else if size > PLZ_BLOCK - 1 then PLZ_BLOCK - 1 else size
  }

  class FrameSender {
    const plz: bool
    const zlib: Zlib
    /** The size of the next data block. */
    var cmpblksize: nat
    /** The bytes put on the line. */
    var line: string

    ghost predicate Valid()
      reads this
    {
      SND_BLKSIZE <= cmpblksize < PLZ_BLOCK
    }

    constructor (plz: bool, zlib: Zlib)
      ensures Valid() && this.plz == plz && this.zlib == zlib && line == ""
    {
      this.plz, this.zlib := plz, zlib;
      cmpblksize := SND_BLKSIZE;
      line := "";
    }

    method Adapt(len: nat, zlen: nat)
      requires zlen > 0
      modifies this`cmpblksize
      ensures Valid() && line == old(line) && cmpblksize == Adapted(len, zlen)
    {
      cmpblksize := len * 4 / zlen * 512;
      if cmpblksize < SND_BLKSIZE { cmpblksize := SND_BLKSIZE; }
      if cmpblksize > PLZ_BLOCK - 1 { cmpblksize := PLZ_BLOCK - 1; }
    }

    /** binkp_send_frame: false, with nothing sent, only for a block too long for PLZ mode.
        The block size adapts to the compression but never reaches the PLZ bit. */
    method SendFrame(cmd: bool, buf: string) returns (ok: bool)
      requires Valid() && |buf| <= MAX_BLKSIZE && WorksOn(zlib, buf)
      modifies this
      ensures Valid()
      ensures ok <==> Sendable(plz, Frame(cmd, buf))
      ensures line == if ok then old(line) + Wire(plz, zlib, Frame(cmd, buf)) else old(line)
      ensures var f := Frame(cmd, buf);
              cmpblksize == if !ok || cmd then old(cmpblksize)
                            else if Squeezed(plz, zlib, f) then Adapted(|buf|, |Payload(plz, zlib, f)|)
                            else SND_BLKSIZE
    {
      if |buf| >= PLZ_BLOCK && plz {
        return false;
      }
      ok := true;
      var header := (if cmd then CONTROL_BLOCK else 0) + |buf|;
      if plz && |buf| > 20 && !cmd {
        var packed := zlib.deflate(buf);
        if packed.Some? && |packed.value| < |buf| {
          var zlen := |packed.value|;
          Adapt(|buf|, zlen);
          header := PLZ_BLOCK + zlen;
          line := line + HeaderBytes(header) + packed.value;
        } else {
          line := line + HeaderBytes(header) + buf;
          cmpblksize := SND_BLKSIZE;
        }
      } else {
        line := line + HeaderBytes(header) + buf;
        if !cmd { cmpblksize := SND_BLKSIZE; }
      }
      ghost var f := Frame(cmd, buf);
      assert line == old(line) + HeaderBytes(Header(plz, zlib, f)) + Payload(plz, zlib, f);
      assert old(line) + HeaderBytes(Header(plz, zlib, f)) + Payload(plz, zlib, f) == old(line) + Wire(plz, zlib, f);
    }

    /** A block of file data, as long as the sender reads one, is never refused. */
    method SendData(block: string) returns (ok: bool)
      requires Valid() && |block| <= cmpblksize && WorksOn(zlib, block)
      modifies this
      ensures Valid() && ok && Sendable(plz, Frame(false, block))
      ensures line == old(line) + Wire(plz, zlib, Frame(false, block))
    {
      ok := SendFrame(false, block);
    }
  }

  /** What the adaption is for: a block of that size, packed as well as the last one, takes no more
      than half of SND_BLKSIZE on the line, unless it has the least size; with 512 bytes more it would
      take more than that, unless it has the greatest. */
  lemma AdaptedFits(len: nat, zlen: nat)
    requires 0 < zlen
    ensures Adapted(len, zlen) > SND_BLKSIZE ==> Adapted(len, zlen) * zlen <= SND_BLKSIZE / 2 * len
    ensures Adapted(len, zlen) < PLZ_BLOCK - 1 ==> (Adapted(len, zlen) + 512) * zlen > SND_BLKSIZE / 2 * len
  {
    var q := len * 4 / zlen;
    assert q * zlen <= len * 4 < (q + 1) * zlen;
    Times512(q, zlen, len);
  }

  lemma Times512(q: nat, zlen: nat, len: nat)
    requires q * zlen <= len * 4 < (q + 1) * zlen
    ensures q * 512 * zlen <= 2048 * len < (q * 512 + 512) * zlen
  {
    assert q * 512 * zlen == 512 * (q * zlen);
    assert (q * 512 + 512) * zlen == 512 * ((q + 1) * zlen);
  }

  // ----- Receiving -----

  class FrameReceiver {
    const plz: bool
    const zlib: Zlib
    /** Bytes that have arrived and are not yet read. */
    var arrived: string
    var rxlen: nat
    var header: nat
    var cmd: bool
    var blklen: nat
    var rxbuf: string
    var gotFrame: bool
    /** The bytes of the frame being collected. */
    ghost var raw: string

    ghost predicate Valid()
      reads this
    {
      && !gotFrame
      && rxlen == |raw| && !Complete(plz, raw)
      && (rxlen == 1 ==> header == raw[0] as int % 0x100 * 0x100)
      && (rxlen >= 2 ==> header == HeaderOf(raw) && cmd == (header >= CONTROL_BLOCK)
                         && blklen == BlockLen(plz, header) && rxbuf == raw[2..] && rxlen < 2 + blklen)
    }

    constructor (plz: bool, zlib: Zlib)
      ensures Valid() && this.plz == plz && this.zlib == zlib && raw == "" && arrived == ""
    {
      this.plz, this.zlib := plz, zlib;
      arrived, rxbuf, raw := "", "", "";
      rxlen, header, blklen := 0, 0, 0;
      cmd, gotFrame := false, false;
    }

    /** binkp_poll_frame's treatment of one byte; `rc` says whether it ends a frame (1), ends
        a frame that does not uncompress (3), or does not end one (0). */
    method PutByte(c: char) returns (rc: int)
      requires Valid()
      modifies this
      ensures rc in {0, 1, 3} && arrived == old(arrived)
      ensures rc == 0 ==> Valid() && raw == old(raw) + [c]
      ensures rc != 0 ==> gotFrame && Complete(plz, old(raw) + [c])
      ensures rc != 0 ==> FrameOf(plz, zlib, old(raw) + [c]) == if rc == 1 then Frame(cmd, rxbuf) else Bad
    {
      hide HeaderOf, Complete, BlockLen, FrameOf;
      ghost var more := raw + [c];
      ByteEffect(plz, zlib, raw, c);
      if rxlen == 0 {
        header := c as int % 0x100 * 0x100;
      } else if rxlen == 1 {
        header := header + c as int % 0x100;
        rxbuf := "";
      } else {
        rxbuf := rxbuf + [c];
      }
      if rxlen == 1 {
        cmd := header / CONTROL_BLOCK % 2 == 1;
        blklen := if plz then header % PLZ_BLOCK else header % CONTROL_BLOCK;
      }
      if rxlen >= 1 && rxlen == blklen + 1 {
        gotFrame := true;
        if plz && header / PLZ_BLOCK % 2 == 1 && blklen > 0 {
          var plain := zlib.inflate(rxbuf);
          if plain.None? {
            return 3;
          }
          rxbuf := plain.value;
          blklen := |rxbuf|;
        }
        return 1;
      }
      rxlen := rxlen + 1;
      raw := more;
      rc := 0;
    }

    /** binkp_poll_frame: read until a frame is complete (1), does not uncompress (3), or no
        byte is left (0). */
    method PollFrame() returns (rc: int)
      requires Valid()
      modifies this
      ensures rc in {0, 1, 3}
      ensures rc == 0 ==> Valid() && arrived == "" && Decode(plz, zlib, old(raw), old(arrived)) == ([], raw)
      ensures rc != 0 ==> gotFrame && |arrived| < |old(arrived)|
      ensures rc != 0 ==> var (fs, left) := Decode(plz, zlib, "", arrived);
                          Decode(plz, zlib, old(raw), old(arrived))
                          == ([if rc == 1 then Frame(cmd, rxbuf) else Bad] + fs, left)
    {
      hide Complete, FrameOf, HeaderOf, BlockLen;
      while |arrived| > 0
        invariant Valid() && |arrived| <= |old(arrived)|
        invariant Decode(plz, zlib, old(raw), old(arrived)) == Decode(plz, zlib, raw, arrived)
        decreases |arrived|
      {
        var c := arrived[0];
        arrived := arrived[1..];
        rc := PutByte(c);
        if rc != 0 {
          return;
        }
      }
      rc := 0;
    }

    /** What the receiver does with a frame before the next poll. */
    method TakeFrame() returns (f: Frame)
      requires gotFrame
      modifies this
      ensures Valid() && raw == "" && f == Frame(old(cmd), old(rxbuf)) && arrived == old(arrived)
    {
      f := Frame(cmd, rxbuf);
      gotFrame := false;
      rxlen := 0;
      header := 0;
      blklen := 0;
      raw := "";
    }

    /** Poll until nothing is left of what has arrived. */
    method Drain() returns (fs: seq<Frame>)
      requires Valid() && Bad !in Decode(plz, zlib, raw, arrived).0
      modifies this
      ensures Valid() && arrived == ""
      ensures (fs, raw) == Decode(plz, zlib, old(raw), old(arrived))
    {
      hide Complete, FrameOf, HeaderOf, BlockLen, Decode;
      fs := [];
      ghost var all := Decode(plz, zlib, raw, arrived);
      var rc := PollFrame();
      ghost var rest := Decode(plz, zlib, "", arrived).0;
      assert forall l: seq<Frame> :: [] + l == l;
      while rc != 0
        invariant rc in {0, 1, 3} && (rc != 0 ==> gotFrame)
        invariant rc == 0 ==> Valid() && arrived == "" && all == (fs, raw)
        invariant rc != 0 ==> all == (fs + ([if rc == 1 then Frame(cmd, rxbuf) else Bad] + rest),
                                      Decode(plz, zlib, "", arrived).1)
        invariant rc != 0 ==> rest == Decode(plz, zlib, "", arrived).0
        decreases |arrived|, rc
      {
        AmongFrames(fs, if rc == 1 then Frame(cmd, rxbuf) else Bad, rest);
        var f := TakeFrame();
        assert fs + ([f] + rest) == (fs + [f]) + rest;
        fs := fs + [f];
        rc := PollFrame();
        assert rc == 0 ==> fs + [] == fs;
        rest := Decode(plz, zlib, "", arrived).0;
      }
    }
  }

  lemma AmongFrames(fs: seq<Frame>, f: Frame, rest: seq<Frame>)
    ensures f in fs + ([f] + rest)
  {
    assert (fs + ([f] + rest))[|fs|] == f;
  }

  /** What one more byte does to the header, the payload, and the end of the frame. */
  lemma ByteEffect(plz: bool, z: Zlib, raw: string, c: char)
    ensures var more := raw + [c];
            && (|raw| < 1 ==> !Complete(plz, more))
            && (|raw| == 1 ==> HeaderOf(more) == raw[0] as int % 0x100 * 0x100 + c as int % 0x100 && more[2..] == "")
            && (|raw| >= 2 ==> HeaderOf(more) == HeaderOf(raw) && more[2..] == raw[2..] + [c])
            && (|raw| >= 1 ==> HeaderOf(more) < 0x10000 && more[0] == raw[0])
            && (|raw| >= 1 ==> (Complete(plz, more) <==> |raw| == 1 + BlockLen(plz, HeaderOf(more))))
    ensures forall h: nat :: h < 0x10000 ==> (h / CONTROL_BLOCK % 2 == 1 <==> h >= CONTROL_BLOCK)
    ensures forall h: nat :: BlockLen(plz, h) == if plz then h % PLZ_BLOCK else h % CONTROL_BLOCK
    ensures var more := raw + [c]; Complete(plz, more) ==>
              FrameOf(plz, z, more) ==
                if IsPlz(plz, HeaderOf(more)) then
                  (match z.inflate(more[2..])
                   case Some(d) => Frame(HeaderOf(more) >= CONTROL_BLOCK, d)
                   case None => Bad)
                else Frame(HeaderOf(more) >= CONTROL_BLOCK, more[2..])
  {
  }

  function Joined(chunks: seq<string>): string {
    if chunks == [] then "" else Joined(chunks[..|chunks| - 1]) + chunks[|chunks| - 1]
  }

  /** Frames sent by binkp_send_frame and cut into chunks anywhere on the way come out of
      binkp_poll_frame in order, with the same kind and payload. */
  method Transfer(plz: bool, z: Zlib, ghost fs: seq<Frame>, chunks: seq<string>) returns (got: seq<Frame>)
    requires AllSendable(plz, z, fs) && Joined(chunks) == WireAll(plz, z, fs)
    ensures got == fs
  {
    hide Decode, WireAll, AllSendable, Joined;
    var r := new FrameReceiver(plz, z);
    got := [];
    DecodeAll(plz, z, fs);
    var i := 0;
    NoChunks(plz, z);
    assert chunks[..0] == [];
    while i < |chunks|
      invariant i <= |chunks| && r.Valid() && r.arrived == "" && r.plz == plz && r.zlib == z && fresh(r)
      invariant (got, r.raw) == Decode(plz, z, "", Joined(chunks[..i]))
    {
      JoinedStep(chunks, i);
      DecodeConcat(plz, z, "", Joined(chunks[..i]), chunks[i]);
      r.arrived := r.arrived + chunks[i];
      assert r.arrived == chunks[i];
      PartOfWhole(plz, z, fs, chunks, i + 1);
      var more := r.Drain();
      got := got + more;
      i := i + 1;
    }
    assert chunks[..i] == chunks;
  }

  lemma JoinedStep(chunks: seq<string>, i: nat)
    requires i < |chunks|
    ensures Joined(chunks[..i + 1]) == Joined(chunks[..i]) + chunks[i]
  {
    assert chunks[..i + 1][..i] == chunks[..i];
  }

  lemma NoChunks(plz: bool, z: Zlib)
    ensures Joined([]) == "" && Decode(plz, z, "", "") == ([], "")
  {
  }

  lemma {:induction false} JoinedConcat(a: seq<string>, b: seq<string>)
    ensures Joined(a + b) == Joined(a) + Joined(b)
  {
    if b == [] {
      assert a + b == a;
    } else {
      assert (a + b)[..|a + b| - 1] == a + b[..|b| - 1];
      JoinedConcat(a, b[..|b| - 1]);
    }
  }

  /** The chunks so far hold no frame that does not uncompress. */
  lemma PartOfWhole(plz: bool, z: Zlib, fs: seq<Frame>, chunks: seq<string>, i: nat)
    requires AllSendable(plz, z, fs) && Joined(chunks) == WireAll(plz, z, fs) && i <= |chunks|
    ensures Bad !in Decode(plz, z, "", Joined(chunks[..i])).0
  {
    JoinedConcat(chunks[..i], chunks[i..]);
    assert chunks[..i] + chunks[i..] == chunks;
    DecodeConcat(plz, z, "", Joined(chunks[..i]), Joined(chunks[i..]));
    DecodeAll(plz, z, fs);
    var part := Decode(plz, z, "", Joined(chunks[..i])).0;
    forall k | 0 <= k < |part|
      ensures part[k] != Bad
    {
      assert part[k] == fs[k];
    }
  }

  // ----- From one end to the other -----

  lemma {:induction false} WireAppend(plz: bool, z: Zlib, fs: seq<Frame>, f: Frame)
    requires AllSendable(plz, z, fs) && Sendable(plz, f) && WorksOn(z, f.data)
    ensures AllSendable(plz, z, fs + [f]) && WireAll(plz, z, fs + [f]) == WireAll(plz, z, fs) + Wire(plz, z, f)
  {
    hide Wire;
    if fs == [] {
      assert fs + [f] == [f] && [f][1..] == [];
      assert Wire(plz, z, f) + "" == Wire(plz, z, f) && "" + Wire(plz, z, f) == Wire(plz, z, f);
    } else {
      WireAppend(plz, z, fs[1..], f);
      assert (fs + [f])[1..] == fs[1..] + [f];
      assert Wire(plz, z, fs[0]) + (WireAll(plz, z, fs[1..]) + Wire(plz, z, f))
          == (Wire(plz, z, fs[0]) + WireAll(plz, z, fs[1..])) + Wire(plz, z, f);
    }
  }

  /** The frames that binkp_send_frame does not refuse. */
  function Accepted(plz: bool, fs: seq<Frame>): seq<Frame> {
    if fs == [] then []
    else Accepted(plz, fs[..|fs| - 1]) + if Sendable(plz, fs[|fs| - 1]) then [fs[|fs| - 1]] else []
  }

  lemma {:induction false} AllAccepted(plz: bool, fs: seq<Frame>)
    requires forall f :: f in fs ==> Sendable(plz, f)
    ensures Accepted(plz, fs) == fs
  {
    if fs != [] {
      AllAccepted(plz, fs[..|fs| - 1]);
    }
  }

  lemma AcceptedStep(plz: bool, fs: seq<Frame>, i: nat)
    requires i < |fs|
    ensures Accepted(plz, fs[..i + 1]) == Accepted(plz, fs[..i]) + if Sendable(plz, fs[i]) then [fs[i]] else []
  {
    assert fs[..i + 1][..i] == fs[..i];
  }

  /** A line cut into pieces of the given sizes, and what is left. */
  function Cut(line: string, sizes: seq<nat>): seq<string>
    decreases |sizes|
  {
    if sizes == [] then [line]
    else
      var n := sizes[|sizes| - 1];
      if n <= |line| then Cut(line[..|line| - n], sizes[..|sizes| - 1]) + [line[|line| - n..]]
      else Cut(line, sizes[..|sizes| - 1])
  }

  lemma {:induction false} CutJoined(line: string, sizes: seq<nat>)
    ensures Joined(Cut(line, sizes)) == line
    decreases |sizes|
  {
    if sizes == [] {
      assert [line][..0] == [] && "" + line == line;
    } else {
      var n := sizes[|sizes| - 1];
      if n <= |line| {
        var first, last := Cut(line[..|line| - n], sizes[..|sizes| - 1]), line[|line| - n..];
        CutJoined(line[..|line| - n], sizes[..|sizes| - 1]);
        assert (first + [last])[..|first|] == first;
      } else {
        CutJoined(line, sizes[..|sizes| - 1]);
      }
    }
  }

  /** Blocks sent one after another, the line between cut anywhere: the receiver gets exactly the
      blocks that were not refused, in order, with their kind and contents. */
  method EndToEnd(plz: bool, z: Zlib, fs: seq<Frame>, sizes: seq<nat>) returns (got: seq<Frame>, refused: nat)
    requires forall f :: f in fs ==> f.Frame? && |f.data| <= MAX_BLKSIZE && WorksOn(z, f.data)
    ensures got == Accepted(plz, fs) && refused == |fs| - |got|
    ensures (forall f :: f in fs ==> Sendable(plz, f)) ==> got == fs && refused == 0
  {
    hide WireAll, Wire, WorksOn, Joined, Cut, Accepted, AllSendable, Sendable;
    var s := new FrameSender(plz, z);
    refused := 0;
    ghost var sent: seq<Frame> := [];
    NothingSent(plz, z);
    assert fs[..0] == [];
    var i := 0;
    while i < |fs|
      invariant i <= |fs| && s.Valid() && s.plz == plz && s.zlib == z && fresh(s)
      invariant sent == Accepted(plz, fs[..i]) && AllSendable(plz, z, sent) && s.line == WireAll(plz, z, sent)
      invariant refused == i - |sent|
    {
      AcceptedStep(plz, fs, i);
      assert fs[i] in fs && fs[i] == Frame(fs[i].cmd, fs[i].data);
      var ok := s.SendFrame(fs[i].cmd, fs[i].data);
      if ok {
        WireAppend(plz, z, sent, fs[i]);
        sent := sent + [fs[i]];
      } else {
        refused := refused + 1;
        assert sent + [] == sent;
      }
      i := i + 1;
    }
    assert fs[..i] == fs;
    CutJoined(s.line, sizes);
    got := Transfer(plz, z, sent, Cut(s.line, sizes));
    if forall f :: f in fs ==> Sendable(plz, f) { AllAccepted(plz, fs); }
  }

  lemma NothingSent(plz: bool, z: Zlib)
    ensures Accepted(plz, []) == [] && AllSendable(plz, z, []) && WireAll(plz, z, []) == ""
  {
  }
}
