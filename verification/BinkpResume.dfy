/** Sending one file over binkp, uncompressed, with resume: a sender and a receiver joined
    by two FIFO channels, and a partial file that survives disconnects
    (mbcico/binkp.c, mbcico/bopenfile.c). */
module BinkpResume {
  import opened Seqs

  /** Frames to the receiver. */
  datatype ToRx = MFile(size: nat, offset: nat) | Data(block: string) | Eob

  /** Frames to the transmitter. */
  datatype ToTx = MGet(from: nat) | MGot | MSkip

  // ----- The receiver -----

  datatype RxState = RxWaitF | RxReceD | RxEOB | RxDone

  /** The receiver's variables and its disk.  `file` is everything written to the partial
      file, `synced` how much of it is certain to be on disk, `delivered` the file moved to
      the inbound directory. */
  datatype Rx = Rx(
    state: RxState,
    open: bool,
    rxbytes: nat,
    rsize: nat,
    rxpos: nat,
    file: Option<string>,
    synced: nat,
    delivered: Option<string>)

  function Written(rx: Rx): string {
    if rx.file.Some? then rx.file.value else ""
  }

  /** bopenfile: the size that is there, and a file opened to append. */
  function Opened(rx: Rx): Rx {
    rx.(open := true, rxbytes := if rx.file.Some? then rx.synced else 0,
        file := Some(Written(rx)), synced := if rx.file.Some? then rx.synced else 0)
  }

  /** bclosefile without success: what was written stays in the partial file. */
  function ClosedPartial(rx: Rx): Rx {
    rx.(open := false, synced := |Written(rx)|)
  }

  /** State RxAccF: an M_FILE frame. */
  function Accept(rx: Rx, size: nat, offset: nat): (Rx, seq<ToTx>) {
    var r := (if offset != 0 && offset == rx.rxbytes then rx else Opened(rx)).(rsize := size, rxpos := offset);
    if size == r.rxbytes then (r.(state := RxWaitF, open := false), [MGot])
    else if r.rxbytes < size && offset == 0 && r.rxbytes != 0 then (r.(state := RxWaitF), [MGet(r.rxbytes)])
    else if !r.open then (r.(state := RxWaitF), [MSkip])
    else (r.(state := RxReceD), [])
  }

  /** State RxWriteD: a data frame while a file is being received. */
  function Store(rx: Rx, block: string): (Rx, seq<ToTx>) {
    if !rx.open then (rx, [])
    else
      var r := rx.(file := Some(Written(rx) + block), rxpos := rx.rxpos + |block|);
      if r.rxpos == r.rsize then
        (r.(state := RxWaitF, file := None, synced := 0, delivered := r.file), [MGot])
      else (r, [])
  }

  /** binkp_receiver on one frame; `minor` is the minor protocol version. */
  function Receive(rx: Rx, minor: nat, f: ToRx): (Rx, seq<ToTx>) {
    match rx.state
    case RxWaitF =>
      (match f
       case Data(_) => (rx, [])
       case Eob => (if minor == 0 then rx.(state := RxEOB) else rx, [])
       case MFile(size, offset) => Accept(rx, size, offset))
    case RxReceD =>
      (match f
       case Data(block) => Store(rx, block)
       case Eob => (rx.(state := RxDone), [])
       case MFile(size, offset) => Accept(ClosedPartial(rx), size, offset))
    case RxEOB => (rx.(state := RxDone), [])
    case RxDone => (rx, [])
  }

  // ----- The transmitter -----

  datatype TxState = TxGNF | TxTryR | TxReadS | TxWLA
  datatype FileState = NoState | Sending | IsSent | Got | Skipped

  datatype Tx = Tx(state: TxState, entry: FileState, offset: nat, txpos: nat, queue: seq<ToTx>)

  /** binkp_process_messages on one queued answer. */
  function Answered(tx: Tx, size: nat, m: ToTx): Tx {
    match m
    case MGet(from) =>
      if from == size then
        (if tx.entry == Sending then tx.(entry := Got, state := TxGNF)
         else if tx.entry == IsSent then tx.(entry := Got)
         else tx)
      else if from < size then tx.(entry := NoState, offset := from, state := TxGNF)
      else tx
    case MGot => tx.(entry := Got, state := if tx.entry == Sending then TxGNF else tx.state)
    case MSkip => tx.(entry := Skipped, state := if tx.entry == Sending then TxGNF else tx.state)
  }

  function Processed(tx: Tx, size: nat): Tx
    decreases |tx.queue|
  {
    if tx.queue == [] then tx
    else Processed(Answered(tx, size, tx.queue[0]).(queue := tx.queue[1..]), size)
  }

  /** fread at a position: as much as there is, up to n. */
  function ReadBlock(file: string, at: nat, n: nat): string {
    if at >= |file| then "" else if at + n <= |file| then file[at..at + n] else file[at..]
  }

  /** binkp_transmitter; `blk` is the block size used if it reads from the file. */
  function Transmit(tx: Tx, file: string, blk: nat): (Tx, seq<ToRx>) {
    match tx.state
    case TxGNF =>
      if tx.entry == NoState then
        (tx.(state := TxTryR, entry := Sending, txpos := tx.offset), [MFile(|file|, tx.offset)])
      else (tx.(state := TxWLA), [Eob])
    case TxTryR => (if tx.queue == [] then tx.(state := TxReadS) else Processed(tx, |file|), [])
    case TxReadS =>
      var block := ReadBlock(file, tx.txpos, blk);
      var end := tx.txpos + |block|;
      var eof := |block| < blk;
      var sent := if block == "" then [] else [Data(block)];
      if block == "" || eof then (tx.(state := TxGNF, entry := IsSent, txpos := end), sent)
      else (tx.(state := TxTryR, txpos := end), sent)
    case TxWLA => (Processed(tx, |file|), [])
  }

  // ----- Both ends -----

  /** down and up are the frames under way to the receiver and to the transmitter. */
  datatype World = World(tx: Tx, rx: Rx, down: seq<ToRx>, up: seq<ToTx>)

  datatype Choice =
    | Transmitter(blk: nat)
    | Receiver
    | Arrive
    | NewBatch
    | Disconnect(kept: nat)

  const FRESH_TX := Tx(TxGNF, NoState, 0, 0, [])

  function FreshRx(file: Option<string>, delivered: Option<string>): Rx {
    Rx(RxWaitF, false, 0, 0, 0, file, if file.Some? then |file.value| else 0, delivered)
  }

  /** What a crash leaves of the partial file. */
  function Survives(rx: Rx, kept: nat): Option<string> {
    if rx.file.Some? && rx.synced <= kept <= |rx.file.value| then Some(rx.file.value[..kept])
    else rx.file
  }

  /** One step; a step that is not enabled does nothing.  A new batch, which binkp/1.0 does not
      have, lists the file again only after it was answered; a disconnect loses every frame under way, the queue and
      what the output buffer still held. */
  function Step(w: World, file: string, minor: nat, c: Choice): World {
    match c
    case Transmitter(blk) =>
      if blk == 0 then w
      else
        var (tx, sent) := Transmit(w.tx, file, blk);
        w.(tx := tx, down := w.down + sent)
    case Receiver =>
      if w.down == [] then w
      else
        var (rx, sent) := Receive(w.rx, minor, w.down[0]);
        w.(rx := rx, down := w.down[1..], up := w.up + sent)
    case Arrive =>
      if w.up == [] then w
      else w.(tx := w.tx.(queue := w.tx.queue + [w.up[0]]), up := w.up[1..])
    case NewBatch =>
      if minor != 0 && w.tx.entry in {Got, Skipped} then
        w.(tx := w.tx.(state := TxGNF, entry := NoState, offset := 0, txpos := 0))
      else w
    case Disconnect(kept) => World(FRESH_TX, FreshRx(Survives(w.rx, kept), w.rx.delivered), [], [])
  }

  // ----- The invariant -----

  /** Whatever is on disk is the beginning of the file being sent. */
  predicate DiskOk(rx: Rx, file: string) {
    && Written(rx) <= file
    && (rx.file.Some? ==> rx.synced <= |rx.file.value|)
    && (rx.delivered.Some? ==> rx.delivered.value == file)
  }

  predicate GoodRx(rx: Rx, file: string) {
    && DiskOk(rx, file)
    && (rx.state != RxReceD && rx.file.Some? ==> rx.synced == |rx.file.value|)
    && (rx.state == RxReceD ==> rx.open && rx.file.Some? && rx.rsize == |file| && rx.rxpos == |rx.file.value| < |file|)
  }

  /** Resuming at o is right: the file is open, and o bytes of it are there. */
  predicate Ready(rx: Rx, o: nat) {
    rx.state == RxWaitF ==> rx.open && rx.file.Some? && rx.rxbytes == o == |rx.file.value|
  }

  predicate FrameOk(rx: Rx, file: string, f: ToRx) {
    match f
    case Data(block) => rx.state == RxReceD ==> block != "" && rx.rxpos <= |file| && block <= file[rx.rxpos..]
    case Eob => rx.state != RxReceD
    case MFile(size, offset) =>
      rx.state != RxReceD && size == |file| && (offset != 0 ==> offset < |file| && Ready(rx, offset))
  }

  /** The receiver as it will be, and what it will have answered, when it has taken all the
      frames under way. */
  function After(rx: Rx, minor: nat, down: seq<ToRx>): (Rx, seq<ToTx>) {
    if down == [] then (rx, [])
    else
      var (r, out) := After(rx, minor, down[..|down| - 1]);
      var (r', more) := Receive(r, minor, down[|down| - 1]);
      (r', out + more)
  }

  /** Every frame under way comes to a receiver it is meant for. */
  predicate Sane(rx: Rx, file: string, minor: nat, down: seq<ToRx>) {
    && GoodRx(After(rx, minor, down).0, file)
    && (down == [] ||
        var before := down[..|down| - 1];
        Sane(rx, file, minor, before) && FrameOk(After(rx, minor, before).0, file, down[|down| - 1]))
  }

  /** The receiver has the whole file, safe on disk. */
  predicate Holds(rx: Rx, file: string) {
    rx.delivered == Some(file) || (rx.file == Some(file) && rx.synced == |file|)
  }

  /** Once it has taken everything, the receiver answers nothing more in this session. */
  predicate Dead(rx: Rx) {
    rx.state in {RxEOB, RxDone}
  }

  predicate AnswerOk(rx: Rx, file: string, m: ToTx) {
    m.MGet? ==> 0 < m.from < |file| && Ready(rx, m.from)
  }

  /** How the state of the file at the sender goes with the receiver that will have taken
      all frames, and with the answers on their way (`answers`, oldest first). */
  predicate Linked(tx: Tx, file: string, rx: Rx, answers: seq<ToTx>) {
    match tx.entry
    case NoState =>
      answers == [] && rx.state != RxReceD && (tx.offset != 0 ==> tx.offset < |file| && Ready(rx, tx.offset))
    case Sending =>
      if answers == [] then Dead(rx) || (rx.state == RxReceD && rx.rxpos == tx.txpos)
      else |answers| == 1 && rx.state != RxReceD && AnswerOk(rx, file, answers[0])
    case IsSent =>
      if answers == [] then Dead(rx)
      else |answers| == 1 && rx.state != RxReceD && AnswerOk(rx, file, answers[0])
    case Got => answers == [] && rx.state != RxReceD
    case Skipped => answers == [] && rx.state != RxReceD
  }

  predicate TxOk(tx: Tx, file: string) {
    tx.txpos <= |file| && tx.offset <= |file| && (tx.state in {TxTryR, TxReadS} <==> tx.entry == Sending)
  }

  function Answers(w: World, minor: nat): seq<ToTx> {
    w.tx.queue + w.up + After(w.rx, minor, w.down).1
  }

  predicate Inv(w: World, file: string, minor: nat) {
    && TxOk(w.tx, file)
    && GoodRx(w.rx, file)
    && Sane(w.rx, file, minor, w.down)
    && Linked(w.tx, file, After(w.rx, minor, w.down).0, Answers(w, minor))
    && (MGot in w.tx.queue + w.up || w.tx.entry == Got ==> Holds(w.rx, file))
  }

  // ----- One frame -----

  lemma ReceiveGood(rx: Rx, file: string, minor: nat, f: ToRx)
    requires GoodRx(rx, file) && FrameOk(rx, file, f)
    ensures var (r, out) := Receive(rx, minor, f);
            && GoodRx(r, file)
            && (Holds(rx, file) ==> Holds(r, file))
            && (MGot in out ==> Holds(r, file))
  {
    if rx.state == RxReceD && f.Data? {
      var d := Written(rx);
      assert d + f.block <= file by {
        assert file[..|d|] == d && file[|d|..][..|f.block|] == f.block;
        assert file[..|d| + |f.block|] == d + f.block;
      }
      WholePrefix(d + f.block, file);
    } else if rx.file.Some? {
      WholePrefix(rx.file.value, file);
    }
  }

  lemma WholePrefix(a: string, b: string)
    requires a <= b
    ensures |a| == |b| ==> a == b
  {
  }

  lemma Appended(rx: Rx, file: string, minor: nat, down: seq<ToRx>, f: ToRx)
    requires Sane(rx, file, minor, down) && FrameOk(After(rx, minor, down).0, file, f)
    ensures Sane(rx, file, minor, down + [f])
    ensures var (r, out) := After(rx, minor, down); var (r', more) := Receive(r, minor, f);
            After(rx, minor, down + [f]) == (r', out + more)
  {
    assert (down + [f])[..|down|] == down;
    ReceiveGood(After(rx, minor, down).0, file, minor, f);
  }

  /** Taking the first frame under way leaves the future as it was. */
  lemma {:induction false} Consumed(rx: Rx, file: string, minor: nat, down: seq<ToRx>)
    requires down != [] && Sane(rx, file, minor, down)
    ensures FrameOk(rx, file, down[0]) && GoodRx(rx, file)
    ensures var (r, out) := Receive(rx, minor, down[0]); var (r', more) := After(r, minor, down[1..]);
            Sane(r, file, minor, down[1..]) && After(rx, minor, down) == (r', out + more)
  {
    hide Receive, FrameOk, GoodRx;
    var n := |down| - 1;
    var (r, out) := Receive(rx, minor, down[0]);
    if n == 0 {
      assert down[..0] == [] && down[1..] == [];
      assert After(rx, minor, down[..0]) == (rx, []);
      assert [] + out == out && out + [] == out;
    } else {
      var before, last := down[..n], down[n];
      Consumed(rx, file, minor, before);
      assert before[1..] == down[1..][..n - 1] && down[1..][n - 1] == last;
      var mid := After(r, minor, before[1..]);
      var (_, more) := Receive(mid.0, minor, last);
      assert out + (mid.1 + more) == (out + mid.1) + more;
    }
  }

  // ----- The steps -----

  lemma TransmitInv(w: World, file: string, minor: nat, blk: nat)
    requires Inv(w, file, minor) && blk > 0
    ensures Inv(Step(w, file, minor, Transmitter(blk)), file, minor)
  {
    hide Inv, Step;
    match w.tx.state
    case TxGNF => BeginInv(w, file, minor, blk);
    case TxTryR => QueueInv(w, file, minor, blk);
    case TxReadS => ReadInv(w, file, minor, blk);
    case TxWLA => QueueInv(w, file, minor, blk);
  }

  lemma QueueInv(w: World, file: string, minor: nat, blk: nat)
    requires Inv(w, file, minor) && blk > 0 && w.tx.state in {TxTryR, TxWLA}
    ensures Inv(Step(w, file, minor, Transmitter(blk)), file, minor)
  {
    hide Linked, Receive, FrameOk, GoodRx, Sane, After, Holds;
    if w.tx.queue != [] || w.tx.state == TxWLA {
      ProcessInv(w, file, minor);
    } else {
      assert w.down + [] == w.down;
      LinkedState(w.tx, file, After(w.rx, minor, w.down).0, Answers(w, minor));
    }
  }

  /** Which of its turns the transmitter takes makes no difference to the answers. */
  lemma LinkedState(tx: Tx, file: string, rx: Rx, answers: seq<ToTx>)
    requires Linked(tx, file, rx, answers)
    ensures Linked(tx.(state := TxReadS), file, rx, answers)
  {
  }

  /** Sending M_FILE, or M_EOB when the file needs no sending. */
  lemma BeginLinked(tx: Tx, file: string, minor: nat, r: Rx, answers: seq<ToTx>)
    requires TxOk(tx, file) && tx.state == TxGNF && GoodRx(r, file) && Linked(tx, file, r, answers)
    ensures var f := if tx.entry == NoState then MFile(|file|, tx.offset) else Eob;
            var tx' := if tx.entry == NoState then tx.(state := TxTryR, entry := Sending, txpos := tx.offset)
                       else tx.(state := TxWLA);
            var (r', more) := Receive(r, minor, f);
            FrameOk(r, file, f) && TxOk(tx', file) && Linked(tx', file, r', answers + more)
  {
    assert answers + [] == answers;
  }

  lemma BeginInv(w: World, file: string, minor: nat, blk: nat)
    requires Inv(w, file, minor) && blk > 0 && w.tx.state == TxGNF
    ensures Inv(Step(w, file, minor, Transmitter(blk)), file, minor)
  {
    hide Linked, Receive, FrameOk, GoodRx, Sane, After;
    var f := if w.tx.entry == NoState then MFile(|file|, w.tx.offset) else Eob;
    var (r, out) := After(w.rx, minor, w.down);
    assert GoodRx(r, file) by { SaneGood(w.rx, file, minor, w.down); }
    BeginLinked(w.tx, file, minor, r, Answers(w, minor));
    Appended(w.rx, file, minor, w.down, f);
    assert w.tx.queue + w.up + (out + Receive(r, minor, f).1) == Answers(w, minor) + Receive(r, minor, f).1;
  }

  lemma SaneGood(rx: Rx, file: string, minor: nat, down: seq<ToRx>)
    requires Sane(rx, file, minor, down)
    ensures GoodRx(After(rx, minor, down).0, file)
  {
  }

  /** Sending one data block, and whether it ends the file. */
  lemma ReadLinked(tx: Tx, file: string, minor: nat, r: Rx, answers: seq<ToTx>, end: nat, eof: bool)
    requires TxOk(tx, file) && tx.state == TxReadS && GoodRx(r, file) && Linked(tx, file, r, answers)
    requires tx.txpos < end <= |file| && (eof ==> end == |file|)
    ensures var f := Data(file[tx.txpos..end]);
            var tx' := if eof then tx.(state := TxGNF, entry := IsSent, txpos := end)
                       else tx.(state := TxTryR, txpos := end);
            var (r', more) := Receive(r, minor, f);
            FrameOk(r, file, f) && TxOk(tx', file) && Linked(tx', file, r', answers + more)
  {
    assert file[tx.txpos..end] <= file[tx.txpos..];
    assert answers + [] == answers;
  }

  lemma ReadInv(w: World, file: string, minor: nat, blk: nat)
    requires Inv(w, file, minor) && blk > 0 && w.tx.state == TxReadS
    ensures Inv(Step(w, file, minor, Transmitter(blk)), file, minor)
  {
    hide Receive, FrameOk, Sane, After;
    var tx := w.tx;
    var block := ReadBlock(file, tx.txpos, blk);
    var end := tx.txpos + |block|;
    assert block == file[tx.txpos..end];
    var (r, out) := After(w.rx, minor, w.down);
    SaneGood(w.rx, file, minor, w.down);
    if block == "" {
      assert w.down + [] == w.down;
    } else {
      hide Linked, GoodRx;
      ReadLinked(tx, file, minor, r, Answers(w, minor), end, |block| < blk);
      Appended(w.rx, file, minor, w.down, Data(block));
      assert w.tx.queue + w.up + (out + Receive(r, minor, Data(block)).1)
             == Answers(w, minor) + Receive(r, minor, Data(block)).1;
    }
  }

  lemma ProcessInv(w: World, file: string, minor: nat)
    requires Inv(w, file, minor) && w.tx.state in {TxTryR, TxWLA}
    ensures Inv(w.(tx := Processed(w.tx, |file|), down := w.down + []), file, minor)
  {
    assert w.down + [] == w.down;
    var q := w.tx.queue;
    if q != [] {
      assert |q| == 1 && q == Answers(w, minor);
      assert w.up == [] && After(w.rx, minor, w.down).1 == [];
      var tx := Answered(w.tx, |file|, q[0]).(queue := []);
      assert q[1..] == [];
      assert Processed(w.tx, |file|) == tx;
      assert Answers(w.(tx := tx), minor) == [];
    }
  }

  lemma ReceiveInv(w: World, file: string, minor: nat)
    requires Inv(w, file, minor)
    ensures Inv(Step(w, file, minor, Receiver), file, minor)
  {
    if w.down != [] {
      hide Receive, FrameOk, GoodRx, Sane, After, Linked, TxOk, Holds;
      Consumed(w.rx, file, minor, w.down);
      ReceiveGood(w.rx, file, minor, w.down[0]);
      var (r, out) := Receive(w.rx, minor, w.down[0]);
      var rest := After(r, minor, w.down[1..]).1;
      Regrouped(w.tx.queue, w.up, out, rest);
    }
  }

  lemma Regrouped<T>(a: seq<T>, b: seq<T>, c: seq<T>, d: seq<T>)
    ensures a + (b + c) + d == a + b + (c + d)
    ensures forall x :: x in a + (b + c) ==> x in a + b || x in c
  {
  }

  lemma ArriveInv(w: World, file: string, minor: nat)
    requires Inv(w, file, minor)
    ensures Inv(Step(w, file, minor, Arrive), file, minor)
  {
    if w.up != [] {
      assert (w.tx.queue + [w.up[0]]) + w.up[1..] == w.tx.queue + w.up;
    }
  }

  /** Every step keeps the invariant. */
  lemma StepInv(w: World, file: string, minor: nat, c: Choice)
    requires Inv(w, file, minor)
    ensures Inv(Step(w, file, minor, c), file, minor)
  {
    match c
    case Transmitter(blk) => if blk > 0 { TransmitInv(w, file, minor, blk); }
    case Receiver => ReceiveInv(w, file, minor);
    case Arrive => ArriveInv(w, file, minor);
    case NewBatch =>
    case Disconnect(kept) =>
  }

  // ----- Runs -----

  function Start(file: Option<string>, delivered: Option<string>): World {
    World(FRESH_TX, FreshRx(file, delivered), [], [])
  }

  function Run(w: World, file: string, minor: nat, cs: seq<Choice>): World {
    if cs == [] then w else Step(Run(w, file, minor, cs[..|cs| - 1]), file, minor, cs[|cs| - 1])
  }

  lemma {:induction false} RunInv(w: World, file: string, minor: nat, cs: seq<Choice>)
    requires Inv(w, file, minor)
    ensures Inv(Run(w, file, minor, cs), file, minor)
  {
    if cs != [] {
      RunInv(w, file, minor, cs[..|cs| - 1]);
      StepInv(Run(w, file, minor, cs[..|cs| - 1]), file, minor, cs[|cs| - 1]);
    }
  }

  /** From any earlier partial transfer, over every interleaving with any number of
      disconnects: what is on the receiver's disk, also after a crash at that moment, is the
      beginning of the file; a delivered file is the file; and an M_GOT is under way or
      taken at the sender only when the receiver has the whole file. */
  lemma ResumeSafe(file: string, minor: nat, partial: Option<string>, delivered: Option<string>, cs: seq<Choice>,
      kept: nat)
    requires partial.Some? ==> partial.value <= file
    requires delivered.Some? ==> delivered.value == file
    ensures var w := Run(Start(partial, delivered), file, minor, cs);
            && (Survives(w.rx, kept).Some? ==> Survives(w.rx, kept).value <= file)
            && (w.rx.delivered.Some? ==> w.rx.delivered.value == file)
            && (MGot in w.tx.queue + w.up || w.tx.entry == Got ==> Holds(w.rx, file))
  {
    RunInv(Start(partial, delivered), file, minor, cs);
  }

  /** The receiver sends M_GOT only at a moment it has the whole file. */
  lemma GotMeansWhole(w: World, file: string, minor: nat)
    requires Inv(w, file, minor) && w.down != []
    ensures var (r, out) := Receive(w.rx, minor, w.down[0]); MGot in out ==> Holds(r, file)
  {
    Consumed(w.rx, file, minor, w.down);
    ReceiveGood(w.rx, file, minor, w.down[0]);
  }

  // ----- When M_GOT means that the file was delivered -----

  /** The partial file is not the whole one. */
  predicate Short(rx: Rx, file: string) {
    rx.file.Some? ==> |rx.file.value| < |file|
  }

  /** The sender has, or will have, the receiver's word for the file. */
  predicate Acked(w: World) {
    MGot in w.tx.queue + w.up || w.tx.entry == Got
  }

  /** A receiver with less than the whole file answers M_GOT only when it delivers it. */
  lemma ReceiveShort(rx: Rx, file: string, minor: nat, f: ToRx)
    requires GoodRx(rx, file) && FrameOk(rx, file, f) && Short(rx, file) && file != ""
    ensures var (r, out) := Receive(rx, minor, f);
            && Short(r, file)
            && (MGot in out || rx.delivered == Some(file) ==> r.delivered == Some(file))
  {
    ReceiveGood(rx, file, minor, f);
  }

  /** Only the receiver gives its word. */
  lemma StepAcked(w: World, file: string, minor: nat, c: Choice)
    requires Inv(w, file, minor) && !c.Receiver?
    ensures var n := Step(w, file, minor, c);
            && (Acked(n) ==> Acked(w))
            && n.rx.delivered == w.rx.delivered && (Short(w.rx, file) ==> Short(n.rx, file))
  {
    hide After, Sane, GoodRx;
    match c
    case Transmitter(blk) => TransmitAcked(w, file, minor, blk);
    case Arrive =>
      if w.up != [] {
        assert (w.tx.queue + [w.up[0]]) + w.up[1..] == w.tx.queue + w.up;
      }
    case NewBatch =>
    case Disconnect(kept) =>
  }

  lemma TransmitAcked(w: World, file: string, minor: nat, blk: nat)
    requires Inv(w, file, minor)
    ensures var n := Step(w, file, minor, Transmitter(blk));
            n.rx == w.rx && (Acked(n) ==> Acked(w))
  {
    hide After, Sane, GoodRx;
    var q := w.tx.queue;
    if q != [] && w.tx.state in {TxTryR, TxWLA} {
      assert |q| == 1 && q == Answers(w, minor) && q[1..] == [];
      assert Processed(w.tx, |file|) == Answered(w.tx, |file|, q[0]).(queue := []);
      assert q[0] in q + w.up;
    }
  }

  lemma StepShort(w: World, file: string, minor: nat, c: Choice)
    requires Inv(w, file, minor) && Short(w.rx, file) && file != "" && (Acked(w) ==> w.rx.delivered == Some(file))
    ensures var n := Step(w, file, minor, c); Short(n.rx, file) && (Acked(n) ==> n.rx.delivered == Some(file))
  {
    hide Receive, FrameOk, GoodRx, Sane, After, Linked, TxOk, Holds, Short;
    if c.Receiver? {
      if w.down != [] {
        Consumed(w.rx, file, minor, w.down);
        ReceiveShort(w.rx, file, minor, w.down[0]);
        Regrouped(w.tx.queue, w.up, Receive(w.rx, minor, w.down[0]).1, []);
      }
    } else {
      StepAcked(w, file, minor, c);
    }
  }

  lemma {:induction false} RunShort(file: string, minor: nat, partial: Option<string>, delivered: Option<string>,
      cs: seq<Choice>)
    requires (partial.Some? ==> partial.value <= file) && file != "" && partial != Some(file)
    requires delivered.Some? ==> delivered.value == file
    ensures var w := Run(Start(partial, delivered), file, minor, cs);
            Short(w.rx, file) && (Acked(w) ==> w.rx.delivered == Some(file))
  {
    if cs == [] {
      if partial.Some? { WholePrefix(partial.value, file); }
    } else {
      hide Inv, Step, Short, Acked;
      var before := cs[..|cs| - 1];
      RunShort(file, minor, partial, delivered, before);
      StartInv(file, minor, partial, delivered);
      RunInv(Start(partial, delivered), file, minor, before);
      StepShort(Run(Start(partial, delivered), file, minor, before), file, minor, cs[|cs| - 1]);
    }
  }

  lemma StartInv(file: string, minor: nat, partial: Option<string>, delivered: Option<string>)
    requires partial.Some? ==> partial.value <= file
    requires delivered.Some? ==> delivered.value == file
    ensures Inv(Start(partial, delivered), file, minor)
  {
  }

  /** An M_FILE for a file of which as much is there already as it has: the answer is M_GOT, and
      nothing is delivered. */
  lemma WholeIsKept(file: string, minor: nat, partial: Option<string>)
    requires partial == Some(file) || (partial == None && file == "")
    ensures var w := Run(Start(partial, None), file, minor, [Transmitter(1), Receiver]);
            w.up == [MGot] && w.rx.delivered == None && w.rx.file == Some(file)
  {
    var w0 := Start(partial, None);
    var w1 := Step(w0, file, minor, Transmitter(1));
    assert w1.down == [MFile(|file|, 0)];
    var w2 := Step(w1, file, minor, Receiver);
    assert [Transmitter(1), Receiver][..1] == [Transmitter(1)] && [Transmitter(1)][..0] == [];
    assert Run(w0, file, minor, [Transmitter(1)][..0]) == w0;
    assert Run(w0, file, minor, [Transmitter(1)]) == w1;
  }

  /** An empty file is answered M_GOT and stays in the directory for partial files. */
  lemma EmptyFileKept(minor: nat)
    ensures var w := Run(Start(None, None), "", minor, [Transmitter(1), Receiver]);
            w.up == [MGot] && w.rx.delivered == None && w.rx.file == Some("")
  {
    WholeIsKept("", minor, None);
  }

  predicate GotIsDelivered(w: World, file: string) {
    Acked(w) ==> w.rx.delivered == Some(file)
  }

  /** From any earlier partial transfer of a file not delivered yet: M_GOT always means that it was
      delivered exactly when the file is not empty and what is there is not the whole of it. */
  lemma DeliveredExactly(file: string, minor: nat, partial: Option<string>)
    requires partial.Some? ==> partial.value <= file
    ensures (forall cs :: GotIsDelivered(Run(Start(partial, None), file, minor, cs), file))
       <==> file != "" && partial != Some(file)
  {
    hide Run, Inv;
    if file != "" && partial != Some(file) {
      forall cs
        ensures GotIsDelivered(Run(Start(partial, None), file, minor, cs), file)
      {
        RunShort(file, minor, partial, None, cs);
      }
    } else {
      if partial.Some? { WholePrefix(partial.value, file); }
      WholeIsKept(file, minor, partial);
      var w := Run(Start(partial, None), file, minor, [Transmitter(1), Receiver]);
      assert w.up[0] in w.tx.queue + w.up;
      assert !GotIsDelivered(w, file);
    }
  }

  // ----- The receiver as the state machine it is -----

  datatype RxPhase = WaitF | AccF | ReceD | WriteD | EOB | Done

  /** The session's receiver variables, changed in place as frames come. */
  class BinkpReceiver {
    const minor: nat
    var phase: RxPhase
    var rxfp: bool
    var rxbytes: nat
    var rsize: nat
    var rxpos: nat
    var roffs: nat
    /** The partial file: what is written, and what is surely on disk. */
    var file: Option<string>
    var synced: nat
    var delivered: Option<string>
    /** The commands sent. */
    var sent: seq<ToTx>

    function View(): Rx
      reads this
    {
      Rx(match phase
         case WaitF => RxWaitF
         case AccF => RxWaitF
         case ReceD => RxReceD
         case WriteD => RxReceD
         case EOB => RxEOB
         case Done => RxDone,
         rxfp, rxbytes, rsize, rxpos, file, synced, delivered)
    }

    constructor (minor: nat, file: Option<string>, delivered: Option<string>)
      ensures this.minor == minor && View() == FreshRx(file, delivered) && sent == [] && phase == WaitF
    {
      this.minor := minor;
      phase := WaitF;
      rxfp := false;
      rxbytes, rsize, rxpos, roffs := 0, 0, 0, 0;
      this.file := file;
      synced := if file.Some? then |file.value| else 0;
      this.delivered := delivered;
      sent := [];
    }

    /** Take one frame: the state functions run on until one of them is done with it. */
    method ReceiveFrame(f: ToRx)
      requires phase in {WaitF, ReceD, EOB, Done}
      modifies this
      ensures phase in {WaitF, ReceD, EOB, Done}
      ensures View() == Receive(old(View()), minor, f).0
      ensures sent == old(sent) + Receive(old(View()), minor, f).1
    {
      match phase
      case WaitF =>
        match f {
          case Data(_) =>
          case Eob => if minor == 0 { phase := EOB; }
          case MFile(size, offset) =>
            phase := AccF;
            AcceptFile(size, offset);
        }
      case ReceD =>
        match f {
          case Data(block) =>
            phase := WriteD;
            WriteData(block);
          case Eob => phase := Done;
          case MFile(size, offset) =>
            synced := if file.Some? then |file.value| else 0;
            rxfp := false;
            phase := AccF;
            AcceptFile(size, offset);
        }
      case EOB => phase := Done;
      case Done =>
    }

    /** State RxAccF. */
    method AcceptFile(size: nat, offset: nat)
      requires phase == AccF
      modifies this
      ensures phase in {WaitF, ReceD}
      ensures View() == Accept(old(View()), size, offset).0
      ensures sent == old(sent) + Accept(old(View()), size, offset).1
    {
      rsize, roffs := size, offset;
      if roffs == 0 || roffs != rxbytes {
        BOpenFile();
      }
      rxpos := roffs;
      if rsize == rxbytes {
        sent := sent + [MGot];
        phase := WaitF;
        rxfp := false;
      } else if rxbytes < rsize && roffs == 0 && rxbytes != 0 {
        sent := sent + [MGet(rxbytes)];
        phase := WaitF;
      } else if !rxfp {
        sent := sent + [MSkip];
        phase := WaitF;
      } else {
        phase := ReceD;
      }
    }

    /** bopenfile: find out how much is there, and open for appending. */
    method BOpenFile()
      modifies this`rxbytes, this`rxfp, this`file, this`synced
      ensures View() == Opened(old(View()))
    {
      rxbytes := 0;
      match file {
        case Some(_) => rxbytes := synced;
        case None => file, synced := Some(""), 0;
      }
      rxfp := true;
    }

    /** State RxWriteD. */
    method WriteData(block: string)
      requires phase == WriteD
      modifies this
      ensures phase in {WaitF, ReceD}
      ensures View() == Store(old(View()), block).0
      ensures sent == old(sent) + Store(old(View()), block).1
    {
      if !rxfp {
        phase := ReceD;
        return;
      }
      file := Some((if file.Some? then file.value else "") + block);
      rxpos := rxpos + |block|;
      if rxpos == rsize {
        // bclosefile moves the finished file out of the way.
        delivered, file, synced := file, None, 0;
        sent := sent + [MGot];
        phase := WaitF;
      } else {
        phase := ReceD;
      }
    }
  }
}
