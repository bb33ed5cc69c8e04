/** What the two ends of BinkpResume come to: that a file which is sent is also received, when
    it can be, and when it no longer can (mbcico/binkp.c). */
module BinkpProgress {
  import opened Seqs
  import opened BinkpResume

  // ----- Resuming -----

  /** What a receiver that has the proper beginning p of a file does with an M_FILE for all of
      it: it asks for the rest, takes the M_FILE for the rest, and appends what comes to p. */
  lemma ResumesAt(rx: Rx, minor: nat, size: nat, p: string, block: string)
    requires rx.state == RxWaitF && rx.file == Some(p) && rx.synced == |p| && 0 < |p| < size
    ensures var (asked, answers) := Receive(rx, minor, MFile(size, 0));
            var (taken, none) := Receive(asked, minor, MFile(size, |p|));
            var (r, more) := Receive(taken, minor, Data(block));
            && answers == [MGet(|p|)] && none == []
            && asked.delivered == taken.delivered == rx.delivered
            && taken.state == RxReceD && taken.open && taken.rxpos == |p| && taken.file == Some(p)
            && if |p| + |block| == size then r.delivered == Some(p + block) && more == [MGot]
               else r.state == RxReceD && r.file == Some(p + block) && r.rxpos == |p| + |block| && more == []
  {
  }

  /** With nothing there yet the file is taken at once, unless there is nothing to take. */
  lemma TakenAtOnce(rx: Rx, minor: nat, size: nat)
    requires rx.state == RxWaitF && rx.synced == |Written(rx)| == 0
    ensures var (r, answers) := Receive(rx, minor, MFile(size, 0));
            if size == 0 then answers == [MGot] && r.state == RxWaitF
            else answers == [] && r.state == RxReceD && r.open && r.rxpos == 0 && r.rsize == size && r.file == Some("")
  {
  }

  // ----- What lies ahead -----

  /** The transmitter, with the receiver as it will be when it has taken all frames under way,
      and all answers under way. */
  datatype Outlook = Outlook(tx: Tx, rx: Rx, answers: seq<ToTx>)

  function Ahead(w: World, minor: nat): Outlook {
    Outlook(w.tx, After(w.rx, minor, w.down).0, Answers(w, minor))
  }

  /** A turn of the transmitter, seen so. */
  function Turn(o: Outlook, file: string, minor: nat, blk: nat): Outlook
    requires |o.tx.queue| <= |o.answers|
  {
    var (tx, sent) := Transmit(o.tx, file, blk);
    var (rx, more) := if sent == [] then (o.rx, []) else Receive(o.rx, minor, sent[0]);
    Outlook(tx, rx, (if o.tx.state in {TxTryR, TxWLA} then o.answers[|o.tx.queue|..] else o.answers) + more)
  }

  predicate Good(o: Outlook, file: string) {
    && TxOk(o.tx, file) && GoodRx(o.rx, file) && Linked(o.tx, file, o.rx, o.answers)
    && o.tx.queue <= o.answers
  }

  /** No file is refused, and a receiver hears nothing more only after a binkp/1.0 M_EOB. */
  predicate Plain(o: Outlook, minor: nat) {
    && MSkip !in o.answers && o.tx.entry != Skipped
    && (o.tx.entry == NoState ==> o.tx.state == TxGNF)
    && (minor != 0 ==> !Dead(o.rx))
    && (minor == 0 && o.tx.state == TxWLA ==> Dead(o.rx))
  }

  /** In binkp/1.0 the receiver takes no M_FILE behind M_EOB.  The file is not answered by M_GOT,
      and the M_EOB is sent, or will be before the request to resume is acted on. */
  predicate Doomed(o: Outlook, file: string, minor: nat) {
    && minor == 0 && o.tx.entry != Got && MGot !in o.answers
    && (Dead(o.rx) ||
        (o.answers != [] && (o.tx.entry == IsSent || (o.tx.state == TxReadS && o.tx.txpos == |file|))))
  }

  lemma AheadGood(w: World, file: string, minor: nat)
    requires Inv(w, file, minor)
    ensures Good(Ahead(w, minor), file)
  {
    hide Linked, GoodRx, Receive, FrameOk;
    SaneGood(w.rx, file, minor, w.down);
    var o := Ahead(w, minor);
    assert o.answers == w.tx.queue + (w.up + After(w.rx, minor, w.down).1);
    assert o.tx.queue <= o.answers;
  }

  lemma TurnIs(w: World, file: string, minor: nat, blk: nat)
    requires Inv(w, file, minor) && blk > 0
    ensures var n := Step(w, file, minor, Transmitter(blk)); var sent := Transmit(w.tx, file, blk).1;
            && |w.tx.queue| <= |Answers(w, minor)| && |sent| <= 1
            && (sent != [] ==> FrameOk(Ahead(w, minor).rx, file, sent[0]))
            && Ahead(n, minor) == Turn(Ahead(w, minor), file, minor, blk)
  {
    hide Linked, Receive, FrameOk, GoodRx, Processed, ReadBlock;
    var o := Ahead(w, minor);
    var (tx, sent) := Transmit(w.tx, file, blk);
    var n := Step(w, file, minor, Transmitter(blk));
    var (r, out) := After(w.rx, minor, w.down);
    StepInv(w, file, minor, Transmitter(blk));
    hide Inv;
    if sent == [] {
      assert n.down == w.down;
      assert o.answers == w.tx.queue + (w.up + out);
      QueueAfter(w.tx, file, blk);
      assert n.tx.queue + w.up + out == n.tx.queue + (w.up + out);
    } else {
      assert n.down[..|w.down|] == w.down && n.down[|w.down|] == sent[0];
      SaneLast(w.rx, file, minor, w.down, sent[0], n);
      assert tx.queue + w.up + (out + Receive(r, minor, sent[0]).1) == o.answers + Receive(r, minor, sent[0]).1;
    }
  }

  lemma SaneLast(rx: Rx, file: string, minor: nat, down: seq<ToRx>, f: ToRx, n: World)
    requires Inv(n, file, minor) && n.rx == rx && n.down == down + [f]
    ensures FrameOk(After(rx, minor, down).0, file, f)
    ensures var (r, out) := After(rx, minor, down); var (r', more) := Receive(r, minor, f);
            After(rx, minor, n.down) == (r', out + more)
  {
    hide Linked, Receive, FrameOk, GoodRx;
    assert n.down[..|n.down| - 1] == down && n.down[|n.down| - 1] == f;
  }

  lemma {:induction false} ProcessedQueue(tx: Tx, size: nat)
    ensures Processed(tx, size).queue == []
    decreases |tx.queue|
  {
    if tx.queue != [] { ProcessedQueue(Answered(tx, size, tx.queue[0]).(queue := tx.queue[1..]), size); }
  }

  lemma QueueAfter(tx: Tx, file: string, blk: nat)
    requires Transmit(tx, file, blk).1 == []
    ensures var q := Transmit(tx, file, blk).0.queue;
            q == if tx.state in {TxTryR, TxWLA} then [] else tx.queue
  {
    hide Processed;
    ProcessedQueue(tx, |file|);
  }

  /** A frame that follows the protocol is never answered M_SKIP, and only M_EOB ends it all. */
  lemma ReceivePlain(rx: Rx, file: string, minor: nat, f: ToRx)
    requires GoodRx(rx, file) && FrameOk(rx, file, f)
    ensures var (r, out) := Receive(rx, minor, f);
            && MSkip !in out && (Dead(rx) ==> Dead(r) && out == [])
            && (Dead(r) && !Dead(rx) ==> minor == 0 && f == Eob)
            && (f == Eob && minor == 0 ==> Dead(r))
            && (f == Eob ==> out == [])
  {
  }

  /** What the transmitter's turn is, given what it can find. */
  lemma TurnCases(o: Outlook, file: string, minor: nat, blk: nat)
    requires Good(o, file) && Plain(o, minor) && blk > 0
    ensures var n := Turn(o, file, minor, blk); var tx := o.tx;
            match tx.state
            case TxGNF =>
              var f := if tx.entry == NoState then MFile(|file|, tx.offset) else Eob;
              var (r, more) := Receive(o.rx, minor, f);
              n == Outlook(if tx.entry == NoState then tx.(state := TxTryR, entry := Sending, txpos := tx.offset)
                           else tx.(state := TxWLA), r, o.answers + more)
            case TxReadS =>
              var block := ReadBlock(file, tx.txpos, blk);
              var end := tx.txpos + |block|;
              var tx' := if |block| < blk then tx.(state := TxGNF, entry := IsSent, txpos := end)
                         else tx.(state := TxTryR, txpos := end);
              end <= |file| &&
              if block == "" then n == Outlook(tx', o.rx, o.answers)
              else var (r, more) := Receive(o.rx, minor, Data(block)); n == Outlook(tx', r, o.answers + more)
            case _ =>
              if tx.queue == [] then
                n == o.(tx := if tx.state == TxTryR then tx.(state := TxReadS) else tx)
              else |o.answers| == 1 && o.answers == tx.queue
                   && n == Outlook(Answered(tx, |file|, o.answers[0]).(queue := []), o.rx, [])
  {
    hide Receive, GoodRx;
    match o.tx.state
    case TxGNF =>
    case TxReadS =>
      assert o.answers + [] == o.answers;
    case _ =>
      if o.tx.queue == [] {
        assert o.answers[0..] + [] == o.answers;
        assert Processed(o.tx, |file|) == o.tx;
      } else {
        assert |o.answers| == 1 && o.answers == o.tx.queue && o.tx.queue[1..] == [];
        assert o.answers[1..] + [] == [];
        var tx := Answered(o.tx, |file|, o.answers[0]).(queue := []);
        assert Processed(o.tx, |file|) == Processed(tx, |file|) == tx;
      }
  }

  lemma PlainTurn(o: Outlook, file: string, minor: nat, blk: nat)
    requires Good(o, file) && Plain(o, minor) && blk > 0
    requires var sent := Transmit(o.tx, file, blk).1;
             |sent| <= 1 && (sent != [] ==> FrameOk(o.rx, file, sent[0]))
    ensures Plain(Turn(o, file, minor, blk), minor)
  {
    hide Receive, GoodRx, FrameOk, Linked, ReadBlock, Processed;
    TurnCases(o, file, minor, blk);
    var sent := Transmit(o.tx, file, blk).1;
    if sent != [] { FramePlain(o, file, minor, sent[0]); }
    hide Turn;
  }

  lemma FramePlain(o: Outlook, file: string, minor: nat, f: ToRx)
    requires Good(o, file) && FrameOk(o.rx, file, f)
    ensures var (r, out) := Receive(o.rx, minor, f);
            && MSkip !in out && (Dead(o.rx) ==> Dead(r) && out == [])
            && (Dead(r) && !Dead(o.rx) ==> minor == 0 && f == Eob)
            && (f == Eob && minor == 0 ==> Dead(r))
            && (f == Eob ==> out == [])
  {
    ReceivePlain(o.rx, file, minor, f);
  }

  /** A doomed file stays so. */
  lemma DoomedTurn(o: Outlook, file: string, minor: nat, blk: nat)
    requires Good(o, file) && Plain(o, minor) && Doomed(o, file, minor) && blk > 0
    requires var sent := Transmit(o.tx, file, blk).1;
             |sent| <= 1 && (sent != [] ==> FrameOk(o.rx, file, sent[0]))
    ensures Doomed(Turn(o, file, minor, blk), file, minor)
  {
    hide Receive, GoodRx, FrameOk, Processed;
    TurnCases(o, file, minor, blk);
    var sent := Transmit(o.tx, file, blk).1;
    if sent != [] { FramePlain(o, file, minor, sent[0]); }
    hide Turn;
  }

  // ----- A way to the end -----

  /** How far the end is, in turns of the transmitter. */
  function Rank(o: Outlook): nat {
    var base := if MGot in o.answers then 0 else 6;
    if o.tx.entry == Got then 0
    else if o.answers != [] then
      base + (match o.tx.state case TxGNF => 2 case TxReadS => 3 case _ => 1)
    else match o.tx.state
         case TxGNF => if o.tx.offset == 0 then 10 else 6
         case TxReadS => 4
         case _ => 5
  }

  /** How much the transmitter reads on that way. */
  function Blocksize(o: Outlook, file: string): nat {
    if o.answers == [] && o.tx.txpos <= |file| then |file| - o.tx.txpos + 1 else 1
  }

  /** Reading the rest of the file makes the receiver take it and answer M_GOT. */
  lemma RestTaken(o: Outlook, file: string, minor: nat)
    requires Good(o, file) && o.tx.entry == Sending && o.tx.state == TxReadS && o.answers == [] && !Dead(o.rx)
    ensures var block := ReadBlock(file, o.tx.txpos, |file| - o.tx.txpos + 1);
            && block != "" && |block| < |file| - o.tx.txpos + 1
            && Receive(o.rx, minor, Data(block)).1 == [MGot]
  {
  }

  /** What comes of the M_FILE: the file is there, or what is missing is asked for, or it comes. */
  lemma FileAnswered(o: Outlook, file: string, minor: nat)
    requires Good(o, file) && o.tx.entry == NoState && !Dead(o.rx) && FrameOk(o.rx, file, MFile(|file|, o.tx.offset))
    ensures var out := Receive(o.rx, minor, MFile(|file|, o.tx.offset)).1;
            out == [] || out == [MGot] || (o.tx.offset == 0 && |out| == 1 && out[0].MGet?)
  {
  }

  /** Everything under way has been taken, and the file can still be answered. */
  predicate Hopeful(o: Outlook, file: string, minor: nat) {
    && Good(o, file) && Plain(o, minor) && !Doomed(o, file, minor)
    && o.tx.queue == o.answers && o.tx.entry != Got
    && var sent := Transmit(o.tx, file, Blocksize(o, file)).1;
       |sent| <= 1 && (sent != [] ==> FrameOk(o.rx, file, sent[0]))
  }

  lemma BeginRank(o: Outlook, file: string, minor: nat)
    requires Hopeful(o, file, minor) && o.tx.state == TxGNF
    ensures var n := Turn(o, file, minor, Blocksize(o, file)); Rank(n) < Rank(o) && !Doomed(n, file, minor)
  {
    hide Receive, GoodRx, FrameOk, Processed, ReadBlock;
    var blk := Blocksize(o, file);
    TurnCases(o, file, minor, blk);
    if o.tx.entry == NoState { FileAnswered(o, file, minor); }
    FramePlain(o, file, minor, Transmit(o.tx, file, blk).1[0]);
    hide Turn;
  }

  lemma ReadRank(o: Outlook, file: string, minor: nat)
    requires Hopeful(o, file, minor) && o.tx.state == TxReadS
    ensures var n := Turn(o, file, minor, Blocksize(o, file)); Rank(n) < Rank(o) && !Doomed(n, file, minor)
  {
    hide Receive, GoodRx, FrameOk, Processed;
    var blk := Blocksize(o, file);
    TurnCases(o, file, minor, blk);
    if o.answers == [] { RestTaken(o, file, minor); }
    var sent := Transmit(o.tx, file, blk).1;
    if sent != [] { FramePlain(o, file, minor, sent[0]); }
    hide Turn;
  }

  lemma ActRank(o: Outlook, file: string, minor: nat)
    requires Hopeful(o, file, minor) && o.tx.state in {TxTryR, TxWLA}
    ensures var n := Turn(o, file, minor, Blocksize(o, file)); Rank(n) < Rank(o) && !Doomed(n, file, minor)
  {
    hide Receive, GoodRx, FrameOk, Processed;
    TurnCases(o, file, minor, Blocksize(o, file));
    hide Turn;
  }

  /** The transmitter's turn is then a step towards the end. */
  lemma RankTurn(o: Outlook, file: string, minor: nat)
    requires Hopeful(o, file, minor)
    ensures var n := Turn(o, file, minor, Blocksize(o, file)); Rank(n) < Rank(o) && !Doomed(n, file, minor)
  {
    hide Turn, Hopeful, Rank, Doomed;
    match o.tx.state
    case TxGNF => BeginRank(o, file, minor);
    case TxReadS => ReadRank(o, file, minor);
    case TxTryR => ActRank(o, file, minor);
    case TxWLA => ActRank(o, file, minor);
  }

  // ----- Steps and runs -----

  predicate Poised(w: World, file: string, minor: nat) {
    Inv(w, file, minor) && Plain(Ahead(w, minor), minor)
  }

  /** Frames that arrive at either end change nothing of what lies ahead. */
  lemma AheadKept(w: World, file: string, minor: nat, c: Choice)
    requires Inv(w, file, minor) && (c.Receiver? || c.Arrive?)
    ensures var n := Step(w, file, minor, c); var o := Ahead(w, minor);
            Ahead(n, minor) == o.(tx := n.tx) && n.tx == w.tx.(queue := n.tx.queue)
  {
    hide Linked, Receive, FrameOk, GoodRx, Sane, After;
    if c.Receiver? {
      if w.down != [] {
        Consumed(w.rx, file, minor, w.down);
        var (r, out) := Receive(w.rx, minor, w.down[0]);
        var more := After(r, minor, w.down[1..]).1;
        assert w.tx.queue + (w.up + out) + more == w.tx.queue + w.up + (out + more);
      }
    } else if w.up != [] {
      var more := After(w.rx, minor, w.down).1;
      assert w.tx.queue + [w.up[0]] + w.up[1..] == w.tx.queue + w.up;
    }
  }

  lemma TurnStep(w: World, file: string, minor: nat, blk: nat)
    requires Poised(w, file, minor) && blk > 0
    ensures var n := Step(w, file, minor, Transmitter(blk));
            && Poised(n, file, minor)
            && (Doomed(Ahead(w, minor), file, minor) ==> Doomed(Ahead(n, minor), file, minor))
  {
    hide Inv, Step, Transmit, Turn, After, Answers, Plain, Doomed, Good, FrameOk;
    AheadGood(w, file, minor);
    TurnIs(w, file, minor, blk);
    StepInv(w, file, minor, Transmitter(blk));
    PlainTurn(Ahead(w, minor), file, minor, blk);
    if Doomed(Ahead(w, minor), file, minor) { DoomedTurn(Ahead(w, minor), file, minor, blk); }
  }

  lemma StepPoised(w: World, file: string, minor: nat, c: Choice)
    requires Poised(w, file, minor)
    ensures var n := Step(w, file, minor, c);
            && Poised(n, file, minor)
            && (!c.Disconnect? && Doomed(Ahead(w, minor), file, minor) ==> Doomed(Ahead(n, minor), file, minor))
  {
    StepInv(w, file, minor, c);
    match c
    case Transmitter(blk) => if blk > 0 { TurnStep(w, file, minor, blk); }
    case Receiver => hide Inv, After, Step, Answers; AheadKept(w, file, minor, c);
    case Arrive => hide Inv, After, Step, Answers; AheadKept(w, file, minor, c);
    case NewBatch =>
    case Disconnect(kept) =>
  }

  lemma {:induction false} RunPoised(w: World, file: string, minor: nat, cs: seq<Choice>)
    requires Poised(w, file, minor)
    ensures Poised(Run(w, file, minor, cs), file, minor)
  {
    hide Poised, Step;
    if cs != [] {
      RunPoised(w, file, minor, cs[..|cs| - 1]);
      StepPoised(Run(w, file, minor, cs[..|cs| - 1]), file, minor, cs[|cs| - 1]);
    }
  }

  predicate Connected(cs: seq<Choice>) {
    forall k :: 0 <= k < |cs| ==> !cs[k].Disconnect?
  }

  lemma {:induction false} RunDoomed(w: World, file: string, minor: nat, cs: seq<Choice>)
    requires Poised(w, file, minor) && Doomed(Ahead(w, minor), file, minor) && Connected(cs)
    ensures Doomed(Ahead(Run(w, file, minor, cs), minor), file, minor)
  {
    hide Poised, Step, Doomed, Ahead;
    if cs != [] {
      var before := cs[..|cs| - 1];
      RunPoised(w, file, minor, before);
      RunDoomed(w, file, minor, before);
      StepPoised(Run(w, file, minor, before), file, minor, cs[|cs| - 1]);
    }
  }

  lemma {:induction false} RunOn(w: World, file: string, minor: nat, cs: seq<Choice>, ds: seq<Choice>)
    ensures Run(w, file, minor, cs + ds) == Run(Run(w, file, minor, cs), file, minor, ds)
  {
    hide Step;
    if ds == [] {
      assert cs + ds == cs;
    } else {
      RunOn(w, file, minor, cs, ds[..|ds| - 1]);
      assert (cs + ds)[..|cs + ds| - 1] == cs + ds[..|ds| - 1];
    }
  }

  lemma RunOne(w: World, file: string, minor: nat, c: Choice)
    ensures Run(w, file, minor, [c]) == Step(w, file, minor, c)
  {
    hide Step;
    assert [c][..0] == [];
    assert Run(w, file, minor, []) == w;
  }

  // ----- The end is reached -----

  /** What to do next: take what is under way, and only then let the transmitter have its turn. */
  function Choose(w: World, file: string, minor: nat): Choice {
    if w.up != [] then Arrive
    else if w.down != [] then Receiver
    else Transmitter(Blocksize(Ahead(w, minor), file))
  }

  lemma ChosenNearer(w: World, file: string, minor: nat)
    requires Poised(w, file, minor) && !Doomed(Ahead(w, minor), file, minor) && w.tx.entry != Got
    ensures var n := Step(w, file, minor, Choose(w, file, minor));
            && !Doomed(Ahead(n, minor), file, minor)
            && (Rank(Ahead(n, minor)) < Rank(Ahead(w, minor)) ||
                (Rank(Ahead(n, minor)) == Rank(Ahead(w, minor)) && 2 * |n.down| + |n.up| < 2 * |w.down| + |w.up|))
  {
    var c := Choose(w, file, minor);
    if c.Transmitter? {
      TurnNearer(w, file, minor);
    } else {
      ReceiveShorter(w.rx, minor, w.down);
      hide Inv, After, Answers, Receive;
      AheadKept(w, file, minor, c);
    }
  }

  lemma ReceiveShorter(rx: Rx, minor: nat, down: seq<ToRx>)
    ensures down != [] ==> |Receive(rx, minor, down[0]).1| <= 1
  {
  }

  lemma TurnNearer(w: World, file: string, minor: nat)
    requires Poised(w, file, minor) && !Doomed(Ahead(w, minor), file, minor) && w.tx.entry != Got
    requires w.up == [] && w.down == []
    ensures var o := Ahead(w, minor); var n := Step(w, file, minor, Transmitter(Blocksize(o, file)));
            Rank(Ahead(n, minor)) < Rank(o) && !Doomed(Ahead(n, minor), file, minor)
  {
    var o := Ahead(w, minor);
    assert o.answers == o.tx.queue && o.rx == w.rx;
    assert Blocksize(o, file) > 0;
    hide Inv, Step, Transmit, Turn, Plain, Doomed, Good, FrameOk, Ahead, Rank, Blocksize;
    AheadGood(w, file, minor);
    TurnIs(w, file, minor, Blocksize(o, file));
    RankTurn(o, file, minor);
  }

  lemma {:induction false} WayToGot(w: World, file: string, minor: nat) returns (ds: seq<Choice>)
    requires Poised(w, file, minor) && !Doomed(Ahead(w, minor), file, minor)
    ensures Connected(ds) && Run(w, file, minor, ds).tx.entry == Got
    decreases Rank(Ahead(w, minor)), 2 * |w.down| + |w.up|
  {
    hide Poised, Doomed, Ahead, Rank, Step;
    if w.tx.entry == Got {
      ds := [];
    } else {
      var c := Choose(w, file, minor);
      ChosenNearer(w, file, minor);
      StepPoised(w, file, minor, c);
      var more := WayToGot(Step(w, file, minor, c), file, minor);
      ds := [c] + more;
      RunOn(w, file, minor, [c], more);
      RunOne(w, file, minor, c);
    }
  }

  // ----- What runs come to -----

  lemma StartPoised(file: string, minor: nat, partial: Option<string>, delivered: Option<string>)
    requires (partial.Some? ==> partial.value <= file) && (delivered.Some? ==> delivered.value == file)
    ensures Poised(Start(partial, delivered), file, minor)
  {
    StartInv(file, minor, partial, delivered);
  }

  /** Over every run no M_SKIP is sent, and the file is never given up. */
  lemma NeverSkipped(file: string, minor: nat, partial: Option<string>, delivered: Option<string>, cs: seq<Choice>)
    requires (partial.Some? ==> partial.value <= file) && (delivered.Some? ==> delivered.value == file)
    ensures var w := Run(Start(partial, delivered), file, minor, cs);
            MSkip !in w.tx.queue + w.up && w.tx.entry != Skipped
  {
    StartPoised(file, minor, partial, delivered);
    RunPoised(Start(partial, delivered), file, minor, cs);
    var w := Run(Start(partial, delivered), file, minor, cs);
    assert forall m :: m in w.tx.queue + w.up ==> m in Answers(w, minor);
  }

  /** The sender knows that the receiver has the whole file, and it was delivered when it was not
      there before. */
  predicate Finished(w: World, file: string, partial: Option<string>) {
    && w.tx.entry == Got && Holds(w.rx, file)
    && (file != "" && partial != Some(file) ==> w.rx.delivered == Some(file))
  }

  lemma GotFinished(file: string, minor: nat, partial: Option<string>, delivered: Option<string>, cs: seq<Choice>)
    requires (partial.Some? ==> partial.value <= file) && (delivered.Some? ==> delivered.value == file)
    requires Run(Start(partial, delivered), file, minor, cs).tx.entry == Got
    ensures Finished(Run(Start(partial, delivered), file, minor, cs), file, partial)
  {
    hide Run, Holds;
    ResumeSafe(file, minor, partial, delivered, cs, 0);
    if file != "" && partial != Some(file) { RunShort(file, minor, partial, delivered, cs); }
  }

  /** Whether the file can still be finished without another connection. */
  ghost predicate CanFinish(w: World, file: string, minor: nat, partial: Option<string>) {
    exists ds :: Connected(ds) && Finished(Run(w, file, minor, ds), file, partial)
  }

  /** From every reachable world, after any disconnects, the file can be finished without another
      one exactly when it is not doomed.  In binkp/1.1 it never is. */
  lemma FinishExactly(file: string, minor: nat, partial: Option<string>, delivered: Option<string>, cs: seq<Choice>)
    requires (partial.Some? ==> partial.value <= file) && (delivered.Some? ==> delivered.value == file)
    ensures var w := Run(Start(partial, delivered), file, minor, cs);
            && (CanFinish(w, file, minor, partial) <==> !Doomed(Ahead(w, minor), file, minor))
            && (minor != 0 ==> CanFinish(w, file, minor, partial))
  {
    var start := Start(partial, delivered);
    var w := Run(start, file, minor, cs);
    StartPoised(file, minor, partial, delivered);
    RunPoised(start, file, minor, cs);
    assert minor != 0 ==> !Doomed(Ahead(w, minor), file, minor);
    if !Doomed(Ahead(w, minor), file, minor) {
      hide Doomed, Ahead, Poised, Finished, Start, Run;
      var ds := WayToGot(w, file, minor);
      RunOn(start, file, minor, cs, ds);
      GotFinished(file, minor, partial, delivered, cs + ds);
    } else {
      forall ds | Connected(ds)
        ensures Run(w, file, minor, ds).tx.entry != Got
      {
        hide Poised, Start, Run;
        RunDoomed(w, file, minor, ds);
        assert Ahead(Run(w, file, minor, ds), minor).tx == Run(w, file, minor, ds).tx;
      }
    }
  }

  /** A connection made anew always can finish it. */
  lemma ReconnectFinishes(file: string, minor: nat, partial: Option<string>, delivered: Option<string>,
      cs: seq<Choice>, kept: nat)
    requires (partial.Some? ==> partial.value <= file) && (delivered.Some? ==> delivered.value == file)
    ensures CanFinish(Run(Start(partial, delivered), file, minor, cs + [Disconnect(kept)]), file, minor, partial)
  {
    var w := Run(Start(partial, delivered), file, minor, cs + [Disconnect(kept)]);
    RunOn(Start(partial, delivered), file, minor, cs, [Disconnect(kept)]);
    RunOne(Run(Start(partial, delivered), file, minor, cs), file, minor, Disconnect(kept));
    assert !Doomed(Ahead(w, minor), file, minor);
    FinishExactly(file, minor, partial, delivered, cs + [Disconnect(kept)]);
  }

  /** The sender that has sent the whole file in one block, and a receiver that has p. */
  function SentWhole(file: string, p: string): World {
    World(Tx(TxGNF, IsSent, 0, |file|, []), FreshRx(Some(p), None), [MFile(|file|, 0), Data(file)], [])
  }

  lemma SentInThree(file: string, p: string, blk: nat)
    requires 0 < |file| < blk
    ensures var t := Transmitter(blk);
            Run(Start(Some(p), None), file, 0, [t, t, t]) == SentWhole(file, p)
  {
    var t := Transmitter(blk);
    var w0 := Start(Some(p), None);
    var w1 := World(Tx(TxTryR, Sending, 0, 0, []), w0.rx, [MFile(|file|, 0)], []);
    assert Step(w0, file, 0, t) == w1;
    assert w1.down + [] == w1.down;
    var w2 := w1.(tx := w1.tx.(state := TxReadS));
    assert Step(w1, file, 0, t) == w2;
    assert file[0..] == file;
    assert Step(w2, file, 0, t) == SentWhole(file, p);
    hide Step, SentWhole;
    RunOne(w0, file, 0, t);
    RunOn(w0, file, 0, [t], [t]);
    RunOne(w1, file, 0, t);
    RunOn(w0, file, 0, [t, t], [t]);
    RunOne(w2, file, 0, t);
    assert [t] + [t] == [t, t] && [t, t] + [t] == [t, t, t];
  }

  lemma SentDoomed(file: string, p: string)
    requires 0 < |p| < |file|
    ensures Doomed(Ahead(SentWhole(file, p), 0), file, 0)
  {
    var w := SentWhole(file, p);
    assert w.down[..1] == [MFile(|file|, 0)] && w.down[..1][..0] == [];
    assert After(w.rx, 0, w.down[..1]).1 == [MGet(|p|)];
  }

  /** In binkp/1.0 any file that fits into one block and is there in part is doomed, once it is
      sent before the answer comes. */
  lemma SentTooSoon(file: string, p: string, blk: nat)
    requires p <= file && 0 < |p| < |file| < blk
    ensures var w := Run(Start(Some(p), None), file, 0, [Transmitter(blk), Transmitter(blk), Transmitter(blk)]);
            w == SentWhole(file, p) && !CanFinish(w, file, 0, Some(p))
  {
    hide Run, Start, SentWhole, Doomed, Ahead, CanFinish;
    SentInThree(file, p, blk);
    SentDoomed(file, p);
    FinishExactly(file, 0, Some(p), None, [Transmitter(blk), Transmitter(blk), Transmitter(blk)]);
  }
}
