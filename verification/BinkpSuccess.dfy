/** Sessions in which the remote does its part: every file that is sent and answered is settled by
    its answer, and file_transfer returns 0 (mbcico/binkp.c). */
module BinkpSuccess {
  import opened Seqs
  import opened BinkpSession
  import opened BinkpStuck
  import opened BinkpOutcome

  // ----- What comes in -----

  function Comes(f: InFrame): Env {
    EASY.(poll := Frame(f))
  }

  lemma Three(b: Bp, e: Env, f: Env, g: Env)
    ensures Run(b, [e, f, g]) == Step(Step(Step(b, e), f), g)
  {
    hide Step;
    assert [e, f, g] == [e] + [f, g];
    Cons(b, e, [f, g]);
    Two(Step(b, e), f, g);
  }

  predicate Listening(b: Bp) {
    b.ft == Switch && b.frame == None && !b.stuck && !(b.localEOB && b.remoteEOB)
  }

  /** An answer is put on the queue, whether a file comes in meanwhile or not, and also behind the
      M_EOB of binkp/1.0. */
  lemma AnswerTaken(b: Bp, a: Answer)
    requires Listening(b) && b.rx in {RxWaitF, RxReceD, RxEOB}
    ensures Run(b, [Comes(InAnswer(a)), EASY])
         == b.(queue := b.queue + [a], messages := b.messages + 1, log := b.log.(heard := b.log.heard + [a]))
  {
    Two(b, Comes(InAnswer(a)), EASY);
  }

  /** A file that comes in n + 1 blocks. */
  function FileComes(n: nat): seq<Env> {
    [Comes(InFile), EASY, EASY] + BlocksCome(n) + [Comes(InData), EASY, EASY.(write := Whole)]
  }

  function BlocksCome(n: nat): seq<Env> {
    if n == 0 then [] else BlocksCome(n - 1) + BlockComes()
  }

  function BlockComes(): seq<Env> {
    [Comes(InData), EASY, EASY]
  }

  lemma {:induction false} BlocksTaken(b: Bp, n: nat)
    requires Listening(b) && b.rx == RxReceD
    ensures Run(b, BlocksCome(n)) == b
  {
    hide Step, Listening, BlockComes;
    if n > 0 {
      hide Run;
      BlocksTaken(b, n - 1);
      RunConcat(b, BlocksCome(n - 1), BlockComes());
      NoChange(b);
    }
  }

  lemma NoChange(b: Bp)
    requires Listening(b) && b.rx == RxReceD
    ensures Run(b, BlockComes()) == b
  {
    hide Step, Listening, Run;
    Three(b, Comes(InData), EASY, EASY);
    BlockTaken(b, EASY);
  }

  lemma BlockTaken(b: Bp, e: Env)
    requires Listening(b) && b.rx == RxReceD && (e == EASY || e == EASY.(write := Whole))
    ensures Step(Step(Step(b, Comes(InData)), EASY), e)
         == if e == EASY then b else b.(rx := RxWaitF, messages := b.messages + 1)
  {
  }

  /** A file that comes in is taken, and nothing but the count of messages is changed by it: M_FILE
      came in and M_GOT went out. */
  lemma FileTaken(b: Bp, n: nat)
    requires Listening(b) && b.rx == RxWaitF
    ensures Run(b, FileComes(n)) == b.(messages := b.messages + 2)
  {
    hide Step, BlocksCome;
    var first, last := [Comes(InFile), EASY, EASY], [Comes(InData), EASY, EASY.(write := Whole)];
    RunConcat(b, first, BlocksCome(n));
    RunConcat(b, first + BlocksCome(n), last);
    Three(b, Comes(InFile), EASY, EASY);
    FileAccepted(b);
    var c := b.(rx := RxReceD, messages := b.messages + 1);
    BlocksTaken(c, n);
    Three(c, Comes(InData), EASY, EASY.(write := Whole));
    BlockTaken(c, EASY.(write := Whole));
  }

  lemma FileAccepted(b: Bp)
    requires Listening(b) && b.rx == RxWaitF
    ensures Step(Step(Step(b, Comes(InFile)), EASY), EASY) == b.(rx := RxReceD, messages := b.messages + 1)
  {
  }

  // ----- A list of files, each sent and answered -----

  /** The answer to the file: it was received, or it is not wanted. */
  function Reply(x: FileId, wanted: bool): Answer {
    if wanted then MGot(x) else MSkip(x)
  }

  predicate Distinct(xs: seq<FileId>) {
    forall i, j :: 0 <= i < j < |xs| ==> xs[i] != xs[j]
  }

  function Settled(wanted: bool): FileState {
    if wanted then Got else Skipped
  }

  /** The list when the files before k are settled and file k is in that state. */
  function Halfway(xs: seq<FileId>, wants: seq<bool>, k: nat, now: FileState): (l: seq<Entry>)
    requires |wants| == |xs|
    ensures |l| == |xs|
  {
    seq(|xs|, i requires 0 <= i < |xs| =>
      Entry(xs[i], if i < k then Settled(wants[i]) else if i == k then now else NoState, 0))
  }

  /** The first batch, with nothing yet from the remote but answers. */
  predicate Busy(b: Bp, ft: FtState, tx: TxState, l: seq<Entry>, cur: Option<nat>, q: seq<Answer>) {
    && b.ft == ft && b.rx == RxWaitF && b.tx == tx && b.rc == 0 && !b.localEOB && !b.remoteEOB && b.messages >= 2
    && b.batchnr == 0 && b.frame == None && !b.stuck && b.queue == q && b.listed && b.bll == l && b.cursend == cur
    && b.log.released == [] && !b.log.crashed
  }

  /** File k is read and sent, and answered. */
  function SendAndReply(x: FileId, wanted: bool): seq<Env> {
    [EASY, LAST, Comes(InAnswer(Reply(x, wanted))), EASY]
  }

  lemma Begins(minor: nat, xs: seq<FileId>, wants: seq<bool>)
    requires xs != [] && |wants| == |xs|
    ensures Busy(Run(Start(minor), [EASY, EASY, ListAndOpen(xs)]), Transmit, TxTryR,
                 Halfway(xs, wants, 0, Sending), Some(0), [])
    ensures Run(Start(minor), [EASY, EASY, ListAndOpen(xs)]).minor == minor
  {
    var e := ListAndOpen(xs);
    Three(Start(minor), EASY, EASY, e);
    var b := Start(minor).(ft := Transmit);
    assert Step(Step(Start(minor), EASY), EASY) == b;
    assert [] + NewEntries(e.files) == NewEntries(e.files);
    assert SetState(NewEntries(e.files), 0, Sending) == Halfway(xs, wants, 0, Sending);
  }

  lemma SentAndReplied(b: Bp, xs: seq<FileId>, wants: seq<bool>, k: nat)
    requires |wants| == |xs| && k < |xs|
    requires Busy(b, Transmit, TxTryR, Halfway(xs, wants, k, Sending), Some(k), [])
    ensures var n := Run(b, SendAndReply(xs[k], wants[k]));
            && Busy(n, Switch, TxGNF, Halfway(xs, wants, k, IsSent), None, [Reply(xs[k], wants[k])])
            && n.minor == b.minor
  {
    var a := Reply(xs[k], wants[k]);
    assert SendAndReply(xs[k], wants[k]) == [EASY, LAST] + [Comes(InAnswer(a)), EASY];
    RunConcat(b, [EASY, LAST], [Comes(InAnswer(a)), EASY]);
    Two(b, EASY, LAST);
    var c := Step(Step(b, EASY), LAST);
    assert SetState(Halfway(xs, wants, k, Sending), k, IsSent) == Halfway(xs, wants, k, IsSent);
    assert Busy(c, Switch, TxGNF, Halfway(xs, wants, k, IsSent), None, []) && c.minor == b.minor;
    AnswerTaken(c, a);
  }

  lemma {:induction false} Names(l: seq<Entry>, xs: seq<FileId>, k: nat)
    requires |l| == |xs| && k < |xs| && Distinct(xs) && forall i :: 0 <= i < |xs| ==> l[i].id == xs[i]
    ensures FindEntry(l, xs[k]) == Some(k)
  {
    if k > 0 {
      assert xs[0] != xs[k];
      Names(l[1..], xs[1..], k - 1);
    }
  }

  lemma {:induction false} FirstNewIs(l: seq<Entry>, k: nat)
    requires k <= |l| && (forall i :: 0 <= i < k ==> l[i].state != NoState)
    requires k < |l| ==> l[k].state == NoState
    ensures FirstNew(l) == if k < |l| then Some(k) else None
  {
    if k > 0 { FirstNewIs(l[1..], k - 1); }
  }

  /** What the reply makes of the list, while the next file is Sending or there is none. */
  lemma ReplyActs(s: Sender, xs: seq<FileId>, l: seq<Entry>, k: nat, wanted: bool)
    requires |l| == |xs| && k < |xs| && Distinct(xs) && (forall i :: 0 <= i < |xs| ==> l[i].id == xs[i])
    requires s.bll == l && l[k].state == IsSent
    ensures Act(s, Reply(xs[k], wanted)) == s.(bll := SetState(l, k, Settled(wanted)))
  {
    Names(l, xs, k);
  }

  lemma OneAnswer(b: Bp, a: Answer)
    requires b.queue == [a]
    ensures ProcessMessages(b) == WithSender(b, Act(SenderOf(b), a))
  {
    hide Act;
    assert [a][..0] == [];
    assert ActAll(SenderOf(b), []) == SenderOf(b);
  }

  /** The next file is opened, and then the reply to the last one acted on. */
  lemma NextOpened(b: Bp, xs: seq<FileId>, wants: seq<bool>, k: nat)
    requires |wants| == |xs| && k + 1 < |xs| && Distinct(xs)
    requires Busy(b, Switch, TxGNF, Halfway(xs, wants, k, IsSent), None, [Reply(xs[k], wants[k])])
    ensures var n := Run(b, [EASY, OPEN, EASY]);
            Busy(n, Transmit, TxTryR, Halfway(xs, wants, k + 1, Sending), Some(k + 1), []) && n.minor == b.minor
  {
    hide FirstNew, Act, ProcessMessages, SendNext, Halfway;
    Three(b, EASY, OPEN, EASY);
    var l := Halfway(xs, wants, k, IsSent);
    Opened1(b, xs, wants, k);
    var c := Step(Step(b, EASY), OPEN);
    OneAnswer(c, Reply(xs[k], wants[k]));
    HalfwayOn(xs, wants, k);
    ReplyActs(SenderOf(c), xs, SetState(l, k + 1, Sending), k, wants[k]);
  }

  lemma Opened1(b: Bp, xs: seq<FileId>, wants: seq<bool>, k: nat)
    requires |wants| == |xs| && k + 1 < |xs|
    requires Busy(b, Switch, TxGNF, Halfway(xs, wants, k, IsSent), None, [Reply(xs[k], wants[k])])
    ensures var c := Step(Step(b, EASY), OPEN);
            Busy(c, Transmit, TxTryR, SetState(Halfway(xs, wants, k, IsSent), k + 1, Sending), Some(k + 1),
                 [Reply(xs[k], wants[k])]) && c.minor == b.minor
  {
    hide FirstNew;
    FirstNewIs(Halfway(xs, wants, k, IsSent), k + 1);
  }

  lemma HalfwayOn(xs: seq<FileId>, wants: seq<bool>, k: nat)
    requires |wants| == |xs| && k < |xs|
    ensures var l := Halfway(xs, wants, k, IsSent);
            && l[k].state == IsSent && (forall i :: 0 <= i < |xs| ==> l[i].id == xs[i])
            && SetState(l, k, Settled(wants[k])) == Halfway(xs, wants, k + 1, NoState)
            && (k + 1 < |xs| ==>
                SetState(SetState(l, k + 1, Sending), k, Settled(wants[k])) == Halfway(xs, wants, k + 1, Sending))
  {
  }

  // ----- The end of the session -----

  /** The list is through: M_EOB is sent, every file is settled, the remote's M_EOB is still to come. */
  predicate Through(b: Bp, l: seq<Entry>) {
    && b.ft == Transmit && b.rx == RxWaitF && b.tx == TxWLA && b.rc == 0 && b.localEOB && !b.remoteEOB
    && b.messages >= 3 && b.batchnr == 0 && b.frame == None && !b.stuck && b.queue == [] && b.listed && b.bll == l
    && b.log.released == [] && PendingFiles(l) == 0 && !b.log.crashed
  }

  lemma EobSent(b: Bp, l: seq<Entry>, q: seq<Answer>)
    requires Busy(b, Switch, TxGNF, l, None, q) && FirstNew(l) == None
    ensures var c := Step(Step(b, EASY), EASY);
            && c == b.(ft := Transmit, tx := TxWLA, localEOB := true, messages := b.messages + 1)
  {
    hide FirstNew;
  }

  lemma ListThrough(b: Bp, xs: seq<FileId>, wants: seq<bool>, k: nat)
    requires |wants| == |xs| == k + 1 && Distinct(xs)
    requires Busy(b, Switch, TxGNF, Halfway(xs, wants, k, IsSent), None, [Reply(xs[k], wants[k])])
    ensures var n := Run(b, [EASY, EASY, EASY]); Through(n, Halfway(xs, wants, k + 1, NoState)) && n.minor == b.minor
  {
    hide FirstNew, Act, ProcessMessages, Halfway, PendingFiles, Step;
    Three(b, EASY, EASY, EASY);
    var l := Halfway(xs, wants, k, IsSent);
    AllSettled(xs, wants, k);
    EobSent(b, l, [Reply(xs[k], wants[k])]);
    var c := Step(Step(b, EASY), EASY);
    OneAnswer(c, Reply(xs[k], wants[k]));
    HalfwayOn(xs, wants, k);
    ReplyActs(SenderOf(c), xs, l, k, wants[k]);
    QueueDone(c);
  }

  lemma QueueDone(c: Bp)
    requires c.ft == Transmit && c.tx == TxWLA && c.queue != []
    ensures Step(c, EASY) == ProcessMessages(c)
  {
    hide ProcessMessages, PendingFiles;
  }

  lemma AllSettled(xs: seq<FileId>, wants: seq<bool>, k: nat)
    requires |wants| == |xs| == k + 1
    ensures FirstNew(Halfway(xs, wants, k, IsSent)) == None
    ensures PendingFiles(Halfway(xs, wants, k + 1, NoState)) == 0
  {
    FirstNewIs(Halfway(xs, wants, k, IsSent), k + 1);
    NonePending(Halfway(xs, wants, k + 1, NoState));
  }

  /** The remote ends its batch too. */
  function LastWords(minor: nat): seq<Env> {
    [EASY, Comes(InEob), EASY] + (if minor == 0 then [EASY, EASY, EASY]
                                  else [EASY, EASY, EASY] + [Comes(InEob), EASY, EASY] + [EASY, EASY])
  }

  lemma EndsOld(b: Bp, l: seq<Entry>)
    requires Through(b, l) && b.minor == 0
    ensures var n := Run(b, LastWords(0)); n.ft == Returned(0) && n.log.released == l && !n.log.crashed
  {
    hide Step, PendingFiles;
    RunConcat(b, [EASY, Comes(InEob), EASY], [EASY, EASY, EASY]);
    Three(b, EASY, Comes(InEob), EASY);
    EobTakenOld(b, l);
    var c := Step(Step(Step(b, EASY), Comes(InEob)), EASY);
    Three(c, EASY, EASY, EASY);
    LeavesOld(c, l);
  }

  lemma EobTakenOld(b: Bp, l: seq<Entry>)
    requires Through(b, l) && b.minor == 0
    ensures Step(Step(Step(b, EASY), Comes(InEob)), EASY)
         == b.(rx := RxEOB, remoteEOB := true, messages := b.messages + 1)
  {
    hide PendingFiles;
    assert b.log.heard + [] == b.log.heard;
  }

  lemma LeavesOld(c: Bp, l: seq<Entry>)
    requires c.ft == Transmit && c.tx == TxWLA && c.queue == [] && PendingFiles(c.bll) == 0 && c.minor == 0
    requires c.rx == RxEOB && c.localEOB && c.remoteEOB && c.rc == 0 && c.listed && c.log.released == [] && c.bll == l
    ensures var n := Step(Step(Step(c, EASY), EASY), EASY);
            n.ft == Returned(0) && n.log == c.log.(released := l)
  {
    hide PendingFiles;
    assert [] + l == l;
  }

  lemma EndsNew(b: Bp, l: seq<Entry>)
    requires Through(b, l) && b.minor != 0
    ensures var n := Run(b, LastWords(b.minor)); n.ft == Returned(0) && n.log.released == l && !n.log.crashed
  {
    hide Step, PendingFiles;
    var one, two, three, four :=
      [EASY, Comes(InEob), EASY], [EASY, EASY, EASY], [Comes(InEob), EASY, EASY], [EASY, EASY];
    assert LastWords(b.minor) == one + two + three + four;
    RunConcat(b, one, two);
    RunConcat(b, one + two, three);
    RunConcat(b, one + two + three, four);
    Three(b, EASY, Comes(InEob), EASY);
    EobTakenNew(b, l);
    var c := Step(Step(Step(b, EASY), Comes(InEob)), EASY);
    Three(c, EASY, EASY, EASY);
    SecondBatch(c);
    var d := Step(Step(Step(c, EASY), EASY), EASY);
    Three(d, Comes(InEob), EASY, EASY);
    SecondEob(d);
    var e := Step(Step(Step(d, Comes(InEob)), EASY), EASY);
    Two(e, EASY, EASY);
    Returns(e);
  }

  lemma EobTakenNew(b: Bp, l: seq<Entry>)
    requires Through(b, l) && b.minor != 0
    ensures var c := Step(Step(Step(b, EASY), Comes(InEob)), EASY);
            Emptied(c, Switch, TxGNF) && c.messages == 0 && !c.localEOB && c.log == b.log.(released := l)
  {
    assert PendingFiles([]) == 0;
    hide PendingFiles;
    assert b.log.heard + [] == b.log.heard && [] + l == l;
  }

  /** The list is released, and a second batch is under way. */
  predicate Emptied(b: Bp, ft: FtState, tx: TxState) {
    && b.ft == ft && b.rx == RxWaitF && b.tx == tx && b.rc == 0 && !b.remoteEOB && b.minor != 0
    && b.batchnr == 1 && b.frame == None && !b.stuck && b.queue == [] && !b.listed && b.bll == []
  }

  lemma SecondBatch(c: Bp)
    requires Emptied(c, Switch, TxGNF) && c.messages == 0 && !c.localEOB
    ensures var d := Step(Step(Step(c, EASY), EASY), EASY);
            Emptied(d, Switch, TxWLA) && d.messages == 1 && d.localEOB && d.log == c.log
  {
    assert NewEntries([]) == [] && Ids([]) == [];
    assert c.log.created + [] == c.log.created && c.log.gone + [] == c.log.gone;
  }

  lemma SecondEob(d: Bp)
    requires Emptied(d, Switch, TxWLA) && d.messages == 1 && d.localEOB
    ensures var e := Step(Step(Step(d, Comes(InEob)), EASY), EASY);
            e.ft == Switch && e.rx == RxDone && e.tx == TxDone && e.rc == 0 && !e.listed && e.log == d.log
  {
    assert d.log.heard + [] == d.log.heard;
  }

  lemma Returns(e: Bp)
    requires e.ft == Switch && e.rx == RxDone && e.tx == TxDone && e.rc == 0 && !e.listed
    ensures var n := Step(Step(e, EASY), EASY); n.ft == Returned(0) && n.log == e.log
  {
  }

  // ----- The whole session -----

  /** From file k on: each is sent and answered, and the next one opened. */
  function Replies(xs: seq<FileId>, wants: seq<bool>, k: nat): seq<Env>
    requires |wants| == |xs| && k < |xs|
    decreases |xs| - k
  {
    SendAndReply(xs[k], wants[k])
    + if k + 1 < |xs| then [EASY, OPEN, EASY] + Replies(xs, wants, k + 1) else [EASY, EASY, EASY]
  }

  lemma {:induction false} RepliesSettle(b: Bp, xs: seq<FileId>, wants: seq<bool>, k: nat)
    requires |wants| == |xs| && k < |xs| && Distinct(xs)
    requires Busy(b, Transmit, TxTryR, Halfway(xs, wants, k, Sending), Some(k), [])
    ensures var n := Run(b, Replies(xs, wants, k));
            Through(n, Halfway(xs, wants, |xs|, NoState)) && n.minor == b.minor
    decreases |xs| - k
  {
    hide Run, Step, Busy, Through, Halfway, SendAndReply;
    var first := SendAndReply(xs[k], wants[k]);
    SentAndReplied(b, xs, wants, k);
    var c := Run(b, first);
    if k + 1 < |xs| {
      NextOpened(c, xs, wants, k);
      RunConcat(c, [EASY, OPEN, EASY], Replies(xs, wants, k + 1));
      RunConcat(b, first, [EASY, OPEN, EASY] + Replies(xs, wants, k + 1));
      RepliesSettle(Run(c, [EASY, OPEN, EASY]), xs, wants, k + 1);
    } else {
      ListThrough(c, xs, wants, k);
      RunConcat(b, first, [EASY, EASY, EASY]);
    }
  }

  function Session(minor: nat, xs: seq<FileId>, wants: seq<bool>): seq<Env>
    requires |wants| == |xs| && xs != []
  {
    [EASY, EASY, ListAndOpen(xs)] + Replies(xs, wants, 0) + LastWords(minor)
  }

  /** Any list of different files, each sent and answered M_GOT or M_SKIP as the remote likes, and M_EOB
      from both sides: file_transfer returns 0, and the list it releases says of each file what the
      remote said. */
  lemma SessionSucceeds(minor: nat, xs: seq<FileId>, wants: seq<bool>)
    requires |wants| == |xs| && xs != [] && Distinct(xs)
    ensures var n := Run(Start(minor), Session(minor, xs, wants));
            && n.ft == Returned(0) && !n.log.crashed && |n.log.released| == |xs|
            && (forall i :: 0 <= i < |xs| ==>
                n.log.released[i] == Entry(xs[i], if wants[i] then Got else Skipped, 0))
  {
    hide Run, Busy, Through, Replies, LastWords, ListAndOpen;
    var s := Start(minor);
    Begins(minor, xs, wants);
    RunConcat(s, [EASY, EASY, ListAndOpen(xs)], Replies(xs, wants, 0));
    RunConcat(s, [EASY, EASY, ListAndOpen(xs)] + Replies(xs, wants, 0), LastWords(minor));
    RepliesSettle(Run(s, [EASY, EASY, ListAndOpen(xs)]), xs, wants, 0);
    var b := Run(s, [EASY, EASY, ListAndOpen(xs)] + Replies(xs, wants, 0));
    if minor == 0 { EndsOld(b, Halfway(xs, wants, |xs|, NoState)); }
    else { EndsNew(b, Halfway(xs, wants, |xs|, NoState)); }
  }
}
