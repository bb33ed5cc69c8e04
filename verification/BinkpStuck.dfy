/** Binkp sessions that can no longer succeed: a file whose answer does not come in, and a block that
    does not uncompress (file_transfer, mbcico/binkp.c). */
module BinkpStuck {
  import opened Seqs
  import opened BinkpSession

  lemma {:induction false} RunConcat(b: Bp, es: seq<Env>, more: seq<Env>)
    ensures Run(b, es + more) == Run(Run(b, es), more)
  {
    if more == [] {
      assert es + more == es;
    } else {
      hide Step;
      assert (es + more)[..|es + more| - 1] == es + more[..|more| - 1];
      RunConcat(b, es, more[..|more| - 1]);
    }
  }

  lemma StartInv(minor: nat)
    ensures Inv(Start(minor))
  {
    assert Ids([]) == [];
  }

  predicate Live(b: Bp) {
    b.ft != DeinitTransfer && !b.ft.Returned?
  }

  // ----- A file whose answer does not come in -----

  /** Entry i is sent, or it is Sending but no longer the one the transmitter is at. */
  predicate Left(s: Sender, i: nat) {
    && i < |s.bll|
    && (s.bll[i].state == IsSent || (s.bll[i].state == Sending && !(s.tx in {TxTryR, TxReadS} && s.cursend == Some(i))))
  }

  /** No answer that came in and was not acted on yet is about that file. */
  predicate Unnamed(b: Bp, id: FileId) {
    && (forall a :: a in b.queue ==> a.id != id)
    && (b.frame.Some? && b.frame.value.InAnswer? ==> b.frame.value.answer.id != id)
  }

  predicate WaitsAt(b: Bp, i: nat) {
    Left(SenderOf(b), i) && Unnamed(b, b.bll[i].id)
  }

  /** The session waits for an answer about entry i, or failed. */
  predicate Doomed(b: Bp, i: nat, id: FileId) {
    match b.ft
    case Returned(code) => code != 0
    case DeinitTransfer => b.rc != 0
    case _ => WaitsAt(b, i) && b.bll[i].id == id
  }

  /** The poll does not bring an answer about the file. */
  predicate Silent(e: Env, id: FileId) {
    e.poll.Frame? && e.poll.f.InAnswer? ==> e.poll.f.answer.id != id
  }

  lemma OtherAnswer(s: Sender, a: Answer, i: nat)
    requires Left(s, i) && a.id != s.bll[i].id
    ensures Left(Act(s, a), i) && Act(s, a).bll[i].id == s.bll[i].id
  {
    hide FindEntry;
    var f := FindEntry(s.bll, a.id);
    assert f.Some? ==> f.value != i;
  }

  lemma {:induction false} OtherAnswers(s: Sender, q: seq<Answer>, i: nat)
    requires Left(s, i) && forall a :: a in q ==> a.id != s.bll[i].id
    ensures Left(ActAll(s, q), i) && ActAll(s, q).bll[i].id == s.bll[i].id
  {
    if q != [] {
      hide Act;
      OtherAnswers(s, q[..|q| - 1], i);
      OtherAnswer(ActAll(s, q[..|q| - 1]), q[|q| - 1], i);
    }
  }

  /** The same entry still waits. */
  predicate StillWaits(b: Bp, n: Bp, i: nat) {
    WaitsAt(b, i) ==> WaitsAt(n, i) && n.bll[i].id == b.bll[i].id
  }

  lemma MessagesWait(b: Bp, i: nat)
    ensures StillWaits(b, ProcessMessages(b), i)
  {
    hide ActAll;
    if WaitsAt(b, i) {
      OtherAnswers(SenderOf(b), b.queue, i);
    }
  }

  lemma SetOther(l: seq<Entry>, j: nat, x: FileState, i: nat)
    requires i < |l| && j < |l| && i != j
    ensures |SetState(l, j, x)| == |l| && SetState(l, j, x)[i] == l[i]
  {
  }

  /** An entry that is as it was goes on waiting, unless it becomes the current file. */
  lemma WaitsStill(b: Bp, n: Bp, i: nat)
    requires WaitsAt(b, i) ==> i < |n.bll| && n.bll[i] == b.bll[i]
    requires n.queue == b.queue && n.frame == b.frame
    requires n.tx in {TxTryR, TxReadS} ==> n.cursend != Some(i) || (b.tx in {TxTryR, TxReadS} && b.cursend == Some(i))
    ensures StillWaits(b, n, i)
  {
  }

  lemma WaitingIs(b: Bp, i: nat)
    requires WaitsAt(b, i)
    ensures i < |b.bll| && b.bll[i].state in {Sending, IsSent}
    ensures CursendOk(b) && b.tx == TxReadS ==> b.cursend.Some? && b.cursend.value < |b.bll| && b.cursend != Some(i)
  {
  }

  lemma SendWaits(b: Bp, e: Env, i: nat)
    requires b.tx == TxGNF
    ensures StillWaits(b, SendNext(b, e).0, i)
  {
    hide FirstNew, SetState, WaitsAt, StillWaits;
    var f := FirstNew(b.bll);
    var n := SendNext(b, e).0;
    if WaitsAt(b, i) {
      WaitingIs(b, i);
      if f.Some? {
        SetOther(b.bll, f.value, Got, i);
        SetOther(b.bll, f.value, Skipped, i);
        SetOther(b.bll, f.value, Sending, i);
      }
      WaitsStill(b, n, i);
    } else {
      NotWaiting(b, n, i);
    }
  }

  lemma NotWaiting(b: Bp, n: Bp, i: nat)
    requires !WaitsAt(b, i)
    ensures StillWaits(b, n, i)
  {
  }

  lemma NextWaits(b: Bp, e: Env, i: nat)
    requires b.listed && b.tx == TxGNF
    ensures StillWaits(b, TxNext(b, e).0, i)
  {
    hide SendNext;
    SendWaits(b, e, i);
    SendWaits(Sent(b), e, i);
  }

  lemma ReadWaits(b: Bp, e: Env, i: nat)
    requires CursendOk(b) && b.tx == TxReadS
    ensures StillWaits(b, TxRead(b, e).0, i)
  {
    hide SetState, WaitsAt, StillWaits;
    var n := TxRead(b, e).0;
    if WaitsAt(b, i) {
      WaitingIs(b, i);
      SetOther(b.bll, b.cursend.value, Skipped, i);
      SetOther(b.bll, b.cursend.value, IsSent, i);
      WaitsStill(b, n, i);
    } else {
      NotWaiting(b, n, i);
    }
  }

  lemma WaitWaits(b: Bp, i: nat)
    ensures StillWaits(b, TxWait(b).0, i)
  {
    hide PendingFiles, ProcessMessages, ClearFilelist;
    if WaitsAt(b, i) {
      NonePending(b.bll);
      assert !Answered(b.bll[i].state);
      MessagesWait(b, i);
    }
  }

  lemma TransmitterWaits(b: Bp, e: Env, i: nat)
    requires CursendOk(b) && b.listed
    ensures StillWaits(b, Transmitter(b, e).0, i)
  {
    hide TxNext, TxRead, TxWait, ProcessMessages;
    match b.tx
    case TxGNF => NextWaits(b, e, i);
    case TxTryR => MessagesWait(b, i);
    case TxReadS => ReadWaits(b, e, i);
    case TxWLA => WaitWaits(b, i);
    case TxDone =>
  }

  lemma WaitsListed(b: Bp, i: nat)
    requires Base(b) && WaitsAt(b, i)
    ensures b.listed
  {
  }

  lemma WaitsOn(b: Bp, n: Bp, i: nat)
    requires SenderOf(n) == SenderOf(b) && n.queue == b.queue && (n.frame == b.frame || n.frame == None)
    ensures StillWaits(b, n, i)
  {
  }

  lemma TransmitDoomed(b: Bp, e: Env, i: nat, id: FileId)
    requires Inv(b) && Doomed(b, i, id) && b.ft == Transmit
    ensures Doomed(TransmitStep(b, e), i, id)
  {
    hide Transmitter, WaitsAt, Ids, AllAnswered;
    WaitsListed(b, i);
    TransmitterWaits(b, e, i);
    TransmitterInv(b, e);
    var (n, t) := Transmitter(b, e);
    WaitsOn(n, n.(ft := Switch), i);
  }

  lemma EobWaits(b: Bp, e: Env, i: nat)
    requires b.frame == Some(InEob) && b.minor != 0
    ensures StillWaits(b, RxWait(b, e).0, i)
  {
    hide PendingFiles, NewBatch;
    if WaitsAt(b, i) {
      NonePending(b.bll);
      assert !Answered(b.bll[i].state);
    }
  }

  lemma ListsWait(b: Bp, n: Bp, t: TrType, i: nat)
    requires ListsSame(b, n, t) && t != Failure
    ensures StillWaits(b, n, i)
  {
  }

  lemma ReceiveDoomed(b: Bp, e: Env, i: nat, id: FileId)
    requires Inv(b) && Doomed(b, i, id) && b.ft == Receive
    ensures Doomed(ReceiveStep(b, e), i, id)
  {
    hide Receiver, WaitsAt, Ids, AllAnswered, ListsSame;
    ReceiverInv(b, e);
    var (n, t) := Receiver(b, e);
    if b.rx == RxWaitF && b.frame == Some(InEob) && b.minor != 0 {
      EobWaits(b, e, i);
      assert Receiver(b, e) == RxWait(b, e) by { WaitsAtF(b, e); }
    } else {
      ReceiverLists(b, e);
      if t != Failure { ListsWait(b, n, t, i); }
    }
    WaitsOn(n, n.(ft := Transmit), i);
    WaitsOn(n, n.(ft := Switch), i);
  }

  lemma WaitsAtF(b: Bp, e: Env)
    requires b.rx == RxWaitF
    ensures Receiver(b, e) == RxWait(b, e)
  {
  }

  lemma FrameWaits(b: Bp, f: InFrame, i: nat)
    requires WaitsAt(b, i) && (f.InAnswer? ==> f.answer.id != b.bll[i].id)
    ensures WaitsAt(TakeFrame(b, f), i) && TakeFrame(b, f).bll == b.bll
  {
  }

  lemma SwitchDoomed(b: Bp, e: Env, i: nat, id: FileId)
    requires Inv(b) && Doomed(b, i, id) && b.ft == Switch && (b.stuck || Silent(e, id))
    ensures Doomed(SwitchStep(b, e), i, id)
  {
    hide WaitsAt, Ids, AllAnswered, TakeFrame;
    WaitsListed(b, i);
    WaitsOn(b, Idle(b, e), i);
    WaitsOn(b, Idle(b.(stuck := true), e), i);
    if e.poll.Frame? && Silent(e, id) {
      FrameWaits(b, e.poll.f, i);
      assert TakeFrame(b, e.poll.f).ft == Receive by { FrameGiven(b, e.poll.f); }
    }
  }

  lemma FrameGiven(b: Bp, f: InFrame)
    ensures TakeFrame(b, f).ft == Receive
  {
  }

  lemma StepDoomed(b: Bp, e: Env, i: nat, id: FileId)
    requires Inv(b) && Doomed(b, i, id) && (b.stuck || Silent(e, id))
    ensures Doomed(Step(b, e), i, id)
  {
    hide WaitsAt, Ids, AllAnswered, TransmitStep, SwitchStep, ReceiveStep;
    match b.ft
    case Transmit => TransmitDoomed(b, e, i, id);
    case Switch => SwitchDoomed(b, e, i, id);
    case InitTransfer => InitWaits(b, i);
    case DeinitTransfer =>
    case Receive => ReceiveDoomed(b, e, i, id);
    case Returned(_) =>
  }

  lemma InitWaits(b: Bp, i: nat)
    ensures StillWaits(b, b.(rx := RxWaitF, tx := TxGNF, ft := Switch, messages := 0), i)
  {
  }

  lemma NotOver(b: Bp, i: nat)
    requires Inv(b) && WaitsAt(b, i)
    ensures Doomed(b, i, b.bll[i].id)
  {
    hide Ids, AllAnswered;
  }

  /** With a file waiting, nothing but an answer about that very file lets file_transfer return 0. */
  lemma {:induction false} RunDoomed(b: Bp, more: seq<Env>, i: nat)
    requires Inv(b) && WaitsAt(b, i) && (b.stuck || forall e :: e in more ==> Silent(e, b.bll[i].id))
    ensures Doomed(Run(b, more), i, b.bll[i].id) && Inv(Run(b, more)) && (b.stuck ==> Run(b, more).stuck)
  {
    if more == [] {
      NotOver(b, i);
    } else {
      hide Step, WaitsAt, Inv;
      var k := |more| - 1;
      RunDoomed(b, more[..k], i);
      StepDoomed(Run(b, more[..k]), more[k], i, b.bll[i].id);
      StepInv(Run(b, more[..k]), more[k]);
      StepHeard(Run(b, more[..k]), more[k]);
    }
  }

  lemma Unanswered(minor: nat, es: seq<Env>, more: seq<Env>, i: nat)
    requires var b := Run(Start(minor), es); WaitsAt(b, i) && forall e :: e in more ==> Silent(e, b.bll[i].id)
    ensures Run(Start(minor), es + more).ft != Returned(0)
  {
    hide Run, WaitsAt;
    StartInv(minor);
    RunInv(Start(minor), es);
    RunConcat(Start(minor), es, more);
    RunDoomed(Run(Start(minor), es), more, i);
  }

  /** After a block that did not uncompress it does not matter what the remote sends. */
  lemma BadBlockDooms(minor: nat, es: seq<Env>, more: seq<Env>, i: nat)
    requires Run(Start(minor), es).stuck && WaitsAt(Run(Start(minor), es), i)
    ensures Run(Start(minor), es + more).ft != Returned(0)
  {
    hide Run, WaitsAt;
    StartInv(minor);
    RunInv(Start(minor), es);
    RunConcat(Start(minor), es, more);
    RunDoomed(Run(Start(minor), es), more, i);
  }

  /** An M_GOT or M_SKIP about a waiting file ends the wait when it is the first of its name. */
  lemma AnswerEnds(s: Sender, a: Answer, i: nat)
    requires Left(s, i) && !a.MGet? && FindEntry(s.bll, a.id) == Some(i)
    ensures !Left(Act(s, a), i) && Answered(Act(s, a).bll[i].state)
  {
    hide FindEntry;
  }

  /** When an answer makes the transmitter leave the file it is at without settling it: the answer is
      about another entry, and asks for it again, or settles one that was itself left. */
  lemma LeavesExactly(s: Sender, a: Answer)
    requires SendingOk(s) && s.tx in {TxTryR, TxReadS}
    ensures var k := Current(s).value; var f := FindEntry(s.bll, a.id);
            Left(Act(s, a), k)
            <==> f.Some? && f.value != k
                 && match a
                    case MGet(id, from) => from < id.size
                    case _ => s.bll[f.value].state == Sending
  {
    hide FindEntry;
  }

  // ----- More of what every run keeps -----

  predicate NoneNew(l: seq<Entry>) {
    forall i :: 0 <= i < |l| ==> l[i].state != NoState
  }

  lemma {:induction false} FirstNewNone(l: seq<Entry>)
    ensures FirstNew(l).None? <==> NoneNew(l)
  {
    if l != [] {
      FirstNewNone(l[1..]);
      assert forall i :: 0 < i < |l| ==> l[i] == l[1..][i - 1];
    }
  }

  /** The entry cursend points to is Sending, or it is the first of its name. */
  predicate CurrentKept(s: Sender) {
    Current(s).Some? ==>
      s.bll[Current(s).value].state == Sending || FindEntry(s.bll, s.bll[Current(s).value].id) == Current(s)
  }

  /** What the two sides know of each other between two turns. */
  predicate RxTidy(b: Bp) {
    && (b.rx == RxDone <==> b.tx == TxDone)
    && (b.minor == 0 && (b.rx == RxEOB || b.frame == Some(InEob)) ==> b.remoteEOB)
    && (b.minor != 0 ==> b.rx != RxEOB)
    && (b.frame.Some? ==> b.ft == Receive && b.rx != RxAccF)
    && (b.rx in {RxAccF, RxWriteD} ==> b.ft == Receive)
    && (b.ft == Receive ==> b.rx != RxDone)
  }

  predicate TxTidy(b: Bp) {
    && (b.tx == TxWLA ==> b.localEOB && NoneNew(b.bll))
    && CurrentKept(SenderOf(b))
  }

  predicate Tidy(b: Bp) {
    (Live(b) ==> RxTidy(b) && TxTidy(b)) && (b.ft == InitTransfer ==> !b.stuck)
  }

  lemma {:induction false} FindSame(l: seq<Entry>, m: seq<Entry>, id: FileId)
    requires Ids(l) == Ids(m)
    ensures FindEntry(l, id) == FindEntry(m, id)
  {
    assert |Ids(l)| == |l| && |Ids(m)| == |m|;
    if l != [] {
      assert l[0].id == Ids(l)[0] && m[0].id == Ids(m)[0];
      assert Ids(l[1..]) == Ids(l)[1..] && Ids(m[1..]) == Ids(m)[1..];
      FindSame(l[1..], m[1..], id);
    }
  }

  lemma IdsAt(l: seq<Entry>, m: seq<Entry>)
    requires Ids(l) == Ids(m)
    ensures |l| == |m| && forall i :: 0 <= i < |l| ==> l[i].id == m[i].id
  {
    assert |Ids(l)| == |l| && |Ids(m)| == |m|;
    forall i | 0 <= i < |l|
      ensures l[i].id == m[i].id
    {
      assert Ids(l)[i] == Ids(m)[i];
    }
  }

  /** Acting on an answer keeps the two facts about the transmitter. */
  lemma ActTidy(s: Sender, a: Answer)
    requires CurrentKept(s)
    ensures CurrentKept(Act(s, a))
    ensures NoneNew(s.bll) && Act(s, a).tx == TxWLA ==> NoneNew(Act(s, a).bll)
  {
    hide FindEntry, Ids;
    var n := Act(s, a);
    ActProgress(s, a);
    IdsAt(s.bll, n.bll);
    if Current(n).Some? {
      FindSame(s.bll, n.bll, n.bll[Current(n).value].id);
    }
  }

  lemma {:induction false} QueueTidy(s: Sender, q: seq<Answer>)
    requires CurrentKept(s)
    ensures CurrentKept(ActAll(s, q))
    ensures s.tx == TxWLA && NoneNew(s.bll) && ActAll(s, q).tx == TxWLA ==> NoneNew(ActAll(s, q).bll)
  {
    if q != [] {
      hide Act, CurrentKept, NoneNew, Ids;
      QueueTidy(s, q[..|q| - 1]);
      ActTidy(ActAll(s, q[..|q| - 1]), q[|q| - 1]);
      ProcessProgress(s, q[..|q| - 1]);
      ActProgress(ActAll(s, q[..|q| - 1]), q[|q| - 1]);
    }
  }

  lemma MessagesTidy(b: Bp)
    requires RxTidy(b) && TxTidy(b) && b.tx in {TxTryR, TxWLA}
    ensures RxTidy(ProcessMessages(b)) && TxTidy(ProcessMessages(b))
  {
    hide ActAll, CurrentKept, NoneNew, Ids;
    QueueTidy(SenderOf(b), b.queue);
    ProcessProgress(SenderOf(b), b.queue);
    SameSender(ProcessMessages(b), ActAll(SenderOf(b), b.queue));
  }

  lemma SameSender(b: Bp, s: Sender)
    requires b.bll == s.bll && b.cursend == s.cursend
    ensures CurrentKept(s) <==> CurrentKept(SenderOf(b))
  {
  }

  lemma ListTidy(b: Bp, e: Env)
    requires RxTidy(b) && TxTidy(b) && b.tx == TxGNF
    ensures var n := MakeList(b, e); RxTidy(n) && TxTidy(n) && n.tx == TxGNF && n.ft == b.ft
  {
    hide NewEntries, GoneIds, Ids;
  }

  /** The receiver's part, when only the transmitter's variables changed. */
  lemma RxSame(b: Bp, n: Bp)
    requires RxTidy(b) && n.rx == b.rx && n.minor == b.minor && n.remoteEOB == b.remoteEOB
    requires n.frame == b.frame && n.ft == b.ft && (n.tx == TxDone <==> b.tx == TxDone)
    ensures RxTidy(n)
  {
  }

  lemma SendTidy(b: Bp, e: Env)
    requires RxTidy(b) && TxTidy(b) && b.tx == TxGNF && b.ft == Transmit
    ensures var (n, t) := SendNext(b, e); t != Failure ==> RxTidy(n) && TxTidy(n) && n.ft == b.ft
  {
    hide FirstNew, FindEntry, SetState, RxTidy, CurrentKept;
    FirstNewNone(b.bll);
    var (n, t) := SendNext(b, e);
    if t != Failure {
      RxSame(b, n);
      match FirstNew(b.bll)
      case None => SameSender(n, SenderOf(b));
      case Some(i) =>
        StateTidy(b, i, Got);
        StateTidy(b, i, Skipped);
        if e.fopen.Opens? { OpenTidy(SenderOf(n), i, b.bll); }
    }
  }

  lemma OpenTidy(s: Sender, i: nat, l: seq<Entry>)
    requires i < |l| && s.cursend == Some(i) && s.bll == SetState(l, i, Sending)
    ensures CurrentKept(s)
  {
    hide FindEntry;
  }

  /** Settling an entry that is not being sent keeps cursend right. */
  lemma StateTidy(b: Bp, i: nat, x: FileState)
    requires CurrentKept(SenderOf(b)) && i < |b.bll| && b.bll[i].state == NoState
    ensures CurrentKept(Sender(SetState(b.bll, i, x), b.cursend, b.tx, b.log.crashed))
  {
    hide FindEntry, Ids;
    IdsSet(b.bll, i, b.bll[i].(state := x));
    if Current(SenderOf(b)).Some? {
      FindSame(b.bll, SetState(b.bll, i, x), b.bll[Current(SenderOf(b)).value].id);
    }
  }

  lemma NextTidy(b: Bp, e: Env)
    requires RxTidy(b) && TxTidy(b) && b.tx == TxGNF && b.ft == Transmit
    ensures var (n, t) := TxNext(b, e); t != Failure ==> RxTidy(n) && TxTidy(n) && n.ft == b.ft
  {
    hide SendNext, MakeList, CurrentKept, NoneNew;
    ListTidy(b, e);
    var m := MakeList(b, e);
    SameSender(Sent(m), SenderOf(m));
    SendTidy(m, e);
    SendTidy(Sent(m), e);
  }

  lemma ReadTidy(b: Bp, e: Env)
    requires RxTidy(b) && TxTidy(b) && CursendOk(b) && b.tx == TxReadS && b.ft == Transmit
    ensures var (n, t) := TxRead(b, e); t != Failure ==> RxTidy(n) && TxTidy(n) && n.ft == b.ft
  {
    hide FindEntry, RxTidy;
    var (n, t) := TxRead(b, e);
    if t != Failure { RxSame(b, n); }
  }

  lemma WaitTidy(b: Bp)
    requires RxTidy(b) && TxTidy(b) && b.tx == TxWLA && b.ft == Transmit
    ensures var (n, t) := TxWait(b); t != Failure && RxTidy(n) && TxTidy(n) && n.ft == b.ft
  {
    hide ProcessMessages, PendingFiles, FindEntry;
    MessagesTidy(b);
    assert ProcessMessages(b).ft == b.ft by { MessagesFt(b); }
  }

  lemma MessagesFt(b: Bp)
    ensures ProcessMessages(b).ft == b.ft
  {
  }

  lemma TransmitTidy(b: Bp, e: Env)
    requires Inv(b) && Tidy(b) && b.ft == Transmit
    ensures Tidy(TransmitStep(b, e))
  {
    hide TxNext, TxRead, TxWait, ProcessMessages, CurrentKept, NoneNew, Ids;
    MessagesFt(b);
    match b.tx
    case TxGNF =>
      NextTidy(b, e);
      if TxNext(b, e).1 != Failure { FtTidy(TxNext(b, e).0); }
    case TxTryR =>
      MessagesTidy(b);
      SameSender(b.(tx := TxReadS), SenderOf(b));
    case TxReadS =>
      ReadTidy(b, e);
      if TxRead(b, e).1 != Failure { FtTidy(TxRead(b, e).0); }
    case TxWLA =>
      WaitTidy(b);
      FtTidy(TxWait(b).0);
    case TxDone => FtTidy(b);
  }

  lemma FtTidy(b: Bp)
    requires b.ft == Transmit && RxTidy(b) && TxTidy(b)
    ensures Tidy(b) && Tidy(b.(ft := Switch))
  {
    hide CurrentKept, NoneNew;
    SameSender(b.(ft := Switch), SenderOf(b));
  }

  /** The transmitter's part, when none of its variables changed. */
  lemma TxSame(b: Bp, n: Bp)
    requires TxTidy(b) && n.bll == b.bll && n.cursend == b.cursend && n.tx == b.tx && n.localEOB == b.localEOB
    ensures TxTidy(n)
  {
    hide FindEntry;
  }

  lemma IdleTidy(b: Bp, e: Env)
    requires RxTidy(b) && TxTidy(b) && b.ft == Switch
    ensures Tidy(Idle(b, e))
  {
    hide TxTidy;
    TxSame(b, Idle(b, e));
  }

  lemma FrameTidy(b: Bp, f: InFrame)
    requires RxTidy(b) && TxTidy(b) && b.ft == Switch && b.rx != RxDone
    ensures Tidy(TakeFrame(b, f))
  {
    hide TxTidy;
    TxSame(b, TakeFrame(b, f));
  }

  lemma SwitchTidy(b: Bp, e: Env)
    requires Tidy(b) && b.ft == Switch
    ensures Tidy(SwitchStep(b, e))
  {
    hide TxTidy, Idle, TakeFrame;
    TxSame(b, b.(stuck := true));
    IdleTidy(b, e);
    IdleTidy(b.(stuck := true), e);
    if b.rx != RxDone && e.poll.Frame? {
      FrameTidy(b, e.poll.f);
    }
  }

  /** A turn of the receiver that goes on, or is over and leaves no frame. */
  predicate RxGoesOn(b: Bp, n: Bp, t: TrType) {
    && n.minor == b.minor && n.remoteEOB == b.remoteEOB && n.localEOB == b.localEOB
    && n.tx == b.tx && n.bll == b.bll && n.cursend == b.cursend && n.ft == b.ft
    && n.rx != RxDone
    && (n.rx == RxEOB ==> b.rx == RxEOB || (b.frame == Some(InEob) && b.minor == 0))
    && (n.frame.Some? ==> t == Continue && n.rx != RxAccF && n.frame == b.frame)
    && (n.rx in {RxAccF, RxWriteD} ==> t == Continue)
  }

  lemma RxWaitGoes(b: Bp, e: Env)
    requires b.rx == RxWaitF && (b.frame != Some(InEob) || b.minor == 0)
    ensures var (n, t) := RxWait(b, e); t != Failure ==> RxGoesOn(b, n, t)
  {
    hide PendingFiles, NewBatch;
  }

  lemma RxAcceptGoes(b: Bp, e: Env)
    requires b.rx == RxAccF && b.frame.None?
    ensures var (n, t) := RxAccept(b, e); t != Failure ==> RxGoesOn(b, n, t)
  {
  }

  lemma RxReceiveGoes(b: Bp, e: Env)
    requires b.rx == RxReceD
    ensures var (n, t) := RxReceive(b, e); t != Failure ==> RxGoesOn(b, n, t)
  {
  }

  lemma RxWriteGoes(b: Bp, e: Env)
    requires b.rx == RxWriteD
    ensures var (n, t) := RxWrite(b, e); t != Failure ==> RxGoesOn(b, n, t)
  {
  }

  lemma RxEndGoes(b: Bp, e: Env)
    requires b.rx == RxEOB
    ensures var (n, t) := RxEnd(b, e); t != Failure ==> RxGoesOn(b, n, t)
  {
  }

  lemma ReceiverGoes(b: Bp, e: Env)
    requires RxTidy(b) && b.ft == Receive && (b.rx == RxWaitF ==> b.frame != Some(InEob) || b.minor == 0)
    ensures var (n, t) := Receiver(b, e); t != Failure ==> RxGoesOn(b, n, t)
  {
    hide RxWait, RxAccept, RxReceive, RxWrite, RxEnd, RxGoesOn;
    match b.rx
    case RxWaitF => RxWaitGoes(b, e);
    case RxAccF => RxAcceptGoes(b, e);
    case RxReceD => RxReceiveGoes(b, e);
    case RxWriteD => RxWriteGoes(b, e);
    case RxEOB => RxEndGoes(b, e);
  }

  lemma GoesTidy(b: Bp, n: Bp, t: TrType)
    requires RxTidy(b) && TxTidy(b) && b.ft == Receive && t != Failure && RxGoesOn(b, n, t)
    ensures t == Continue ==> Tidy(n)
    ensures t == Ok ==> Tidy(n.(ft := Switch)) && Tidy(n.(ft := Transmit))
  {
    hide TxTidy;
    TxSame(b, n);
    TxSame(b, n.(ft := Switch));
    TxSame(b, n.(ft := Transmit));
  }

  lemma EobTidy(b: Bp, e: Env)
    requires RxTidy(b) && TxTidy(b) && b.ft == Receive && b.frame == Some(InEob) && b.minor != 0 && b.rx == RxWaitF
    ensures var (n, t) := RxWait(b, e); t == Ok && Tidy(n.(ft := Switch)) && Tidy(n.(ft := Transmit))
  {
    hide PendingFiles, FindEntry;
  }

  lemma ReceiveTidy(b: Bp, e: Env)
    requires Inv(b) && Tidy(b) && b.ft == Receive
    ensures Tidy(ReceiveStep(b, e))
  {
    if b.rx == RxWaitF && b.frame == Some(InEob) && b.minor != 0 {
      hide RxWait, TxTidy, RxTidy;
      EobTidy(b, e);
    } else {
      hide Receiver, RxGoesOn, TxTidy;
      ReceiverGoes(b, e);
      var (n, t) := Receiver(b, e);
      if t != Failure { GoesTidy(b, n, t); }
    }
  }

  lemma StepTidy(b: Bp, e: Env)
    requires Inv(b) && Tidy(b)
    ensures Tidy(Step(b, e))
  {
    hide TransmitStep, SwitchStep, ReceiveStep, FindEntry;
    match b.ft
    case Transmit => TransmitTidy(b, e);
    case Switch => SwitchTidy(b, e);
    case InitTransfer =>
    case DeinitTransfer =>
    case Receive => ReceiveTidy(b, e);
    case Returned(_) =>
  }

  lemma {:induction false} RunTidy(minor: nat, es: seq<Env>)
    ensures Inv(Run(Start(minor), es)) && Tidy(Run(Start(minor), es))
  {
    if es == [] {
      StartInv(minor);
    } else {
      hide Inv, Tidy, Step;
      RunTidy(minor, es[..|es| - 1]);
      StepInv(Run(Start(minor), es[..|es| - 1]), es[|es| - 1]);
      StepTidy(Run(Start(minor), es[..|es| - 1]), es[|es| - 1]);
    }
  }
}
