/** file_transfer and the functions it calls as they change the session's variables, each
    against the state function of BinkpSession (mbcico/binkp.c). */
module BinkpTransfer {
  import opened Seqs
  import opened BinkpSession

  lemma PendingStep(bll: seq<Entry>, i: nat)
    requires i < |bll|
    ensures PendingFiles(bll[..i + 1]) == PendingFiles(bll[..i]) + if Answered(bll[i].state) then 0 else 1
  {
    assert bll[..i + 1][..i] == bll[..i];
  }

  lemma {:induction false} FindAt(bll: seq<Entry>, id: FileId, i: nat)
    requires i <= |bll| && forall j :: 0 <= j < i ==> bll[j].id != id
    ensures i == |bll| ==> FindEntry(bll, id) == None
    ensures i < |bll| && bll[i].id == id ==> FindEntry(bll, id) == Some(i)
  {
    if i > 0 {
      FindAt(bll[1..], id, i - 1);
    }
  }

  lemma {:induction false} FirstNewAt(bll: seq<Entry>, i: nat)
    requires i <= |bll| && forall j :: 0 <= j < i ==> bll[j].state != NoState
    ensures i == |bll| ==> FirstNew(bll) == None
    ensures i < |bll| && bll[i].state == NoState ==> FirstNew(bll) == Some(i)
  {
    if i > 0 {
      FirstNewAt(bll[1..], i - 1);
    }
  }

  /** Without a frame there is nothing for the receiver to look at. */
  lemma NoFrame(b: Bp, e: Env)
    requires b.frame.None?
    ensures RxWait(b, e) == (b, Ok) && RxReceive(b, e) == (b, Ok) && RxEnd(b, e) == (b, Ok)
  {
  }

  class FileTransfer {
    var ft: FtState
    var rx: RxState
    var tx: TxState
    const minor: nat
    var rc: int
    var localEOB: bool
    var remoteEOB: bool
    var messages: nat
    var batchnr: nat
    var frame: Option<InFrame>
    var queue: seq<Answer>
    var listed: bool
    var bll: seq<Entry>
    var cursend: Option<nat>
    /** A block did not uncompress: GotFrame stays set. */
    var stuck: bool
    ghost var log: Log

    ghost function View(): Bp
      reads this
    {
      Bp(ft, rx, tx, minor, rc, localEOB, remoteEOB, messages, batchnr, frame, stuck, queue, listed, bll,
         cursend, log)
    }

    constructor (minor: nat)
      ensures View() == Start(minor)
    {
      ft, rx, tx := InitTransfer, RxWaitF, TxGNF;
      this.minor := minor;
      rc, messages, batchnr := 0, 0, 0;
      localEOB, remoteEOB, listed, stuck := false, false, false, false;
      frame, cursend := None, None;
      queue, bll, log := [], [], Log([], [], [], [], [], false);
    }

    /** binkp_pendingfiles. */
    method CountPending() returns (count: nat)
      ensures count == PendingFiles(bll)
    {
      count := 0;
      var i := 0;
      while i < |bll|
        invariant i <= |bll| && count == PendingFiles(bll[..i])
      {
        PendingStep(bll, i);
        if bll[i].state != Got && bll[i].state != Skipped { count := count + 1; }
        i := i + 1;
      }
      assert bll[..i] == bll;
    }

    /** binkp_clear_filelist. */
    method ClearList()
      modifies this`bll, this`listed, this`log
      ensures View() == ClearFilelist(old(View()))
    {
      if listed {
        log := log.(released := log.released + bll);
        bll := [];
        listed := false;
      }
    }

    /** Look up the file an answer names and act on it. */
    method ProcessAnswer(a: Answer)
      modifies this`bll, this`tx, this`cursend, this`log
      ensures SenderOf(View()) == Act(old(SenderOf(View())), a)
      ensures log == old(log).(crashed := log.crashed)
    {
      hide FindEntry;
      var i := SearchFor(a.id);
      if i < |bll| {
        match a
        case MGet(id, from) =>
          if from == id.size {
            if cursend.Some? && cursend.value < |bll| && bll[cursend.value].id == id {
              bll := bll[cursend.value := bll[cursend.value].(state := Got)];
              cursend := None;
              tx := TxGNF;
              // The search for what to do with the file then goes through cursend.
              log := log.(crashed := true);
            } else if bll[i].state == IsSent {
              bll := bll[i := bll[i].(state := Got)];
            }
          } else if from < id.size {
            bll := bll[i := bll[i].(state := NoState, offset := from)];
            tx := TxGNF;
          }
        case MGot(_) =>
          if bll[i].state == Sending {
            tx := TxGNF;
            cursend := None;
          }
          bll := bll[i := bll[i].(state := Got)];
        case MSkip(_) =>
          if bll[i].state == Sending {
            cursend := None;
            tx := TxGNF;
          }
          bll := bll[i := bll[i].(state := Skipped)];
      }
    }

    /** The first entry for a file, or the end of the list. */
    method SearchFor(id: FileId) returns (i: nat)
      ensures i <= |bll| && FindEntry(bll, id) == if i < |bll| then Some(i) else None
    {
      i := 0;
      while i < |bll| && bll[i].id != id
        invariant i <= |bll| && forall j :: 0 <= j < i ==> bll[j].id != id
      {
        i := i + 1;
      }
      FindAt(bll, id, i);
    }

    /** binkp_process_messages. */
    method ProcessQueue()
      modifies this`bll, this`tx, this`cursend, this`queue, this`log
      ensures View() == ProcessMessages(old(View()))
    {
      hide Act;
      ghost var was := SenderOf(View());
      var i := 0;
      while i < |queue|
        invariant i <= |queue| && queue == old(queue) && log == old(log).(crashed := log.crashed)
        invariant SenderOf(View()) == ActAll(was, queue[..i])
      {
        assert queue[..i + 1][..i] == queue[..i];
        ProcessAnswer(queue[i]);
        i := i + 1;
      }
      assert queue[..i] == queue;
      queue := [];
    }

    method StartBatch()
      modifies this`batchnr, this`localEOB, this`remoteEOB, this`messages, this`tx, this`rx, this`bll, this`listed,
               this`log
      ensures View() == NewBatch(old(View()))
    {
      batchnr := batchnr + 1;
      localEOB, remoteEOB := false, false;
      messages := 0;
      tx, rx := TxGNF, RxWaitF;
      hide ClearFilelist;
      assert View() == old(View()).(batchnr := batchnr, localEOB := false, remoteEOB := false, messages := 0,
                                    tx := TxGNF, rx := RxWaitF);
      ClearList();
    }

    /** State RxWaitF. */
    method WaitForFile(e: Env) returns (t: TrType)
      requires frame.Some?
      modifies this
      ensures (View(), t) == RxWait(old(View()), e)
    {
      var f := frame.value;
      frame := None;
      t := TrType.Ok;
      match f
      case InErr => rx, t := RxDone, Failure;
      case InAnswer(a) => queue := queue + [a];
      case InEob =>
        if minor != 0 {
          if localEOB && remoteEOB {
            var pending := CountPending();
            if !(messages < 3 || pending != 0) { StartBatch(); }
          }
        } else {
          rx := RxEOB;
        }
      case InFile => rx, t := RxAccF, Continue;
      case InOther => rx, t := RxDone, Failure;
      case _ =>
    }

    /** State RxReceD. */
    method TakeWhileReceiving(ghost e: Env) returns (t: TrType)
      requires frame.Some?
      modifies this
      ensures (View(), t) == RxReceive(old(View()), e)
    {
      var f := frame.value;
      t := TrType.Ok;
      if f != InData { frame := None; }
      match f
      case InData => rx, t := RxWriteD, Continue;
      case InAnswer(a) => queue := queue + [a];
      case InNul =>
      case InUnknown =>
      case InFile => rx, t := RxAccF, Continue;
      case _ => rx, t := RxDone, Failure;
    }

    /** State RxAccF. */
    method AcceptFile(e: Env) returns (t: TrType)
      modifies this`rx, this`tx, this`rc, this`messages
      ensures (View(), t) == RxAccept(old(View()), e)
    {
      t := TrType.Ok;
      match e.accept
      case LowDisk =>
        messages := messages + 1;
        rx, tx, rc, t := RxDone, TxDone, MBERR_FTRANSFER, Failure;
      case Receives => rx := RxReceD;
      case _ =>
        messages := messages + 1;
        rx := RxWaitF;
        if !e.sends { t := Failure; }
    }

    /** State RxWriteD. */
    method WriteData(e: Env) returns (t: TrType)
      modifies this`rx, this`rc, this`messages, this`frame
      ensures (View(), t) == RxWrite(old(View()), e)
    {
      frame := None;
      t := TrType.Ok;
      match e.write
      case More => rx := RxReceD;
      case WriteError => rx, t := RxDone, Failure;
      case CrcAbort =>
        messages := messages + 1;
        rx, rc, t := RxDone, MBERR_FTRANSFER, Failure;
      case _ =>
        messages := messages + 1;
        rx := RxWaitF;
        if !e.sends { t := Failure; }
    }

    /** State RxEOB. */
    method AfterEob(ghost e: Env) returns (t: TrType)
      requires frame.Some?
      modifies this`rx, this`queue, this`frame
      ensures (View(), t) == RxEnd(old(View()), e)
    {
      var f := frame.value;
      frame := None;
      t := TrType.Ok;
      match f
      case InAnswer(a) => queue := queue + [a];
      case InNul =>
      case InUnknown =>
      case _ => rx, t := RxDone, Failure;
    }

    /** binkp_receiver. */
    method RunReceiver(e: Env) returns (t: TrType)
      modifies this
      ensures (View(), t) == Receiver(old(View()), e)
    {
      if frame.None? { NoFrame(View(), e); }
      hide RxWait, RxAccept, RxReceive, RxWrite, RxEnd;
      t := TrType.Ok;
      match rx
      case RxWaitF => if frame.Some? { t := WaitForFile(e); }
      case RxAccF => t := AcceptFile(e);
      case RxReceD => if frame.Some? { t := TakeWhileReceiving(e); }
      case RxWriteD => t := WriteData(e);
      case RxEOB => if frame.Some? { t := AfterEob(e); }
      case RxDone =>
    }

    /** The first entry not yet sent, or the end of the list. */
    method SearchNew() returns (i: nat)
      ensures i <= |bll| && FirstNew(bll) == if i < |bll| then Some(i) else None
    {
      i := 0;
      while i < |bll| && bll[i].state != NoState
        invariant i <= |bll| && forall j :: 0 <= j < i ==> bll[j].state != NoState
      {
        i := i + 1;
      }
      FirstNewAt(bll, i);
    }

    /** State TxGNF, once there is a list. */
    method NextFile(e: Env) returns (t: TrType)
      modifies this
      ensures (View(), t) == SendNext(old(View()), e)
    {
      hide FirstNew;
      var i := SearchNew();
      t := TrType.Ok;
      if i < |bll| {
        match e.fopen
        case Missing =>
          log := log.(gone := log.gone + [bll[i].id]);
          bll := bll[i := bll[i].(state := Got)];
        case Unreadable =>
          log := log.(unread := log.unread + [bll[i].id]);
          bll := bll[i := bll[i].(state := Skipped)];
        case Opens =>
          messages := messages + 1;
          if !e.sends {
            tx, t := TxDone, Failure;
          } else {
            bll := bll[i := bll[i].(state := Sending)];
            cursend, tx, t := Some(i), TxTryR, Continue;
          }
      } else {
        messages := messages + 1;
        localEOB, tx := true, TxWLA;
        t := if e.sends then Continue else Failure;
      }
    }

    /** Put the files on the list one by one; fill_binkp_list looks whether each is there. */
    method FillList(files: seq<Listed>)
      modifies this`bll
      ensures bll == old(bll) + NewEntries(files)
    {
      ghost var was := bll;
      var i := 0;
      assert was + NewEntries(files[..0]) == was;
      while i < |files|
        invariant i <= |files| && bll == was + NewEntries(files[..i])
      {
        assert NewEntries(files[..i + 1]) == NewEntries(files[..i]) + [NewEntry(files[i])];
        var state := NoState;
        if files[i].gone { state := Got; }
        bll := bll + [Entry(files[i].id, state, 0)];
        i := i + 1;
      }
      assert files[..i] == files;
    }

    /** Make the list of files to send, if there is none. */
    method EnsureList(e: Env)
      modifies this`cursend, this`listed, this`bll, this`log
      ensures View() == MakeList(old(View()), e)
    {
      hide NewEntries, GoneIds, Ids;
      if !listed {
        cursend := None;
        listed := e.files != [] || e.otherFiles;
        var files := if batchnr < 20 then e.files else [];
        log := log.(created := log.created + Ids(NewEntries(files)), gone := log.gone + GoneIds(files));
        FillList(files);
      }
    }

    /** State TxGNF. */
    method ListAndSend(e: Env) returns (t: TrType)
      modifies this
      ensures (View(), t) == TxNext(old(View()), e)
    {
      hide SendNext, MakeList;
      var announce := !listed && (e.netmail || batchnr == 0);
      EnsureList(e);
      if announce {
        messages := messages + 1;
        if !e.sends {
          tx := TxDone;
          return Failure;
        }
      }
      t := NextFile(e);
    }

    /** State TxWLA. */
    method WaitLastAck() returns (t: TrType)
      modifies this
      ensures (View(), t) == TxWait(old(View()))
    {
      t := TrType.Ok;
      var pending := CountPending();
      if queue == [] && pending == 0 {
        if rx in {RxEOB, RxDone} && minor == 0 {
          tx := TxDone;
          if localEOB && remoteEOB { rx := RxDone; }
          ClearList();
          return;
        }
        if minor == 0 { return; }
        if localEOB && remoteEOB {
          if messages < 3 {
            rx, tx := RxDone, TxDone;
          } else {
            StartBatch();
            return;
          }
        }
        ClearList();
        return;
      }
      if queue != [] {
        ProcessQueue();
        t := Continue;
      }
    }

    /** binkp_transmitter. */
    method RunTransmitter(e: Env) returns (t: TrType)
      requires CursendOk(View())
      modifies this
      ensures (View(), t) == Transmitter(old(View()), e)
    {
      hide TxNext, TxWait, ProcessMessages;
      t := TrType.Ok;
      match tx
      case TxGNF => t := ListAndSend(e);
      case TxTryR =>
        if queue == [] { tx := TxReadS; } else { ProcessQueue(); }
        t := Continue;
      case TxReadS =>
        tx := TxTryR;
        match e.fread {
          case ReadError =>
            tx := TxDone;
            log := log.(unread := log.unread + [bll[cursend.value].id]);
            bll := bll[cursend.value := bll[cursend.value].(state := Skipped)];
            t := Failure;
          case Block => if !e.sends { t := Failure; }
          case LastBlock =>
            if !e.sends {
              t := Failure;
            } else {
              bll := bll[cursend.value := bll[cursend.value].(state := IsSent)];
              cursend, tx := None, TxGNF;
            }
        }
      case TxWLA => t := WaitLastAck();
      case TxDone =>
    }

    /** A whole frame was read. */
    method GetFrame(f: InFrame)
      modifies this`ft, this`frame, this`messages, this`remoteEOB, this`log
      ensures View() == TakeFrame(old(View()), f)
    {
      frame := Some(f);
      if f != InData { messages := messages + 1; }
      if f == InEob { remoteEOB := true; }
      log := log.(heard := log.heard + Heard(f));
      ft := FtState.Receive;
    }

    /** binkp_poll_frame and what the loop does about it; whether that ended the turn.  While
        GotFrame is set nothing is read. */
    method Poll(p: PollResult) returns (got: bool)
      modifies this`ft, this`rc, this`frame, this`stuck, this`messages, this`remoteEOB, this`log
      ensures got == (Polls(old(View())) && (p.Error? || p.Frame?))
      ensures !Polls(old(View())) || p == Nothing ==> View() == old(View())
      ensures Polls(old(View())) && p == Error ==> View() == old(View()).(rc := MBERR_FTRANSFER, ft := DeinitTransfer)
      ensures Polls(old(View())) && p == BadBlock ==> View() == old(View()).(stuck := true)
      ensures Polls(old(View())) && p.Frame? ==> View() == TakeFrame(old(View()), p.f)
    {
      hide TakeFrame;
      got := false;
      if frame.None? && !stuck {
        match p
        case Error =>
          rc, ft := MBERR_FTRANSFER, DeinitTransfer;
          got := true;
        case BadBlock => stuck := true;
        case Frame(f) =>
          GetFrame(f);
          got := true;
        case Nothing =>
      }
    }

    /** State Switch. */
    method SwitchTurn(e: Env)
      requires ft == Switch
      modifies this`ft, this`rc, this`frame, this`stuck, this`messages, this`remoteEOB, this`log
      ensures View() == SwitchStep(old(View()), e)
    {
      hide TakeFrame;
      if rx == RxDone && tx == TxDone {
        ft := DeinitTransfer;
        return;
      }
      var got := Poll(e.poll);
      if got {
        return;
      }
      if e.room {
        ft := FtState.Transmit;
      } else if e.expired {
        rc, ft := 1, DeinitTransfer;
      }
    }

    /** One turn of the loop. */
    method Turn(e: Env)
      requires Inv(View())
      modifies this
      ensures View() == Step(old(View()), e)
    {
      hide Receiver, Transmitter, SwitchStep;
      match ft
      case InitTransfer =>
        rx, tx, ft, messages := RxWaitF, TxGNF, Switch, 0;
      case Switch => SwitchTurn(e);
      case Receive =>
        var t := RunReceiver(e);
        if t == TrType.Ok {
          ft := if localEOB && remoteEOB then FtState.Transmit else Switch;
        } else if t == Failure {
          rc, ft := 1, DeinitTransfer;
        }
      case Transmit =>
        var t := RunTransmitter(e);
        if t == TrType.Ok {
          ft := Switch;
        } else if t == Failure {
          rc, ft := 1, DeinitTransfer;
        }
      case DeinitTransfer =>
        ClearList();
        ft := Returned(if rc != 0 then MBERR_FTRANSFER else 0);
      case Returned(_) =>
    }

    /** file_transfer over any course of events: when it returns 0, every file it ever listed was
        answered by the time its list was released, by the remote's word or by a look at the disk. */
    method Transfer(es: seq<Env>)
      requires View() == Start(minor)
      modifies this
      ensures View() == Run(Start(minor), es)
      ensures ft == Returned(0) ==>
                && log.created == Ids(log.released)
                && forall i :: 0 <= i < |log.released| ==>
                     Answered(log.released[i].state) && Explained(View(), log.released[i])
    {
      hide Inv, Step, Ids, Explained;
      StartInv(minor);
      var i := 0;
      while i < |es|
        invariant i <= |es| && View() == Run(Start(minor), es[..i]) && Inv(View())
      {
        assert es[..i + 1][..i] == es[..i];
        StepInv(View(), es[i]);
        Turn(es[i]);
        i := i + 1;
      }
      assert es[..i] == es;
      if ft == Returned(0) { TransferComplete(minor, es); }
    }
  }

  lemma StartInv(minor: nat)
    ensures Inv(Start(minor))
  {
    assert Ids([]) == [];
  }
}
