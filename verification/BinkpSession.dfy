/** The file transfer phase of a binkp session: the receiver and transmitter state machines
    taking turns, the queue of the remote's answers, and the list of files to send
    (file_transfer and the functions it calls, mbcico/binkp.c). */
module BinkpSession {
  import opened Seqs

  datatype RxState = RxWaitF | RxAccF | RxReceD | RxWriteD | RxEOB | RxDone
  datatype TxState = TxGNF | TxTryR | TxReadS | TxWLA | TxDone
  datatype FtState = InitTransfer | Switch | Receive | Transmit | DeinitTransfer | Returned(code: int)
  datatype TrType = Ok | Failure | Continue
  datatype FileState = NoState | Sending | IsSent | Got | Skipped

  /** What an M_FILE, M_GET, M_GOT or M_SKIP says of a file. */
  datatype FileId = FileId(name: string, size: nat, date: nat)

  datatype Entry = Entry(id: FileId, state: FileState, offset: nat)

  datatype Answer = MGet(id: FileId, from: nat) | MGot(id: FileId) | MSkip(id: FileId)

  /** A received frame, by what the receiver distinguishes. */
  datatype InFrame = InData | InErr | InAnswer(answer: Answer) | InNul | InEob | InFile | InOther | InUnknown

  const MBERR_FTRANSFER: int := 108

  /** What happened so far: what was ever put on bll, in which state it was when the list was
      released, which answers came in, which files were found missing or unreadable, and whether
      the NULL pointer was followed: what the program does from then on is not defined. */
  datatype Log = Log(created: seq<FileId>, released: seq<Entry>, heard: seq<Answer>, gone: seq<FileId>,
      unread: seq<FileId>, crashed: bool)

  /** The struct bp, the queue tql, the list bll and tosend, with the log.  GotFrame is set while
      there is a `frame`, and for good once a block did not uncompress (`stuck`). */
  datatype Bp = Bp(
    ft: FtState,
    rx: RxState,
    tx: TxState,
    minor: nat,
    rc: int,
    localEOB: bool,
    remoteEOB: bool,
    messages: nat,
    batchnr: nat,
    frame: Option<InFrame>,
    stuck: bool,
    queue: seq<Answer>,
    listed: bool,
    bll: seq<Entry>,
    cursend: Option<nat>,
    log: Log)

  // ----- What the outside world decides -----

  datatype PollResult = Nothing | Frame(f: InFrame) | Error | BadBlock
  datatype AcceptResult = SaysGot | SaysGet | SaysSkip | Receives | Corrupt | LowDisk
  datatype WriteResult = More | Whole | WriteError | CrcSkip | CrcAbort
  datatype OpenResult = Opens | Missing | Unreadable
  datatype ReadResult = Block | LastBlock | ReadError

  /** A file create_filelist gives, and whether it is no longer there when it is put on bll. */
  datatype Listed = Listed(id: FileId, gone: bool)

  /** The outcomes of one step's polls, sends, and file operations. */
  datatype Env = Env(
    poll: PollResult, room: bool, expired: bool, sends: bool,
    accept: AcceptResult, write: WriteResult,
    files: seq<Listed>, otherFiles: bool, netmail: bool, fopen: OpenResult, fread: ReadResult)

  // ----- The functions on the list -----

  predicate Answered(s: FileState) {
    s == Got || s == Skipped
  }

  /** binkp_pendingfiles. */
  function PendingFiles(bll: seq<Entry>): nat {
    if bll == [] then 0
    else PendingFiles(bll[..|bll| - 1]) + if Answered(bll[|bll| - 1].state) then 0 else 1
  }

  predicate AllAnswered(l: seq<Entry>) {
    forall i :: 0 <= i < |l| ==> Answered(l[i].state)
  }

  lemma {:induction false} NonePending(bll: seq<Entry>)
    ensures PendingFiles(bll) == 0 <==> AllAnswered(bll)
  {
    if bll != [] {
      NonePending(bll[..|bll| - 1]);
      assert forall i :: 0 <= i < |bll| - 1 ==> bll[..|bll| - 1][i] == bll[i];
    }
  }

  /** binkp_clear_filelist: nothing is released when there is no list. */
  function ClearFilelist(b: Bp): Bp {
    if b.listed then b.(bll := [], listed := false, log := b.log.(released := b.log.released + b.bll)) else b
  }

  /** The first entry for a file. */
  function FindEntry(bll: seq<Entry>, id: FileId): (r: Option<nat>)
    ensures r.Some? ==> r.value < |bll| && bll[r.value].id == id
  {
    if bll == [] then None
    else if bll[0].id == id then Some(0)
    else
      var r := FindEntry(bll[1..], id);
      if r.Some? then Some(r.value + 1) else None
  }

  function SetState(bll: seq<Entry>, i: nat, s: FileState): seq<Entry>
    requires i < |bll|
  {
    bll[i := bll[i].(state := s)]
  }

  /** What an answer can change: the list, the file being sent, the transmitter's state, and whether
      the NULL pointer was followed. */
  datatype Sender = Sender(bll: seq<Entry>, cursend: Option<nat>, tx: TxState, crashed: bool)

  function SenderOf(b: Bp): Sender {
    Sender(b.bll, b.cursend, b.tx, b.log.crashed)
  }

  /** The entry cursend points to. */
  function Current(s: Sender): Option<nat> {
    if s.cursend.Some? && s.cursend.value < |s.bll| then s.cursend else None
  }

  predicate IsCurrent(s: Sender, id: FileId) {
    Current(s).Some? && s.bll[Current(s).value].id == id
  }

  /** An M_GOT or M_SKIP for entry i. */
  function Settle(s: Sender, i: nat, x: FileState): Sender
    requires i < |s.bll|
  {
    if s.bll[i].state == Sending then Sender(SetState(s.bll, i, x), None, TxGNF, s.crashed)
    else s.(bll := SetState(s.bll, i, x))
  }

  /** An M_GET for the file of entry i.  For one from the end of the current file cursend is set to
      NULL and then looked into. */
  function Resend(s: Sender, i: nat, id: FileId, from: nat): Sender
    requires i < |s.bll|
  {
    if from == id.size then
      if IsCurrent(s, id) then Sender(SetState(s.bll, Current(s).value, Got), None, TxGNF, true)
      else if s.bll[i].state == IsSent then s.(bll := SetState(s.bll, i, Got))
      else s
    else if from < id.size then s.(bll := s.bll[i := s.bll[i].(state := NoState, offset := from)], tx := TxGNF)
    else s
  }

  /** One answer from the queue. */
  function Act(s: Sender, a: Answer): Sender {
    match FindEntry(s.bll, a.id)
    case None => s
    case Some(i) =>
      match a
      case MGet(id, from) => Resend(s, i, id, from)
      case MGot(_) => Settle(s, i, Got)
      case MSkip(_) => Settle(s, i, Skipped)
  }

  function ActAll(s: Sender, q: seq<Answer>): Sender {
    if q == [] then s else Act(ActAll(s, q[..|q| - 1]), q[|q| - 1])
  }

  function WithSender(b: Bp, s: Sender): Bp {
    b.(bll := s.bll, cursend := s.cursend, tx := s.tx, queue := [], log := b.log.(crashed := s.crashed))
  }

  /** binkp_process_messages. */
  function ProcessMessages(b: Bp): Bp {
    WithSender(b, ActAll(SenderOf(b), b.queue))
  }

  // ----- The receiver -----

  function NewBatch(b: Bp): Bp {
    ClearFilelist(b.(batchnr := b.batchnr + 1, localEOB := false, remoteEOB := false, messages := 0,
                     tx := TxGNF, rx := RxWaitF))
  }

  /** A command is sent; it counts as a message also when the send fails. */
  function Sent(b: Bp): Bp {
    b.(messages := b.messages + 1)
  }

  function AfterSend(b: Bp, sends: bool): (Bp, TrType) {
    (b, if sends then Ok else Failure)
  }

  function TakeAnswer(b: Bp, a: Answer): Bp {
    b.(queue := b.queue + [a])
  }

  function RxWait(b: Bp, e: Env): (Bp, TrType) {
    if b.frame.None? then (b, Ok)
    else
      var f := b.frame.value;
      var n := b.(frame := None);
      match f
      case InData => (n, Ok)
      case InErr => (n.(rx := RxDone), Failure)
      case InAnswer(a) => (TakeAnswer(n, a), Ok)
      case InNul => (n, Ok)
      case InEob =>
        if n.minor != 0 then
          (if n.localEOB && n.remoteEOB && n.messages >= 3 && PendingFiles(n.bll) == 0 then (NewBatch(n), Ok)
           else (n, Ok))
        else (n.(rx := RxEOB), Ok)
      case InFile => (n.(rx := RxAccF), Continue)
      case InOther => (n.(rx := RxDone), Failure)
      case InUnknown => (n, Ok)
  }

  function RxAccept(b: Bp, e: Env): (Bp, TrType) {
    match e.accept
    case LowDisk => (b.(messages := b.messages + 1, rx := RxDone, tx := TxDone, rc := MBERR_FTRANSFER), Failure)
    case Receives => (b.(rx := RxReceD), Ok)
    case _ => (b.(messages := b.messages + 1, rx := RxWaitF), if e.sends then Ok else Failure)
  }

  function RxReceive(b: Bp, e: Env): (Bp, TrType) {
    if b.frame.None? then (b, Ok)
    else
      var f := b.frame.value;
      var n := b.(frame := None);
      match f
      case InData => (b.(rx := RxWriteD), Continue)
      case InErr => (n.(rx := RxDone), Failure)
      case InAnswer(a) => (TakeAnswer(n, a), Ok)
      case InNul => (n, Ok)
      case InFile => (n.(rx := RxAccF), Continue)
      case InEob => (n.(rx := RxDone), Failure)
      case InOther => (n.(rx := RxDone), Failure)
      case InUnknown => (n, Ok)
  }

  function RxWrite(b: Bp, e: Env): (Bp, TrType) {
    match e.write
    case More => (b.(frame := None, rx := RxReceD), Ok)
    case WriteError => (b.(frame := None, rx := RxDone), Failure)
    case CrcAbort => (b.(frame := None, messages := b.messages + 1, rx := RxDone, rc := MBERR_FTRANSFER), Failure)
    case _ => (b.(frame := None, messages := b.messages + 1, rx := RxWaitF), if e.sends then Ok else Failure)
  }

  function RxEnd(b: Bp, e: Env): (Bp, TrType) {
    if b.frame.None? then (b, Ok)
    else
      var n := b.(frame := None);
      match b.frame.value
      case InAnswer(a) => (TakeAnswer(n, a), Ok)
      case InNul => (n, Ok)
      case InUnknown => (n, Ok)
      case _ => (n.(rx := RxDone), Failure)
  }

  /** binkp_receiver. */
  function Receiver(b: Bp, e: Env): (Bp, TrType) {
    match b.rx
    case RxWaitF => RxWait(b, e)
    case RxAccF => RxAccept(b, e)
    case RxReceD => RxReceive(b, e)
    case RxWriteD => RxWrite(b, e)
    case RxEOB => RxEnd(b, e)
    case RxDone => (b, Ok)
  }

  // ----- The transmitter -----

  /** fill_binkp_list: a file that is gone needs no sending any more. */
  function NewEntry(f: Listed): Entry {
    Entry(f.id, if f.gone then Got else NoState, 0)
  }

  function NewEntries(files: seq<Listed>): seq<Entry> {
    seq(|files|, i requires 0 <= i < |files| => NewEntry(files[i]))
  }

  function GoneIds(files: seq<Listed>): seq<FileId> {
    if files == [] then []
    else GoneIds(files[..|files| - 1]) + if files[|files| - 1].gone then [files[|files| - 1].id] else []
  }

  /** Without a list, make one; after twenty batches it is left empty of files to send. */
  function MakeList(b: Bp, e: Env): Bp {
    if b.listed then b
    else
      var files := if b.batchnr < 20 then e.files else [];
      b.(cursend := None, listed := e.files != [] || e.otherFiles,
         bll := b.bll + NewEntries(files),
         log := b.log.(created := b.log.created + Ids(NewEntries(files)), gone := b.log.gone + GoneIds(files)))
  }

  /** The first entry not yet sent. */
  function FirstNew(bll: seq<Entry>): (r: Option<nat>)
    ensures r.Some? ==> r.value < |bll| && bll[r.value].state == NoState
  {
    if bll == [] then None
    else if bll[0].state == NoState then Some(0)
    else
      var r := FirstNew(bll[1..]);
      if r.Some? then Some(r.value + 1) else None
  }

  /** Is the TRF message with the sizes due? */
  predicate Announces(b: Bp, e: Env) {
    !b.listed && (e.netmail || b.batchnr == 0)
  }

  /** Open and announce the next file, or end the batch. */
  function SendNext(b: Bp, e: Env): (Bp, TrType) {
    match FirstNew(b.bll)
    case Some(i) =>
      (match e.fopen
       case Missing => (b.(bll := SetState(b.bll, i, Got), log := b.log.(gone := b.log.gone + [b.bll[i].id])), Ok)
       case Unreadable =>
         (b.(bll := SetState(b.bll, i, Skipped), log := b.log.(unread := b.log.unread + [b.bll[i].id])), Ok)
       case Opens =>
         if !e.sends then (Sent(b).(tx := TxDone), Failure)
         else (Sent(b).(bll := SetState(b.bll, i, Sending), cursend := Some(i), tx := TxTryR), Continue))
    case None => (Sent(b).(localEOB := true, tx := TxWLA), if e.sends then Continue else Failure)
  }

  function TxNext(b: Bp, e: Env): (Bp, TrType) {
    var m := MakeList(b, e);
    if !Announces(b, e) then SendNext(m, e)
    else if !e.sends then (Sent(m).(tx := TxDone), Failure)
    else SendNext(Sent(m), e)
  }

  function TxTry(b: Bp): (Bp, TrType) {
    if b.queue == [] then (b.(tx := TxReadS), Continue) else (ProcessMessages(b), Continue)
  }

  /** The current file is always there (CursendOk); the first branch is never taken. */
  function TxRead(b0: Bp, e: Env): (Bp, TrType) {
    var b := b0.(tx := TxTryR);
    var i := if b.cursend.Some? then b.cursend.value else |b.bll|;
    if i >= |b.bll| then (b, Failure)
    else
    match e.fread
    case ReadError =>
      (b.(tx := TxDone, bll := SetState(b.bll, i, Skipped), log := b.log.(unread := b.log.unread + [b.bll[i].id])),
        Failure)
    case Block => AfterSend(b, e.sends)
    case LastBlock =>
      if !e.sends then (b, Failure)
      else (b.(bll := SetState(b.bll, i, IsSent), cursend := None, tx := TxGNF), Ok)
  }

  function TxWait(b: Bp): (Bp, TrType) {
    if b.queue == [] && PendingFiles(b.bll) == 0 then
      if b.minor == 0 then
        (if b.rx in {RxEOB, RxDone} then
           (ClearFilelist(b.(tx := TxDone, rx := if b.localEOB && b.remoteEOB then RxDone else b.rx)), Ok)
         else (b, Ok))
      else if b.localEOB && b.remoteEOB then
        (if b.messages < 3 then (ClearFilelist(b.(rx := RxDone, tx := TxDone)), Ok) else (NewBatch(b), Ok))
      else (ClearFilelist(b), Ok)
    else if b.queue != [] then (ProcessMessages(b), Continue)
    else (b, Ok)
  }

  predicate SendingOk(s: Sender) {
    s.tx in {TxTryR, TxReadS} ==> Current(s).Some? && s.bll[Current(s).value].state == Sending
  }

  predicate CursendOk(b: Bp) {
    SendingOk(SenderOf(b))
  }

  /** binkp_transmitter. */
  function Transmitter(b: Bp, e: Env): (Bp, TrType) {
    match b.tx
    case TxGNF => TxNext(b, e)
    case TxTryR => TxTry(b)
    case TxReadS => TxRead(b, e)
    case TxWLA => TxWait(b)
    case TxDone => (b, Ok)
  }

  // ----- file_transfer -----

  /** binkp_poll_frame takes a frame only while GotFrame is not set. */
  predicate Polls(b: Bp) {
    b.frame.None? && !b.stuck
  }

  function Heard(f: InFrame): seq<Answer> {
    if f.InAnswer? then [f.answer] else []
  }

  /** A frame came in: a command counts as a message, and M_EOB ends the remote's batch. */
  function TakeFrame(b: Bp, f: InFrame): Bp {
    b.(frame := Some(f), messages := if f.InData? then b.messages else b.messages + 1,
       remoteEOB := b.remoteEOB || f.InEob?, log := b.log.(heard := b.log.heard + Heard(f)), ft := Receive)
  }

  function Idle(b: Bp, e: Env): Bp {
    if e.room then b.(ft := Transmit)
    else if e.expired then b.(rc := 1, ft := DeinitTransfer)
    else b
  }

  /** A block that does not uncompress leaves GotFrame set, and no frame. */
  function SwitchStep(b: Bp, e: Env): Bp {
    if b.rx == RxDone && b.tx == TxDone then b.(ft := DeinitTransfer)
    else if Polls(b) && e.poll.Error? then b.(rc := MBERR_FTRANSFER, ft := DeinitTransfer)
    else if Polls(b) && e.poll.Frame? then TakeFrame(b, e.poll.f)
    else if Polls(b) && e.poll.BadBlock? then Idle(b.(stuck := true), e)
    else Idle(b, e)
  }

  function ReceiveStep(b: Bp, e: Env): Bp {
    var (n, t) := Receiver(b, e);
    match t
    case Ok => n.(ft := if n.localEOB && n.remoteEOB then Transmit else Switch)
    case Failure => n.(rc := 1, ft := DeinitTransfer)
    case Continue => n
  }

  function TransmitStep(b: Bp, e: Env): Bp {
    var (n, t) := Transmitter(b, e);
    match t
    case Ok => n.(ft := Switch)
    case Failure => n.(rc := 1, ft := DeinitTransfer)
    case Continue => n
  }

  /** One turn of the loop of file_transfer. */
  function Step(b: Bp, e: Env): Bp {
    match b.ft
    case InitTransfer => b.(rx := RxWaitF, tx := TxGNF, ft := Switch, messages := 0)
    case Switch => SwitchStep(b, e)
    case Receive => ReceiveStep(b, e)
    case Transmit => TransmitStep(b, e)
    case DeinitTransfer => ClearFilelist(b).(ft := Returned(if b.rc != 0 then MBERR_FTRANSFER else 0))
    case Returned(_) => b
  }

  // ----- What every run keeps -----

  function Ids(l: seq<Entry>): seq<FileId> {
    seq(|l|, i requires 0 <= i < |l| => l[i].id)
  }

  /** While no error is pending, all released entries were answered, a list not held is
      empty, and the transmitter is done only without a list. */
  predicate Clean(b: Bp) {
    && AllAnswered(b.log.released)
    && (b.tx == TxDone ==> !b.listed)
  }

  predicate Base(b: Bp) {
    && CursendOk(b)
    && (!b.listed ==> b.bll == [])
    && b.log.created == Ids(b.log.released) + Ids(b.bll)
    && (b.stuck ==> b.ft != Receive)
  }

  predicate Inv(b: Bp) {
    match b.ft
    case Returned(code) =>
      b.bll == [] && b.log.created == Ids(b.log.released) + Ids(b.bll) && (code == 0 ==> AllAnswered(b.log.released))
    case DeinitTransfer => Base(b) && (b.rc == 0 ==> Clean(b) && !b.listed)
    case _ => Base(b) && b.rc == 0 && Clean(b)
  }

  function Start(minor: nat): Bp {
    Bp(InitTransfer, RxWaitF, TxGNF, minor, 0, false, false, 0, 0, None, false, [], false, [], None,
      Log([], [], [], [], [], false))
  }

  lemma IdsSet(l: seq<Entry>, i: nat, x: Entry)
    requires i < |l| && x.id == l[i].id
    ensures Ids(l[i := x]) == Ids(l)
  {
  }

  lemma IdsConcat(a: seq<Entry>, b: seq<Entry>)
    ensures Ids(a + b) == Ids(a) + Ids(b)
  {
  }

  lemma ClearInv(b: Bp)
    requires !b.listed ==> b.bll == []
    requires b.log.created == Ids(b.log.released) + Ids(b.bll)
    ensures var n := ClearFilelist(b);
            && !n.listed && n.bll == [] && n.log.created == Ids(n.log.released) + Ids(n.bll)
            && (AllAnswered(b.log.released) && AllAnswered(b.bll) ==> AllAnswered(n.log.released))
            && n == b.(bll := n.bll, listed := n.listed, log := n.log)
            && n.log == b.log.(released := n.log.released)
  {
    IdsConcat(b.log.released, b.bll);
    assert Ids([]) == [];
    assert Ids(b.log.released) + Ids(b.bll) == Ids(b.log.released + b.bll) + [];
  }

  /** Answers keep the entries, and that the file being sent is Sending. */
  predicate Progressed(s: Sender, n: Sender) {
    && Ids(n.bll) == Ids(s.bll)
    && (SendingOk(s) ==> SendingOk(n))
    && (n.tx == s.tx || n.tx == TxGNF)
  }

  lemma ActProgress(s: Sender, a: Answer)
    ensures Progressed(s, Act(s, a))
  {
    hide Ids, FindEntry;
    var found := FindEntry(s.bll, a.id);
    if found.Some? {
      var i := found.value;
      IdsSet(s.bll, i, s.bll[i].(state := Got));
      IdsSet(s.bll, i, s.bll[i].(state := Skipped));
      if a.MGet? {
        IdsSet(s.bll, i, s.bll[i].(state := NoState, offset := a.from));
      }
      if Current(s).Some? {
        IdsSet(s.bll, Current(s).value, s.bll[Current(s).value].(state := Got));
      }
    }
  }

  /** Acting on the queue changes states of listed files and the transmitter's turn. */
  lemma {:induction false} ProcessProgress(s: Sender, q: seq<Answer>)
    ensures Progressed(s, ActAll(s, q))
  {
    if q != [] {
      hide Act, Ids, SendingOk;
      ProcessProgress(s, q[..|q| - 1]);
      ActProgress(ActAll(s, q[..|q| - 1]), q[|q| - 1]);
    }
  }

  lemma ProcessBase(b: Bp)
    requires Base(b) && Clean(b)
    ensures var n := ProcessMessages(b); Base(n) && (b.tx != TxDone ==> Clean(n))
  {
    hide ActAll;
    ProcessProgress(SenderOf(b), b.queue);
    var s := ActAll(SenderOf(b), b.queue);
    assert |Ids(s.bll)| == |s.bll| && |Ids(b.bll)| == |b.bll|;
  }

  lemma NewBatchBase(b: Bp)
    requires Base(b) && Clean(b) && AllAnswered(b.bll)
    ensures var n := NewBatch(b); Base(n) && Clean(n) && n.ft == b.ft && n.rc == b.rc
  {
    hide AllAnswered;
    var m := b.(batchnr := b.batchnr + 1, localEOB := false, remoteEOB := false, messages := 0,
                tx := TxGNF, rx := RxWaitF);
    ClearInv(m);
  }

  /** The answer in the frame goes on the queue. */
  predicate Queues(b: Bp, n: Bp) {
    b.frame.Some? && b.frame.value.InAnswer? && n.queue == b.queue + [b.frame.value.answer]
  }

  /** The receiver's own variables may differ, the lists do not. */
  predicate ListsSame(b: Bp, n: Bp, t: TrType) {
    && n.ft == b.ft && n.listed == b.listed && n.bll == b.bll && n.log == b.log && n.stuck == b.stuck
    && (n.frame == b.frame || n.frame == None) && (n.queue == b.queue || Queues(b, n))
    && (n.tx == TxDone || (n.tx == b.tx && n.cursend == b.cursend))
    && (t != Failure ==> n.tx == b.tx && n.rc == b.rc)
  }

  lemma RxWaitLists(b: Bp, e: Env)
    requires b.frame != Some(InEob) || b.minor == 0
    ensures ListsSame(b, RxWait(b, e).0, RxWait(b, e).1)
  {
    hide ListsSame, PendingFiles, NewBatch;
    NothingLists(b);
    if b.frame.Some? {
      var (n, t) := RxWait(b, e);
      if b.frame.value.InAnswer? {
        AnswerTaken(b);
      } else {
        FrameTaken(b, n, t);
      }
    }
  }

  lemma RxReceiveLists(b: Bp, e: Env)
    ensures ListsSame(b, RxReceive(b, e).0, RxReceive(b, e).1)
  {
    hide ListsSame;
    NothingLists(b);
    if b.frame.Some? && !b.frame.value.InData? {
      var (n, t) := RxReceive(b, e);
      if b.frame.value.InAnswer? {
        AnswerTaken(b);
      } else {
        FrameTaken(b, n, t);
      }
    } else if b.frame.Some? {
      DataWaits(b);
    }
  }

  lemma AnswerTaken(b: Bp)
    requires b.frame.Some? && b.frame.value.InAnswer?
    ensures ListsSame(b, TakeAnswer(b.(frame := None), b.frame.value.answer), Ok)
  {
  }

  lemma DataWaits(b: Bp)
    ensures ListsSame(b, b.(rx := RxWriteD), Continue)
  {
  }

  lemma RxAcceptLists(b: Bp, e: Env)
    ensures ListsSame(b, RxAccept(b, e).0, RxAccept(b, e).1)
  {
  }

  lemma RxWriteLists(b: Bp, e: Env)
    ensures ListsSame(b, RxWrite(b, e).0, RxWrite(b, e).1)
  {
    hide ListsSame;
    var (n, t) := RxWrite(b, e);
    FrameTaken(b, n, t);
  }

  lemma FrameTaken(b: Bp, n: Bp, t: TrType)
    requires n == b.(frame := None, messages := n.messages, rx := n.rx, rc := n.rc) && (t != Failure ==> n.rc == b.rc)
    ensures ListsSame(b, n, t)
  {
  }

  lemma RxEndLists(b: Bp, e: Env)
    ensures ListsSame(b, RxEnd(b, e).0, RxEnd(b, e).1)
  {
    hide ListsSame;
    NothingLists(b);
    if b.frame.Some? {
      var (n, t) := RxEnd(b, e);
      if b.frame.value.InAnswer? {
        AnswerTaken(b);
      } else {
        FrameTaken(b, n, t);
      }
    }
  }

  lemma EobInv(b: Bp, e: Env)
    requires Base(b) && Clean(b) && b.rc == 0 && b.frame == Some(InEob) && b.minor != 0
    ensures var (n, t) := RxWait(b, e);
            Base(n) && n.ft == b.ft && t == Ok && n.rc == 0 && Clean(n)
  {
    hide AllAnswered, Ids, PendingFiles, NewBatch;
    var n := b.(frame := None);
    NonePending(n.bll);
    if PendingFiles(n.bll) == 0 { NewBatchBase(n); }
  }

  /** Every other turn of the receiver leaves the lists alone. */
  lemma ReceiverLists(b: Bp, e: Env)
    requires b.rx == RxWaitF ==> b.frame != Some(InEob) || b.minor == 0
    ensures ListsSame(b, Receiver(b, e).0, Receiver(b, e).1)
  {
    hide RxWait, RxAccept, RxReceive, RxWrite, RxEnd, ListsSame;
    match b.rx
    case RxWaitF => RxWaitLists(b, e);
    case RxAccF => RxAcceptLists(b, e);
    case RxReceD => RxReceiveLists(b, e);
    case RxWriteD => RxWriteLists(b, e);
    case RxEOB => RxEndLists(b, e);
    case RxDone => NothingLists(b);
  }

  lemma NothingLists(b: Bp)
    ensures ListsSame(b, b, Ok)
  {
  }

  lemma ReceiverInv(b: Bp, e: Env)
    requires Base(b) && Clean(b) && b.rc == 0
    ensures var (n, t) := Receiver(b, e);
            Base(n) && n.ft == b.ft && (t != Failure ==> n.rc == 0 && Clean(n))
  {
    if b.rx == RxWaitF && b.frame == Some(InEob) && b.minor != 0 {
      hide AllAnswered, Ids, RxWait;
      EobInv(b, e);
    } else {
      hide AllAnswered, Ids, Receiver;
      ReceiverLists(b, e);
    }
  }

  lemma MakeListBase(b: Bp, e: Env)
    requires Base(b) && Clean(b) && b.tx == TxGNF
    ensures var n := MakeList(b, e); Base(n) && Clean(n)
  {
    if !b.listed {
      var files := if b.batchnr < 20 then e.files else [];
      assert b.bll + NewEntries(files) == NewEntries(files);
      assert Ids([]) == [];
      var ids := Ids(NewEntries(files));
      assert Ids(b.log.released) + [] + ids == Ids(b.log.released) + ids;
    }
  }

  lemma SetStateBase(b: Bp, i: nat, x: FileState)
    requires Base(b) && i < |b.bll|
    ensures Ids(SetState(b.bll, i, x)) == Ids(b.bll) && b.listed
  {
    IdsSet(b.bll, i, b.bll[i].(state := x));
  }

  lemma SendNextInv(b: Bp, e: Env)
    requires Base(b) && Clean(b) && b.rc == 0 && b.tx == TxGNF
    ensures var (n, t) := SendNext(b, e);
            Base(n) && n.ft == b.ft && (t != Failure ==> n.rc == 0 && Clean(n))
  {
    hide AllAnswered, Ids, FirstNew, SetState;
    var f := FirstNew(b.bll);
    if f.Some? {
      SetStateBase(b, f.value, Got);
      SetStateBase(b, f.value, Skipped);
      SetStateBase(b, f.value, Sending);
      SetStateSize(b.bll, f.value, Sending);
    }
  }

  lemma SetStateSize(l: seq<Entry>, i: nat, x: FileState)
    requires i < |l|
    ensures |SetState(l, i, x)| == |l| && SetState(l, i, x)[i].state == x
  {
  }

  lemma TxNextInv(b: Bp, e: Env)
    requires Base(b) && Clean(b) && b.rc == 0 && b.tx == TxGNF
    ensures var (n, t) := TxNext(b, e);
            Base(n) && n.ft == b.ft && (t != Failure ==> n.rc == 0 && Clean(n))
  {
    MakeListBase(b, e);
    assert MakeList(b, e).ft == b.ft && MakeList(b, e).rc == b.rc && MakeList(b, e).tx == b.tx;
    hide AllAnswered, Ids, SendNext, MakeList;
    SendNextInv(MakeList(b, e), e);
    SendNextInv(Sent(MakeList(b, e)), e);
  }

  lemma TxReadInv(b: Bp, e: Env)
    requires Base(b) && Clean(b) && b.rc == 0 && b.tx == TxReadS
    ensures var (n, t) := TxRead(b, e);
            Base(n) && n.ft == b.ft && (t != Failure ==> n.rc == 0 && Clean(n))
  {
    hide AllAnswered, Ids;
    var i := b.cursend.value;
    IdsSet(b.bll, i, b.bll[i].(state := Skipped));
    IdsSet(b.bll, i, b.bll[i].(state := IsSent));
  }

  lemma TxWaitInv(b: Bp)
    requires Base(b) && Clean(b) && b.rc == 0 && b.tx == TxWLA
    ensures var (n, t) := TxWait(b);
            Base(n) && n.ft == b.ft && (t != Failure ==> n.rc == 0 && Clean(n))
  {
    NonePending(b.bll);
    if b.queue == [] && PendingFiles(b.bll) == 0 {
      hide AllAnswered, Ids, PendingFiles;
      NewBatchBase(b);
      ClearInv(b);
      ClearInv(b.(rx := RxDone, tx := TxDone));
      ClearInv(b.(tx := TxDone, rx := if b.localEOB && b.remoteEOB then RxDone else b.rx));
    } else {
      ProcessBase(b);
    }
  }

  lemma TransmitterInv(b: Bp, e: Env)
    requires Base(b) && Clean(b) && b.rc == 0
    ensures var (n, t) := Transmitter(b, e);
            Base(n) && n.ft == b.ft && (t != Failure ==> n.rc == 0 && Clean(n))
  {
    match b.tx
    case TxGNF => TxNextInv(b, e);
    case TxTryR => ProcessBase(b);
    case TxReadS => TxReadInv(b, e);
    case TxWLA => TxWaitInv(b);
    case TxDone =>
  }

  lemma ReceiveInv(b: Bp, e: Env)
    requires Inv(b) && b.ft == Receive
    ensures Inv(ReceiveStep(b, e))
  {
    hide Receiver, AllAnswered, Ids;
    ReceiverInv(b, e);
  }

  lemma TransmitInv(b: Bp, e: Env)
    requires Inv(b) && b.ft == Transmit
    ensures Inv(TransmitStep(b, e))
  {
    hide Transmitter, AllAnswered, Ids;
    TransmitterInv(b, e);
  }

  lemma TakeFrameInv(b: Bp, f: InFrame)
    requires Inv(b) && b.ft == Switch && !b.stuck
    ensures Inv(TakeFrame(b, f))
  {
    hide AllAnswered, Ids;
  }

  lemma IdleInv(b: Bp, e: Env)
    requires Inv(b) && b.ft == Switch
    ensures Inv(Idle(b, e))
  {
    hide AllAnswered, Ids;
  }

  lemma SwitchInv(b: Bp, e: Env)
    requires Inv(b) && b.ft == Switch
    ensures Inv(SwitchStep(b, e))
  {
    hide AllAnswered, Ids, TakeFrame, Idle;
    if Polls(b) && e.poll.Frame? {
      TakeFrameInv(b, e.poll.f);
    } else if Polls(b) && e.poll.BadBlock? {
      IdleInv(b.(stuck := true), e);
    } else {
      IdleInv(b, e);
    }
  }

  lemma StepInv(b: Bp, e: Env)
    requires Inv(b)
    ensures Inv(Step(b, e))
  {
    hide ReceiveStep, TransmitStep, SwitchStep, AllAnswered, Ids;
    match b.ft
    case Receive => ReceiveInv(b, e);
    case Transmit => TransmitInv(b, e);
    case DeinitTransfer => ClearInv(b);
    case InitTransfer =>
    case Switch => SwitchInv(b, e);
    case Returned(_) =>
  }

  function Run(b: Bp, es: seq<Env>): Bp {
    if es == [] then b else Step(Run(b, es[..|es| - 1]), es[|es| - 1])
  }

  lemma {:induction false} RunInv(b: Bp, es: seq<Env>)
    requires Inv(b)
    ensures Inv(Run(b, es))
  {
    if es != [] {
      RunInv(b, es[..|es| - 1]);
      StepInv(Run(b, es[..|es| - 1]), es[|es| - 1]);
    }
  }

  // ----- Why an entry has its state -----

  /** Got: the remote said so, or wanted it from its end on, or it is no longer there.  Skipped:
      the remote said so, or it could not be opened. */
  predicate Explained(b: Bp, x: Entry) {
    && (x.state == Got ==> MGot(x.id) in b.log.heard || MGet(x.id, x.id.size) in b.log.heard || x.id in b.log.gone)
    && (x.state == Skipped ==> MSkip(x.id) in b.log.heard || x.id in b.log.unread)
  }

  predicate AllExplained(b: Bp, l: seq<Entry>) {
    forall i :: 0 <= i < |l| ==> Explained(b, l[i])
  }

  /** An M_GET that asks for nothing more of its file. */
  predicate FromEnd(a: Answer) {
    a.MGet? && a.from == a.id.size
  }

  predicate Known(b: Bp) {
    && AllExplained(b, b.bll) && AllExplained(b, b.log.released)
    && (b.log.crashed ==> exists a :: a in b.log.heard && FromEnd(a))
    && (forall a :: a in b.queue ==> a in b.log.heard)
    && (b.frame.Some? && b.frame.value.InAnswer? ==> b.frame.value.answer in b.log.heard)
  }

  /** The histories only grow, so what was explained stays so. */
  predicate Later(b: Bp, n: Bp) {
    b.log.heard <= n.log.heard && b.log.gone <= n.log.gone && b.log.unread <= n.log.unread
  }

  lemma StillExplained(b: Bp, n: Bp, l: seq<Entry>)
    requires AllExplained(b, l) && Later(b, n)
    ensures AllExplained(n, l)
  {
    assert forall x :: x in b.log.heard ==> x in n.log.heard;
    assert forall x :: x in b.log.gone ==> x in n.log.gone;
    assert forall x :: x in b.log.unread ==> x in n.log.unread;
  }

  lemma ExplainedBoth(b: Bp, l: seq<Entry>, m: seq<Entry>)
    requires AllExplained(b, l) && AllExplained(b, m)
    ensures AllExplained(b, l + m)
  {
  }

  lemma ClearKnown(b: Bp)
    requires Known(b)
    ensures Known(ClearFilelist(b))
  {
    hide Explained;
    ExplainedBoth(b, b.log.released, b.bll);
    StillExplained(b, ClearFilelist(b), b.log.released);
    StillExplained(b, ClearFilelist(b), b.bll);
    StillExplained(b, ClearFilelist(b), b.log.released + b.bll);
  }

  /** One entry gets another state, with an explanation. */
  lemma EntryKnown(b: Bp, n: Bp, i: nat, x: Entry)
    requires Known(b) && i < |b.bll| && n.bll == b.bll[i := x] && Later(b, n) && n.log.heard == b.log.heard
    requires n.log.released == b.log.released && n.log.crashed == b.log.crashed
    requires n.queue == b.queue && n.frame == b.frame && Explained(n, x)
    ensures Known(n)
  {
    hide Explained;
    StillExplained(b, n, b.bll);
    StillExplained(b, n, b.log.released);
  }

  lemma ActKnown(b: Bp, s: Sender, a: Answer)
    requires AllExplained(b, s.bll) && a in b.log.heard
    ensures AllExplained(b, Act(s, a).bll)
    ensures Act(s, a).crashed ==> s.crashed || FromEnd(a)
  {
    hide FindEntry;
    var n := Act(s, a);
    forall i | 0 <= i < |n.bll|
      ensures Explained(b, n.bll[i])
    {
      assert i < |s.bll| && Explained(b, s.bll[i]);
    }
  }

  lemma {:induction false} QueueKnown(b: Bp, s: Sender, q: seq<Answer>)
    requires AllExplained(b, s.bll) && forall a :: a in q ==> a in b.log.heard
    ensures AllExplained(b, ActAll(s, q).bll)
    ensures ActAll(s, q).crashed ==> s.crashed || exists a :: a in b.log.heard && FromEnd(a)
  {
    if q != [] {
      hide Act, Explained;
      QueueKnown(b, s, q[..|q| - 1]);
      ActKnown(b, ActAll(s, q[..|q| - 1]), q[|q| - 1]);
    }
  }

  lemma MessagesKnown(b: Bp)
    requires Known(b)
    ensures Known(ProcessMessages(b))
  {
    hide ActAll, Explained;
    QueueKnown(b, SenderOf(b), b.queue);
    StillExplained(b, ProcessMessages(b), ActAll(SenderOf(b), b.queue).bll);
    StillExplained(b, ProcessMessages(b), b.log.released);
  }

  /** Nothing that Known looks at is different, but for what is taken off. */
  lemma SameKnown(b: Bp, n: Bp)
    requires Known(b) && n.bll == b.bll && n.log == b.log
    requires n.queue == b.queue || n.queue == [] || Queues(b, n)
    requires n.frame == b.frame || n.frame == None
    ensures Known(n)
  {
    hide Explained;
    StillExplained(b, n, b.bll);
    StillExplained(b, n, b.log.released);
  }

  lemma EobKnown(b: Bp, e: Env)
    requires Known(b) && b.frame == Some(InEob) && b.minor != 0
    ensures Known(RxWait(b, e).0)
  {
    hide Known, ClearFilelist, PendingFiles;
    var m := b.(frame := None);
    SameKnown(b, m);
    var k := m.(batchnr := m.batchnr + 1, localEOB := false, remoteEOB := false, messages := 0, tx := TxGNF,
      rx := RxWaitF);
    SameKnown(m, k);
    ClearKnown(k);
  }

  lemma ReceiverKnown(b: Bp, e: Env)
    requires Known(b)
    ensures Known(Receiver(b, e).0)
  {
    hide Known;
    if b.rx == RxWaitF && b.frame == Some(InEob) && b.minor != 0 {
      hide RxWait;
      EobKnown(b, e);
    } else {
      hide Receiver;
      ReceiverLists(b, e);
      SameKnown(b, Receiver(b, e).0);
    }
  }

  lemma {:induction false} GoneListed(files: seq<Listed>, i: nat)
    requires i < |files| && files[i].gone
    ensures files[i].id in GoneIds(files)
  {
    var k := |files| - 1;
    if i < k {
      GoneListed(files[..k], i);
    }
  }

  lemma MakeListKnown(b: Bp, e: Env)
    requires Known(b)
    ensures Known(MakeList(b, e))
  {
    var n := MakeList(b, e);
    if !b.listed {
      var files := if b.batchnr < 20 then e.files else [];
      forall i | 0 <= i < |files|
        ensures Explained(n, NewEntries(files)[i])
      {
        if files[i].gone {
          GoneListed(files, i);
        }
      }
      hide Explained, NewEntries;
      StillExplained(b, n, b.bll);
      StillExplained(b, n, b.log.released);
      ExplainedBoth(n, b.bll, NewEntries(files));
    }
  }

  lemma SendNextKnown(b: Bp, e: Env)
    requires Known(b)
    ensures Known(SendNext(b, e).0)
  {
    hide Known, FirstNew;
    var (n, _) := SendNext(b, e);
    match FirstNew(b.bll)
    case None => SameKnown(b, n);
    case Some(i) =>
      match e.fopen {
        case Missing => EntryKnown(b, n, i, b.bll[i].(state := Got));
        case Unreadable => EntryKnown(b, n, i, b.bll[i].(state := Skipped));
        case Opens =>
          if e.sends {
            EntryKnown(b, n, i, b.bll[i].(state := Sending));
          } else {
            SameKnown(b, n);
          }
      }
  }

  lemma TxNextKnown(b: Bp, e: Env)
    requires Known(b)
    ensures Known(TxNext(b, e).0)
  {
    hide Known, SendNext, MakeList;
    var m := MakeList(b, e);
    MakeListKnown(b, e);
    SameKnown(m, Sent(m));
    SameKnown(m, Sent(m).(tx := TxDone));
    SendNextKnown(m, e);
    SendNextKnown(Sent(m), e);
  }

  lemma TxReadKnown(b: Bp, e: Env)
    requires Known(b) && b.cursend.Some? && b.cursend.value < |b.bll|
    ensures Known(TxRead(b, e).0)
  {
    hide Known;
    var (n, _) := TxRead(b, e);
    match e.fread
    case ReadError => EntryKnown(b, n, b.cursend.value, b.bll[b.cursend.value].(state := Skipped));
    case Block => SameKnown(b, n);
    case LastBlock =>
      if e.sends {
        EntryKnown(b, n, b.cursend.value, b.bll[b.cursend.value].(state := IsSent));
      } else {
        SameKnown(b, n);
      }
  }

  lemma TxWaitKnown(b: Bp)
    requires Known(b)
    ensures Known(TxWait(b).0)
  {
    hide Known, ProcessMessages, PendingFiles, ClearFilelist;
    var done := b.(tx := TxDone, rx := if b.localEOB && b.remoteEOB then RxDone else b.rx);
    var both := b.(rx := RxDone, tx := TxDone);
    var next := b.(batchnr := b.batchnr + 1, localEOB := false, remoteEOB := false, messages := 0, tx := TxGNF,
      rx := RxWaitF);
    SameKnown(b, done);
    SameKnown(b, both);
    SameKnown(b, next);
    ClearKnown(b);
    ClearKnown(done);
    ClearKnown(both);
    ClearKnown(next);
    MessagesKnown(b);
  }

  lemma TransmitterKnown(b: Bp, e: Env)
    requires Known(b) && CursendOk(b)
    ensures Known(Transmitter(b, e).0)
  {
    hide Known, TxNext, TxRead, TxWait, ProcessMessages;
    match b.tx
    case TxGNF => TxNextKnown(b, e);
    case TxTryR =>
      SameKnown(b, b.(tx := TxReadS));
      MessagesKnown(b);
    case TxReadS => TxReadKnown(b, e);
    case TxWLA => TxWaitKnown(b);
    case TxDone =>
  }

  lemma TakeFrameKnown(b: Bp, f: InFrame)
    requires Known(b)
    ensures Known(TakeFrame(b, f))
  {
    hide Explained;
    var n := TakeFrame(b, f);
    StillExplained(b, n, b.bll);
    StillExplained(b, n, b.log.released);
  }

  lemma SwitchKnown(b: Bp, e: Env)
    requires Known(b)
    ensures Known(SwitchStep(b, e))
  {
    hide Known, TakeFrame;
    if Polls(b) && e.poll.Frame? {
      TakeFrameKnown(b, e.poll.f);
    }
    if !(Polls(b) && e.poll.Frame?) || (b.rx == RxDone && b.tx == TxDone) {
      SameKnown(b, SwitchStep(b, e));
    }
  }

  lemma StepKnown(b: Bp, e: Env)
    requires Inv(b) && Known(b)
    ensures Known(Step(b, e))
  {
    hide Known, Receiver, Transmitter, SwitchStep, ClearFilelist;
    var n := Step(b, e);
    match b.ft
    case InitTransfer => SameKnown(b, n);
    case Switch => SwitchKnown(b, e);
    case Receive =>
      ReceiverKnown(b, e);
      SameKnown(Receiver(b, e).0, n);
    case Transmit =>
      TransmitterKnown(b, e);
      SameKnown(Transmitter(b, e).0, n);
    case DeinitTransfer =>
      ClearKnown(b);
      SameKnown(ClearFilelist(b), n);
    case Returned(_) =>
  }

  lemma {:induction false} RunKnown(b: Bp, es: seq<Env>)
    requires Inv(b) && Known(b)
    ensures Known(Run(b, es))
  {
    if es != [] {
      hide Known, Inv, Step;
      RunKnown(b, es[..|es| - 1]);
      RunInv(b, es[..|es| - 1]);
      StepKnown(Run(b, es[..|es| - 1]), es[|es| - 1]);
    }
  }

  /** An answer was heard only if a poll gave it. */
  lemma {:induction false} HeardPolled(minor: nat, es: seq<Env>, a: Answer)
    requires a in Run(Start(minor), es).log.heard
    ensures exists k :: 0 <= k < |es| && es[k].poll == Frame(InAnswer(a))
  {
    var n := |es| - 1;
    StepHeard(Run(Start(minor), es[..n]), es[n]);
    if es[n].poll != Frame(InAnswer(a)) {
      HeardPolled(minor, es[..n], a);
      var k :| 0 <= k < n && es[..n][k].poll == Frame(InAnswer(a));
      assert es[k].poll == Frame(InAnswer(a));
    }
  }

  /** Only a poll hears an answer, and only while no block failed to uncompress. */
  lemma StepHeard(b: Bp, e: Env)
    ensures Step(b, e).log.heard == b.log.heard
            || (e.poll.Frame? && e.poll.f.InAnswer? && !b.stuck
                && Step(b, e).log.heard == b.log.heard + [e.poll.f.answer])
    ensures b.stuck ==> Step(b, e).stuck
  {
    hide ReceiveStep, TransmitStep, SwitchStep, ClearFilelist;
    match b.ft
    case Receive => ReceiverHears(b, e);
    case Transmit => TransmitterHears(b, e);
    case DeinitTransfer => ClearHears(b);
    case InitTransfer =>
    case Switch => SwitchHears(b, e);
    case Returned(_) =>
  }

  lemma SwitchHears(b: Bp, e: Env)
    ensures SwitchStep(b, e).log.heard == b.log.heard
            || (e.poll.Frame? && e.poll.f.InAnswer? && !b.stuck
                && SwitchStep(b, e).log.heard == b.log.heard + [e.poll.f.answer])
    ensures b.stuck ==> SwitchStep(b, e).stuck
  {
    hide Idle, TakeFrame;
    IdleHears(b, e);
    IdleHears(b.(stuck := true), e);
    if e.poll.Frame? {
      FrameHears(b, e.poll.f);
    }
  }

  lemma IdleHears(b: Bp, e: Env)
    ensures SameHeard(b, Idle(b, e))
  {
  }

  lemma FrameHears(b: Bp, f: InFrame)
    ensures var n := TakeFrame(b, f);
            n.stuck == b.stuck && n.log.heard == b.log.heard + if f.InAnswer? then [f.answer] else []
  {
  }

  predicate SameHeard(b: Bp, n: Bp) {
    n.log.heard == b.log.heard && n.stuck == b.stuck
  }

  lemma ClearHears(b: Bp)
    ensures SameHeard(b, ClearFilelist(b))
  {
  }

  lemma ReceiverHears(b: Bp, e: Env)
    ensures SameHeard(b, Receiver(b, e).0) && SameHeard(b, ReceiveStep(b, e))
  {
    if b.rx == RxWaitF && b.frame == Some(InEob) && b.minor != 0 {
    } else {
      hide Receiver;
      ReceiverLists(b, e);
    }
  }

  lemma TransmitterHears(b: Bp, e: Env)
    ensures SameHeard(b, Transmitter(b, e).0) && SameHeard(b, TransmitStep(b, e))
  {
    hide ProcessMessages, TxNext, TxRead, TxWait;
    MessagesHear(b);
    match b.tx
    case TxGNF => NextHears(b, e);
    case TxReadS => ReadHears(b, e);
    case TxWLA => WaitHears(b);
    case TxTryR =>
    case TxDone =>
  }

  lemma MessagesHear(b: Bp)
    ensures SameHeard(b, ProcessMessages(b))
  {
    hide ActAll;
  }

  lemma NextHears(b: Bp, e: Env)
    ensures SameHeard(b, TxNext(b, e).0)
  {
    hide MakeList, SendNext;
    ListHears(b, e);
    SendHears(MakeList(b, e), e);
    SendHears(Sent(MakeList(b, e)), e);
  }

  lemma ListHears(b: Bp, e: Env)
    ensures SameHeard(b, MakeList(b, e))
  {
    hide Ids, NewEntries, GoneIds;
  }

  lemma SendHears(b: Bp, e: Env)
    ensures SameHeard(b, SendNext(b, e).0)
  {
    hide FirstNew, SetState;
  }

  lemma ReadHears(b: Bp, e: Env)
    ensures SameHeard(b, TxRead(b, e).0)
  {
  }

  lemma WaitHears(b: Bp)
    ensures SameHeard(b, TxWait(b).0)
  {
    hide ProcessMessages, PendingFiles;
    MessagesHear(b);
  }

  /** If file_transfer returns 0, in binkp/1.0 or 1.1 and whatever came in between: every file ever
      put on the list has left it, and each was Got or Skipped when its list was released.  Got is
      only what the remote named in an M_GOT, or in an M_GET from its end on, or what was not there
      any more; Skipped only what the remote named in an M_SKIP, or what could not be opened. */
  lemma TransferComplete(minor: nat, es: seq<Env>)
    requires Run(Start(minor), es).ft == Returned(0)
    ensures var b := Run(Start(minor), es);
            && b.log.created == Ids(b.log.released)
            && forall i :: 0 <= i < |b.log.released| ==>
                 Answered(b.log.released[i].state) && Explained(b, b.log.released[i])
  {
    assert Ids([]) == [];
    RunInv(Start(minor), es);
    RunKnown(Start(minor), es);
    hide Run;
    var b := Run(Start(minor), es);
    assert b.log.created == Ids(b.log.released) + [];
    assert forall i :: 0 <= i < |b.log.released| ==>
             Explained(b, b.log.released[i]) && Answered(b.log.released[i].state);
  }

  /** The NULL pointer is followed only when the remote asked for a file from its end. */
  lemma CrashNamed(minor: nat, es: seq<Env>)
    requires Run(Start(minor), es).log.crashed
    ensures exists a :: a in Run(Start(minor), es).log.heard && FromEnd(a)
  {
    assert Ids([]) == [];
    RunKnown(Start(minor), es);
  }
}
