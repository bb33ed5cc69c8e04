/** Which sessions can still succeed once a block did not uncompress, and which can still receive
    (file_transfer, mbcico/binkp.c). */
module BinkpOutcome {
  import opened Seqs
  import opened BinkpSession
  import opened BinkpStuck

  // ----- What acting on the queue settles -----

  /** No entry waits for an answer. */
  predicate NoneHeld(l: seq<Entry>) {
    forall i :: 0 <= i < |l| ==> l[i].state !in {Sending, IsSent}
  }

  /** The two differ only in entries that wait for nothing, and in which turn is next. */
  predicate Alike(s: Sender, n: Sender) {
    && Ids(s.bll) == Ids(n.bll) && Current(s) == Current(n) && (s.tx == TxGNF <==> n.tx == TxGNF)
    && |s.bll| == |n.bll|
    && forall i :: 0 <= i < |s.bll| ==>
         SameKind(s.bll[i].state, n.bll[i].state)
  }

  predicate SameKind(x: FileState, y: FileState) {
    x == y || (x !in {Sending, IsSent} && y !in {Sending, IsSent})
  }

  /** The same entry changed in both. */
  lemma AlikeEntry(s: Sender, n: Sender, s': Sender, n': Sender, i: nat, x: Entry, y: Entry)
    requires Alike(s, n) && i < |s.bll| && s'.bll == s.bll[i := x] && n'.bll == n.bll[i := y]
    requires x.id == s.bll[i].id && y.id == n.bll[i].id && SameKind(x.state, y.state)
    requires Current(s') == Current(n') && (s'.tx == TxGNF <==> n'.tx == TxGNF)
    ensures Alike(s', n')
  {
    hide Ids;
    IdsSet(s.bll, i, x);
    IdsSet(n.bll, i, y);
  }

  lemma AlikeSettle(s: Sender, n: Sender, i: nat, x: FileState)
    requires Alike(s, n) && i < |s.bll| && Answered(x)
    ensures Alike(Settle(s, i, x), Settle(n, i, x))
  {
    AlikeEntry(s, n, Settle(s, i, x), Settle(n, i, x), i, s.bll[i].(state := x), n.bll[i].(state := x));
  }

  lemma AlikeResend(s: Sender, n: Sender, i: nat, id: FileId, from: nat)
    requires Alike(s, n) && i < |s.bll|
    ensures Alike(Resend(s, i, id, from), Resend(n, i, id, from))
  {
    IdsAt(s.bll, n.bll);
    hide Alike, Ids;
    var s', n' := Resend(s, i, id, from), Resend(n, i, id, from);
    CurrentSame(s, n, i);
    if from == id.size {
      if IsCurrent(s, id) {
        var c := Current(s).value;
        AlikeEntry(s, n, s', n', c, s.bll[c].(state := Got), n.bll[c].(state := Got));
      } else if s.bll[i].state == IsSent {
        AlikeEntry(s, n, s', n', i, s.bll[i].(state := Got), n.bll[i].(state := Got));
      }
    } else if from < id.size {
      AlikeEntry(s, n, s', n', i, s.bll[i].(state := NoState, offset := from),
                 n.bll[i].(state := NoState, offset := from));
    }
  }

  lemma CurrentSame(s: Sender, n: Sender, i: nat)
    requires Alike(s, n) && i < |s.bll|
    ensures Current(s) == Current(n) && (s.bll[i].state == IsSent <==> n.bll[i].state == IsSent)
    ensures s.tx == TxGNF <==> n.tx == TxGNF
  {
  }

  lemma AlikeAct(s: Sender, n: Sender, a: Answer)
    requires Alike(s, n)
    ensures Alike(Act(s, a), Act(n, a))
  {
    hide FindEntry, Ids, Resend, Settle, Alike;
    assert Ids(s.bll) == Ids(n.bll) by { AlikeIds(s, n); }
    FindSame(s.bll, n.bll, a.id);
    var f := FindEntry(s.bll, a.id);
    if f.Some? {
      match a
      case MGet(id, from) => AlikeResend(s, n, f.value, id, from);
      case MGot(_) => AlikeSettle(s, n, f.value, Got);
      case MSkip(_) => AlikeSettle(s, n, f.value, Skipped);
    }
  }

  lemma AlikeIds(s: Sender, n: Sender)
    requires Alike(s, n)
    ensures Ids(s.bll) == Ids(n.bll)
  {
  }

  lemma {:induction false} AlikeAll(s: Sender, n: Sender, q: seq<Answer>)
    requires Alike(s, n)
    ensures Alike(ActAll(s, q), ActAll(n, q))
  {
    if q != [] {
      hide Act, Alike;
      AlikeAll(s, n, q[..|q| - 1]);
      AlikeAct(ActAll(s, q[..|q| - 1]), ActAll(n, q[..|q| - 1]), q[|q| - 1]);
    }
  }

  lemma AlikeHeld(s: Sender, n: Sender)
    requires Alike(s, n)
    ensures NoneHeld(s.bll) <==> NoneHeld(n.bll)
    ensures s.tx == TxGNF <==> n.tx == TxGNF
  {
  }

  lemma {:induction false} NoEntries(s: Sender, q: seq<Answer>)
    requires s.bll == []
    ensures ActAll(s, q) == s
  {
    if q != [] {
      NoEntries(s, q[..|q| - 1]);
    }
  }

  /** An entry that waits has waited before. */
  lemma {:induction false} HeldBefore(s: Sender, a: Answer, i: nat)
    requires i < |Act(s, a).bll| && Act(s, a).bll[i].state in {Sending, IsSent}
    ensures i < |s.bll| && s.bll[i] == Act(s, a).bll[i]
  {
    hide FindEntry;
  }

  // ----- Opening one more file before the queue is acted on -----

  /** The entry x is opened. */
  function OpenedAt(s: Sender, x: nat): Sender
    requires x < |s.bll|
  {
    Sender(SetState(s.bll, x, Sending), Some(x), TxTryR, s.crashed)
  }

  predicate First(l: seq<Entry>, i: nat)
    requires i < |l|
  {
    FindEntry(l, l[i].id) == Some(i)
  }

  /** Entry k is Sending for good: neither the current one nor the first of its name. */
  predicate Lost(n: Sender, k: nat) {
    k < |n.bll| && n.bll[k].state == Sending && !First(n.bll, k) && Current(n) != Some(k)
  }

  /** s without, and n with the file opened, while entry h waits in s: it waits in n too, or there
      is a lost entry. */
  predicate Opened(s: Sender, n: Sender, h: nat) {
    && Ids(s.bll) == Ids(n.bll) && |s.bll| == |n.bll|
    && (Current(s).Some? && !First(s.bll, Current(s).value) ==> Lost(n, Current(s).value))
    && h < |s.bll| && s.bll[h].state in {Sending, IsSent}
    && ((n.bll[h].state == s.bll[h].state && Current(n) != Some(h)) || exists k :: 0 <= k < |n.bll| && Lost(n, k))
  }

  lemma FirstSame(l: seq<Entry>, m: seq<Entry>, i: nat)
    requires Ids(l) == Ids(m) && i < |l|
    ensures i < |m| && m[i].id == l[i].id && (First(l, i) <==> First(m, i))
  {
    IdsAt(l, m);
    FindSame(l, m, l[i].id);
  }

  lemma LostStays(n: Sender, a: Answer, k: nat)
    requires Lost(n, k)
    ensures Lost(Act(n, a), k)
  {
    hide Ids, FindEntry;
    ActProgress(n, a);
    FirstSame(n.bll, Act(n, a).bll, k);
  }

  lemma CurrentAfter(s: Sender, a: Answer)
    ensures Current(Act(s, a)) in {Current(s), None}
  {
    hide FindEntry;
  }

  /** One answer, acted on without and with the file opened. */
  lemma OpenedAct(s: Sender, n: Sender, h: nat, a: Answer)
    requires Opened(s, n, h) && h < |Act(s, a).bll| && Act(s, a).bll[h].state in {Sending, IsSent}
    ensures Opened(Act(s, a), Act(n, a), h)
  {
    hide Ids, FindEntry, Act, Lost, First;
    var s', n' := Act(s, a), Act(n, a);
    ActProgress(s, a);
    ActProgress(n, a);
    IdsAt(s.bll, s'.bll);
    IdsAt(n.bll, n'.bll);
    HeldBefore(s, a, h);
    CurrentAfter(s, a);
    if Current(s').Some? && !First(s'.bll, Current(s').value) {
      FirstSame(s.bll, s'.bll, Current(s').value);
      LostStays(n, a, Current(s').value);
    }
    if k :| 0 <= k < |n.bll| && Lost(n, k) {
      LostStays(n, a, k);
    } else {
      OpenedEntry(s, n, h, a);
    }
  }

  lemma OpenedEntry(s: Sender, n: Sender, h: nat, a: Answer)
    requires Opened(s, n, h) && n.bll[h].state == s.bll[h].state && Current(n) != Some(h)
    requires forall k :: 0 <= k < |n.bll| ==> !Lost(n, k)
    requires h < |Act(s, a).bll| && Act(s, a).bll[h] == s.bll[h]
    ensures var n' := Act(n, a); h < |n'.bll| && n'.bll[h] == n.bll[h] && Current(n') != Some(h)
  {
    hide Ids, FindEntry, Lost;
    FindSame(s.bll, n.bll, a.id);
    IdsAt(s.bll, n.bll);
  }

  /** What waits after the queue without the file opened waits with it opened, or something does. */
  lemma {:induction false} OpenedAll(s: Sender, n: Sender, h: nat, q: seq<Answer>)
    requires h < |ActAll(s, q).bll| && ActAll(s, q).bll[h].state in {Sending, IsSent}
    requires h < |s.bll| && s.bll[h].state in {Sending, IsSent} ==> Opened(s, n, h)
    ensures Opened(ActAll(s, q), ActAll(n, q), h)
  {
    if q != [] {
      hide Act, Opened;
      var before := ActAll(s, q[..|q| - 1]);
      HeldBefore(before, q[|q| - 1], h);
      OpenedAll(s, n, h, q[..|q| - 1]);
      OpenedAct(before, ActAll(n, q[..|q| - 1]), h, q[|q| - 1]);
    }
  }

  lemma OpenedStart(s: Sender, x: nat, h: nat, tx: TxState)
    requires CurrentKept(s) && x < |s.bll| && s.bll[x].state == NoState
    requires h < |s.bll| && s.bll[h].state in {Sending, IsSent}
    ensures Opened(s.(tx := tx), OpenedAt(s, x), h)
  {
    hide Ids, FindEntry;
    var n := OpenedAt(s, x);
    IdsSet(s.bll, x, s.bll[x].(state := Sending));
    if Current(s).Some? && !First(s.bll, Current(s).value) {
      FirstSame(s.bll, n.bll, Current(s).value);
    }
  }

  /** Opening one more file settles nothing that would otherwise wait. */
  lemma OpeningHelpsNot(s: Sender, x: nat, q: seq<Answer>, tx: TxState)
    requires CurrentKept(s) && x < |s.bll| && s.bll[x].state == NoState
    requires NoneHeld(ActAll(OpenedAt(s, x), q).bll)
    ensures NoneHeld(ActAll(s.(tx := tx), q).bll)
  {
    hide CurrentKept, Act, Ids, FindEntry;
    var s0, n := s.(tx := tx), OpenedAt(s, x);
    forall h | 0 <= h < |ActAll(s0, q).bll| && ActAll(s0, q).bll[h].state in {Sending, IsSent}
      ensures false
    {
      if h < |s.bll| && s.bll[h].state in {Sending, IsSent} {
        OpenedStart(s, x, h, tx);
      }
      OpenedAll(s0, n, h, q);
      OpenedHeld(ActAll(s0, q), ActAll(n, q), h);
    }
  }

  lemma OpenedHeld(s: Sender, n: Sender, h: nat)
    requires Opened(s, n, h)
    ensures !NoneHeld(n.bll)
  {
    hide FindEntry, Ids;
    if n.bll[h].state != s.bll[h].state || Current(n) == Some(h) {
      var k :| 0 <= k < |n.bll| && Lost(n, k);
      assert n.bll[k].state == Sending;
    }
  }

  // ----- Which stuck sessions can still return 0 -----

  /** binkp/1.1 ends the session only after a batch with fewer than three messages. */
  predicate Few(b: Bp, more: nat) {
    b.minor == 0 || b.messages + more < 3
  }

  /** The M_EOB to send when acting on the queue took the transmitter back to the list. */
  function Again(s: Sender): nat {
    if s.tx == TxGNF then 1 else 0
  }

  /** What acting on the queue gives in that state of the transmitter. */
  function Asked(b: Bp, tx: TxState): Sender {
    ActAll(SenderOf(b).(tx := tx), b.queue)
  }

  predicate Settles(b: Bp, tx: TxState, more: nat) {
    NoneHeld(Asked(b, tx).bll) && Few(b, more + Again(Asked(b, tx)))
  }

  /** The last block of the current file was sent. */
  function LastSent(b: Bp): Bp
    requires Current(SenderOf(b)).Some?
  {
    b.(bll := SetState(b.bll, b.cursend.value, IsSent), cursend := None, tx := TxGNF)
  }

  /** The messages still to send once the list is through: M_EOB, and for a first list M_NUL. */
  function ToSend(b: Bp): nat {
    if !b.listed && b.batchnr == 0 then 2 else 1
  }

  /** The queue answers every file that needs it, within the messages allowed. */
  predicate CanSettle(b: Bp) {
    match b.tx
    case TxDone => true
    case TxWLA => Settles(b, TxWLA, 0)
    case TxGNF => Settles(b, TxWLA, ToSend(b))
    case TxTryR => Settles(b, TxTryR, 0)
    case TxReadS => Settles(b, TxTryR, 0) || (Current(SenderOf(b)).Some? && Settles(LastSent(b), TxWLA, 1))
  }

  /** The remote has said all it needs to: in binkp/1.0 the receiver is past its M_EOB, in 1.1 the
      M_EOB of this batch is in. */
  predicate RemoteDone(b: Bp) {
    if b.minor == 0 then b.rx == RxEOB else b.remoteEOB
  }

  predicate CanReturn0(b: Bp) {
    match b.ft
    case Returned(code) => code == 0
    case DeinitTransfer => b.rc == 0
    case _ => b.tx == TxDone || (RemoteDone(b) && CanSettle(b))
  }

  lemma SameAsked(b: Bp, n: Bp, tx: TxState)
    requires n.bll == b.bll && n.cursend == b.cursend && n.log.crashed == b.log.crashed && n.queue == b.queue
    ensures Asked(b, tx) == Asked(n, tx)
  {
  }

  lemma AskedNothing(b: Bp, tx: TxState)
    requires b.queue == [] || b.bll == []
    ensures Asked(b, tx) == SenderOf(b).(tx := tx)
  {
    if b.queue != [] {
      NoEntries(SenderOf(b).(tx := tx), b.queue);
    }
  }

  /** After the queue was acted on there is nothing left to ask. */
  lemma AskedAfter(b: Bp, tx: TxState)
    ensures var n := ProcessMessages(b);
            && n.bll == Asked(b, b.tx).bll && n.tx == Asked(b, b.tx).tx && n.queue == []
            && Asked(n, tx).bll == n.bll && Asked(n, tx).tx == tx
            && n.minor == b.minor && n.messages == b.messages && n.rx == b.rx && n.remoteEOB == b.remoteEOB
            && n.ft == b.ft && n.listed == b.listed && n.batchnr == b.batchnr && n.localEOB == b.localEOB
            && n.stuck == b.stuck && n.rc == b.rc
  {
    hide ActAll;
    assert SenderOf(b).(tx := b.tx) == SenderOf(b);
    AskedNothing(ProcessMessages(b), tx);
  }

  /** Settling an entry not yet sent changes nothing for the others. */
  lemma SettledAlike(b: Bp, n: Bp, i: nat, x: FileState, tx: TxState, more: nat)
    requires i < |b.bll| && b.bll[i].state == NoState && Answered(x) && n.bll == SetState(b.bll, i, x)
    requires n.cursend == b.cursend && n.queue == b.queue && n.minor == b.minor && n.messages == b.messages
    ensures Settles(b, tx, more) <==> Settles(n, tx, more)
  {
    hide ActAll, Ids;
    var s, m := SenderOf(b).(tx := tx), SenderOf(n).(tx := tx);
    IdsSet(b.bll, i, b.bll[i].(state := x));
    assert Alike(s, m);
    AlikeAll(s, m, b.queue);
    AlikeHeld(Asked(b, tx), Asked(n, tx));
  }

  /** When the current file is settled the transmitter goes back to the list. */
  lemma TryGoesBack(b: Bp)
    requires CursendOk(b.(tx := TxTryR)) && NoneHeld(Asked(b, TxTryR).bll)
    ensures Asked(b, TxTryR).tx == TxGNF
  {
    hide ActAll, Ids;
    ProcessProgress(SenderOf(b).(tx := TxTryR), b.queue);
  }

  // ----- No step makes it possible again -----

  lemma OpenBack(b: Bp, n: Bp, i: nat)
    requires TxTidy(b) && b.tx == TxGNF && b.listed && i < |b.bll| && b.bll[i].state == NoState
    requires n == Sent(b).(bll := SetState(b.bll, i, Sending), cursend := Some(i), tx := TxTryR) && CanSettle(n)
    ensures CanSettle(b)
  {
    hide ActAll, CurrentKept, NoneHeld;
    SetStateSize(b.bll, i, Sending);
    TryGoesBack(n);
    assert SenderOf(n).(tx := TxTryR) == OpenedAt(SenderOf(b), i);
    OpeningHelpsNot(SenderOf(b), i, b.queue, TxWLA);
  }

  lemma SendBack(b: Bp, e: Env)
    requires TxTidy(b) && b.tx == TxGNF && b.listed && SendNext(b, e).1 != Failure && CanSettle(SendNext(b, e).0)
    ensures CanSettle(b)
  {
    hide FirstNew, Settles, SetState, TxTidy;
    var n := SendNext(b, e).0;
    match FirstNew(b.bll)
    case None => EobBack(b, n);
    case Some(i) =>
      match e.fopen {
        case Missing => SettledAlike(b, n, i, Got, TxWLA, 1);
        case Unreadable => SettledAlike(b, n, i, Skipped, TxWLA, 1);
        case Opens => OpenBack(b, n, i);
      }
  }

  lemma EobBack(b: Bp, n: Bp)
    requires b.tx == TxGNF && b.listed && n == Sent(b).(localEOB := true, tx := TxWLA)
    ensures CanSettle(n) <==> CanSettle(b)
  {
    hide ActAll, NoneHeld;
    SameAsked(b, n, TxWLA);
  }

  /** Without a list there is nothing to settle, only messages to count. */
  lemma NoListSettles(b: Bp)
    requires b.bll == [] && b.tx == TxGNF
    ensures CanSettle(b) <==> Few(b, ToSend(b))
  {
    hide ActAll;
    AskedNothing(b, TxWLA);
  }

  lemma SettleFew(b: Bp)
    requires b.tx in {TxWLA, TxTryR, TxGNF} && CanSettle(b)
    ensures Few(b, if b.tx == TxGNF then 1 else 0)
  {
    hide ActAll, NoneHeld;
  }

  lemma NoListBack(b: Bp, e: Env)
    requires b.bll == [] && !b.listed && b.tx == TxGNF && TxNext(b, e).1 != Failure && CanSettle(TxNext(b, e).0)
    ensures CanSettle(b)
  {
    hide FirstNew, CanSettle, Few, SetState, NewEntries, GoneIds, Ids;
    var n := TxNext(b, e).0;
    NoListSettles(b);
    NextCounts(b, e);
    SettleFew(n);
    FewLess(n, if n.tx == TxGNF then 1 else 0, b, ToSend(b));
  }

  /** What a turn counts, at least, on the way from no list. */
  predicate Counts(n: Bp, minor: nat, least: nat) {
    && n.minor == minor && n.tx in {TxGNF, TxWLA, TxTryR}
    && n.messages + (if n.tx == TxGNF then 1 else 0) >= least
  }

  lemma SendCounts(b: Bp, e: Env)
    requires b.tx == TxGNF && SendNext(b, e).1 != Failure
    ensures Counts(SendNext(b, e).0, b.minor, b.messages + 1)
  {
    hide FirstNew, SetState;
  }

  lemma ListCounts(b: Bp, e: Env)
    ensures var n := MakeList(b, e); n.minor == b.minor && n.messages == b.messages && n.tx == b.tx
  {
    hide NewEntries, GoneIds, Ids;
  }

  lemma NextCounts(b: Bp, e: Env)
    requires !b.listed && b.tx == TxGNF && TxNext(b, e).1 != Failure
    ensures Counts(TxNext(b, e).0, b.minor, b.messages + ToSend(b))
  {
    hide MakeList, SendNext;
    ListCounts(b, e);
    var m := MakeList(b, e);
    if Announces(b, e) {
      SendCounts(Sent(m), e);
    } else {
      SendCounts(m, e);
    }
  }

  lemma FewLess(n: Bp, more: nat, b: Bp, more': nat)
    requires Few(n, more) && n.minor == b.minor && n.messages + more >= b.messages + more'
    ensures Few(b, more')
  {
  }

  lemma TryBack(b: Bp)
    requires Base(b) && b.tx == TxTryR && CanSettle(TxTry(b).0)
    ensures CanSettle(b)
  {
    hide ActAll, Ids, ProcessMessages, Settles;
    if b.queue == [] {
      SettlesSame(b, b.(tx := TxReadS), TxTryR, 0);
      LastWaits(b.(tx := TxReadS));
    } else {
      ProcessesOk(b);
      AskedBack(b);
    }
  }

  /** Acting on the queue now, from a file being sent or from the end of the list. */
  lemma AskedBack(b: Bp)
    requires Base(b) && CursendOk(ProcessMessages(b)) && b.tx in {TxTryR, TxWLA} && CanSettle(ProcessMessages(b))
    ensures CanSettle(b)
  {
    hide ActAll, Ids, ProcessMessages, NoneHeld, Asked;
    var n := ProcessMessages(b);
    AskedAfter(b, TxTryR);
    AskedAfter(b, TxWLA);
    MessagesTx(b);
    if n.tx == TxTryR {
      CurrentHeld(n);
    }
  }

  lemma MessagesTx(b: Bp)
    ensures ProcessMessages(b).tx in {b.tx, TxGNF}
  {
    hide ActAll, Ids;
    ProcessProgress(SenderOf(b), b.queue);
  }

  lemma ProcessesOk(b: Bp)
    requires CursendOk(b)
    ensures CursendOk(ProcessMessages(b))
  {
    hide ActAll, Ids;
    ProcessProgress(SenderOf(b), b.queue);
  }

  lemma CurrentHeld(b: Bp)
    requires CursendOk(b) && b.tx in {TxTryR, TxReadS}
    ensures !NoneHeld(b.bll)
  {
  }

  /** With nothing on the queue the current file will wait. */
  lemma LastWaits(b: Bp)
    requires b.queue == [] && Current(SenderOf(b)).Some?
    ensures !Settles(LastSent(b), TxWLA, 1)
  {
    AskedNothing(LastSent(b), TxWLA);
    assert LastSent(b).bll[b.cursend.value].state == IsSent;
  }

  lemma ReadBack(b: Bp, e: Env)
    requires Base(b) && b.tx == TxReadS && TxRead(b, e).1 != Failure && CanSettle(TxRead(b, e).0)
    ensures CanSettle(b)
  {
    hide Settles, SetState, Ids;
    SettlesSame(b, b.(tx := TxTryR), TxTryR, 0);
  }

  lemma SettlesSame(b: Bp, n: Bp, tx: TxState, more: nat)
    requires n.bll == b.bll && n.cursend == b.cursend && n.log.crashed == b.log.crashed && n.queue == b.queue
    requires n.minor == b.minor && n.messages == b.messages
    ensures Settles(b, tx, more) <==> Settles(n, tx, more)
  {
    hide ActAll, NoneHeld;
    SameAsked(b, n, tx);
  }

  lemma WaitBack(b: Bp)
    requires Base(b) && Tidy(b) && Live(b) && b.tx == TxWLA
    requires var n := TxWait(b).0; n.tx == TxDone || (RemoteDone(n) && CanSettle(n))
    ensures RemoteDone(b) && CanSettle(b)
  {
    hide ActAll, Ids, ProcessMessages, PendingFiles, Settles;
    NonePending(b.bll);
    if b.queue != [] {
      AskedAfter(b, TxWLA);
      MessagesTx(b);
      ProcessesOk(b);
      AskedBack(b);
    } else if PendingFiles(b.bll) == 0 {
      SettlesEmpty(b);
    }
  }

  /** All answered and nothing on the queue. */
  lemma SettlesEmpty(b: Bp)
    requires b.queue == []
    ensures Settles(b, TxWLA, 0) <==> NoneHeld(b.bll) && Few(b, 0)
    ensures AllAnswered(b.bll) ==> NoneHeld(b.bll)
  {
    hide ActAll;
    AskedNothing(b, TxWLA);
  }

  /** The receiver's part of a state, which no turn of the transmitter but the last changes. */
  predicate SameRemote(b: Bp, n: Bp) {
    n.rx == b.rx && n.minor == b.minor && n.remoteEOB == b.remoteEOB
  }

  lemma RemoteSame(b: Bp, e: Env)
    requires b.tx in {TxGNF, TxTryR, TxReadS}
    ensures SameRemote(b, Transmitter(b, e).0)
  {
    hide TxNext, TxRead, ProcessMessages;
    match b.tx
    case TxGNF => RemoteNext(b, e);
    case TxTryR => RemoteMessages(b);
    case TxReadS => RemoteRead(b, e);
  }

  lemma RemoteMessages(b: Bp)
    ensures SameRemote(b, ProcessMessages(b))
  {
  }

  lemma RemoteRead(b: Bp, e: Env)
    ensures SameRemote(b, TxRead(b, e).0)
  {
  }

  lemma RemoteNext(b: Bp, e: Env)
    ensures SameRemote(b, TxNext(b, e).0)
  {
    hide MakeList, SendNext;
    RemoteList(b, e);
    RemoteSend(MakeList(b, e), e);
    RemoteSend(Sent(MakeList(b, e)), e);
  }

  lemma RemoteList(b: Bp, e: Env)
    ensures SameRemote(b, MakeList(b, e))
  {
    hide NewEntries, GoneIds, Ids;
  }

  lemma RemoteSend(b: Bp, e: Env)
    ensures SameRemote(b, SendNext(b, e).0)
  {
    hide FirstNew, SetState;
  }

  lemma TransmitterBack(b: Bp, e: Env)
    requires Inv(b) && Tidy(b) && b.ft == Transmit && Transmitter(b, e).1 != Failure && b.tx != TxDone
    requires var n := Transmitter(b, e).0; n.tx == TxDone || (RemoteDone(n) && CanSettle(n))
    ensures RemoteDone(b) && CanSettle(b)
  {
    hide TxNext, TxTry, TxRead, TxWait, CanSettle, TxTidy, CursendOk, Ids;
    if b.tx == TxWLA {
      WaitBack(b);
    } else {
      RemoteSame(b, e);
      NotDone(b, e);
      match b.tx
      case TxGNF => NextBack(b, e);
      case TxTryR => TryBack(b);
      case TxReadS => ReadBack(b, e);
    }
  }

  lemma NotDone(b: Bp, e: Env)
    requires b.tx in {TxGNF, TxTryR, TxReadS} && Transmitter(b, e).1 != Failure
    ensures Transmitter(b, e).0.tx != TxDone
  {
    hide TxNext, TxRead, ProcessMessages;
    match b.tx
    case TxGNF => NextNotDone(b, e);
    case TxTryR => MessagesTx(b);
    case TxReadS => ReadNotDone(b, e);
  }

  lemma NextNotDone(b: Bp, e: Env)
    requires b.tx == TxGNF && TxNext(b, e).1 != Failure
    ensures TxNext(b, e).0.tx != TxDone
  {
    hide MakeList, FirstNew, SetState;
    ListCounts(b, e);
  }

  lemma ReadNotDone(b: Bp, e: Env)
    requires b.tx == TxReadS && TxRead(b, e).1 != Failure
    ensures TxRead(b, e).0.tx != TxDone
  {
  }

  lemma NextBack(b: Bp, e: Env)
    requires Base(b) && TxTidy(b) && b.tx == TxGNF && TxNext(b, e).1 != Failure && CanSettle(TxNext(b, e).0)
    ensures CanSettle(b)
  {
    hide CanSettle, TxTidy, SendNext, Ids;
    if b.listed {
      SendBack(b, e);
    } else {
      NoListBack(b, e);
    }
  }

  lemma TransmitBack(b: Bp, e: Env)
    requires Inv(b) && Tidy(b) && b.ft == Transmit && CanReturn0(TransmitStep(b, e))
    ensures CanReturn0(b)
  {
    hide Transmitter, CanSettle, Ids, TxTidy;
    var (n, t) := Transmitter(b, e);
    TransmitterInv(b, e);
    if b.tx != TxDone {
      FtSettles(n, Switch);
      if t != Failure { TransmitterBack(b, e); }
    }
  }

  lemma FtSettles(b: Bp, ft: FtState)
    ensures CanSettle(b) <==> CanSettle(b.(ft := ft))
  {
    hide ActAll, NoneHeld;
    var n := b.(ft := ft);
    SettlesSame(b, n, TxWLA, 0);
    SettlesSame(b, n, TxWLA, ToSend(b));
    SettlesSame(b, n, TxTryR, 0);
    if Current(SenderOf(b)).Some? {
      SettlesSame(LastSent(b), LastSent(n), TxWLA, 1);
    }
  }

  lemma SwitchBack(b: Bp, e: Env)
    requires Inv(b) && Tidy(b) && b.ft == Switch && b.stuck && CanReturn0(SwitchStep(b, e))
    ensures CanReturn0(b)
  {
    hide CanSettle, Ids, TxTidy;
    FtSettles(b, Transmit);
  }

  lemma StepBack(b: Bp, e: Env)
    requires Inv(b) && Tidy(b) && b.stuck && CanReturn0(Step(b, e))
    ensures CanReturn0(b)
  {
    hide CanSettle, Ids, TxTidy, TransmitStep, SwitchStep, ReceiveStep;
    match b.ft
    case Transmit => TransmitBack(b, e);
    case Switch => SwitchBack(b, e);
    case InitTransfer =>
    case Receive =>
    case DeinitTransfer =>
    case Returned(_) =>
  }

  // ----- And when it is possible there is a way -----

  /** How far it is to the end of the list. */
  function NewLeft(l: seq<Entry>): nat {
    match FirstNew(l)
    case None => 0
    case Some(i) => |l| - i
  }

  lemma {:induction false} NewLess(l: seq<Entry>, x: FileState)
    requires FirstNew(l).Some? && x != NoState
    ensures NewLeft(SetState(l, FirstNew(l).value, x)) < NewLeft(l)
  {
    var i := FirstNew(l).value;
    var m := SetState(l, i, x);
    if l[0].state == NoState {
      assert m[0].state == x;
    } else {
      NewLess(l[1..], x);
      assert m[1..] == SetState(l[1..], i - 1, x);
    }
  }

  function TxRank(tx: TxState): nat {
    match tx
    case TxDone => 0
    case TxWLA => 1
    case TxGNF => 2
    case TxTryR => 3
    case TxReadS => 4
  }

  function FtRank(b: Bp): nat {
    match b.ft
    case Returned(_) => 0
    case DeinitTransfer => 1
    case Transmit => if b.tx == TxDone then 3 else 2
    case _ => if b.tx == TxDone then 2 else 3
  }

  /** n is nearer to the end than b. */
  predicate Nearer(n: Bp, b: Bp) {
    if |n.queue| != |b.queue| then |n.queue| < |b.queue|
    else if n.tx != b.tx then TxRank(n.tx) < TxRank(b.tx)
    else NewLeft(n.bll) < NewLeft(b.bll) || (n.bll == b.bll && FtRank(n) < FtRank(b))
  }

  /** Files are gone, sends succeed, nothing more is to be listed, and there is room. */
  const EASY: Env :=
    Env(Nothing, true, false, true, Receives, More, [], false, false, Missing, Block)

  /** What the outside world does in that state to let the session end. */
  function Helps(b: Bp): Env {
    if b.tx == TxReadS && !Settles(b, TxTryR, 0) then EASY.(fread := LastBlock) else EASY
  }

  /** What has to be shown of one step: it is still possible, and nearer. */
  predicate GoesOn(b: Bp, n: Bp) {
    CanReturn0(n) && Nearer(n, b)
  }

  lemma SendOn(b: Bp)
    requires b.tx == TxGNF && b.ft == Transmit && b.listed && RemoteDone(b) && CanSettle(b)
    ensures var (n, t) := SendNext(b, EASY);
            if t == Ok then GoesOn(b, n.(ft := Switch)) else t == Continue && GoesOn(b, n)
  {
    hide FirstNew, Settles, SetState, NewLeft;
    var n := SendNext(b, EASY).0;
    match FirstNew(b.bll)
    case None => EobBack(b, n);
    case Some(i) =>
      SettledAlike(b, n, i, Got, TxWLA, 1);
      FtSettles(n, Switch);
      NewLess(b.bll, Got);
  }

  lemma NoListOn(b: Bp)
    requires b.tx == TxGNF && b.ft == Transmit && !b.listed && b.bll == [] && RemoteDone(b) && CanSettle(b)
    ensures var (n, t) := TxNext(b, EASY); t == Continue && GoesOn(b, n)
  {
    hide NewLeft, CanSettle;
    NoListSettles(b);
    var n := TxNext(b, EASY).0;
    EmptyList(b);
    WlaSettles(n);
  }

  lemma EmptyList(b: Bp)
    requires b.tx == TxGNF && b.ft == Transmit && !b.listed && b.bll == []
    ensures var (n, t) := TxNext(b, EASY);
            && t == Continue && n.tx == TxWLA && n.bll == [] && n.queue == b.queue
            && n.messages == b.messages + ToSend(b)
            && n.minor == b.minor && n.rx == b.rx && n.remoteEOB == b.remoteEOB && n.ft == b.ft
  {
    assert NewEntries([]) == [];
  }

  lemma WlaSettles(b: Bp)
    requires b.tx == TxWLA && b.bll == []
    ensures CanSettle(b) <==> Few(b, 0)
  {
    hide ActAll;
    AskedNothing(b, TxWLA);
  }

  lemma TryOn(b: Bp)
    requires Base(b) && b.tx == TxTryR && b.ft == Transmit && RemoteDone(b) && CanSettle(b)
    ensures var (n, t) := TxTry(b); t == Continue && GoesOn(b, n)
  {
    hide ActAll, Ids, ProcessMessages, NewLeft;
    if b.queue == [] {
      AskedNothing(b, TxTryR);
      CurrentHeld(b);
    } else {
      TryGoesBack(b);
      AskedOn(b);
    }
  }

  /** Acting on the queue keeps it possible. */
  lemma AskedOn(b: Bp)
    requires Base(b) && Live(b) && b.tx in {TxTryR, TxWLA} && b.queue != [] && RemoteDone(b) && Settles(b, b.tx, 0)
    requires b.tx == TxTryR ==> Asked(b, b.tx).tx == TxGNF
    ensures CanReturn0(ProcessMessages(b))
    ensures Nearer(ProcessMessages(b), b)
  {
    hide ActAll, Ids, ProcessMessages, NoneHeld, Asked, NewLeft;
    AskedAfter(b, TxWLA);
    MessagesTx(b);
    if b.bll == [] {
      AskedNothing(b, b.tx);
    }
  }

  lemma ReadOn(b: Bp)
    requires Base(b) && b.tx == TxReadS && b.ft == Transmit && RemoteDone(b) && CanSettle(b)
    ensures var (n, t) := TxRead(b, Helps(b)); t == Ok && GoesOn(b, n.(ft := Switch))
  {
    hide Settles, SetState, Ids, NewLeft;
    var n := TxRead(b, Helps(b)).0;
    if Settles(b, TxTryR, 0) {
      SettlesSame(b, n, TxTryR, 0);
    } else {
      assert n == LastSent(b);
    }
    FtSettles(n, Switch);
  }

  lemma WaitOn(b: Bp)
    requires Base(b) && Tidy(b) && b.tx == TxWLA && b.ft == Transmit && RemoteDone(b) && CanSettle(b)
    ensures var (n, t) := TxWait(b); if t == Ok then GoesOn(b, n.(ft := Switch)) else t == Continue && GoesOn(b, n)
  {
    hide ActAll, Ids, ProcessMessages, Settles, NewLeft, PendingFiles;
    if b.queue != [] {
      AskedOn(b);
    } else {
      SettlesEmpty(b);
      NonePending(b.bll);
    }
  }

  lemma TransmitOn(b: Bp)
    requires Inv(b) && Tidy(b) && b.ft == Transmit && CanReturn0(b)
    ensures GoesOn(b, TransmitStep(b, Helps(b)))
  {
    hide TxNext, TxTry, TxRead, TxWait, CanSettle, NewLeft, Ids, TxTidy;
    match b.tx
    case TxGNF => NextOn(b);
    case TxTryR => TryOn(b);
    case TxReadS => ReadOn(b);
    case TxWLA => WaitOn(b);
    case TxDone =>
  }

  lemma NextOn(b: Bp)
    requires Base(b) && b.tx == TxGNF && b.ft == Transmit && RemoteDone(b) && CanSettle(b)
    ensures var (n, t) := TxNext(b, EASY);
            if t == Ok then GoesOn(b, n.(ft := Switch)) else t == Continue && GoesOn(b, n)
  {
    hide CanSettle, NewLeft, SendNext, Ids, GoesOn;
    if b.listed {
      SendOn(b);
    } else {
      NoListOn(b);
    }
  }

  lemma SwitchOn(b: Bp)
    requires Inv(b) && Tidy(b) && b.ft == Switch && b.stuck && CanReturn0(b)
    ensures GoesOn(b, SwitchStep(b, Helps(b)))
  {
    hide CanSettle, Ids, TxTidy, NewLeft, Settles;
    FtSettles(b, Transmit);
  }

  lemma StepOn(b: Bp)
    requires Inv(b) && Tidy(b) && b.stuck && CanReturn0(b) && !b.ft.Returned?
    ensures GoesOn(b, Step(b, Helps(b)))
  {
    hide CanSettle, Ids, TxTidy, TransmitStep, SwitchStep, ReceiveStep, Helps;
    match b.ft
    case Transmit => TransmitOn(b);
    case Switch => SwitchOn(b);
    case DeinitTransfer =>
    case InitTransfer =>
    case Receive =>
  }

  lemma {:induction false} WayOut(b: Bp) returns (more: seq<Env>)
    requires Inv(b) && Tidy(b) && b.stuck && CanReturn0(b)
    ensures Run(b, more).ft == Returned(0)
    decreases |b.queue|, TxRank(b.tx), NewLeft(b.bll), FtRank(b)
  {
    if b.ft.Returned? {
      more := [];
    } else {
      hide Inv, Tidy, CanReturn0, Step, Helps, NewLeft;
      var e := Helps(b);
      var n := Step(b, e);
      StepOn(b);
      StepInv(b, e);
      StepTidy(b, e);
      StepHeard(b, e);
      var rest := WayOut(n);
      more := [e] + rest;
      RunConcat(b, [e], rest);
      OneStep(b, e);
    }
  }

  lemma OneStep(b: Bp, e: Env)
    ensures Run(b, [e]) == Step(b, e)
  {
    hide Step;
    assert [e][..0] == [];
  }

  lemma {:induction false} NoWay(b: Bp, more: seq<Env>)
    requires Inv(b) && Tidy(b) && b.stuck && !CanReturn0(b)
    ensures var n := Run(b, more); Inv(n) && Tidy(n) && n.stuck && !CanReturn0(n)
  {
    if more != [] {
      hide Inv, Tidy, CanReturn0, Step;
      var k := |more| - 1;
      NoWay(b, more[..k]);
      var n := Run(b, more[..k]);
      if CanReturn0(Step(n, more[k])) { StepBack(n, more[k]); }
      StepInv(n, more[k]);
      StepTidy(n, more[k]);
      StepHeard(n, more[k]);
    }
  }

  /** Once a block did not uncompress file_transfer can still return 0 exactly when the remote has
      said all it needs to, and what is on the queue answers every file that needs an answer, within
      the messages binkp/1.1 allows in its last batch. */
  lemma StuckExactly(minor: nat, es: seq<Env>)
    requires Run(Start(minor), es).stuck
    ensures (exists more :: Run(Start(minor), es + more).ft == Returned(0)) <==> CanReturn0(Run(Start(minor), es))
  {
    hide Run, CanReturn0;
    var b := Run(Start(minor), es);
    RunTidy(minor, es);
    if CanReturn0(b) {
      var more := WayOut(b);
      RunConcat(Start(minor), es, more);
      assert Run(Start(minor), es + more).ft == Returned(0);
    }
    if more :| Run(Start(minor), es + more).ft == Returned(0) {
      RunConcat(Start(minor), es, more);
      if !CanReturn0(b) {
        NoWay(b, more);
        Reached(Run(b, more));
      }
    }
  }

  lemma Reached(b: Bp)
    requires b.ft == Returned(0)
    ensures CanReturn0(b)
  {
  }

  // ----- Which sessions can still receive -----

  /** What a poll brings makes no difference any more. */
  lemma StuckDeaf(b: Bp, e: Env, p: PollResult)
    requires b.stuck && b.ft != Receive
    ensures Step(b, e.(poll := p)) == Step(b, e)
  {
    hide Transmitter, ClearFilelist, Idle;
    if b.ft == Transmit {
      SamePoll(b, e, p);
    } else if b.ft == Switch {
      IdleDeaf(b, e, p);
    }
  }

  lemma IdleDeaf(b: Bp, e: Env, p: PollResult)
    ensures Idle(b, e.(poll := p)) == Idle(b, e)
  {
  }

  lemma SamePoll(b: Bp, e: Env, p: PollResult)
    ensures Transmitter(b, e.(poll := p)) == Transmitter(b, e)
  {
    hide ProcessMessages, TxTry, TxWait, TxRead, TxNext;
    NextPoll(b, e, p);
    ReadPoll(b, e, p);
  }

  lemma ReadPoll(b: Bp, e: Env, p: PollResult)
    ensures TxRead(b, e.(poll := p)) == TxRead(b, e)
  {
    hide SetState;
  }

  lemma NextPoll(b: Bp, e: Env, p: PollResult)
    ensures TxNext(b, e.(poll := p)) == TxNext(b, e)
  {
    hide SendNext, MakeList;
    SendPoll(MakeList(b, e), e, p);
    SendPoll(Sent(MakeList(b, e)), e, p);
    ListPoll(b, e, p);
  }

  lemma SendPoll(b: Bp, e: Env, p: PollResult)
    ensures SendNext(b, e.(poll := p)) == SendNext(b, e)
  {
    hide FirstNew, SetState;
  }

  lemma ListPoll(b: Bp, e: Env, p: PollResult)
    ensures MakeList(b, e.(poll := p)) == MakeList(b, e)
  {
    hide NewEntries, GoneIds, Ids;
  }

  /** The queue settles all entries, and the batch is the last one. */
  predicate Corners(b: Bp, tx: TxState, more: nat) {
    AllAnswered(Asked(b, tx).bll) && Few(b, more + Again(Asked(b, tx)))
  }

  /** The turn of the transmitter that is under way will end the session, or fail. */
  predicate Cornered(b: Bp) {
    || b.tx == TxDone
    || (RemoteDone(b) &&
        match b.tx
        case TxWLA => Corners(b, TxWLA, 0)
        case TxGNF =>
          (b.listed || b.batchnr >= 20) && NoneNew(b.bll) && Corners(b, TxWLA, if b.listed then 1 else 2)
        case TxTryR => Corners(b, TxTryR, 0)
        case _ => false)
  }

  predicate CanReceive(b: Bp) {
    match b.ft
    case InitTransfer => true
    case Receive => true
    case Switch => !b.stuck && b.tx != TxDone
    case Transmit => !b.stuck && !Cornered(b)
    case _ => false
  }

  lemma CornersSame(b: Bp, n: Bp, tx: TxState, more: nat, more': nat)
    requires n.bll == b.bll && n.cursend == b.cursend && n.log.crashed == b.log.crashed && n.queue == b.queue
    requires n.minor == b.minor && n.messages + more' == b.messages + more
    ensures Corners(b, tx, more) <==> Corners(n, tx, more')
  {
    hide ActAll, AllAnswered;
    SameAsked(b, n, tx);
  }

  lemma CornersEmpty(b: Bp, tx: TxState, more: nat)
    requires (b.queue == [] || b.bll == []) && tx != TxGNF
    ensures Corners(b, tx, more) <==> AllAnswered(b.bll) && Few(b, more)
  {
    hide ActAll;
    AskedNothing(b, tx);
  }

  lemma AnsweredNotNew(l: seq<Entry>)
    requires AllAnswered(l)
    ensures NoneNew(l) && NoneHeld(l)
  {
  }

  /** Acting on the queue keeps it as it is. */
  lemma MessagesCornered(b: Bp)
    requires Base(b) && b.tx in {TxTryR, TxWLA}
    ensures Cornered(ProcessMessages(b)) <==> Cornered(b)
  {
    hide ActAll, Ids, ProcessMessages, Asked, AllAnswered;
    var n := ProcessMessages(b);
    AskedAfter(b, TxWLA);
    AskedAfter(b, TxTryR);
    MessagesTx(b);
    ProcessesOk(b);
    if n.tx == TxTryR {
      CurrentHeld(n);
    }
    if AllAnswered(n.bll) {
      AnsweredNotNew(n.bll);
    }
    if b.bll == [] {
      AskedNothing(b, b.tx);
    }
  }

  /** M_EOB is due: what the transmitter comes to, with a list or without one. */
  lemma EobCornered(b: Bp, n: Bp)
    requires b.tx == TxGNF && b.listed && NoneNew(b.bll) && n == Sent(b).(localEOB := true, tx := TxWLA)
    ensures Cornered(n) <==> Cornered(b)
  {
    hide ActAll, AllAnswered, Asked;
    CornersSame(b, n, TxWLA, 1, 0);
  }

  /** Without a list, and with no file to put on one. */
  lemma NoListCornered(b: Bp, e: Env)
    requires Base(b) && b.tx == TxGNF && !b.listed && TxNext(b, e).1 != Failure
    requires b.batchnr >= 20
    ensures var (n, t) := TxNext(b, e);
            && t == Continue && n.tx == TxWLA
            && (Cornered(b) ==> Cornered(n)) && (e.netmail ==> (Cornered(n) <==> Cornered(b)))
  {
    hide AllAnswered, Asked, Corners, RemoteDone;
    var n := TxNext(b, e).0;
    OldBatch(b, e);
    CornersEmpty(b, TxWLA, 2);
    CornersEmpty(n, TxWLA, 0);
    NoneAtAll(b.bll);
    RemoteNext(b, e);
    RemoteOf(b, n);
  }

  lemma NoneAtAll(l: seq<Entry>)
    ensures l == [] ==> AllAnswered(l) && NoneNew(l)
  {
  }

  lemma RemoteOf(b: Bp, n: Bp)
    requires SameRemote(b, n)
    ensures RemoteDone(n) <==> RemoteDone(b)
  {
  }

  lemma OldBatch(b: Bp, e: Env)
    requires b.tx == TxGNF && !b.listed && b.bll == [] && b.batchnr >= 20 && TxNext(b, e).1 != Failure
    ensures var (n, t) := TxNext(b, e);
            && t == Continue && n.tx == TxWLA && n.bll == [] && n.minor == b.minor && n.messages <= b.messages + 2
            && (e.netmail ==> n.messages == b.messages + 2)
  {
    assert NewEntries([]) == [];
  }

  /** What the transmitter makes of a cornered session. */
  lemma TransmitCornered(b: Bp, e: Env)
    requires Inv(b) && Tidy(b) && b.ft == Transmit && Cornered(b) && Transmitter(b, e).1 != Failure
    ensures var (n, t) := Transmitter(b, e); if t == Ok then n.tx == TxDone else Cornered(n)
  {
    hide TxNext, TxWait, ProcessMessages, Corners, AllAnswered, Ids, TxTidy;
    match b.tx
    case TxGNF =>
      if b.listed {
        hide Cornered;
        ListCornered(b, e);
      } else {
        NoListCornered(b, e);
      }
    case TxTryR =>
      if b.queue == [] {
        TryWaits(b);
      } else {
        MessagesCornered(b);
      }
    case TxWLA => WaitCornered(b);
    case TxDone =>
  }

  lemma TryWaits(b: Bp)
    requires Base(b) && b.tx == TxTryR && b.queue == []
    ensures !Corners(b, TxTryR, 0)
  {
    hide Ids;
    CornersEmpty(b, TxTryR, 0);
    CurrentHeld(b);
    if AllAnswered(b.bll) { AnsweredNotNew(b.bll); }
  }

  lemma ListCornered(b: Bp, e: Env)
    requires b.tx == TxGNF && b.listed && Cornered(b) && TxNext(b, e).1 != Failure
    ensures var (n, t) := TxNext(b, e); t == Continue && Cornered(n)
  {
    hide Corners, AllAnswered, FirstNew;
    FirstNewNone(b.bll);
    EobCornered(b, TxNext(b, e).0);
  }

  lemma WaitCornered(b: Bp)
    requires Inv(b) && Tidy(b) && b.ft == Transmit && b.tx == TxWLA && Cornered(b)
    ensures var (n, t) := TxWait(b); if t == Ok then n.tx == TxDone else t == Continue && Cornered(n)
  {
    hide ProcessMessages, AllAnswered, Ids, PendingFiles, Asked;
    if b.queue != [] {
      hide Corners;
      MessagesCornered(b);
    } else {
      CornersEmpty(b, TxWLA, 0);
      NonePending(b.bll);
    }
  }

  lemma StuckIsDeaf(b: Bp)
    requires Inv(b) && Tidy(b) && b.stuck
    ensures !CanReceive(b)
  {
    hide Cornered, Ids, TxTidy, RxTidy, AllAnswered;
  }

  lemma TurnCornered(b: Bp, e: Env)
    requires Inv(b) && Tidy(b) && b.ft == Transmit && Cornered(b)
    ensures !CanReceive(TransmitStep(b, e))
  {
    hide Cornered, Ids, TxTidy, Transmitter, AllAnswered;
    var (n, t) := Transmitter(b, e);
    TransmitterInv(b, e);
    if t != Failure { TransmitCornered(b, e); }
  }

  lemma SwitchOver(b: Bp, e: Env)
    requires Tidy(b) && b.ft == Switch && b.tx == TxDone
    ensures Step(b, e).ft == DeinitTransfer
  {
    hide TxTidy, Idle, TakeFrame;
  }

  lemma StepCornered(b: Bp, e: Env)
    requires Inv(b) && Tidy(b) && !CanReceive(b)
    ensures !CanReceive(Step(b, e))
  {
    hide Inv, Tidy, TransmitStep, SwitchStep, ReceiveStep, Cornered, ClearFilelist;
    if b.stuck {
      StepHeard(b, e);
      StepTidy(b, e);
      StepInv(b, e);
      StuckIsDeaf(Step(b, e));
    } else {
      match b.ft
      case Transmit => TurnCornered(b, e);
      case Switch => SwitchOver(b, e);
      case DeinitTransfer =>
      case Returned(_) =>
    }
  }

  lemma {:induction false} NeverAgain(b: Bp, more: seq<Env>)
    requires Inv(b) && Tidy(b) && !CanReceive(b)
    ensures var n := Run(b, more); Inv(n) && Tidy(n) && !CanReceive(n)
  {
    if more != [] {
      hide Inv, Tidy, CanReceive, Step;
      var k := |more| - 1;
      NeverAgain(b, more[..k]);
      var n := Run(b, more[..k]);
      StepCornered(n, more[k]);
      StepInv(n, more[k]);
      StepTidy(n, more[k]);
    }
  }

  /** The loop polls: one frame is enough. */
  lemma Hears(b: Bp)
    requires Tidy(b) && b.ft == Switch && CanReceive(b)
    ensures Step(b, EASY.(poll := Frame(InNul))).ft == Receive
  {
    hide TxTidy, Cornered, TakeFrame, Idle;
    FrameGiven(b, InNul);
  }

  function TurnRank(tx: TxState): nat {
    match tx
    case TxDone => 0
    case TxWLA => 1
    case TxGNF => 2
    case TxReadS => 3
    case TxTryR => 4
  }

  /** What the outside world does to have the transmitter end its turn without ending the session. */
  function Eases(b: Bp): Env {
    if b.listed || b.batchnr >= 20 then EASY.(netmail := true)
    else EASY.(files := [Listed(FileId("", 0, 0), false)])
  }

  /** The turn ends at the poll, or goes on nearer to its end. */
  predicate ComesOut(b: Bp, n: Bp) {
    && CanReceive(n)
    && (n.ft == Transmit ==>
          if |n.queue| != |b.queue| then |n.queue| < |b.queue| else TurnRank(n.tx) < TurnRank(b.tx))
  }

  lemma TransmitComesOut(b: Bp)
    requires Inv(b) && Tidy(b) && b.ft == Transmit && CanReceive(b)
    ensures ComesOut(b, Step(b, Eases(b)))
  {
    hide TxNext, TxRead, TxWait, ProcessMessages, Cornered, Ids, TxTidy, AllAnswered;
    TransmitterHears(b, Eases(b));
    match b.tx
    case TxGNF => NextComesOut(b);
    case TxTryR => TryComesOut(b);
    case TxReadS => ReadComesOut(b);
    case TxWLA => WaitComesOut(b);
    case TxDone => DoneCornered(b);
  }

  lemma DoneCornered(b: Bp)
    ensures b.tx == TxDone ==> Cornered(b)
    ensures b.tx == TxReadS ==> !Cornered(b)
  {
  }

  lemma NextComesOut(b: Bp)
    requires Base(b) && b.tx == TxGNF && b.ft == Transmit && !Cornered(b)
    ensures var (n, t) := TxNext(b, Eases(b));
            if t == Ok then n.tx == TxGNF
            else t == Continue && n.tx == TxWLA && !Cornered(n) && n.queue == b.queue && n.ft == b.ft
  {
    hide AllAnswered, Asked, Corners, FirstNew, Ids;
    FirstNewNone(b.bll);
    if b.listed {
      if FirstNew(b.bll).None? {
        EobCornered(b, TxNext(b, Eases(b)).0);
      }
    } else if b.batchnr >= 20 {
      NoListCornered(b, Eases(b));
      OldQueue(b, Eases(b));
    } else {
      OneFile(b, Eases(b));
    }
  }

  lemma OldQueue(b: Bp, e: Env)
    requires b.tx == TxGNF && !b.listed && b.bll == [] && b.batchnr >= 20 && TxNext(b, e).1 != Failure
    ensures TxNext(b, e).0.queue == b.queue && TxNext(b, e).0.ft == b.ft
  {
    assert NewEntries([]) == [];
  }

  /** A file is listed and found to be gone. */
  lemma OneFile(b: Bp, e: Env)
    requires b.tx == TxGNF && !b.listed && b.bll == [] && b.batchnr < 20
    requires e == EASY.(files := [Listed(FileId("", 0, 0), false)])
    ensures var (n, t) := TxNext(b, e); t == Ok && n.tx == TxGNF
  {
    hide GoneIds, Ids;
    assert NewEntries(e.files) == [Entry(FileId("", 0, 0), NoState, 0)];
    assert MakeList(b, e).bll == [Entry(FileId("", 0, 0), NoState, 0)];
  }

  lemma TryComesOut(b: Bp)
    requires Base(b) && b.tx == TxTryR && b.ft == Transmit && !Cornered(b)
    ensures var (n, t) := TxTry(b);
            && t == Continue && !Cornered(n) && n.ft == b.ft
            && (|n.queue| < |b.queue| || (n.queue == b.queue && n.tx == TxReadS))
  {
    hide ProcessMessages, Cornered, Ids, AllAnswered;
    if b.queue == [] {
      DoneCornered(b.(tx := TxReadS));
    } else {
      MessagesCornered(b);
      AskedAfter(b, TxWLA);
    }
  }

  lemma ReadComesOut(b: Bp)
    requires Base(b) && b.tx == TxReadS
    ensures var (n, t) := TxRead(b, Eases(b)); t == Ok && n.tx == TxTryR
  {
  }

  lemma WaitComesOut(b: Bp)
    requires Inv(b) && Tidy(b) && b.tx == TxWLA && b.ft == Transmit && !Cornered(b)
    ensures var (n, t) := TxWait(b);
            if t == Ok then n.tx != TxDone
            else t == Continue && !Cornered(n) && n.ft == b.ft && |n.queue| < |b.queue|
  {
    hide ProcessMessages, AllAnswered, Ids, PendingFiles, Asked;
    if b.queue != [] {
      hide Corners;
      MessagesCornered(b);
      AskedAfter(b, TxWLA);
    } else {
      CornersEmpty(b, TxWLA, 0);
      NonePending(b.bll);
    }
  }

  lemma InitGoesOn(b: Bp)
    requires Tidy(b) && b.ft == InitTransfer
    ensures CanReceive(Step(b, EASY)) && Step(b, EASY).ft == Switch
  {
    hide TxTidy, RxTidy, Cornered;
  }

  lemma {:induction false} WayBack(b: Bp) returns (more: seq<Env>)
    requires Inv(b) && Tidy(b) && CanReceive(b)
    ensures Run(b, more).ft == Receive
    decreases b.ft == InitTransfer, b.ft == Transmit, |b.queue|, TurnRank(b.tx)
  {
    hide Inv, Tidy, CanReceive, Step, Eases;
    if b.ft == Receive {
      more := [];
    } else if b.ft == Switch {
      more := [EASY.(poll := Frame(InNul))];
      Hears(b);
      OneStep(b, more[0]);
    } else {
      var e := if b.ft == Transmit then Eases(b) else EASY;
      LiveToReceive(b);
      if b.ft == Transmit {
        TransmitComesOut(b);
      } else {
        InitGoesOn(b);
      }
      StepInv(b, e);
      StepTidy(b, e);
      StepNotInit(b, e);
      var rest := WayBack(Step(b, e));
      more := [e] + rest;
      RunConcat(b, [e], rest);
      OneStep(b, e);
    }
  }

  lemma LiveToReceive(b: Bp)
    requires CanReceive(b)
    ensures b.ft in {InitTransfer, Receive, Switch, Transmit}
  {
  }

  lemma StepNotInit(b: Bp, e: Env)
    requires b.ft in {InitTransfer, Transmit}
    requires Inv(b)
    ensures Step(b, e).ft != InitTransfer
  {
    hide Transmitter, Ids, AllAnswered;
    if b.ft == Transmit { TransmitterInv(b, e); }
  }

  /** The receiver gets no turn any more exactly when a block did not uncompress, or the session is
      over, or the turn that is under way will end it. */
  lemma DeafExactly(minor: nat, es: seq<Env>)
    ensures (forall more :: Run(Start(minor), es + more).ft != Receive) <==> !CanReceive(Run(Start(minor), es))
  {
    hide Run, CanReceive;
    var b := Run(Start(minor), es);
    RunTidy(minor, es);
    if CanReceive(b) {
      var more := WayBack(b);
      RunConcat(Start(minor), es, more);
      assert Run(Start(minor), es + more).ft == Receive;
    } else {
      forall more
        ensures Run(Start(minor), es + more).ft != Receive
      {
        NeverAgain(b, more);
        RunConcat(Start(minor), es, more);
        Receiving(Run(b, more));
      }
    }
  }

  lemma Receiving(b: Bp)
    requires !CanReceive(b)
    ensures b.ft != Receive
  {
  }

  // ----- Two sessions -----

  const LAST: Env := EASY.(fread := LastBlock)
  const OPEN: Env := EASY.(fopen := Opens)

  function ListAndOpen(files: seq<FileId>): Env {
    OPEN.(files := seq(|files|, i requires 0 <= i < |files| => Listed(files[i], false)))
  }

  /** One file is listed and sent, and then a block comes in that does not uncompress. */
  function BadBlockSession(x: FileId): seq<Env> {
    [EASY, EASY, ListAndOpen([x])] + [EASY, LAST] + [EASY.(poll := BadBlock)]
  }

  /** Two files are listed, the first is sent, and while the second is being sent the remote asks
      for the first one again. */
  function AskedAgainSession(x: FileId, y: FileId): seq<Env> {
    [EASY, EASY, ListAndOpen([x, y])] + [EASY, LAST] + [EASY, OPEN] + [EASY, EASY]
    + [EASY.(poll := Frame(InAnswer(MGet(x, 0)))), EASY, EASY, EASY]
  }

  predicate Sends(b: Bp, ft: FtState, tx: TxState, bll: seq<Entry>, cur: Option<nat>) {
    && b.ft == ft && b.rx == RxWaitF && b.tx == tx && b.frame == None && !b.stuck && b.queue == []
    && b.listed && b.bll == bll && b.cursend == cur && !b.localEOB
  }

  lemma Cons(b: Bp, e: Env, rest: seq<Env>)
    ensures Run(b, [e] + rest) == Run(Step(b, e), rest)
  {
    hide Step;
    RunConcat(b, [e], rest);
    OneStep(b, e);
  }

  lemma Two(b: Bp, e: Env, f: Env)
    ensures Run(b, [e, f]) == Step(Step(b, e), f)
  {
    hide Step;
    assert [e, f] == [e] + [f];
    Cons(b, e, [f]);
    OneStep(Step(b, e), f);
  }

  lemma BeginSession(minor: nat, files: seq<FileId>)
    requires files != []
    ensures var l := NewEntries(ListAndOpen(files).files);
            && |l| == |files| && (forall i :: 0 <= i < |l| ==> l[i] == Entry(files[i], NoState, 0))
            && Sends(Run(Start(minor), [EASY, EASY, ListAndOpen(files)]), Transmit, TxTryR,
                     SetState(l, 0, Sending), Some(0))
  {
    var e := ListAndOpen(files);
    assert [EASY, EASY, e] == [EASY, EASY] + [e];
    RunConcat(Start(minor), [EASY, EASY], [e]);
    Two(Start(minor), EASY, EASY);
    var b := Start(minor).(ft := Transmit);
    assert Step(Step(Start(minor), EASY), EASY) == b;
    OneStep(b, e);
    OpenFirst(b, e);
  }

  lemma OpenFirst(b: Bp, e: Env)
    requires b.ft == Transmit && b.rx == RxWaitF && b.tx == TxGNF && b.frame == None && !b.stuck && b.queue == []
    requires !b.listed && b.bll == [] && !b.localEOB && b.batchnr == 0
    requires e.files != [] && !e.files[0].gone && e.fopen == Opens && e.sends
    ensures Sends(Step(b, e), Transmit, TxTryR, SetState(NewEntries(e.files), 0, Sending), Some(0))
  {
    hide GoneIds, Ids;
    assert [] + NewEntries(e.files) == NewEntries(e.files);
  }

  lemma SendWhole(b: Bp, bll: seq<Entry>, k: nat)
    requires Sends(b, Transmit, TxTryR, bll, Some(k)) && k < |bll|
    ensures Sends(Run(b, [EASY, LAST]), Switch, TxGNF, SetState(bll, k, IsSent), None)
  {
    Two(b, EASY, LAST);
  }

  lemma SendPart(b: Bp, bll: seq<Entry>, k: nat)
    requires Sends(b, Transmit, TxTryR, bll, Some(k)) && k < |bll|
    ensures Sends(Run(b, [EASY, EASY]), Switch, TxTryR, bll, Some(k))
  {
    Two(b, EASY, EASY);
  }

  lemma OpenNext(b: Bp, bll: seq<Entry>, k: nat)
    requires Sends(b, Switch, TxGNF, bll, None) && FirstNew(bll) == Some(k)
    ensures Sends(Run(b, [EASY, OPEN]), Transmit, TxTryR, SetState(bll, k, Sending), Some(k))
  {
    hide FirstNew;
    Two(b, EASY, OPEN);
  }

  lemma GetAnswer(b: Bp, a: Answer)
    requires b.ft == Switch && b.rx == RxWaitF && b.tx == TxTryR && b.frame == None && !b.stuck && b.queue == []
    requires !b.localEOB
    ensures var n := Run(b, [EASY.(poll := Frame(InAnswer(a))), EASY, EASY, EASY]);
            SenderOf(n) == Act(SenderOf(b), a) && n.queue == [] && n.frame == None && n.ft == Transmit
  {
    hide Act;
    var e := EASY.(poll := Frame(InAnswer(a)));
    assert [e, EASY, EASY, EASY] == [e, EASY] + [EASY, EASY];
    RunConcat(b, [e, EASY], [EASY, EASY]);
    Two(b, e, EASY);
    var c := Step(Step(b, e), EASY);
    AnswerQueued(b, a);
    Two(c, EASY, EASY);
    QueueActed(c, a);
  }

  lemma AnswerQueued(b: Bp, a: Answer)
    requires b.ft == Switch && b.rx == RxWaitF && b.tx == TxTryR && b.frame == None && !b.stuck && b.queue == []
    requires !b.localEOB
    ensures var c := Step(Step(b, EASY.(poll := Frame(InAnswer(a)))), EASY);
            && SenderOf(c) == SenderOf(b) && c.queue == [a] && c.frame == None && c.ft == Switch
            && c.rx == RxWaitF && c.tx == TxTryR && !c.stuck
  {
  }

  lemma QueueActed(c: Bp, a: Answer)
    requires c.ft == Switch && c.rx == RxWaitF && c.tx == TxTryR && c.frame == None && c.queue == [a]
    ensures var n := Step(Step(c, EASY), EASY);
            SenderOf(n) == Act(SenderOf(c), a) && n.queue == [] && n.frame == None && n.ft == Transmit
  {
    hide Act;
    assert [a][..0] == [];
    assert ActAll(SenderOf(c), []) == SenderOf(c);
  }

  /** The bad block: the file waits for an answer that will not be received. */
  lemma BadBlockExample(minor: nat, x: FileId)
    ensures var b := Run(Start(minor), BadBlockSession(x));
            && b.stuck && b.bll == [Entry(x, IsSent, 0)] && b.queue == []
            && (forall more :: Run(Start(minor), BadBlockSession(x) + more).ft !in {Receive, Returned(0)})
  {
    hide Step, Run, Sends, CanReturn0, CanReceive;
    var first := [EASY, EASY, ListAndOpen([x])];
    var a := Run(Start(minor), first);
    BeginSession(minor, [x]);
    var l := NewEntries(ListAndOpen([x]).files);
    assert l == [Entry(x, NoState, 0)];
    SendWhole(a, SetState(l, 0, Sending), 0);
    RunConcat(Start(minor), first, [EASY, LAST]);
    RunConcat(Start(minor), first + [EASY, LAST], [EASY.(poll := BadBlock)]);
    var c := Run(Start(minor), first + [EASY, LAST]);
    OneStep(c, EASY.(poll := BadBlock));
    BadBlockStep(c, [Entry(x, IsSent, 0)]);
    var b := Run(Start(minor), BadBlockSession(x));
    RunTidy(minor, BadBlockSession(x));
    SentWaits(b, x);
    forall more
      ensures Run(Start(minor), BadBlockSession(x) + more).ft !in {Receive, Returned(0)}
    {
      StuckExactly(minor, BadBlockSession(x));
      DeafExactly(minor, BadBlockSession(x));
    }
  }

  lemma BadBlockStep(c: Bp, bll: seq<Entry>)
    requires Sends(c, Switch, TxGNF, bll, None)
    ensures var b := Step(c, EASY.(poll := BadBlock));
            b.stuck && b.ft == Transmit && b.tx == TxGNF && b.bll == bll && b.queue == []
  {
  }

  lemma SentWaits(b: Bp, x: FileId)
    requires b.stuck && b.ft == Transmit && b.tx == TxGNF && b.bll == [Entry(x, IsSent, 0)] && b.queue == []
    ensures !CanReturn0(b) && !CanReceive(b)
  {
    AskedNothing(b, TxWLA);
    assert b.bll[0].state == IsSent;
  }

  /** A file left in the middle: it is Sending, the transmitter is elsewhere, and only an answer
      about it ends the wait. */
  lemma AskedAgainExample(minor: nat, x: FileId, y: FileId, more: seq<Env>)
    requires x != y && x.size > 0 && forall e :: e in more ==> Silent(e, y)
    ensures var b := Run(Start(minor), AskedAgainSession(x, y));
            b.bll == [Entry(x, NoState, 0), Entry(y, Sending, 0)] && b.tx == TxGNF && b.queue == []
    ensures Run(Start(minor), AskedAgainSession(x, y) + more).ft != Returned(0)
  {
    hide Step, Run, Sends;
    var es1 := [EASY, EASY, ListAndOpen([x, y])];
    var es2 := es1 + [EASY, LAST];
    var es3 := es2 + [EASY, OPEN];
    var es4 := es3 + [EASY, EASY];
    var s := Start(minor);
    BeginSession(minor, [x, y]);
    var l := NewEntries(ListAndOpen([x, y]).files);
    var l1 := [Entry(x, Sending, 0), Entry(y, NoState, 0)];
    assert SetState(l, 0, Sending) == l1;
    RunConcat(s, es1, [EASY, LAST]);
    SendWhole(Run(s, es1), l1, 0);
    var l2 := [Entry(x, IsSent, 0), Entry(y, NoState, 0)];
    assert SetState(l1, 0, IsSent) == l2;
    RunConcat(s, es2, [EASY, OPEN]);
    SecondIsNew(l2);
    OpenNext(Run(s, es2), l2, 1);
    var l3 := [Entry(x, IsSent, 0), Entry(y, Sending, 0)];
    assert SetState(l2, 1, Sending) == l3;
    RunConcat(s, es3, [EASY, EASY]);
    SendPart(Run(s, es3), l3, 1);
    var last := [EASY.(poll := Frame(InAnswer(MGet(x, 0)))), EASY, EASY, EASY];
    RunConcat(s, es4, last);
    SendsMeans(Run(s, es4), Switch, TxTryR, l3, Some(1));
    GetAnswer(Run(s, es4), MGet(x, 0));
    AskAgain(SenderOf(Run(s, es4)), x, y);
    SecondLeft(Run(s, AskedAgainSession(x, y)), y);
    Unanswered(minor, AskedAgainSession(x, y), more, 1);
  }

  lemma SendsMeans(b: Bp, ft: FtState, tx: TxState, bll: seq<Entry>, cur: Option<nat>)
    requires Sends(b, ft, tx, bll, cur)
    ensures b.ft == ft && b.rx == RxWaitF && b.tx == tx && b.frame == None && !b.stuck && b.queue == []
    ensures b.bll == bll && b.cursend == cur && !b.localEOB
  {
  }

  lemma SecondIsNew(l: seq<Entry>)
    requires |l| == 2 && l[0].state != NoState && l[1].state == NoState
    ensures FirstNew(l) == Some(1)
  {
    assert FirstNew(l[1..]) == Some(0);
  }

  lemma AskAgain(s: Sender, x: FileId, y: FileId)
    requires s.bll == [Entry(x, IsSent, 0), Entry(y, Sending, 0)] && s.cursend == Some(1) && x.size > 0
    ensures Act(s, MGet(x, 0)) == s.(bll := [Entry(x, NoState, 0), Entry(y, Sending, 0)], tx := TxGNF)
  {
    assert FindEntry(s.bll, x) == Some(0);
  }

  lemma SecondLeft(b: Bp, y: FileId)
    requires |b.bll| == 2 && b.bll[1] == Entry(y, Sending, 0) && b.tx == TxGNF && b.queue == [] && b.frame == None
    ensures WaitsAt(b, 1)
  {
  }
}
