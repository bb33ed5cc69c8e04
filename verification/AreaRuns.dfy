/** Runs of operations on one message area, and what every run keeps (lib/jammsg.c, lib/msg.c). */
module AreaRuns {
  import opened Seqs
  import opened LittleEndian
  import opened JamFormat
  import opened JamText
  import opened JamModel
  import opened JamOps
  import opened JamPack
  import opened JamLastRead
  import opened JamRuns
  import opened MsgThreads
  import opened MsgChains

  // ----- Linking keeps an area sound -----

  function AfterLink(a: Area): Area {
    a.(base := Linked(a.base, a.info.activeMsgs))
  }

  /** The parts of a header that say where things are. */
  predicate SamePlace(a: Stored, b: Stored) {
    && a.subs == b.subs && a.text == b.text && Num(a) == Num(b)
    && a.hdr.signature == b.hdr.signature && a.hdr.subfieldLen == b.hdr.subfieldLen
    && a.hdr.txtLen == b.hdr.txtLen && a.hdr.txtOffset == b.hdr.txtOffset
  }

  lemma LinkPlace(e: seq<Entry>, first: U32, top: int, s: Stored)
    ensures SamePlace(s, Link(e, first, top, s))
  {
    hide Before, After, Key, LoadSubs, OrFlags, GetFlags, OnlyDeleted;
  }

  lemma LinkedPlaces(base: seq<Stored>, total: nat)
    ensures var b := Linked(base, total);
            SameNumbers(base, b) && forall p :: 0 <= p < |base| ==> SamePlace(base[p], b[p])
  {
    hide Link, SamePlace, Live, Num;
    if total != 0 && base != [] {
      LinkedSame(base, total, TOP);
      forall p | 0 <= p < |base|
        ensures SamePlace(base[p], Linked(base, total)[p])
      {
        LinkPlace(Scanned(base, total), Num(base[0]), TOP, base[p]);
      }
    } else {
      forall p | 0 <= p < |base|
        ensures SamePlace(base[p], base[p])
      {
        PlaceItself(base[p]);
      }
    }
  }

  lemma PlaceItself(s: Stored)
    ensures SamePlace(s, s)
  {
  }

  lemma PlacesWell(a: seq<Stored>, b: seq<Stored>)
    requires |a| == |b| && forall p :: 0 <= p < |a| ==> SamePlace(a[p], b[p])
    requires WellFormed(a) && Fits(a)
    ensures WellFormed(b) && Fits(b)
  {
    hide Flat, HdrBytes, SubsBytes;
    FlatLengths(RecBytes, b, a);
    FlatLengths(TextOf, b, a);
    forall i | 0 <= i < |b|
      ensures WellFormedAt(b, i)
    {
      assert WellFormedAt(a, i);
      FlatLengths(TextOf, b[..i], a[..i]);
    }
  }

  lemma SameNumbered(a: seq<Stored>, b: seq<Stored>, r: nat)
    requires SameNumbers(a, b) && NumberedFrom(a, r)
    ensures NumberedFrom(b, r)
  {
  }

  /** Linking keeps the invariant. */
  lemma LinkSound(a: Area, r: nat)
    requires Sound(a, r)
    ensures Sound(AfterLink(a), r)
  {
    hide WellFormed, Fits, NumberedFrom, LiveOnly, Linked, SamePlace, SameNumbers;
    var b := Linked(a.base, a.info.activeMsgs);
    LinkedPlaces(a.base, a.info.activeMsgs);
    PlacesWell(a.base, b);
    SameNumbered(a.base, b, r);
    SameAbove(a.base, b, 0);
  }

  // ----- Runs -----

  datatype Op =
    | Open
    | Add(msg: MsgBuf, lines: seq<string>)
    | Delete(num: U32)
    | WriteHeader(num: U32, msg: MsgBuf)
    | Pack(users: Option<seq<U32>>)
    | Mark(user: LastRead, num: U32, highest: U32)
    | LinkSubjects

  function Apply(a: Area, op: Op): Area {
    match op
    case Open => a
    case Add(m, lines) => AfterAdd(a, m, lines)
    case Delete(n) => AfterDelete(a, n)
    case WriteHeader(n, m) => AfterWrite(a, n, m)
    case Pack(users) => AfterPack(a, users)
    case Mark(user, num, highest) => AfterMark(a, user, num, highest)
    case LinkSubjects => AfterLink(a)
  }

  /** Callers never store a buffer marked deleted, and the files stay within C ints. */
  predicate Allowed(a: Area, op: Op) {
    match op
    case Add(m, lines) =>
      !m.flags.deleted && BufferFits(m) && (forall l :: l in lines ==> Storable(l)) && Fits(AfterAdd(a, m, lines).base)
    case WriteHeader(_, m) => !m.flags.deleted
    case _ => true
  }

  function Run(a: Area, ops: seq<Op>): Area {
    if ops == [] then a else Apply(Run(a, ops[..|ops| - 1]), ops[|ops| - 1])
  }

  predicate AllowedRun(a: Area, ops: seq<Op>) {
    ops == [] || (AllowedRun(a, ops[..|ops| - 1]) && Allowed(Run(a, ops[..|ops| - 1]), ops[|ops| - 1]))
  }

  lemma MarkSound(a: Area, r: nat, user: LastRead, num: U32, highest: U32)
    requires Sound(a, r)
    ensures Sound(AfterMark(a, user, num, highest), r)
  {
    hide WellFormed, Fits, NumberedFrom, LiveOnly, ReadTo;
  }

  lemma ApplySound(a: Area, r: nat, op: Op) returns (r': nat)
    requires Sound(a, r) && Allowed(a, op)
    ensures Sound(Apply(a, op), r')
  {
    hide Sound, AfterAdd, AfterDelete, AfterWrite, AfterPack, AfterLink, AfterMark;
    r' := r;
    match op
    case Open =>
    case Add(m, lines) => AddSound(a, r, m, lines); r' := RestartAfterAdd(a, r);
    case Delete(n) => DeleteSound(a, r, n);
    case WriteHeader(n, m) => WriteSound(a, r, n, m);
    case Pack(users) => PackSound(a, r, users); r' := 0;
    case Mark(user, num, highest) => MarkSound(a, r, user, num, highest);
    case LinkSubjects => LinkSound(a, r);
  }

  /** Every run from a new area ends in a sound area, restarts of the numbering included. */
  lemma {:induction false} RunSound(now: U32, ops: seq<Op>) returns (r: nat)
    requires AllowedRun(Created(now), ops)
    ensures Sound(Run(Created(now), ops), r)
  {
    if ops == [] {
      r := 0;
    } else {
      hide Sound, Apply, Allowed, Created;
      r := RunSound(now, ops[..|ops| - 1]);
      r := ApplySound(Run(Created(now), ops[..|ops| - 1]), r, ops[|ops| - 1]);
    }
  }

  /** Packing after any run: every pointer of the new lastread file comes from a record that was
      there, and counts the live messages up to the old pointer, or is 0 when that was a number
      from before the last restart. */
  lemma RunPointers(now: U32, ops: seq<Op>, users: Option<seq<U32>>) returns (r: nat)
    requires AllowedRun(Created(now), ops)
    ensures var a := Run(Created(now), ops); var b := Run(Created(now), ops + [Pack(users)]);
            && NumberedFrom(a.base, r)
            && forall c :: c in b.lr ==> exists l :: l in a.lr && PointersOf(a.base, r, l, c)
  {
    hide Sound, AllowedRun, AfterPack, Created, PackLast, Flat, PointersOf;
    r := RunSound(now, ops);
    var a := Run(Created(now), ops);
    OneStep(Created(now), ops, Pack(users));
    PackedPointers(a, r, users);
  }

  /** Record c carries the packed pointers of record l. */
  predicate PointersOf(base: seq<Stored>, r: nat, l: LastRead, c: LastRead)
    requires r <= |base|
  {
    && c.userCRC == l.userCRC
    && c.lastReadMsg == (if Discarded(base, r, l.lastReadMsg) then 0 else CountAtMost(base, l.lastReadMsg))
    && c.highReadMsg == (if Discarded(base, r, l.highReadMsg) then 0 else CountAtMost(base, l.highReadMsg))
  }

  lemma PackedPointers(a: Area, r: nat, users: Option<seq<U32>>)
    requires Sound(a, r)
    ensures NumberedFrom(a.base, r)
    ensures forall c :: c in AfterPack(a, users).lr ==> exists l :: l in a.lr && PointersOf(a.base, r, l, c)
  {
    hide Flat, PackLast, LiveOnly, PackPointer, Discarded, CountAtMost, WellFormed, Packed, Retained;
    PackSound(a, r, users);
    FewMessages(a.base);
    var active := PackedActive(a);
    forall c | c in AfterPack(a, users).lr
      ensures exists l :: l in a.lr && PointersOf(a.base, r, l, c)
    {
      FlatFrom(PackLast(a.base, active, users), a.lr, c);
      var k :| 0 <= k < |a.lr| && c in PackLast(a.base, active, users)(a.lr[k]);
      var l := a.lr[k];
      RetainedPointers(a.base, active, users, l);
      PointerExact(a.base, r, active, l.lastReadMsg);
      PointerExact(a.base, r, active, l.highReadMsg);
      assert l in a.lr && PointersOf(a.base, r, l, c);
    }
  }

  lemma FewMessages(base: seq<Stored>)
    requires Fits(base)
    ensures |base| < WORD
  {
    hide Flat, SubsBytes, HdrBytes;
    if base != [] {
      OffInside(base, 0);
    }
  }

  // ----- Linking after any run -----

  /** The first indexed message is numbered 1. */
  predicate FirstIsOne(base: seq<Stored>) {
    base != [] ==> Num(base[0]) == 1
  }

  lemma AddFirst(a: Area, m: MsgBuf, lines: seq<string>)
    requires FirstIsOne(a.base)
    ensures FirstIsOne(AfterAdd(a, m, lines).base)
  {
    hide HeadSubs, LinesSubs, BodyText, OrFlags, Texts, SubsBytes;
  }

  lemma ApplyFirst(a: Area, op: Op)
    requires FirstIsOne(a.base)
    ensures FirstIsOne(Apply(a, op).base)
  {
    hide FindLive, LiveOnly, OrFlags, Linked, SamePlace, ReadTo;
    match op
    case Open =>
    case Add(m, lines) => AddFirst(a, m, lines);
    case Delete(_) =>
    case WriteHeader(_, _) =>
    case Pack(_) =>
    case Mark(_, _, _) =>
    case LinkSubjects => LinkedPlaces(a.base, a.info.activeMsgs);
  }

  lemma {:induction false} RunFirst(now: U32, ops: seq<Op>)
    ensures FirstIsOne(Run(Created(now), ops).base)
  {
    if ops != [] {
      hide Apply, FirstIsOne;
      RunFirst(now, ops[..|ops| - 1]);
      ApplyFirst(Run(Created(now), ops[..|ops| - 1]), ops[|ops| - 1]);
    } else {
      assert Run(Created(now), ops) == Created(now);
    }
  }

  /** After any run, linking threads every subject exactly when message 1 is there or the
      other condition holds; the links it then stores are inverse to each other. */
  lemma LinkAfterRun(now: U32, ops: seq<Op>)
    requires AllowedRun(Created(now), ops) && Run(Created(now), ops).base != []
    ensures var a := Run(Created(now), ops); var b := Linked(a.base, a.info.activeMsgs);
            && (Threaded(b) <==> FindLive(a.base, 1).Some? || Unaffected(a.base))
            && (Threaded(b) ==> forall p, q :: 0 <= p < |b| && 0 <= q < |b| && Live(b[p]) && Live(b[q]) ==>
                  (b[p].hdr.replyNext == Num(b[q]) <==> b[q].hdr.replyTo == Num(b[p])))
  {
    hide Run, AllowedRun, Created, LiveOnly, FindLive, Linked, Threaded, Unaffected, KeyOf, LiveIncreasing;
    var a := Run(Created(now), ops);
    var r := RunSound(now, ops);
    RunFirst(now, ops);
    SoundMeans(a, r);
    FirstOfSound(a, r);
    LinkExactly(a.base);
    var b := Linked(a.base, a.info.activeMsgs);
    SameAfter(a.base, a.info.activeMsgs);
    if Threaded(b) {
      forall p, q | 0 <= p < |b| && 0 <= q < |b| && Live(b[p]) && Live(b[q])
        ensures b[p].hdr.replyNext == Num(b[q]) <==> b[q].hdr.replyTo == Num(b[p])
      {
        LinksInverse(b, p, q);
      }
    }
  }

  lemma FirstOfSound(a: Area, r: nat)
    requires Sound(a, r) && FirstIsOne(a.base)
    ensures FirstLeast(a.base) && Positive(a.base)
            && (a.base != [] ==> (FirstLive(a.base) <==> FindLive(a.base, 1).Some?))
  {
    hide WellFormed, Fits, LiveOnly, FindLive;
  }

  lemma SameAfter(base: seq<Stored>, total: nat)
    requires LiveIncreasing(base) && Positive(base)
    ensures LiveIncreasing(Linked(base, total)) && Positive(Linked(base, total))
  {
    hide Live, LiveIncreasing, LinkedUpTo;
    if total != 0 && base != [] {
      LinkedSame(base, total, TOP);
      SameIncreasing(base, Linked(base, total));
    }
  }

  /** A message and then a reply to it, "Re: " in any case before its subject: linking links each to
      the other. */
  lemma ReplyIsLinked(now: U32, m: MsgBuf, re: string)
    requires BufferFits(m) && !m.flags.deleted && IsRe(re) && !("RE:" <= UpperCase(m.subject))
    requires |re + " " + m.subject| <= NAME_LEN
    ensures var a := Run(Created(now), [Add(m, []), Add(m.(subject := re + " " + m.subject), [])]);
            var b := Linked(a.base, a.info.activeMsgs);
            && |b| == 2 && Num(b[0]) == 1 && Num(b[1]) == 2
            && b[0].hdr.replyNext == 2 && b[1].hdr.replyTo == 1 && b[0].hdr.replyTo == 0 && b[1].hdr.replyNext == 0
  {
    hide AfterAdd, Compose, KeyOf, Threaded, Linked, Created, Run, LiveOnly, LiveIncreasing;
    var m' := m.(subject := re + " " + m.subject);
    assert [Add(m, []), Add(m', [])] == [Add(m, [])] + [Add(m', [])] && [Add(m, [])] == [] + [Add(m, [])];
    OneStep(Created(now), [], Add(m, []));
    OneStep(Created(now), [Add(m, [])], Add(m', []));
    assert Run(Created(now), []) == Created(now) by { NoSteps(now); }
    NewArea(now);
    var a1 := AfterAdd(Created(now), m, []);
    AddNext(Created(now), m);
    var a2 := AfterAdd(a1, m', []);
    AddNext(a1, m');
    assert a2.base == [a2.base[0], a2.base[1]];
    KeyOfNew(a2.base[0], m);
    KeyOfNew(a2.base[1], m');
    ReplySameKey(re, m.subject);
    PairLinked(a2.base[0], a2.base[1]);
    BothLive(a2.base[0], a2.base[1]);
  }

  lemma NoSteps(now: U32)
    ensures Run(Created(now), []) == Created(now)
  {
  }

  /** One more message behind others that are all live and numbered from 1. */
  lemma AddNext(a: Area, m: MsgBuf)
    requires !m.flags.deleted && a.info.activeMsgs == |a.base| < 10
    requires a.base != [] ==> Num(a.base[|a.base| - 1]) == |a.base|
    ensures var n := |a.base|; var b := AfterAdd(a, m, []);
            && b.base == a.base + [b.base[n]] && b.info.activeMsgs == n + 1
            && Num(b.base[n]) == n + 1 && Live(b.base[n]) && b.base[n].subs == HeadSubs(m) + LinesSubs([])
  {
    hide HeadSubs, LinesSubs, BodyText, Texts, SubsBytes, OrFlags;
    FlagsBack(m.flags);
  }

  lemma KeyOfNew(s: Stored, m: MsgBuf)
    requires BufferFits(m) && s.subs == HeadSubs(m) + LinesSubs([])
    ensures KeyOf(s) == Key(m.subject)
  {
    hide HeadSubs, LoadSubs, Key, LineSubs;
    LoadConcat(EMPTY_MSG, HeadSubs(m), LinesSubs([]));
    LoadHead(EMPTY_MSG, m);
    LoadLines(LoadSubs(EMPTY_MSG, HeadSubs(m)), []);
  }

  /** Two live messages of one subject. */
  lemma PairLinked(s: Stored, t: Stored)
    requires Live(s) && Live(t) && Num(s) == 1 && Num(t) == 2 && KeyOf(s) == KeyOf(t)
    ensures var b := Linked([s, t], |LiveOnly([s, t])|);
            && |b| == 2 && Num(b[0]) == 1 && Num(b[1]) == 2
            && b[0].hdr.replyNext == 2 && b[1].hdr.replyTo == 1 && b[0].hdr.replyTo == 0 && b[1].hdr.replyNext == 0
  {
    hide KeyOf, LiveOnly, Linked, FindLive;
    var base := [s, t];
    assert IsLiveNumber(base[0], 1);
    assert FirstLive(base) by {
      assert base[0] == s;
    }
    LinkedAt(base, 0);
    LinkedAt(base, 1);
    LinkedLive(base, |LiveOnly(base)|, 0);
    PairLinks(s, t, Linked(base, |LiveOnly(base)|));
  }

  lemma PairLinks(s: Stored, t: Stored, b: seq<Stored>)
    requires |b| == 2 && SameNumbers([s, t], b) && Live(s) && Live(t) && Num(s) == 1 && Num(t) == 2
    requires KeyOf(s) == KeyOf(t) && ThreadedAt(b, 0) && ThreadedAt(b, 1)
    ensures Num(b[0]) == 1 && Num(b[1]) == 2
    ensures b[0].hdr.replyNext == 2 && b[1].hdr.replyTo == 1 && b[0].hdr.replyTo == 0 && b[1].hdr.replyNext == 0
  {
  }

  lemma BothLive(s: Stored, t: Stored)
    requires Live(s) && Live(t)
    ensures |LiveOnly([s, t])| == 2
  {
    hide LiveOnly;
    var base := [s, t];
    assert LiveOnly(base[..0]) == [] by { NoneLive(); }
    LiveStep(base, 0);
    LiveStep(base, 1);
    assert base[..2] == base;
  }

  /** Three messages of one subject are added and the first is deleted: linking then does not
      thread the other two. */
  lemma DeletedFirstBreaksThread(now: U32, m: MsgBuf)
    requires BufferFits(m) && !m.flags.deleted
    ensures var a := Run(Created(now), [Add(m, []), Add(m, []), Add(m, []), Delete(1)]);
            !Threaded(Linked(a.base, a.info.activeMsgs))
  {
    hide AfterAdd, AfterDelete, Compose, KeyOf, Threaded, Linked, Created, Run, LiveOnly;
    ThreeSteps(Created(now), Add(m, []), Add(m, []), Add(m, []));
    OneStep(Created(now), [Add(m, []), Add(m, []), Add(m, [])], Delete(1));
    assert [Add(m, []), Add(m, []), Add(m, [])] + [Delete(1)] == [Add(m, []), Add(m, []), Add(m, []), Delete(1)];
    NewArea(now);
    var a1 := AfterAdd(Created(now), m, []);
    AddNext(Created(now), m);
    var a2 := AfterAdd(a1, m, []);
    AddNext(a1, m);
    var a3 := AfterAdd(a2, m, []);
    AddNext(a2, m);
    var s, t, u := a3.base[0], a3.base[1], a3.base[2];
    assert a3.base == [s, t, u];
    DeleteFirst(a3, s, t, u);
    TwoLive(AfterDelete(a3, 1).base[0], t, u);
    SameSubs(t, u);
    BrokenThread(AfterDelete(a3, 1).base[0], t, u);
  }

  lemma NewArea(now: U32)
    ensures Created(now).base == [] && Created(now).info.activeMsgs == 0
  {
  }

  lemma DeleteFirst(a: Area, s: Stored, t: Stored, u: Stored)
    requires a.base == [s, t, u] && a.info.activeMsgs == 3 && Live(s) && Num(s) == 1
    ensures var b := AfterDelete(a, 1);
            && |b.base| == 3 && b.base == [b.base[0], t, u] && b.info.activeMsgs == 2
            && !Live(b.base[0]) && Num(b.base[0]) == 1
  {
    var f := FindLive(a.base, 1);
    assert IsLiveNumber(a.base[0], 1);
    hide FindLive;
  }

  lemma TwoLive(s: Stored, t: Stored, u: Stored)
    requires !Live(s) && Live(t) && Live(u)
    ensures |LiveOnly([s, t, u])| == 2
  {
    hide LiveOnly;
    var base := [s, t, u];
    assert LiveOnly(base[..0]) == [] by { NoneLive(); }
    LiveStep(base, 0);
    LiveStep(base, 1);
    LiveStep(base, 2);
    assert base[..3] == base;
  }

  lemma NoneLive()
    ensures LiveOnly([]) == []
  {
  }

  lemma SameSubs(s: Stored, t: Stored)
    requires s.subs == t.subs
    ensures KeyOf(s) == KeyOf(t)
  {
  }

  lemma BrokenThread(a: Stored, b: Stored, c: Stored)
    requires !Live(a) && Live(b) && Live(c) && Num(a) == 1 && Num(b) == 2 && Num(c) == 3
    requires KeyOf(b) == KeyOf(c)
    ensures !Threaded(Linked([a, b, c], |LiveOnly([a, b, c])|))
  {
    hide KeyOf, Key, LiveOnly, Linked, Threaded;
    var base := [a, b, c];
    assert !IsLiveNumber(base[0], 1) && !IsLiveNumber(base[1], 1) && !IsLiveNumber(base[2], 1);
    assert IsLast(base, 2) && Live(base[1]) && Num(base[1]) < Num(base[2]);
    assert !Unaffected(base);
    LinkExactly(base);
  }

  // ----- A pointer the restart loses -----

  /** Add, delete, add again: numbering restarts at 1 because no message is active, so the
      header numbers no longer equal the index positions, and packing then sends the
      pointer of a user who has read the live message 1 to 0. */
  lemma RestartLosesPointer(now: U32, m: MsgBuf)
    requires BufferFits(m) && !m.flags.deleted
    ensures var ops := [Add(m, []), Delete(1), Add(m, [])];
            var a := Run(Created(now), ops);
            && |a.base| == 2 && Num(a.base[0]) == Num(a.base[1]) == 1 && !Live(a.base[0]) && Live(a.base[1])
            && CountAtMost(a.base, 1) == 1 && PackPointer(a.base, a.info.activeMsgs, 1) == 0
  {
    hide OrFlags, Flat, HeadSubs;
    var a0 := Created(now);
    var a1 := AfterAdd(a0, m, []);
    var s := Compose([], 0, m, []);
    assert a1.base == [s];
    FlagsBack(m.flags);
    assert Live(s) && Num(s) == 1;
    FindOnly(s, 1);
    var a2 := AfterDelete(a1, 1);
    var s' := s.(hdr := MarkDeleted(s.hdr));
    assert a2.base == [s'] && a2.info.activeMsgs == 0;
    var a3 := AfterAdd(a2, m, []);
    var t := Compose([s'], 0, m, []);
    assert a3.base == [s', t] && a3.info.activeMsgs == 1;
    assert Live(t) && Num(t) == 1;
    LostPointer(s', t);
    ThreeSteps(a0, Add(m, []), Delete(1), Add(m, []));
  }

  lemma FindOnly(s: Stored, n: U32)
    requires IsLiveNumber(s, n)
    ensures FindLive([s], n) == Some(0)
  {
    assert FindLive([s][..0], n) == None;
  }

  lemma LostPointer(s: Stored, t: Stored)
    requires !Live(s) && Live(t) && Num(s) == Num(t) == 1
    ensures CountAtMost([s, t], 1) == 1 && PackPointer([s, t], 1, 1) == 0
  {
    assert [s, t][..1] == [s] && [s][..0] == [];
    assert Remap([s], 1) == 0 by { DeadPrefix([s]); assert Remap([s][..0], 1) == 1; }
    assert CountAtMost([s], 1) == 0 by { assert CountAtMost([s][..0], 1) == 0; }
  }

  lemma OneStep(a: Area, ops: seq<Op>, op: Op)
    ensures Run(a, ops + [op]) == Apply(Run(a, ops), op)
  {
    assert (ops + [op])[..|ops|] == ops;
  }

  lemma ThreeSteps(a: Area, x: Op, y: Op, z: Op)
    ensures Run(a, [x, y, z]) == Apply(Apply(Apply(a, x), y), z)
  {
    hide Apply;
    OneStep(a, [], x);
    OneStep(a, [x], y);
    OneStep(a, [x, y], z);
    assert [] + [x] == [x] && [x] + [y] == [x, y] && [x, y] + [z] == [x, y, z];
  }
}
