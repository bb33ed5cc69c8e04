/** Linking the messages of an area by subject (Msg_Link of lib/msg.c). */
module MsgLink {
  import opened Seqs
  import opened LittleEndian
  import opened JamModel
  import opened JamOps
  import opened JamPack
  import opened JamRuns
  import opened JamFiles
  import opened JamBase
  import opened MsgThreads
  import Crc32

  /** strupr. */
  method StrUpr(s: string) returns (r: string)
    ensures r == UpperCase(s)
  {
    r := "";
    var p := 0;
    while p < |s| && s[p] != '\0'
      invariant p <= |s| && UpperCase(s) == r + UpperCase(s[p..])
    {
      r := r + [ToUpper(s[p])];
      p := p + 1;
    }
  }

  /** The key of the subject just read. */
  method SubjectKey(subject: string) returns (key: bv32)
    ensures key == Key(subject)
  {
    var p := StrUpr(subject);
    if "RE:" <= p {
      p := p[3..];
      if " " <= p {
        p := p[1..];
      }
    }
    key := Crc32.Crc32Ccitt(Bytes(p));
  }

  /** The inner loop: the last entry with the key of entry i before it, and the first after it. */
  method FindLinks(link: array<Entry>, ghost used: nat, i: nat, total: nat) returns (prev: U32, next: U32)
    requires i < used <= link.Length && total < link.Length
    requires InOrder(link[..used])
    requires forall m :: used <= m < link.Length ==> link[m] == Entry(0, 0)
    ensures prev == Before(Used(link[..used], total), link[i].num, link[i].key)
    ensures next == After(Used(link[..used], total), link[i].num, link[i].key)
  {
    prev, next := 0, 0;
    var crc := link[i].key;
    ghost var e, n := link[..used], link[i].num;
    var m := 0;
    while m < total
      invariant m <= total
      invariant prev == Before(Used(e, m), n, crc)
      invariant next == 0 == After(Used(e, m), n, crc)
    {
      OneSeen(e, m, n, crc);
      if m != i && link[m].key == crc {
        if m < i {
          prev := link[m].num;
        } else {
          next := link[m].num;
          AllSeen(e, i, m, total, crc);
          return;
        }
      }
      m := m + 1;
    }
  }

  /** What one more entry, or one that is not in use, does to the two searches. */
  lemma OneSeen(e: seq<Entry>, m: nat, n: U32, key: bv32)
    ensures m < |e| && After(Used(e, m), n, key) == 0 ==>
              After(Used(e, m + 1), n, key) == if e[m].num > n && e[m].key == key then e[m].num else 0
    ensures m < |e| ==>
              Before(Used(e, m + 1), n, key)
              == if e[m].num < n && e[m].key == key then e[m].num else Before(Used(e, m), n, key)
    ensures m >= |e| ==> Used(e, m + 1) == Used(e, m)
  {
    if m < |e| {
      AfterStep(e, m, n, key);
      BeforeStep(e, m, n, key);
    } else {
      assert e[..|e|] == e;
    }
  }

  /** After the first match above entry i nothing more is to be found. */
  lemma AllSeen(e: seq<Entry>, i: nat, m: nat, total: nat, key: bv32)
    requires InOrder(e) && i < |e| && i < m < total
    requires m < |e| ==> After(Used(e, m + 1), e[i].num, key) != 0
    ensures Before(Used(e, total), e[i].num, key) == Before(Used(e, m + 1), e[i].num, key)
    ensures After(Used(e, total), e[i].num, key) == After(Used(e, m + 1), e[i].num, key)
  {
    assert e[..|e|] == e;
    if m < |e| {
      FoundStays(e, i, m + 1, if total <= |e| then total else |e|, key);
    }
  }

  ghost predicate Ready(jam: MessageBase, r: nat)
    reads jam
  {
    jam.Valid() && Sound(jam.Contents(), r)
  }

  lemma ReadyMeans(jam: MessageBase, r: nat)
    requires Ready(jam, r)
    ensures LiveIncreasing(jam.base) && jam.info.activeMsgs == |LiveOnly(jam.base)|
    ensures jam.info.activeMsgs > 0 <==> exists i :: 0 <= i < |jam.base| && Live(jam.base[i])
    ensures jam.info.activeMsgs > 0 ==> jam.base != []
  {
    hide Sound, LiveIncreasing, LiveOnly;
    AreaMeans(jam.Contents(), r);
  }

  lemma AreaMeans(a: Area, r: nat)
    requires Sound(a, r)
    ensures LiveIncreasing(a.base) && a.info.activeMsgs == |LiveOnly(a.base)|
    ensures a.info.activeMsgs > 0 <==> exists i :: 0 <= i < |a.base| && Live(a.base[i])
    ensures a.info.activeMsgs > 0 ==> a.base != []
  {
    hide WellFormed, Fits, NumberedFrom, LiveOnly, Live, LiveIncreasing;
    SoundMeans(a, r);
    LiveOnlyPositions(a.base);
    var ps := LivePositions(a.base);
    if ps != [] {
      assert Live(a.base[ps[0]]);
    }
  }

  /** Read the message of entry i and take the key of its subject. */
  method ReadKey(jam: MessageBase, number: U32, ghost r: nat, ghost i: nat) returns (key: bv32)
    requires Ready(jam, r) && jam.base != [] && LiveIncreasing(jam.base)
    requires i < |Entries(jam.base)| && number == Entries(jam.base)[i].num
    modifies jam
    ensures Ready(jam, r) && jam.Contents() == old(jam.Contents()) && Entry(key, number) == Entries(jam.base)[i]
  {
    hide Sound, LiveIncreasing, LiveOnly, FindLive, Entries, KeyOf, Key, Live;
    var ok := jam.ReadHeader(number);
    EntryKey(jam.base, i);
    if ok {
      LoadedFor(number, jam.base[jam.idxPos - 1]);
      KeyIs(jam.base[jam.idxPos - 1]);
    }
    key := SubjectKey(jam.msg.subject);
  }

  lemma KeyIs(s: Stored)
    ensures KeyOf(s) == Key(Subject(s))
  {
  }

  /** Go on to the message of the next entry, if there is one. */
  method GoOn(jam: MessageBase, number: U32, ghost base: seq<Stored>, ghost r: nat, ghost i: nat)
      returns (ok: bool, next: U32)
    requires Ready(jam, r) && jam.info.activeMsgs > 0 && base != [] && LiveIncreasing(base)
             && SameNumbers(base, jam.base)
    requires i < |Entries(base)| && number == Entries(base)[i].num
    modifies jam
    ensures Ready(jam, r) && jam.Contents() == old(jam.Contents())
    ensures if ok then i + 1 < |Entries(base)| && next == Entries(base)[i + 1].num else i + 1 == |Entries(base)|
  {
    hide Sound, LiveIncreasing, LiveOnly, FindLive, Entries, Live, IsNext, AtMostBefore;
    ReadyMeans(jam, r);
    ok, next := jam.Next(number);
    SameWalk(base, jam.base, number);
    if ok {
      NextEntry(base, i, jam.idxPos - 1);
    } else {
      LastEntry(base, i);
    }
  }

  /** The first pass: the key and number of every message it comes to. */
  method Collect(jam: MessageBase, link: array<Entry>, ghost r: nat) returns (count: nat)
    requires Ready(jam, r) && jam.info.activeMsgs > 0 && link.Length == jam.info.activeMsgs + 1
    requires forall m :: 0 <= m < link.Length ==> link[m] == Entry(0, 0)
    modifies jam, link
    ensures Ready(jam, r) && jam.Contents() == old(jam.Contents())
    ensures jam.base != [] && count <= link.Length && link[..count] == Entries(jam.base)
    ensures forall m :: count <= m < link.Length ==> link[m] == Entry(0, 0)
  {
    hide Sound, LiveIncreasing, LiveOnly, Entries, SameNumbers, Ready, Live, Num, InOrder;
    ReadyMeans(jam, r);
    ghost var base := jam.base;
    ghost var e := Entries(base);
    EntriesInOrder(base);
    SameAsItself(base);
    var number := FirstNumber(jam, r);
    count := 0;
    var again := true;
    while again
      invariant Ready(jam, r) && jam.Contents() == old(jam.Contents())
      invariant count <= |e| && forall m :: 0 <= m < count ==> link[m] == e[m]
      invariant forall m :: count <= m < link.Length ==> link[m] == Entry(0, 0)
      invariant if again then count < |e| && number == e[count].num else count == |e|
      decreases |e| - count, again
    {
      var key := ReadKey(jam, number, r, count);
      link[count] := Entry(key, number);
      again, number := GoOn(jam, number, base, r, count);
      count := count + 1;
    }
    assert link[..count] == e;
  }

  lemma SameAsItself(base: seq<Stored>)
    ensures SameNumbers(base, base)
  {
  }

  /** Msg_Lowest: the number of the first indexed message. */
  method FirstNumber(jam: MessageBase, ghost r: nat) returns (number: U32)
    requires Ready(jam, r) && jam.info.activeMsgs > 0 && jam.base != []
    modifies jam
    ensures Ready(jam, r) && jam.Contents() == old(jam.Contents()) && number == Num(jam.base[0])
  {
    hide Sound;
    number := jam.Lowest();
  }

  // ----- The second pass -----

  /** How far the messages are linked when entry i is next. */
  ghost function Low(e: seq<Entry>, i: nat): int
    requires i <= |e|
  {
    if i == 0 then -1 else e[i - 1].num
  }

  /** Message number n is written with these links, if it is there. */
  ghost function Wrote(base: seq<Stored>, n: U32, prev: U32, next: U32): seq<Stored> {
    var f := FindLive(base, n);
    if f.Some? then base[f.value := base[f.value].(hdr := Relink(base[f.value].hdr, prev, next))] else base
  }

  /** The links that differ from those of message number n, or from 0 when it is not there. */
  ghost predicate Differs(base: seq<Stored>, n: U32, prev: U32, next: U32) {
    var f := FindLive(base, n);
    if f.Some? then base[f.value].hdr.replyTo != prev || base[f.value].hdr.replyNext != next
    else prev != 0 || next != 0
  }

  lemma RewriteSound(a: Area, r: nat, n: U32, prev: U32, next: U32)
    requires Sound(a, r) && Differs(a.base, n, prev, next)
    ensures var f := FindLive(a.base, n);
            var m := (if f.Some? then Load(n, a.base[f.value]) else EMPTY_MSG).(original := prev, reply := next);
            Sound(AfterWrite(a, n, m), r) && AfterWrite(a, n, m) == a.(base := Wrote(a.base, n, prev, next))
  {
    var f := FindLive(a.base, n);
    if f.Some? {
      hide Sound, FindLive, Load, Rewrite, Relink;
      var s := a.base[f.value];
      var m := Load(n, s).(original := prev, reply := next);
      LoadedFor(n, s);
      WriteSound(a, r, n, m);
      RewriteLinks(n, s, prev, next);
    }
  }

  /** What the buffer holds after reading message n. */
  ghost predicate Holds(jam: MessageBase, n: U32)
    reads jam
  {
    var f := FindLive(jam.base, n);
    if f.Some? then jam.msg == Load(n, jam.base[f.value]) else jam.msg == EMPTY_MSG
  }

  /** Write the buffer back with two other links. */
  method WriteLinks(jam: MessageBase, number: U32, prev: U32, next: U32, ghost r: nat)
    requires Ready(jam, r) && Holds(jam, number) && Differs(jam.base, number, prev, next)
    modifies jam
    ensures Ready(jam, r) && jam.Contents() == old(jam.Contents()).(base := Wrote(old(jam.base), number, prev, next))
  {
    hide Sound, LiveIncreasing, LiveOnly, FindLive, Live, Load, AfterWrite, Relink, Differs, Wrote;
    ReadyMeans(jam, r);
    RewriteSound(jam.Contents(), r, number, prev, next);
    jam.msg := jam.msg.(original := prev, reply := next);
    var ok := jam.WriteHeader(number);
  }

  lemma HeldLinks(jam: MessageBase, number: U32, prev: U32, next: U32)
    requires Holds(jam, number)
    ensures Differs(jam.base, number, prev, next) <==> jam.msg.original != prev || jam.msg.reply != next
    ensures !Differs(jam.base, number, prev, next) ==> Wrote(jam.base, number, prev, next) == jam.base
  {
    hide FindLive, Load, Relink;
    var f := FindLive(jam.base, number);
    if f.Some? {
      LoadedFor(number, jam.base[f.value]);
      RelinkLive(jam.base[f.value].hdr, prev, next);
    }
  }

  /** Store the two links of one message, if they are new. */
  method Store(jam: MessageBase, number: U32, prev: U32, next: U32, ghost r: nat) returns (changed: bool)
    requires Ready(jam, r) && Holds(jam, number)
    modifies jam
    ensures Ready(jam, r) && jam.Contents() == old(jam.Contents()).(base := Wrote(old(jam.base), number, prev, next))
    ensures changed == Differs(old(jam.base), number, prev, next)
  {
    hide Ready, Holds, Wrote, Differs;
    HeldLinks(jam, number, prev, next);
    changed := jam.msg.original != prev || jam.msg.reply != next;
    if changed {
      WriteLinks(jam, number, prev, next, r);
    }
  }

  lemma LinkEntry(base: seq<Stored>, total: nat, i: nat, prev: U32, next: U32)
    requires base != [] && LiveIncreasing(base) && i < |Entries(base)|
    requires var x := Entries(base)[i]; var s := Scanned(base, total);
             prev == Before(s, x.num, x.key) && next == After(s, x.num, x.key)
    ensures var e := Entries(base); var n := e[i].num; var cur := LinkedUpTo(base, total, Low(e, i));
            var f := FindLive(base, n);
            && Wrote(cur, n, prev, next) == LinkedUpTo(base, total, n)
            && Differences(base, LinkedUpTo(base, total, n))
               == Differences(base, cur) + (if f.Some? && Differs(cur, n, prev, next) then 1 else 0)
            && (f.None? ==> i == 0 && Phantom(base, total) == if Differs(cur, n, prev, next) then 1 else 0)
            && (i == 0 && f.Some? ==> Phantom(base, total) == 0)
  {
    hide LiveIncreasing, LiveOnly, FindLive, Entries, Key, KeyOf, Before, After, Relink, Scanned, LinkedUpTo,
         Differences;
    var e := Entries(base);
    var n := e[i].num;
    var cur := LinkedUpTo(base, total, Low(e, i));
    EntriesInOrder(base);
    EntryKey(base, i);
    forall p | 0 <= p < |base| && Live(base[p]) && Num(base[0]) <= Num(base[p]) <= n
      ensures Num(base[p]) <= Low(e, i) || Num(base[p]) == n
    {
      BetweenEntries(base, i, p);
    }
    LinkOne(base, total, Low(e, i), n);
    var f := FindLive(base, n);
    if f.Some? {
      var s := base[f.value];
      RelinkLive(s.hdr, prev, next);
      assert Link(Scanned(base, total), Num(base[0]), n, s) == s.(hdr := Relink(s.hdr, prev, next));
      DifferencesOne(base, cur, f.value, s.(hdr := Relink(s.hdr, prev, next)));
    } else {
      FirstBack(base, total);
    }
  }

  lemma FirstBack(base: seq<Stored>, total: nat)
    requires base != [] && LiveIncreasing(base)
    ensures Before(Scanned(base, total), Num(base[0]), FirstKey(base)) == 0
  {
    hide LiveIncreasing, LiveOnly, Entries, FirstKey;
    EntriesInOrder(base);
    NoneBefore(Scanned(base, total), Num(base[0]), FirstKey(base));
  }

  lemma {:induction false} NoneBefore(e: seq<Entry>, n: U32, key: bv32)
    requires forall k :: 0 <= k < |e| ==> e[k].num >= n
    ensures Before(e, n, key) == 0
  {
    if e != [] {
      NoneBefore(e[..|e| - 1], n, key);
    }
  }

  lemma LinkStart(base: seq<Stored>, total: nat)
    requires base != []
    ensures LinkedUpTo(base, total, -1) == base && Differences(base, base) == 0
  {
    hide Scanned, Before, After;
    DifferencesNone(base, base);
  }

  lemma LinkEnd(base: seq<Stored>, total: nat)
    requires base != [] && LiveIncreasing(base)
    ensures LinkedUpTo(base, total, Low(Entries(base), |Entries(base)|)) == LinkedUpTo(base, total, TOP)
  {
    hide LiveIncreasing, Entries, Scanned, Before, After, Relink, KeyOf;
    var e := Entries(base);
    EntriesAt(base);
    EntriesInOrder(base);
    forall p | 0 <= p < |base| && Live(base[p]) && Num(base[p]) >= Num(base[0])
      ensures Num(base[p]) <= Low(e, |e|)
    {
      EntriesHave(base, p);
      var k :| 0 <= k < |e| && e[k] == EntryOf(base[p]);
    }
    var a, b := LinkedUpTo(base, total, Low(e, |e|)), LinkedUpTo(base, total, TOP);
    assert forall p :: 0 <= p < |base| ==> a[p] == b[p];
  }

  method LinkAll(jam: MessageBase, link: array<Entry>, ghost used: nat, ghost r: nat) returns (n: nat)
    requires Ready(jam, r) && jam.info.activeMsgs > 0 && link.Length == jam.info.activeMsgs + 1
    requires jam.base != [] && used <= link.Length && link[..used] == Entries(jam.base)
    requires forall m :: used <= m < link.Length ==> link[m] == Entry(0, 0)
    modifies jam
    ensures Ready(jam, r)
    ensures jam.Contents() == old(jam.Contents()).(base := Linked(old(jam.base), old(jam.info.activeMsgs)))
    ensures n == LinkCount(old(jam.base), old(jam.info.activeMsgs))
  {
    hide Sound, LiveIncreasing, LiveOnly, Entries, SameNumbers, Ready, FindLive, Key, Load, Wrote, Differs,
         Before, After, LinkedUpTo, Phantom, Differences;
    ReadyMeans(jam, r);
    ghost var base, total := jam.base, jam.info.activeMsgs;
    ghost var e := Entries(base);
    EntriesInOrder(base);
    LinkStart(base, total);
    var number := FirstNumber(jam, r);
    n := 0;
    var i := 0;
    var again := true;
    while again
      invariant Ready(jam, r) && i <= |e|
      invariant jam.Contents() == old(jam.Contents()).(base := LinkedUpTo(base, total, Low(e, i)))
      invariant n == Differences(base, LinkedUpTo(base, total, Low(e, i))) + if i == 0 then 0 else Phantom(base, total)
      invariant if again then i < |e| && number == e[i].num else i == |e|
      decreases |e| - i, again
    {
      var changed := LinkMessage(jam, link, used, i, number, base, r);
      if changed {
        n := n + 1;
      }
      i := i + 1;
      LinkedSame(base, total, Low(e, i));
      again, number := GoOn(jam, number, base, r, i - 1);
    }
    LinkEnd(base, total);
  }

  method Read(jam: MessageBase, number: U32, ghost r: nat)
    requires Ready(jam, r)
    modifies jam
    ensures Ready(jam, r) && jam.Contents() == old(jam.Contents()) && Holds(jam, number)
  {
    hide Sound, LiveIncreasing, LiveOnly, FindLive, Load;
    ReadyMeans(jam, r);
    var ok := jam.ReadHeader(number);
  }

  /** One turn of the second pass. */
  method LinkMessage(jam: MessageBase, link: array<Entry>, ghost used: nat, i: nat, number: U32,
                     ghost base: seq<Stored>, ghost r: nat) returns (changed: bool)
    requires Ready(jam, r) && jam.info.activeMsgs + 1 == link.Length
    requires base != [] && LiveIncreasing(base) && i < used <= link.Length && link[..used] == Entries(base)
    requires forall m :: used <= m < link.Length ==> link[m] == Entry(0, 0)
    requires number == link[i].num
    requires jam.base == LinkedUpTo(base, jam.info.activeMsgs, Low(link[..used], i))
    modifies jam
    ensures Ready(jam, r)
    ensures jam.Contents() == old(jam.Contents()).(base := LinkedUpTo(base, jam.info.activeMsgs, number))
    ensures Differences(base, jam.base) + (if i == 0 then Phantom(base, jam.info.activeMsgs) else 0)
         == Differences(base, old(jam.base)) + if changed then 1 else 0
  {
    hide Sound, LiveIncreasing, LiveOnly, Entries, SameNumbers, FindLive, Key, Load, Wrote, Differs,
         Before, After, LinkedUpTo, Phantom, Differences, Ready, Holds;
    EntriesInOrder(base);
    Read(jam, number, r);
    var prev, next := FindLinks(link, used, i, link.Length - 1);
    LinkEntry(base, jam.info.activeMsgs, i, prev, next);
    LinkOneFinds(base, jam.info.activeMsgs, Low(link[..used], i), number);
    changed := Store(jam, number, prev, next, r);
  }

  lemma LinkOneFinds(base: seq<Stored>, total: nat, low: int, n: U32)
    requires base != []
    ensures FindLive(LinkedUpTo(base, total, low), n) == FindLive(base, n)
  {
    LinkedSame(base, total, low);
    SameFind(base, LinkedUpTo(base, total, low), n);
  }

  /** Msg_Link on an open area; `locked` is what locking it gave. */
  method LinkArea(jam: MessageBase, locked: bool, ghost r: nat) returns (n: int)
    requires Ready(jam, r)
    modifies jam
    ensures Ready(jam, r)
    ensures jam.Contents()
         == if locked then old(jam.Contents()).(base := Linked(old(jam.base), old(jam.info.activeMsgs)))
            else old(jam.Contents())
    ensures n == if locked || old(jam.info.activeMsgs) == 0 then LinkCount(old(jam.base), old(jam.info.activeMsgs))
            else -1
  {
    hide Ready, LinkedUpTo, Phantom, Differences, LiveIncreasing, LiveOnly, Entries;
    n := 0;
    var total := jam.info.activeMsgs;
    if total != 0 {
      if !locked { return -1; }
      ReadyMeans(jam, r);
      var link := new Entry[total + 1](_ => Entry(0, 0));
      var count := Collect(jam, link, r);
      n := LinkAll(jam, link, count, r);
    }
    Close(jam, r);
  }

  /** Msg_Close: the buffer no longer claims a message. */
  method Close(jam: MessageBase, ghost r: nat)
    requires Ready(jam, r)
    modifies jam`msg
    ensures Ready(jam, r) && jam.Contents() == old(jam.Contents())
  {
    hide Sound;
    jam.msg := jam.msg.(id := 0);
  }
}
