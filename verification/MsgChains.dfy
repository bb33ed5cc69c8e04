/** When linking threads every subject (Msg_Link of lib/msg.c). */
module MsgChains {
  import opened LittleEndian
  import opened JamFormat
  import opened JamModel
  import opened JamOps
  import opened JamPack
  import opened JamRuns
  import opened MsgThreads

  // ----- What a thread is -----

  /** x is the number of the live message with the subject of message p that comes last
      before p in number order; 0 when there is none. */
  predicate IsBack(base: seq<Stored>, p: nat, x: U32)
    requires p < |base|
  {
    var n, key := Num(base[p]), KeyOf(base[p]);
    if x == 0 then forall q :: 0 <= q < |base| && Live(base[q]) && Num(base[q]) < n ==> KeyOf(base[q]) != key
    else
      && x < n && (exists q :: 0 <= q < |base| && Live(base[q]) && Num(base[q]) == x && KeyOf(base[q]) == key)
      && forall q :: 0 <= q < |base| && Live(base[q]) && x < Num(base[q]) < n ==> KeyOf(base[q]) != key
  }

  /** The same for the first one after p. */
  predicate IsOn(base: seq<Stored>, p: nat, x: U32)
    requires p < |base|
  {
    var n, key := Num(base[p]), KeyOf(base[p]);
    if x == 0 then forall q :: 0 <= q < |base| && Live(base[q]) && Num(base[q]) > n ==> KeyOf(base[q]) != key
    else
      && n < x && (exists q :: 0 <= q < |base| && Live(base[q]) && Num(base[q]) == x && KeyOf(base[q]) == key)
      && forall q :: 0 <= q < |base| && Live(base[q]) && n < Num(base[q]) < x ==> KeyOf(base[q]) != key
  }

  predicate ThreadedAt(base: seq<Stored>, p: nat)
    requires p < |base|
  {
    IsBack(base, p, base[p].hdr.replyTo) && IsOn(base, p, base[p].hdr.replyNext)
  }

  /** The live messages of each subject form one chain in number order. */
  predicate Threaded(base: seq<Stored>) {
    forall p :: 0 <= p < |base| && Live(base[p]) ==> ThreadedAt(base, p)
  }

  predicate Positive(base: seq<Stored>) {
    forall p :: 0 <= p < |base| && Live(base[p]) ==> Num(base[p]) > 0
  }

  /** The two links are inverse to each other. */
  lemma LinksInverse(base: seq<Stored>, p: nat, q: nat)
    requires Threaded(base) && Positive(base) && LiveIncreasing(base)
    requires p < |base| && q < |base| && Live(base[p]) && Live(base[q])
    ensures base[p].hdr.replyNext == Num(base[q]) <==> base[q].hdr.replyTo == Num(base[p])
  {
    hide KeyOf;
    assert ThreadedAt(base, p) && ThreadedAt(base, q);
    assert Num(base[p]) == Num(base[q]) ==> p == q;
    if base[p].hdr.replyNext == Num(base[q]) {
      SameKey(base, q, KeyOf(base[p]));
    }
    if base[q].hdr.replyTo == Num(base[p]) {
      SameKey(base, p, KeyOf(base[q]));
    }
  }

  lemma SameKey(base: seq<Stored>, q: nat, key: bv32)
    requires LiveIncreasing(base) && q < |base| && Live(base[q])
    requires exists j :: 0 <= j < |base| && Live(base[j]) && Num(base[j]) == Num(base[q]) && KeyOf(base[j]) == key
    ensures KeyOf(base[q]) == key
  {
    var j :| 0 <= j < |base| && Live(base[j]) && Num(base[j]) == Num(base[q]) && KeyOf(base[j]) == key;
    assert j == q;
  }

  // ----- The searches of the inner loop -----

  predicate BackIn(e: seq<Entry>, n: U32, key: bv32, x: U32) {
    if x == 0 then forall k :: 0 <= k < |e| && e[k].num < n ==> e[k].key != key
    else
      && x < n && Entry(key, x) in e
      && forall k :: 0 <= k < |e| && x < e[k].num < n ==> e[k].key != key
  }

  predicate OnIn(e: seq<Entry>, n: U32, key: bv32, x: U32) {
    if x == 0 then forall k :: 0 <= k < |e| && e[k].num > n ==> e[k].key != key
    else
      && n < x && Entry(key, x) in e
      && forall k :: 0 <= k < |e| && n < e[k].num < x ==> e[k].key != key
  }

  lemma {:induction false} BeforeIs(e: seq<Entry>, n: U32, key: bv32)
    requires InOrder(e) && forall x :: x in e ==> x.num > 0
    ensures BackIn(e, n, key, Before(e, n, key))
  {
    if e != [] {
      var k := |e| - 1;
      BeforeIs(e[..k], n, key);
      assert forall j :: 0 <= j < k ==> e[..k][j] == e[j];
    }
  }

  lemma {:induction false} AfterIs(e: seq<Entry>, n: U32, key: bv32)
    requires InOrder(e)
    ensures OnIn(e, n, key, After(e, n, key))
  {
    if e != [] {
      AfterIs(e[1..], n, key);
      assert forall j :: 0 < j < |e| ==> e[1..][j - 1] == e[j];
    }
  }

  /** A table that has the live messages of p's subject below p, and no other entry of that
      subject there, gives p's link. */
  lemma BackFrom(base: seq<Stored>, e: seq<Entry>, p: nat, x: U32)
    requires p < |base| && BackIn(e, Num(base[p]), KeyOf(base[p]), x)
    requires forall q ::
               0 <= q < |base| && Live(base[q]) && Num(base[q]) < Num(base[p]) && KeyOf(base[q]) == KeyOf(base[p])
               ==> EntryOf(base[q]) in e
    requires forall k :: 0 <= k < |e| && e[k].num < Num(base[p]) && e[k].key == KeyOf(base[p]) ==> OfLive(base, e[k])
    ensures IsBack(base, p, x)
  {
    hide KeyOf;
    if x != 0 {
      assert OfLive(base, Entry(KeyOf(base[p]), x));
    }
  }

  lemma OnFrom(base: seq<Stored>, e: seq<Entry>, p: nat, x: U32)
    requires p < |base| && OnIn(e, Num(base[p]), KeyOf(base[p]), x)
    requires forall q ::
               0 <= q < |base| && Live(base[q]) && Num(base[q]) > Num(base[p]) && KeyOf(base[q]) == KeyOf(base[p])
               ==> EntryOf(base[q]) in e
    requires forall k :: 0 <= k < |e| && e[k].num > Num(base[p]) && e[k].key == KeyOf(base[p]) ==> OfLive(base, e[k])
    ensures IsOn(base, p, x)
  {
    hide KeyOf;
    if x != 0 {
      assert OfLive(base, Entry(KeyOf(base[p]), x));
    }
  }

  // ----- The first indexed number belongs to a live message -----

  predicate FirstLive(base: seq<Stored>)
    requires base != []
  {
    FindLive(base, Num(base[0])).Some?
  }

  /** No live message is numbered below the first indexed one; every run keeps it so. */
  predicate FirstLeast(base: seq<Stored>) {
    base != [] ==> Num(base[0]) > 0 && forall p :: 0 <= p < |base| && Live(base[p]) ==> Num(base[p]) >= Num(base[0])
  }

  lemma {:induction false} AboveCount(base: seq<Stored>, n: U32)
    requires LiveIncreasing(base)
    requires forall p :: 0 <= p < |base| && Live(base[p]) ==> Num(base[p]) >= n
    ensures |Above(base, n)| == |LiveOnly(base)| - if FindLive(base, n).Some? then 1 else 0
  {
    if base != [] {
      hide LiveIncreasing, Live, LiveOnly;
      var k := |base| - 1;
      Shorter(base, k);
      AboveCount(base[..k], n);
      assert base[..k + 1] == base;
      LiveStep(base, k);
      if FindLive(base[..k], n).Some? {
        NotTwice(base, k, n);
      }
    }
  }

  lemma Shorter(base: seq<Stored>, k: nat)
    requires LiveIncreasing(base) && k <= |base|
    ensures LiveIncreasing(base[..k])
  {
  }

  lemma NotTwice(base: seq<Stored>, k: nat, n: U32)
    requires LiveIncreasing(base) && k < |base| && FindLive(base[..k], n).Some?
    ensures !IsLiveNumber(base[k], n)
  {
    var j := FindLive(base[..k], n).value;
    assert base[..k][j] == base[j];
  }

  /** The table has exactly one entry per live message when the first number is live, and
      one more when it is not. */
  lemma TableSize(base: seq<Stored>)
    requires base != [] && LiveIncreasing(base) && FirstLeast(base)
    ensures |Entries(base)| == |LiveOnly(base)| + if FirstLive(base) then 0 else 1
  {
    AboveCount(base, Num(base[0]));
  }

  lemma EntriesPositive(base: seq<Stored>)
    requires base != [] && LiveIncreasing(base) && FirstLeast(base)
    ensures forall x :: x in Entries(base) ==> x.num > 0
  {
    hide FirstKey, KeyOf;
  }

  /** When the first indexed number is that of a live message, every thread is one chain. */
  lemma LinkedAt(base: seq<Stored>, p: nat)
    requires base != [] && LiveIncreasing(base) && FirstLeast(base) && FirstLive(base)
    requires p < |base| && Live(base[p])
    ensures ThreadedAt(Linked(base, |LiveOnly(base)|), p)
  {
    hide KeyOf, LiveOnly, Entries, Before, After, BackIn, OnIn, IsBack, IsOn, OfLive, EntryOf, FindLive, Above;
    var total := |LiveOnly(base)|;
    var e := Entries(base);
    TableSize(base);
    EntriesInOrder(base);
    EntriesPositive(base);
    assert Scanned(base, total) == e[..total] == e;
    forall q | 0 <= q < |base| && Live(base[q])
      ensures EntryOf(base[q]) in e
    {
      EntriesHave(base, q);
    }
    forall k | 0 <= k < |e|
      ensures OfLive(base, e[k])
    {
      EntriesLive(base, k);
    }
    var n, key := Num(base[p]), KeyOf(base[p]);
    BeforeIs(e, n, key);
    AfterIs(e, n, key);
    BackFrom(base, e, p, Before(e, n, key));
    OnFrom(base, e, p, After(e, n, key));
    LinkMoves(base, total, p, Before(e, n, key), After(e, n, key));
  }

  lemma LivePositive(base: seq<Stored>, p: nat)
    requires p < |base| && Live(base[p])
    ensures |LiveOnly(base)| > 0
  {
    LiveOnlyPositions(base);
    assert p in LivePositions(base);
  }

  /** The links of message p as Linked stores them, and what they mean there. */
  lemma LinkMoves(base: seq<Stored>, total: nat, p: nat, back: U32, on: U32)
    requires total == |LiveOnly(base)| && FirstLeast(base) && p < |base| && Live(base[p])
    requires back == Before(Scanned(base, total), Num(base[p]), KeyOf(base[p]))
    requires on == After(Scanned(base, total), Num(base[p]), KeyOf(base[p]))
    ensures Live(Linked(base, total)[p])
    ensures ThreadedAt(Linked(base, total), p) <==> IsBack(base, p, back) && IsOn(base, p, on)
  {
    hide KeyOf, LiveOnly, Scanned, Before, After, IsBack, IsOn, Relink, EntryOf;
    LivePositive(base, p);
    LinkedSame(base, total, TOP);
    RelinkLive(base[p].hdr, back, on);
    SameLinks(base, Linked(base, total), p, back, on);
  }

  lemma SameLinks(a: seq<Stored>, b: seq<Stored>, p: nat, back: U32, on: U32)
    requires SameNumbers(a, b) && p < |a|
    ensures IsBack(a, p, back) <==> IsBack(b, p, back)
    ensures IsOn(a, p, on) <==> IsOn(b, p, on)
  {
    forall q | 0 <= q < |a|
      ensures KeyOf(a[q]) == KeyOf(b[q])
    {
    }
    hide KeyOf;
  }

  // ----- The first indexed number belongs to no live message -----

  predicate IsLast(base: seq<Stored>, q: nat)
    requires q < |base|
  {
    Live(base[q]) && forall j :: 0 <= j < |base| && Live(base[j]) ==> Num(base[j]) <= Num(base[q])
  }

  /** No live message has the key of the empty subject, and none shares that of the last one. */
  predicate Unaffected(base: seq<Stored>) {
    forall p :: 0 <= p < |base| && Live(base[p]) ==>
      && KeyOf(base[p]) != Key("")
      && forall q :: 0 <= q < |base| && IsLast(base, q) && Num(base[p]) < Num(base[q]) ==>
        KeyOf(base[p]) != KeyOf(base[q])
  }

  /** The table then starts with an entry of no message and its last entry is never looked at. */
  lemma PhantomTable(base: seq<Stored>) returns (e: seq<Entry>)
    requires base != [] && LiveIncreasing(base) && FirstLeast(base) && !FirstLive(base) && LiveOnly(base) != []
    ensures e == Scanned(base, |LiveOnly(base)|) && InOrder(e) && |e| > 0 && e[0] == Entry(Key(""), Num(base[0]))
    ensures forall x :: x in e ==> x.num > 0
    ensures forall k :: 0 < k < |e| ==> OfLive(base, e[k])
    ensures forall q :: 0 <= q < |base| && Live(base[q]) ==> EntryOf(base[q]) in e || IsLast(base, q)
    ensures forall q :: 0 <= q < |base| && IsLast(base, q) ==> forall x :: x in e ==> x.num < Num(base[q])
  {
    hide KeyOf, LiveOnly, Above, FindLive, Key, Entries, OfLive, EntryOf, Live, LiveIncreasing, FirstLeast, IsLast;
    var all := Entries(base);
    TableSize(base);
    EntriesInOrder(base);
    EntriesPositive(base);
    FirstEntry(base);
    e := all[..|LiveOnly(base)|];
    forall k | 0 < k < |all|
      ensures OfLive(base, all[k])
    {
      EntriesLive(base, k);
    }
    forall q | 0 <= q < |base| && Live(base[q])
      ensures EntryOf(base[q]) in all
    {
      HasLive(base, q);
    }
    PhantomLast(base, all);
  }

  lemma FirstEntry(base: seq<Stored>)
    requires base != [] && !FirstLive(base)
    ensures Entries(base)[0] == Entry(Key(""), Num(base[0]))
  {
    hide Key;
  }

  lemma HasLive(base: seq<Stored>, q: nat)
    requires base != [] && LiveIncreasing(base) && FirstLeast(base) && q < |base| && Live(base[q])
    ensures EntryOf(base[q]) in Entries(base)
  {
    hide Entries, EntryOf;
    EntriesHave(base, q);
  }

  lemma PhantomLast(base: seq<Stored>, all: seq<Entry>)
    requires InOrder(all) && |all| > 1 && OfLive(base, all[|all| - 1])
    requires forall j :: 0 <= j < |base| && Live(base[j]) ==> EntryOf(base[j]) in all
    ensures var e := all[..|all| - 1];
            && (forall q :: 0 <= q < |base| && Live(base[q]) ==> EntryOf(base[q]) in e || IsLast(base, q))
            && (forall q :: 0 <= q < |base| && IsLast(base, q) ==> forall x :: x in e ==> x.num < Num(base[q]))
  {
    hide KeyOf;
    var e, z := all[..|all| - 1], all[|all| - 1];
    forall q | 0 <= q < |base| && Live(base[q])
      ensures Num(base[q]) <= z.num && (EntryOf(base[q]) in e || EntryOf(base[q]) == z)
    {
      var k :| 0 <= k < |all| && all[k] == EntryOf(base[q]);
      if k < |e| {
        assert e[k] == all[k];
      }
    }
    var p :| 0 <= p < |base| && Live(base[p]) && z == EntryOf(base[p]);
  }

  /** From an unaffected list, the links found are right all the same. */
  lemma UnaffectedAt(base: seq<Stored>, p: nat)
    requires base != [] && LiveIncreasing(base) && FirstLeast(base) && !FirstLive(base) && Unaffected(base)
    requires p < |base| && Live(base[p])
    ensures ThreadedAt(Linked(base, |LiveOnly(base)|), p)
  {
    hide KeyOf, Key, LiveOnly, Entries, Scanned, Before, After, BackIn, OnIn, IsBack, IsOn, OfLive, EntryOf, FindLive;
    LivePositive(base, p);
    var e := PhantomTable(base);
    var n, key := Num(base[p]), KeyOf(base[p]);
    BeforeIs(e, n, key);
    AfterIs(e, n, key);
    BackFrom(base, e, p, Before(e, n, key));
    OnFrom(base, e, p, After(e, n, key));
    LinkMoves(base, |LiveOnly(base)|, p, Before(e, n, key), After(e, n, key));
  }

  /** What message p's stored links are, and that they thread it. */
  lemma StoredLinks(base: seq<Stored>, p: nat)
    requires FirstLeast(base) && p < |base| && Live(base[p]) && Threaded(Linked(base, |LiveOnly(base)|))
    ensures var e := Scanned(base, |LiveOnly(base)|);
            && IsBack(base, p, Before(e, Num(base[p]), KeyOf(base[p])))
            && IsOn(base, p, After(e, Num(base[p]), KeyOf(base[p])))
  {
    hide KeyOf, LiveOnly, Scanned, Before, After, IsBack, IsOn, Linked;
    var e := Scanned(base, |LiveOnly(base)|);
    LinkMoves(base, |LiveOnly(base)|, p, Before(e, Num(base[p]), KeyOf(base[p])),
      After(e, Num(base[p]), KeyOf(base[p])));
  }

  /** A message with the empty key would link back for ever. */
  lemma NoEmptyKey(base: seq<Stored>, p: nat)
    requires base != [] && LiveIncreasing(base) && FirstLeast(base) && !FirstLive(base)
    requires Threaded(Linked(base, |LiveOnly(base)|)) && p < |base| && Live(base[p])
    ensures KeyOf(base[p]) != Key("")
    decreases Num(base[p])
  {
    hide KeyOf, Key, LiveOnly, Scanned, Before, After, OnIn, IsOn, Linked, FindLive, LiveIncreasing, Threaded;
    if KeyOf(base[p]) == Key("") {
      LivePositive(base, p);
      var e := PhantomTable(base);
      var n, key := Num(base[p]), KeyOf(base[p]);
      NotFirst(base, p);
      BeforeIs(e, n, key);
      StoredLinks(base, p);
      var q :| 0 <= q < |base| && Live(base[q]) && Num(base[q]) == Before(e, n, key) && KeyOf(base[q]) == key;
      NoEmptyKey(base, q);
    }
  }

  lemma NotFirst(base: seq<Stored>, p: nat)
    requires base != [] && FirstLeast(base) && !FirstLive(base) && p < |base| && Live(base[p])
    ensures Num(base[p]) > Num(base[0])
  {
    assert !IsLiveNumber(base[p], Num(base[0]));
  }

  /** A message with the last one's key would link on for ever. */
  lemma NoLastMate(base: seq<Stored>, p: nat, z: nat)
    requires base != [] && LiveIncreasing(base) && FirstLeast(base) && !FirstLive(base)
    requires Threaded(Linked(base, |LiveOnly(base)|))
    requires p < |base| && Live(base[p]) && z < |base| && IsLast(base, z) && Num(base[p]) < Num(base[z])
    ensures KeyOf(base[p]) != KeyOf(base[z])
    decreases Num(base[z]) - Num(base[p])
  {
    hide KeyOf, Key, LiveOnly, Scanned, Before, After, BackIn, IsBack, Linked, FindLive, LiveIncreasing, FirstLeast,
         Threaded;
    if KeyOf(base[p]) == KeyOf(base[z]) {
      LivePositive(base, p);
      var e := PhantomTable(base);
      var n, key := Num(base[p]), KeyOf(base[p]);
      AfterIs(e, n, key);
      StoredLinks(base, p);
      var on := After(e, n, key);
      assert on != 0;
      var q :| 0 <= q < |base| && Live(base[q]) && Num(base[q]) == on && KeyOf(base[q]) == key;
      NoLastMate(base, q, z);
    }
  }

  /** Linking threads every subject exactly when the first indexed number is that of a live
      message, or no live message has the key of an empty subject and none shares the last
      one's: otherwise the table holds an entry of no message and one entry too many. */
  lemma LinkExactly(base: seq<Stored>)
    requires base != [] && LiveIncreasing(base) && FirstLeast(base)
    ensures Threaded(Linked(base, |LiveOnly(base)|)) <==> FirstLive(base) || Unaffected(base)
  {
    hide KeyOf, Key, LiveOnly, FindLive, LiveIncreasing, FirstLeast, ThreadedAt, IsLast, FirstLive;
    var b := Linked(base, |LiveOnly(base)|);
    if FirstLive(base) || Unaffected(base) {
      forall p | 0 <= p < |b| && Live(b[p])
        ensures ThreadedAt(b, p)
      {
        LinkedLive(base, |LiveOnly(base)|, p);
        if FirstLive(base) {
          LinkedAt(base, p);
        } else {
          UnaffectedAt(base, p);
        }
      }
    } else if Threaded(b) {
      forall p | 0 <= p < |base| && Live(base[p])
        ensures KeyOf(base[p]) != Key("")
        ensures forall q :: 0 <= q < |base| && IsLast(base, q) && Num(base[p]) < Num(base[q]) ==>
                KeyOf(base[p]) != KeyOf(base[q])
      {
        NoEmptyKey(base, p);
        forall q | 0 <= q < |base| && IsLast(base, q) && Num(base[p]) < Num(base[q])
          ensures KeyOf(base[p]) != KeyOf(base[q])
        {
          NoLastMate(base, p, q);
        }
      }
    }
  }

  lemma LinkedLive(base: seq<Stored>, total: nat, p: nat)
    requires p < |base|
    ensures Live(Linked(base, total)[p]) <==> Live(base[p])
    ensures SameNumbers(base, Linked(base, total))
  {
    hide Live, Num;
    if total != 0 && base != [] {
      LinkedSame(base, total, TOP);
    }
  }

  // ----- Linking twice -----

  lemma {:induction false} SameAbove(a: seq<Stored>, b: seq<Stored>, n: U32)
    requires SameNumbers(a, b)
    ensures Above(a, n) == Above(b, n) && |LiveOnly(a)| == |LiveOnly(b)|
  {
    if a != [] {
      var k := |a| - 1;
      SameAbove(a[..k], b[..k], n);
      assert Num(a[k]) == Num(b[k]);
    }
  }

  lemma SameEntries(a: seq<Stored>, b: seq<Stored>)
    requires a != [] && SameNumbers(a, b)
    ensures Entries(a) == Entries(b)
  {
    hide Key, LoadSubs, LiveOnly, Above, FindLive;
    SameAbove(a, b, Num(a[0]));
    SameFind(a, b, Num(a[0]));
    assert Num(a[0]) == Num(b[0]);
    assert forall p :: 0 <= p < |a| ==> EntryOf(a[p]) == EntryOf(b[p]);
  }

  lemma RelinkTwice(h: JamHdr, prev: U32, next: U32)
    ensures Relink(Relink(h, prev, next), prev, next) == Relink(h, prev, next)
  {
    hide Relink;
    RelinkLive(h, prev, next);
    RelinkLive(Relink(h, prev, next), prev, next);
  }

  /** A second run changes no message, and returns 0 unless an entry of no message is
      counted each time. */
  lemma LinkTwice(base: seq<Stored>, total: nat)
    requires base != [] && total > 0
    ensures Linked(Linked(base, total), total) == Linked(base, total)
    ensures LinkCount(Linked(base, total), total) == Phantom(base, total)
    ensures FirstLive(base) ==> LinkCount(Linked(base, total), total) == 0
  {
    hide KeyOf, Key, LiveOnly, Before, After, Relink, Entries;
    var b := Linked(base, total);
    LinkedSame(base, total, TOP);
    SameEntries(base, b);
    SameFind(base, b, Num(base[0]));
    assert Num(base[0]) == Num(b[0]);
    var e := Scanned(base, total);
    assert Scanned(b, total) == e;
    forall p | 0 <= p < |b|
      ensures Linked(b, total)[p] == b[p]
    {
      LinkKeeps(e, Num(base[0]), TOP, base[p]);
      RelinkTwice(base[p].hdr, Before(e, Num(base[p]), KeyOf(base[p])), After(e, Num(base[p]), KeyOf(base[p])));
    }
    assert Linked(b, total) == b;
    DifferencesNone(b, Linked(b, total));
  }
}
