/** What linking the messages of an area by subject makes of its headers (Msg_Link of lib/msg.c). */
module MsgThreads {
  import opened Seqs
  import opened LittleEndian
  import opened JamFormat
  import opened JamModel
  import opened JamOps
  import opened JamRuns
  import opened JamFiles
  import Crc32

  // ----- Subjects -----

  /** The subject without its "RE:" and one space behind that. */
  function Bare(p: string): string {
    if "RE:" <= p then
      if " " <= p[3..] then p[4..] else p[3..]
    else p
  }

  function Byte(c: char): bv8 {
    (c as int % 256) as bv8
  }

  function Bytes(s: string): (b: seq<bv8>)
    ensures |b| == |s|
  {
    seq(|s|, i requires 0 <= i < |s| => Byte(s[i]))
  }

  function Key(subject: string): bv32 {
    Crc32.Register(0xffffffff, Bytes(Bare(UpperCase(subject))))
  }

  // ----- Which subjects have one key -----

  /** The same letter, in whatever case, or the same character. */
  predicate SameLetter(c: char, d: char) {
    c == d || ('a' <= c <= 'z' && d as int == c as int - 32) || ('a' <= d <= 'z' && c as int == d as int - 32)
  }

  predicate SameButCase(s: string, t: string) {
    |s| == |t| && forall i :: 0 <= i < |s| ==> SameLetter(s[i], t[i])
  }

  lemma {:induction false} SameUpper(s: string, t: string)
    requires SameButCase(s, t)
    ensures UpperCase(s) == UpperCase(t)
  {
    if s != "" {
      assert SameLetter(s[0], t[0]);
      assert forall i :: 0 <= i < |s[1..]| ==> SameLetter(s[1..][i], t[1..][i]) by {
        assert forall i :: 0 <= i < |s[1..]| ==> s[1..][i] == s[i + 1] && t[1..][i] == t[i + 1];
      }
      SameUpper(s[1..], t[1..]);
    }
  }

  /** Subjects that differ in letter case only have one key. */
  lemma CaseDoesNotMatter(s: string, t: string)
    requires SameButCase(s, t)
    ensures Key(s) == Key(t)
  {
    SameUpper(s, t);
  }

  /** "Re:", in any mixture of cases. */
  predicate IsRe(r: string) {
    SameButCase(r, "RE:")
  }

  lemma {:induction false} UpperConcat(s: string, t: string)
    requires '\0' !in s
    ensures UpperCase(s + t) == UpperCase(s) + UpperCase(t) && |UpperCase(s)| == |s|
  {
    if s == "" {
      assert s + t == t;
    } else {
      UpperConcat(s[1..], t);
      assert (s + t)[1..] == s[1..] + t;
    }
  }

  lemma {:induction false} UpperLength(s: string)
    ensures |UpperCase(s)| <= |s|
    ensures forall i :: 0 <= i < |UpperCase(s)| ==> UpperCase(s)[i] == ToUpper(s[i])
  {
    if s != "" && s[0] != '\0' {
      UpperLength(s[1..]);
      assert forall i :: 0 < i < |UpperCase(s)| ==>
        UpperCase(s)[i] == UpperCase(s[1..])[i - 1] && s[i] == s[1..][i - 1];
    }
  }

  lemma ReUpper(r: string, s: string)
    requires IsRe(r)
    ensures UpperCase(r + s) == "RE:" + UpperCase(s)
  {
    SameUpper(r, "RE:");
    assert SameLetter(r[0], 'R') && SameLetter(r[1], 'E') && SameLetter(r[2], ':');
    UpperConcat(r, s);
    UpperStays("RE:");
  }

  lemma BareReply(u: string)
    ensures Bare("RE:" + (" " + u)) == u
    ensures !(" " <= u) ==> Bare("RE:" + u) == u
    ensures !("RE:" <= u) ==> Bare(u) == u
  {
    var re := "RE:";
    var su := " " + u;
    assert re <= re + su && (re + su)[3..] == su && (re + su)[4..] == u;
    assert re <= re + u && (re + u)[3..] == u;
  }

  lemma SpaceUpper(s: string)
    ensures UpperCase(" " + s) == " " + UpperCase(s)
    ensures " " <= UpperCase(s) ==> " " <= s
  {
    UpperConcat(" ", s);
    UpperStays(" ");
    UpperLength(s);
  }

  /** A subject that is no reply has the key of its replies, "Re:" in any case before it, with a
      space between or, when it does not begin with one itself, without. */
  lemma ReplySameKey(r: string, s: string)
    requires IsRe(r) && !("RE:" <= UpperCase(s))
    ensures Key(r + " " + s) == Key(s)
    ensures !(" " <= s) ==> Key(r + s) == Key(s)
  {
    hide Bare, UpperCase, IsRe;
    assert r + " " + s == r + (" " + s);
    ReUpper(r, " " + s);
    ReUpper(r, s);
    SpaceUpper(s);
    BareReply(UpperCase(s));
  }

  /** A text in capitals that does not begin with "RE:" is itself what the checksum is taken of. */
  lemma KeyOfCapitals(s: string)
    requires !("RE:" <= s) && forall k :: 0 <= k < |s| ==> s[k] != '\0' && !('a' <= s[k] <= 'z')
    ensures Key(s) == Crc32.Register(0xffffffff, Bytes(s))
  {
    UpperStays(s);
  }

  /** The subject JAM_ReadHeader leaves in the buffer. */
  function Subject(s: Stored): string {
    LoadSubs(EMPTY_MSG, s.subs).subject
  }

  function KeyOf(s: Stored): bv32 {
    Key(Subject(s))
  }

  // ----- The table of subjects -----

  datatype Entry = Entry(key: bv32, num: U32)

  function EntryOf(s: Stored): Entry {
    Entry(KeyOf(s), Num(s))
  }

  /** The index positions of the live messages numbered above n. */
  function Above(base: seq<Stored>, n: U32): (ps: seq<nat>)
    ensures forall k :: 0 <= k < |ps| ==> ps[k] < |base| && Live(base[ps[k]]) && Num(base[ps[k]]) > n
    ensures forall j, k :: 0 <= j < k < |ps| ==> ps[j] < ps[k]
    ensures forall i :: 0 <= i < |base| && Live(base[i]) && Num(base[i]) > n ==> i in ps
  {
    if base == [] then []
    else
      var k := |base| - 1;
      Above(base[..k], n) + (if Live(base[k]) && Num(base[k]) > n then [k] else [])
  }

  /** The key read under the first indexed number: of the live message with that number, or
      of an empty buffer when there is none. */
  function FirstKey(base: seq<Stored>): bv32
    requires base != []
  {
    var f := FindLive(base, Num(base[0]));
    if f.Some? then KeyOf(base[f.value]) else Key("")
  }

  function Entries(base: seq<Stored>): seq<Entry>
    requires base != []
  {
    var ps := Above(base, Num(base[0]));
    [Entry(FirstKey(base), Num(base[0]))]
    + seq(|ps|, k requires 0 <= k < |ps| => EntryOf(base[ps[k]]))
  }

  /** The first k entries of the table, or all there are. */
  function Used(e: seq<Entry>, k: nat): seq<Entry> {
    if k <= |e| then e[..k] else e
  }

  /** The entries the inner loop looks at: those below the number of active messages. */
  function Scanned(base: seq<Stored>, total: nat): seq<Entry>
    requires base != []
  {
    Used(Entries(base), total)
  }

  // ----- Links -----

  /** The number of the last entry with this key numbered below n, or 0. */
  function Before(e: seq<Entry>, n: U32, key: bv32): U32 {
    if e == [] then 0
    else
      var k := |e| - 1;
      if e[k].num < n && e[k].key == key then e[k].num else Before(e[..k], n, key)
  }

  /** The number of the first entry with this key numbered above n, or 0. */
  function After(e: seq<Entry>, n: U32, key: bv32): U32 {
    if e == [] then 0
    else if e[0].num > n && e[0].key == key then e[0].num
    else After(e[1..], n, key)
  }

  /** Storing two links; when one changes, JAM_WriteHeader also drops what the buffer does
      not carry. */
  function Relink(h: JamHdr, prev: U32, next: U32): JamHdr {
    if h.replyTo == prev && h.replyNext == next then h
    else h.(attribute := OrFlags(OnlyDeleted(h.attribute), GetFlags(h.attribute)),
            replyTo := prev, replyNext := next, msgIdCRC := 0, replyCRC := 0)
  }

  /** Message s once the messages numbered up to `top` are linked. */
  function Link(e: seq<Entry>, first: U32, top: int, s: Stored): Stored {
    if Live(s) && first <= Num(s) <= top then
      s.(hdr := Relink(s.hdr, Before(e, Num(s), KeyOf(s)), After(e, Num(s), KeyOf(s))))
    else s
  }

  function LinkedUpTo(base: seq<Stored>, total: nat, top: int): (r: seq<Stored>)
    requires base != []
    ensures |r| == |base|
  {
    seq(|base|, p requires 0 <= p < |base| => Link(Scanned(base, total), Num(base[0]), top, base[p]))
  }

  const TOP: int := 0xffffffff

  /** The messages after Msg_Link. */
  function Linked(base: seq<Stored>, total: nat): (r: seq<Stored>)
    ensures |r| == |base|
  {
    if total == 0 || base == [] then base else LinkedUpTo(base, total, TOP)
  }

  /** How many positions differ. */
  function Differences<T(==)>(a: seq<T>, b: seq<T>): nat
    requires |a| == |b|
  {
    if a == [] then 0
    else
      var k := |a| - 1;
      Differences(a[..k], b[..k]) + if a[k] == b[k] then 0 else 1
  }

  /** An entry without a message counts as linked when another entry shares the key of the
      empty subject. */
  function Phantom(base: seq<Stored>, total: nat): nat
    requires base != []
  {
    if FindLive(base, Num(base[0])).None? && After(Scanned(base, total), Num(base[0]), Key("")) != 0 then 1 else 0
  }

  /** What Msg_Link returns. */
  function LinkCount(base: seq<Stored>, total: nat): nat {
    if total == 0 || base == [] then 0
    else Differences(base, Linked(base, total)) + Phantom(base, total)
  }

  // ----- The table lists the live messages -----

  predicate InOrder(e: seq<Entry>) {
    forall j, k :: 0 <= j < k < |e| ==> e[j].num < e[k].num
  }

  /** Entry x is that of some live message. */
  predicate OfLive(base: seq<Stored>, x: Entry) {
    exists p :: 0 <= p < |base| && Live(base[p]) && x == EntryOf(base[p])
  }

  lemma {:induction false} AboveFew(base: seq<Stored>, n: U32)
    ensures |Above(base, n)| <= |LiveOnly(base)|
  {
    if base != [] {
      AboveFew(base[..|base| - 1], n);
    }
  }

  /** The table starts with the first number; the numbers increase; and one place more than
      there are active messages is enough. */
  lemma EntriesInOrder(base: seq<Stored>)
    requires base != [] && LiveIncreasing(base)
    ensures InOrder(Entries(base)) && 0 < |Entries(base)| <= |LiveOnly(base)| + 1
    ensures Entries(base)[0].num == Num(base[0])
  {
    hide KeyOf, LiveOnly, LiveIncreasing, Live, Entries, EntryOf;
    AboveFew(base, Num(base[0]));
    var e, ps := Entries(base), Above(base, Num(base[0]));
    EntriesAt(base);
    forall j, k | 0 <= j < k < |e|
      ensures e[j].num < e[k].num
    {
      if j > 0 {
        LiveLess(base, ps[j - 1], ps[k - 1]);
      }
    }
  }

  lemma EntriesAt(base: seq<Stored>)
    requires base != []
    ensures var e, ps := Entries(base), Above(base, Num(base[0]));
            && |e| == |ps| + 1 && e[0].num == Num(base[0])
            && forall k :: 0 < k < |e| ==> e[k].num == Num(base[ps[k - 1]])
  {
    hide KeyOf, FirstKey, Live, Above;
  }

  lemma LiveLess(base: seq<Stored>, i: nat, j: nat)
    requires LiveIncreasing(base) && i < j < |base| && Live(base[i]) && Live(base[j])
    ensures Num(base[i]) < Num(base[j])
  {
  }

  /** Every live message from the first number on is in the table. */
  lemma EntriesHave(base: seq<Stored>, p: nat)
    requires base != [] && LiveIncreasing(base) && p < |base| && Live(base[p]) && Num(base[p]) >= Num(base[0])
    ensures EntryOf(base[p]) in Entries(base)
  {
    hide KeyOf, FindLive, LiveIncreasing;
    var e, ps := Entries(base), Above(base, Num(base[0]));
    if Num(base[p]) == Num(base[0]) {
      OnlyLive(base, p);
      assert e[0] == EntryOf(base[p]);
    } else {
      var k :| 0 <= k < |ps| && ps[k] == p;
      assert e[k + 1] == EntryOf(base[p]);
    }
  }

  /** Only the first entry can be that of no live message. */
  lemma EntriesLive(base: seq<Stored>, k: nat)
    requires base != [] && k < |Entries(base)|
    requires k == 0 ==> FindLive(base, Num(base[0])).Some?
    ensures OfLive(base, Entries(base)[k])
  {
    hide KeyOf;
    var ps := Above(base, Num(base[0]));
    if k > 0 {
      assert Entries(base)[k] == EntryOf(base[ps[k - 1]]);
    }
  }

  lemma OnlyLive(base: seq<Stored>, p: nat)
    requires LiveIncreasing(base) && p < |base| && Live(base[p])
    ensures FindLive(base, Num(base[p])) == Some(p)
  {
    var f := FindLive(base, Num(base[p]));
    assert IsLiveNumber(base[p], Num(base[p]));
  }

  // ----- Reading the table -----

  lemma {:induction false} AfterLast(e: seq<Entry>, x: Entry, n: U32, key: bv32)
    ensures After(e + [x], n, key)
         == if After(e, n, key) != 0 then After(e, n, key) else if x.num > n && x.key == key then x.num else 0
  {
    if e == [] {
      assert (e + [x])[1..] == [];
    } else {
      assert (e + [x])[1..] == e[1..] + [x];
      AfterLast(e[1..], x, n, key);
    }
  }

  lemma AfterStep(e: seq<Entry>, k: nat, n: U32, key: bv32)
    requires k < |e|
    ensures After(e[..k + 1], n, key)
         == if After(e[..k], n, key) != 0 then After(e[..k], n, key)
            else if e[k].num > n && e[k].key == key then e[k].num else 0
  {
    assert e[..k + 1] == e[..k] + [e[k]];
    AfterLast(e[..k], e[k], n, key);
  }

  lemma BeforeStep(e: seq<Entry>, k: nat, n: U32, key: bv32)
    requires k < |e|
    ensures Before(e[..k + 1], n, key)
         == if e[k].num < n && e[k].key == key then e[k].num else Before(e[..k], n, key)
  {
    assert e[..k + 1][..k] == e[..k];
  }

  /** Once a successor is found, no later entry changes either link. */
  lemma {:induction false} FoundStays(e: seq<Entry>, i: nat, k: nat, t: nat, key: bv32)
    requires InOrder(e) && i < k <= t <= |e| && After(e[..k], e[i].num, key) != 0
    ensures After(e[..t], e[i].num, key) == After(e[..k], e[i].num, key)
    ensures Before(e[..t], e[i].num, key) == Before(e[..k], e[i].num, key)
    decreases t
  {
    if k < t {
      FoundStays(e, i, k, t - 1, key);
      AfterStep(e, t - 1, e[i].num, key);
      BeforeStep(e, t - 1, e[i].num, key);
    }
  }

  // ----- Linking one message -----

  lemma {:induction false} SameLoad(m: MsgBuf, m': MsgBuf, subs: seq<Subfield>)
    requires m.subject == m'.subject
    ensures LoadSubs(m, subs).subject == LoadSubs(m', subs).subject
    ensures var r := LoadSubs(m, subs);
            && r.id == m.id && r.flags == m.flags && r.read == m.read && r.original == m.original && r.reply == m.reply
            && r.msgIdCRC == m.msgIdCRC && r.replyCRC == m.replyCRC
  {
    if subs != [] {
      SameLoad(m, m', subs[..|subs| - 1]);
    }
  }

  /** What Msg_Link uses of a header it read. */
  lemma LoadedFor(n: U32, s: Stored)
    ensures Load(n, s).subject == Subject(s)
    ensures Load(n, s).original == s.hdr.replyTo && Load(n, s).reply == s.hdr.replyNext
    ensures Load(n, s).flags == GetFlags(s.hdr.attribute)
    ensures Load(n, s).read == s.hdr.dateReceived
    ensures Load(n, s).msgIdCRC == 0 && Load(n, s).replyCRC == 0
    ensures Load(n, s).id == n
  {
    hide LoadSubs, GetFlags;
    SameLoad(LoadHdr(n, s.hdr), EMPTY_MSG, s.subs);
  }

  /** Writing the header back with two other links. */
  lemma RewriteLinks(n: U32, s: Stored, prev: U32, next: U32)
    requires s.hdr.replyTo != prev || s.hdr.replyNext != next
    ensures Rewrite(s.hdr, Load(n, s).(original := prev, reply := next)) == Relink(s.hdr, prev, next)
  {
    hide OrFlags, GetFlags, OnlyDeleted, Load;
    LoadedFor(n, s);
  }

  lemma RelinkLive(h: JamHdr, prev: U32, next: U32)
    ensures Relink(h, prev, next).attribute[DELETED_BIT] == h.attribute[DELETED_BIT]
    ensures Relink(h, prev, next).msgNum == h.msgNum
    ensures Relink(h, prev, next).replyTo == prev && Relink(h, prev, next).replyNext == next
    ensures Relink(h, prev, next) == h <==> h.replyTo == prev && h.replyNext == next
  {
  }

  /** Linking changes no number, subject or text and deletes nothing. */
  lemma LinkKeeps(e: seq<Entry>, first: U32, top: int, s: Stored)
    ensures var r := Link(e, first, top, s);
            Num(r) == Num(s) && r.subs == s.subs && r.text == s.text && (Live(r) <==> Live(s))
    ensures KeyOf(Link(e, first, top, s)) == KeyOf(s)
  {
    hide Before, After, Relink, Key, LoadSubs;
    RelinkLive(s.hdr, Before(e, Num(s), KeyOf(s)), After(e, Num(s), KeyOf(s)));
  }

  /** Linking changes no flag of a message. */
  lemma LinkKeepsFlags(e: seq<Entry>, first: U32, top: int, s: Stored)
    ensures GetFlags(Link(e, first, top, s).hdr.attribute) == GetFlags(s.hdr.attribute)
  {
    hide Before, After, Key, LoadSubs, OrFlags, GetFlags;
    if Live(s) {
      assert OnlyDeleted(s.hdr.attribute) == NoBits();
      FlagsBack(GetFlags(s.hdr.attribute));
    }
  }

  /** Two lists of messages with the same numbers, subjects and live positions. */
  predicate SameNumbers(a: seq<Stored>, b: seq<Stored>) {
    |a| == |b| && forall p :: 0 <= p < |a| ==>
      Num(a[p]) == Num(b[p]) && (Live(a[p]) <==> Live(b[p])) && a[p].subs == b[p].subs && a[p].text == b[p].text
  }

  lemma LinkedSame(base: seq<Stored>, total: nat, top: int)
    requires base != []
    ensures SameNumbers(base, LinkedUpTo(base, total, top))
  {
    hide Link, Live, Num;
    forall p | 0 <= p < |base|
      ensures var r := LinkedUpTo(base, total, top)[p];
              Num(base[p]) == Num(r) && (Live(base[p]) <==> Live(r)) && base[p].subs == r.subs && base[p].text == r.text
    {
      LinkKeeps(Scanned(base, total), Num(base[0]), top, base[p]);
    }
  }

  lemma {:induction false} SameFind(a: seq<Stored>, b: seq<Stored>, n: U32)
    requires SameNumbers(a, b)
    ensures FindLive(a, n) == FindLive(b, n)
  {
    if a != [] {
      var k := |a| - 1;
      SameFind(a[..k], b[..k], n);
      assert Num(a[k]) == Num(b[k]);
    }
  }

  lemma SameIncreasing(a: seq<Stored>, b: seq<Stored>)
    requires SameNumbers(a, b) && LiveIncreasing(a)
    ensures LiveIncreasing(b)
  {
  }

  /** Linking the message numbered n after those numbered up to `low` changes that message only. */
  lemma LinkOne(base: seq<Stored>, total: nat, low: int, n: U32)
    requires base != [] && LiveIncreasing(base) && low < n && Num(base[0]) <= n
    requires forall p :: 0 <= p < |base| && Live(base[p]) && Num(base[0]) <= Num(base[p]) <= n ==>
               Num(base[p]) <= low || Num(base[p]) == n
    ensures var f := FindLive(base, n); var b := LinkedUpTo(base, total, low);
            && FindLive(b, n) == f
            && (f.None? ==> LinkedUpTo(base, total, n) == b)
            && (f.Some? ==>
                  && b[f.value] == base[f.value]
                  && LinkedUpTo(base, total, n)
                     == b[f.value := Link(Scanned(base, total), Num(base[0]), n, base[f.value])])
  {
    hide FindLive, Before, After, Relink, KeyOf, Scanned;
    var f, b, c := FindLive(base, n), LinkedUpTo(base, total, low), LinkedUpTo(base, total, n);
    LinkedSame(base, total, low);
    SameFind(base, b, n);
    forall p | 0 <= p < |base| && f != Some(p)
      ensures c[p] == b[p]
    {
      if Live(base[p]) && Num(base[p]) == n {
        OnlyLive(base, p);
      }
    }
  }

  lemma {:induction false} DifferencesNone<T>(a: seq<T>, b: seq<T>)
    requires |a| == |b|
    ensures Differences(a, b) == 0 <==> a == b
  {
    if a != [] {
      var k := |a| - 1;
      DifferencesNone(a[..k], b[..k]);
      assert a == a[..k] + [a[k]] && b == b[..k] + [b[k]];
    }
  }

  /** One more position replaced. */
  lemma {:induction false} DifferencesOne<T>(a: seq<T>, b: seq<T>, p: nat, x: T)
    requires |a| == |b| && p < |a| && b[p] == a[p]
    ensures Differences(a, b[p := x]) == Differences(a, b) + if x == a[p] then 0 else 1
  {
    var k := |a| - 1;
    if p == k {
      assert b[p := x][..k] == b[..k];
    } else {
      DifferencesOne(a[..k], b[..k], p, x);
      assert b[p := x][..k] == b[..k][p := x];
    }
  }

  // ----- Walking the messages -----

  /** Entry i holds the key read under its number. */
  lemma EntryKey(base: seq<Stored>, i: nat)
    requires base != [] && LiveIncreasing(base) && i < |Entries(base)|
    ensures var f := FindLive(base, Entries(base)[i].num);
            && Entries(base)[i].key == (if f.Some? then KeyOf(base[f.value]) else Key(""))
            && (i > 0 ==> f.Some?)
  {
    hide KeyOf, Key, FindLive, LiveIncreasing, Above, Live;
    if i > 0 {
      EntriesLive(base, i);
      var p :| 0 <= p < |base| && Live(base[p]) && Entries(base)[i] == EntryOf(base[p]);
      OnlyLive(base, p);
    }
  }

  /** The next live message is the next entry. */
  lemma NextEntry(base: seq<Stored>, i: nat, p: nat)
    requires base != [] && LiveIncreasing(base) && i < |Entries(base)| && p < |base| && Live(base[p])
    requires IsNext(base, Entries(base)[i].num, Num(base[p]))
    ensures i + 1 < |Entries(base)| && Entries(base)[i + 1].num == Num(base[p])
  {
    hide KeyOf, Key, FindLive, LiveIncreasing, Above, Live, Entries;
    var e := Entries(base);
    EntriesInOrder(base);
    EntriesHave(base, p);
    var k :| 0 <= k < |e| && e[k] == EntryOf(base[p]);
    EntriesLive(base, i + 1);
    var q :| 0 <= q < |base| && Live(base[q]) && e[i + 1] == EntryOf(base[q]);
  }

  lemma LastEntry(base: seq<Stored>, i: nat)
    requires base != [] && LiveIncreasing(base) && i < |Entries(base)|
    requires AtMostBefore(base, |base|, Entries(base)[i].num)
    ensures i + 1 == |Entries(base)|
  {
    hide KeyOf, Key, FindLive, LiveIncreasing, Above, Live, Entries, AtMostBefore;
    EntriesInOrder(base);
    if i + 1 < |Entries(base)| {
      EntriesLive(base, i + 1);
      var q :| 0 <= q < |base| && Live(base[q]) && Entries(base)[i + 1] == EntryOf(base[q]);
      NotAtMost(base, Entries(base)[i].num, q);
    }
  }

  lemma NotAtMost(base: seq<Stored>, n: U32, q: nat)
    requires q < |base| && Live(base[q]) && Num(base[q]) > n
    ensures !AtMostBefore(base, |base|, n)
  {
  }

  /** No live message is numbered between two neighbouring entries. */
  lemma BetweenEntries(base: seq<Stored>, i: nat, p: nat)
    requires base != [] && LiveIncreasing(base) && i < |Entries(base)| && p < |base| && Live(base[p])
    requires Num(base[0]) <= Num(base[p]) <= Entries(base)[i].num
    ensures Num(base[p]) == Entries(base)[i].num || (i > 0 && Num(base[p]) <= Entries(base)[i - 1].num)
  {
    hide KeyOf, Key, FindLive, LiveIncreasing, Above, Live, Entries;
    var e := Entries(base);
    EntriesInOrder(base);
    EntriesHave(base, p);
    var k :| 0 <= k < |e| && e[k] == EntryOf(base[p]);
  }

  lemma SameWalk(a: seq<Stored>, b: seq<Stored>, n: U32)
    requires SameNumbers(a, b)
    ensures AtMostBefore(a, |a|, n) <==> AtMostBefore(b, |b|, n)
    ensures forall m :: IsNext(a, n, m) <==> IsNext(b, n, m)
  {
  }
}
