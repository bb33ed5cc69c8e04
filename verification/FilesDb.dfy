/** The records of one area of the files database: inserting, packing, and what every run of
    the operations keeps (lib/dbfdb.c). */
module FilesDb {
  import opened Seqs

  datatype Rec = Rec(name: string, lname: string, magic: string, deleted: bool, double: bool, rest: int)

  // ----- Names -----

  /** strcmp(a, b) < 0. */
  predicate Less(a: string, b: string) {
    if b == "" then false
    else if a == "" then true
    else if a[0] != b[0] then a[0] < b[0]
    else Less(a[1..], b[1..])
  }

  lemma {:induction false} LessOrder(a: string, b: string)
    ensures !(Less(a, b) && Less(b, a))
    ensures a == b <==> !Less(a, b) && !Less(b, a)
  {
    if a != "" && b != "" && a[0] == b[0] {
      LessOrder(a[1..], b[1..]);
      assert a == [a[0]] + a[1..] && b == [b[0]] + b[1..];
    }
  }

  /** How many characters the two have in common at the start. */
  function Common(a: string, b: string): (k: nat)
    ensures k <= |a| && k <= |b| && forall i :: 0 <= i < k ==> a[i] == b[i]
    ensures k < |a| && k < |b| ==> a[k] != b[k]
  {
    if a == "" || b == "" || a[0] != b[0] then 0
    else 1 + Common(a[1..], b[1..])
  }

  /** Behind that, the one that ends first comes first, or else the one with the lesser character. */
  lemma {:induction false} LessExactly(a: string, b: string)
    ensures var k := Common(a, b);
            Less(a, b) <==> k < |b| && (k == |a| || a[k] < b[k])
  {
    if a != "" && b != "" && a[0] == b[0] {
      LessExactly(a[1..], b[1..]);
    }
  }

  /** a does not come after b. */
  predicate UpTo(a: string, b: string) {
    !Less(b, a)
  }

  lemma {:induction false} UpToChain(a: string, b: string, c: string)
    requires UpTo(a, b) && UpTo(b, c)
    ensures UpTo(a, c)
  {
    if a != "" && b != "" && c != "" && a[0] == b[0] == c[0] {
      UpToChain(a[1..], b[1..], c[1..]);
    }
  }

  function Lower(c: char): char {
    if 'A' <= c <= 'Z' then (c as int + 32) as char else c
  }

  function Fold(s: string): string {
    if s == "" then "" else [Lower(s[0])] + Fold(s[1..])
  }

  /** strcasecmp(a, b) <= 0. */
  predicate UpToCase(a: string, b: string) {
    UpTo(Fold(a), Fold(b))
  }

  // ----- Inserting -----

  /** The record as it is copied when f is inserted: without its magic if f takes that over, and
      not at all if f replaces it. */
  function Copied(f: Rec, r: Rec): seq<Rec> {
    if r.lname == f.lname then []
    else if f.magic != "" && r.magic == f.magic then [r.(magic := "")]
    else [r]
  }

  function CopiedFor(f: Rec): Rec -> seq<Rec> {
    r => Copied(f, r)
  }

  /** How many records come before the insert point; the record f replaces is one of them. */
  function InsertPoint(recs: seq<Rec>, lname: string): (k: nat)
    ensures k <= |recs|
  {
    if recs == [] then 0
    else if lname == recs[0].lname then 1
    else if Less(lname, recs[0].lname) then 0
    else 1 + InsertPoint(recs[1..], lname)
  }

  /** mbsedb_InsertFDB. */
  function Inserted(recs: seq<Rec>, f: Rec, alpha: bool): seq<Rec> {
    var k := if alpha then InsertPoint(recs, f.lname) else |recs|;
    Flat(CopiedFor(f), recs[..k]) + [f] + Flat(CopiedFor(f), recs[k..])
  }

  predicate Stays(r: Rec) {
    !r.deleted && !r.double && r.name != ""
  }

  function KeepStaying(r: Rec): seq<Rec> {
    if Stays(r) then [r] else []
  }

  /** mbsedb_PackFDB. */
  function Packed(recs: seq<Rec>): seq<Rec> {
    Flat(KeepStaying, recs)
  }

  // ----- Lists compared pair by pair -----

  ghost predicate Pairwise(p: (Rec, Rec) -> bool, s: seq<Rec>) {
    forall i, j :: 0 <= i < j < |s| ==> p(s[i], s[j])
  }

  predicate OtherName(x: Rec, y: Rec) {
    x.lname != y.lname
  }

  predicate OtherMagic(x: Rec, y: Rec) {
    x.magic != "" ==> x.magic != y.magic
  }

  predicate InOrder(x: Rec, y: Rec) {
    UpTo(x.lname, y.lname)
  }

  predicate InOrderCase(x: Rec, y: Rec) {
    UpToCase(x.lname, y.lname)
  }

  lemma PairwiseLast(p: (Rec, Rec) -> bool, s: seq<Rec>, x: Rec)
    requires Pairwise(p, s) && forall y :: y in s ==> p(y, x)
    ensures Pairwise(p, s + [x])
  {
  }

  /** A step that keeps each record, changed or not, or drops it keeps every relation between
      pairs that it keeps for two. */
  lemma {:induction false} FlatPairwise(p: (Rec, Rec) -> bool, f: Rec -> seq<Rec>, s: seq<Rec>)
    requires Pairwise(p, s) && forall x :: |f(x)| <= 1
    requires forall x, y :: p(x, y) && f(x) != [] && f(y) != [] ==> p(f(x)[0], f(y)[0])
    ensures Pairwise(p, Flat(f, s))
  {
    if s != [] {
      var n := |s| - 1;
      FlatPairwise(p, f, s[..n]);
      var before := Flat(f, s[..n]);
      if f(s[n]) != [] {
        forall x | x in before
          ensures p(x, f(s[n])[0])
        {
          FlatFrom(f, s[..n], x);
          var k :| 0 <= k < n && x in f(s[..n][k]);
          assert s[..n][k] == s[k] && f(s[k])[0] == x && p(s[k], s[n]);
        }
        PairwiseLast(p, before, f(s[n])[0]);
        assert f(s[n]) == [f(s[n])[0]];
      } else {
        assert before + [] == before;
      }
    }
  }

  // ----- The invariant -----

  ghost predicate UniqueNames(s: seq<Rec>) {
    Pairwise(OtherName, s)
  }

  ghost predicate UniqueMagics(s: seq<Rec>) {
    Pairwise(OtherMagic, s)
  }

  ghost predicate Sorted(s: seq<Rec>) {
    Pairwise(InOrder, s)
  }

  ghost predicate SortedCase(s: seq<Rec>) {
    Pairwise(InOrderCase, s)
  }

  /** x is a copy of some record of s. */
  predicate CopyOf(f: Rec, s: seq<Rec>, x: Rec) {
    exists k :: 0 <= k < |s| && Copied(f, s[k]) == [x]
  }

  lemma CopyMembers(f: Rec, s: seq<Rec>)
    ensures forall x :: x in Flat(CopiedFor(f), s) ==> CopyOf(f, s, x)
  {
    forall x | x in Flat(CopiedFor(f), s)
      ensures CopyOf(f, s, x)
    {
      FlatFrom(CopiedFor(f), s, x);
    }
  }

  lemma CopiesOf(f: Rec, s: seq<Rec>)
    ensures forall x :: x in Flat(CopiedFor(f), s) ==> CopyOf(f, s, x)
    ensures UniqueNames(s) ==> UniqueNames(Flat(CopiedFor(f), s))
    ensures UniqueMagics(s) ==> UniqueMagics(Flat(CopiedFor(f), s))
    ensures Sorted(s) ==> Sorted(Flat(CopiedFor(f), s))
  {
    CopyMembers(f, s);
    hide UpTo, Pairwise, Flat, CopyOf;
    if UniqueNames(s) { FlatPairwise(OtherName, CopiedFor(f), s); }
    if UniqueMagics(s) { FlatPairwise(OtherMagic, CopiedFor(f), s); }
    if Sorted(s) { FlatPairwise(InOrder, CopiedFor(f), s); }
  }

  /** A copy never has f's long name, nor its magic. */
  lemma CopyDiffers(f: Rec, s: seq<Rec>, x: Rec)
    requires CopyOf(f, s, x)
    ensures x.lname != f.lname && (f.magic != "" ==> x.magic != f.magic)
  {
  }

  /** Inserting leaves the new record in exactly once, and every other record once, in its old
      order and unchanged but for a magic that has been taken over. */
  lemma InsertExactly(recs: seq<Rec>, f: Rec, alpha: bool)
    ensures var r := Inserted(recs, f, alpha); var k := if alpha then InsertPoint(recs, f.lname) else |recs|;
            && var at := |Flat(CopiedFor(f), recs[..k])|;
               at < |r| && r[at] == f && (forall i :: 0 <= i < |r| && i != at ==> r[i].lname != f.lname)
               && r[..at] + r[at + 1..] == Flat(CopiedFor(f), recs)
    ensures !alpha ==> var r := Inserted(recs, f, alpha); r[|r| - 1] == f
  {
    hide Flat, CopyOf, InsertPoint, UniqueNames, UniqueMagics, Sorted;
    var k := if alpha then InsertPoint(recs, f.lname) else |recs|;
    var a, b := Flat(CopiedFor(f), recs[..k]), Flat(CopiedFor(f), recs[k..]);
    FlatConcat(CopiedFor(f), recs[..k], recs[k..]);
    assert recs == recs[..k] + recs[k..];
    CopiesDiffer(f, recs[..k]);
    CopiesDiffer(f, recs[k..]);
    var r := a + [f] + b;
    assert r[..|a|] == a && r[|a| + 1..] == b;
    forall i | 0 <= i < |r| && i != |a|
      ensures r[i].lname != f.lname
    {
      assert r[i] in if i < |a| then a else b;
    }
    if !alpha {
      assert recs[k..] == [];
      NoCopies(f);
    }
  }

  /** The record without its magic, if that is the one taken over. */
  function Stripped(r: Rec, magic: string): Rec {
    if magic != "" && r.magic == magic then r.(magic := "") else r
  }

  lemma CopiedIs(f: Rec, r: Rec)
    ensures Copied(f, r) == if r.lname == f.lname then [] else [Stripped(r, f.magic)]
  {
  }

  /** Where the copies come from. */
  lemma {:induction false} CopyOrder(f: Rec, recs: seq<Rec>) returns (ps: seq<nat>)
    ensures |ps| == |Flat(CopiedFor(f), recs)|
    ensures forall k :: 0 <= k < |ps| ==>
      ps[k] < |recs| && Flat(CopiedFor(f), recs)[k] == Stripped(recs[ps[k]], f.magic)
    ensures forall j, k :: 0 <= j < k < |ps| ==> ps[j] < ps[k]
    ensures forall i :: 0 <= i < |recs| ==> (i in ps <==> recs[i].lname != f.lname)
  {
    hide Flat, Copied, Stripped;
    ps := [];
    if recs == [] {
      NoCopies(f);
    } else {
      var n := |recs| - 1;
      ps := CopyOrder(f, recs[..n]);
      assert recs[..n + 1] == recs;
      FlatTake(CopiedFor(f), recs, n);
      CopiedIs(f, recs[n]);
      if recs[n].lname != f.lname { ps := ps + [n]; }
    }
  }

  /** The records besides the new one after an insertion: those with another long name, each once and
      in order, every field as it was, but for the magic that the new record takes over. */
  lemma InsertOthers(recs: seq<Rec>, f: Rec, alpha: bool) returns (ps: seq<nat>, at: nat)
    ensures var r := Inserted(recs, f, alpha); |r| == |ps| + 1 && at <= |ps| && r[at] == f
    ensures var r := Inserted(recs, f, alpha);
            forall k :: 0 <= k < |ps| ==>
              && ps[k] < |recs| && var x := recs[ps[k]]; var y := r[if k < at then k else k + 1];
                 y == x.(magic := if f.magic != "" && x.magic == f.magic then "" else x.magic)
    ensures forall j, k :: 0 <= j < k < |ps| ==> ps[j] < ps[k]
    ensures forall i :: 0 <= i < |recs| ==> (i in ps <==> recs[i].lname != f.lname)
    ensures !alpha ==> at == |ps|
  {
    hide Flat, InsertPoint, Inserted;
    ps := CopyOrder(f, recs);
    InsertExactly(recs, f, alpha);
    var k := if alpha then InsertPoint(recs, f.lname) else |recs|;
    at := |Flat(CopiedFor(f), recs[..k])|;
    if !alpha { assert recs[..k] == recs; }
    var r, c := Inserted(recs, f, alpha), Flat(CopiedFor(f), recs);
    forall i | 0 <= i < |c|
      ensures r[if i < at then i else i + 1] == c[i]
    {
      assert c[i] == (r[..at] + r[at + 1..])[i];
    }
  }

  lemma CopiesDiffer(f: Rec, s: seq<Rec>)
    ensures forall x :: x in Flat(CopiedFor(f), s) ==> x.lname != f.lname
  {
    CopiesOf(f, s);
    hide Flat, CopyOf;
    forall x | x in Flat(CopiedFor(f), s)
      ensures x.lname != f.lname
    {
      CopyDiffers(f, s, x);
    }
  }

  lemma NoCopies(f: Rec)
    ensures Flat(CopiedFor(f), []) == []
  {
  }

  /** No two records share a long name or a magic afterwards. */
  lemma InsertUnique(recs: seq<Rec>, f: Rec, alpha: bool)
    requires UniqueNames(recs) && UniqueMagics(recs)
    ensures UniqueNames(Inserted(recs, f, alpha)) && UniqueMagics(Inserted(recs, f, alpha))
  {
    InsertExactly(recs, f, alpha);
    CopiesOf(f, recs);
    var k := if alpha then InsertPoint(recs, f.lname) else |recs|;
    var at := |Flat(CopiedFor(f), recs[..k])|;
    var r, c := Inserted(recs, f, alpha), Flat(CopiedFor(f), recs);
    hide Flat, Inserted, InsertPoint;
    forall x | x in c
      ensures x.lname != f.lname && (f.magic != "" ==> x.magic != f.magic)
    {
      CopyDiffers(f, recs, x);
    }
    OneMore(c, r, at);
  }

  /** A list with one element put in, seen element by element. */
  lemma OneMore(c: seq<Rec>, r: seq<Rec>, at: nat)
    requires at < |r| && r[..at] + r[at + 1..] == c && UniqueNames(c) && UniqueMagics(c)
    requires forall x :: x in c ==> x.lname != r[at].lname && (r[at].magic != "" ==> x.magic != r[at].magic)
    ensures UniqueNames(r) && UniqueMagics(r)
  {
    forall i | 0 <= i < |r| && i != at
      ensures r[i] == c[if i < at then i else i - 1] && r[i] in c
    {
      assert r[i] == c[if i < at then i else i - 1];
    }
    forall i, j | 0 <= i < j < |r|
      ensures r[i].lname != r[j].lname && (r[i].magic != "" ==> r[i].magic != r[j].magic)
    {
      if i != at && j != at {
        assert r[i] == c[if i < at then i else i - 1] && r[j] == c[if j < at then j else j - 1];
      }
    }
  }

  lemma {:induction false} PointSplits(recs: seq<Rec>, lname: string)
    requires Sorted(recs)
    ensures var k := InsertPoint(recs, lname);
            && (forall i :: 0 <= i < k ==> UpTo(recs[i].lname, lname))
            && (forall i :: k <= i < |recs| ==> UpTo(lname, recs[i].lname))
  {
    if recs != [] {
      var k := InsertPoint(recs, lname);
      LessOrder(lname, recs[0].lname);
      if k == 0 || lname == recs[0].lname {
        forall i | 0 < i < |recs|
          ensures UpTo(lname, recs[i].lname)
        {
          UpToChain(lname, recs[0].lname, recs[i].lname);
        }
      } else {
        PointSplits(recs[1..], lname);
        assert forall i :: 0 < i < |recs| ==> recs[i] == recs[1..][i - 1];
      }
    }
  }

  /** Alphabetical insertion keeps a sorted area sorted. */
  lemma InsertSorted(recs: seq<Rec>, f: Rec)
    requires Sorted(recs)
    ensures Sorted(Inserted(recs, f, true))
  {
    hide Flat, UpTo, CopyOf, InsertPoint, Pairwise, UniqueNames, UniqueMagics;
    var k := InsertPoint(recs, f.lname);
    PointSplits(recs, f.lname);
    PartsPairwise(InOrder, recs, k);
    CopiesOf(f, recs[..k]);
    CopiesOf(f, recs[k..]);
    CopiesAgainst(f, recs[..k]);
    CopiesAgainst(f, recs[k..]);
    var a, b := Flat(CopiedFor(f), recs[..k]), Flat(CopiedFor(f), recs[k..]);
    forall x, y | x in a && y in b
      ensures InOrder(x, y)
    {
      UpToChain(x.lname, f.lname, y.lname);
    }
    AroundPairwise(InOrder, a, f, b);
  }

  lemma PartsPairwise(p: (Rec, Rec) -> bool, s: seq<Rec>, k: nat)
    requires Pairwise(p, s) && k <= |s|
    ensures Pairwise(p, s[..k]) && Pairwise(p, s[k..])
  {
    forall i, j | 0 <= i < j < |s| - k
      ensures p(s[k..][i], s[k..][j])
    {
      assert s[k..][i] == s[k + i] && s[k..][j] == s[k + j];
    }
  }

  lemma CopiesAgainst(f: Rec, s: seq<Rec>)
    ensures (forall i :: 0 <= i < |s| ==> UpTo(s[i].lname, f.lname)) ==>
              forall x :: x in Flat(CopiedFor(f), s) ==> UpTo(x.lname, f.lname)
    ensures (forall i :: 0 <= i < |s| ==> UpTo(f.lname, s[i].lname)) ==>
              forall x :: x in Flat(CopiedFor(f), s) ==> UpTo(f.lname, x.lname)
  {
    CopiesOf(f, s);
    hide Flat, UpTo, UniqueNames, UniqueMagics, Sorted;
    forall x | x in Flat(CopiedFor(f), s)
      ensures exists i :: 0 <= i < |s| && s[i].lname == x.lname
    {
      assert CopyOf(f, s, x);
    }
  }

  lemma AroundPairwise(p: (Rec, Rec) -> bool, a: seq<Rec>, f: Rec, b: seq<Rec>)
    requires Pairwise(p, a) && Pairwise(p, b)
    requires (forall x :: x in a ==> p(x, f)) && (forall y :: y in b ==> p(f, y))
    requires forall x, y :: x in a && y in b ==> p(x, y)
    ensures Pairwise(p, a + [f] + b)
  {
    var r := a + [f] + b;
    forall i, j | 0 <= i < j < |r|
      ensures p(r[i], r[j])
    {
      if i < |a| {
        assert r[i] == a[i];
      }
      if j > |a| {
        assert r[j] == b[j - |a| - 1];
      }
      if i > |a| {
        assert r[i] == b[i - |a| - 1];
      }
    }
  }

  // ----- Alphabetical insertion into an area that was sorted -----

  /** The records at the insert point are in order with the new name for strcasecmp too: the one
      before it does not come after the name, and the one behind it not before. */
  predicate FitsCase(recs: seq<Rec>, lname: string) {
    var k := InsertPoint(recs, lname);
    && (k > 0 ==> UpToCase(recs[k - 1].lname, lname))
    && (k < |recs| ==> UpToCase(lname, recs[k].lname))
  }

  /** Sorting goes by strcasecmp and the insert point by strcmp.  A sorted area stays sorted
      exactly when the two agree at the insert point. */
  lemma InsertSortedCase(recs: seq<Rec>, f: Rec)
    requires SortedCase(recs)
    ensures SortedCase(Inserted(recs, f, true)) <==> FitsCase(recs, f.lname)
  {
    hide UpToCase, Flat, InsertPoint, SortedCase;
    if FitsCase(recs, f.lname) {
      FitsSorted(recs, f);
    }
    if SortedCase(Inserted(recs, f, true)) {
      SortedFits(recs, f);
    }
  }

  lemma UpToCaseChain(a: string, b: string, c: string)
    requires UpToCase(a, b) && UpToCase(b, c)
    ensures UpToCase(a, c)
  {
    UpToChain(Fold(a), Fold(b), Fold(c));
  }

  lemma UpToCaseSelf(a: string)
    ensures UpToCase(a, a)
  {
    LessOrder(Fold(a), Fold(a));
  }

  /** Around the insert point of a sorted area the other records follow the two at it. */
  lemma CaseSplits(recs: seq<Rec>, f: Rec)
    requires SortedCase(recs) && FitsCase(recs, f.lname)
    ensures var k := InsertPoint(recs, f.lname);
            && (forall i :: 0 <= i < k ==> UpToCase(recs[i].lname, f.lname))
            && (forall i :: k <= i < |recs| ==> UpToCase(f.lname, recs[i].lname))
  {
    hide UpToCase, InsertPoint;
    var k := InsertPoint(recs, f.lname);
    forall i | 0 <= i < k
      ensures UpToCase(recs[i].lname, f.lname)
    {
      if i < k - 1 {
        assert InOrderCase(recs[i], recs[k - 1]);
        UpToCaseChain(recs[i].lname, recs[k - 1].lname, f.lname);
      }
    }
    forall i | k <= i < |recs|
      ensures UpToCase(f.lname, recs[i].lname)
    {
      if i > k {
        assert InOrderCase(recs[k], recs[i]);
        UpToCaseChain(f.lname, recs[k].lname, recs[i].lname);
      }
    }
  }

  lemma FitsSorted(recs: seq<Rec>, f: Rec)
    requires SortedCase(recs) && FitsCase(recs, f.lname)
    ensures SortedCase(Inserted(recs, f, true))
  {
    hide UpToCase, Flat, InsertPoint, Pairwise, FitsCase, CopyOf;
    var k := InsertPoint(recs, f.lname);
    CaseSplits(recs, f);
    PartsPairwise(InOrderCase, recs, k);
    FlatPairwise(InOrderCase, CopiedFor(f), recs[..k]);
    FlatPairwise(InOrderCase, CopiedFor(f), recs[k..]);
    var a, b := Flat(CopiedFor(f), recs[..k]), Flat(CopiedFor(f), recs[k..]);
    CopyMembers(f, recs[..k]);
    CopyMembers(f, recs[k..]);
    forall x | x in a
      ensures InOrderCase(x, f)
    {
      CopyName(f, recs[..k], x);
    }
    forall y | y in b
      ensures InOrderCase(f, y)
    {
      CopyName(f, recs[k..], y);
    }
    forall x, y | x in a && y in b
      ensures InOrderCase(x, y)
    {
      UpToCaseChain(x.lname, f.lname, y.lname);
    }
    AroundPairwise(InOrderCase, a, f, b);
  }

  /** A copy has the name of the record it was made from. */
  lemma CopyName(f: Rec, s: seq<Rec>, x: Rec)
    requires CopyOf(f, s, x)
    ensures exists i :: 0 <= i < |s| && s[i].lname == x.lname
  {
  }

  lemma SortedFits(recs: seq<Rec>, f: Rec)
    requires SortedCase(Inserted(recs, f, true))
    ensures FitsCase(recs, f.lname)
  {
    hide UpToCase, Flat, InsertPoint;
    var k := InsertPoint(recs, f.lname);
    var a, b := Flat(CopiedFor(f), recs[..k]), Flat(CopiedFor(f), recs[k..]);
    var r := Inserted(recs, f, true);
    assert r == a + [f] + b;
    UpToCaseSelf(f.lname);
    if k > 0 && recs[k - 1].lname != f.lname {
      FlatTake(CopiedFor(f), recs, k - 1);
      var x := Copied(f, recs[k - 1])[0];
      assert r[|a| - 1] == x && r[|a|] == f;
      assert InOrderCase(r[|a| - 1], r[|a|]);
    }
    if k < |recs| && recs[k].lname != f.lname {
      var x := Copied(f, recs[k])[0];
      FirstCopy(f, recs[k..]);
      assert r[|a| + 1] == x && r[|a|] == f;
      assert InOrderCase(r[|a|], r[|a| + 1]);
    }
  }

  lemma FirstCopy(f: Rec, s: seq<Rec>)
    requires s != [] && s[0].lname != f.lname
    ensures var c := Flat(CopiedFor(f), s); c != [] && c[0] == Copied(f, s[0])[0]
  {
    hide Flat;
    FlatSplit(CopiedFor(f), s, 0);
    NoCopies(f);
    assert s[..0] == [];
  }

  /** After "B" comes "a" for strcmp, but not for strcasecmp. */
  lemma CapitalBreaksOrder(b: Rec, a: Rec)
    requires b.lname == "B" && a.lname == "a" && b.magic == ""
    ensures SortedCase([b]) && Inserted([b], a, true) == [b, a] && !SortedCase([b, a])
  {
    assert InsertPoint([b], "a") == 1 by {
      assert InsertPoint([b][1..], "a") == 0;
    }
    assert [b][..1] == [b] && [b][1..] == [];
    assert Flat(CopiedFor(a), [b]) == [b] by {
      assert [b][..0] == [] && Flat(CopiedFor(a), []) == [];
    }
    NoCopies(a);
    assert Fold("B") == "b" && Fold("a") == "a" by {
      assert "B"[1..] == "" && "a"[1..] == "";
    }
    assert Less("a", "b");
    assert !InOrderCase([b, a][0], [b, a][1]);
  }

  // ----- Packing and sorting -----

  lemma PackMembers(recs: seq<Rec>)
    ensures forall x :: x in Packed(recs) <==> x in recs && !x.deleted && !x.double && x.name != ""
  {
    StayingMembers(recs);
    hide Packed;
  }

  lemma {:induction false} StayingMembers(recs: seq<Rec>)
    ensures forall x :: x in Packed(recs) <==> x in recs && Stays(x)
    ensures |Packed(recs)| <= |recs|
  {
    if recs != [] {
      hide Stays;
      var n := |recs| - 1;
      StayingMembers(recs[..n]);
      assert recs == recs[..n] + [recs[n]];
    }
  }

  /** Where the packed records come from: the places of those that stay, each once, in order. */
  lemma {:induction false} PackOrder(recs: seq<Rec>) returns (ps: seq<nat>)
    ensures |ps| == |Packed(recs)|
    ensures forall k :: 0 <= k < |ps| ==> ps[k] < |recs| && Packed(recs)[k] == recs[ps[k]]
    ensures forall j, k :: 0 <= j < k < |ps| ==> ps[j] < ps[k]
    ensures forall i :: 0 <= i < |recs| ==>
      (i in ps <==> !recs[i].deleted && !recs[i].double && recs[i].name != "")
  {
    ps := [];
    if recs != [] {
      var n := |recs| - 1;
      ps := PackOrder(recs[..n]);
      if Stays(recs[n]) {
        ps := ps + [n];
      }
    }
  }

  /** Packing keeps exactly the records that are neither deleted nor double and have a name, in
      their order. */
  lemma PackKeeps(recs: seq<Rec>)
    ensures forall x :: x in Packed(recs) <==> x in recs && !x.deleted && !x.double && x.name != ""
    ensures UniqueNames(recs) ==> UniqueNames(Packed(recs))
    ensures UniqueMagics(recs) ==> UniqueMagics(Packed(recs))
    ensures Sorted(recs) ==> Sorted(Packed(recs))
    ensures SortedCase(recs) ==> SortedCase(Packed(recs))
  {
    PackMembers(recs);
    hide UpTo, Pairwise, Stays;
    if UniqueNames(recs) { FlatPairwise(OtherName, KeepStaying, recs); }
    if UniqueMagics(recs) { FlatPairwise(OtherMagic, KeepStaying, recs); }
    if Sorted(recs) { FlatPairwise(InOrder, KeepStaying, recs); }
    if SortedCase(recs) { FlatPairwise(InOrderCase, KeepStaying, recs); }
  }

  /** What sorting may do: any order of the same records that strcasecmp finds sorted. */
  ghost predicate SortedFrom(recs: seq<Rec>, r: seq<Rec>) {
    if |recs| <= 1 then r == recs else multiset(r) == multiset(recs) && SortedCase(r)
  }

  /** The same records in another order are as unique as they were. */
  lemma PermutedUnique(s: seq<Rec>, r: seq<Rec>)
    requires multiset(r) == multiset(s) && UniqueNames(s) && UniqueMagics(s)
    ensures UniqueNames(r) && UniqueMagics(r)
  {
    forall i, j | 0 <= i < j < |r|
      ensures r[i].lname != r[j].lname && (r[i].magic != "" ==> r[i].magic != r[j].magic)
    {
      TwoPlaces(s, r, i, j);
    }
  }

  lemma TwoPlaces(s: seq<Rec>, r: seq<Rec>, i: nat, j: nat)
    requires multiset(r) == multiset(s) && i < j < |r|
    ensures exists p, q :: 0 <= p < |s| && 0 <= q < |s| && p != q && s[p] == r[i] && s[q] == r[j]
  {
    assert r[i] in multiset(r) && r[j] in multiset(r);
    if r[i] != r[j] {
      var p :| 0 <= p < |s| && s[p] == r[i];
      var q :| 0 <= q < |s| && s[q] == r[j];
      assert p != q;
    } else {
      CountsTwice(r, i, j);
      StandsTwice(s, r[i]);
    }
  }

  lemma CountsTwice<T>(r: seq<T>, i: nat, j: nat)
    requires i < j < |r| && r[i] == r[j]
    ensures multiset(r)[r[i]] >= 2
  {
    assert r == r[..j] + [r[j]] + r[j + 1..];
    assert r[i] in r[..j];
  }

  lemma StandsTwice<T>(s: seq<T>, x: T)
    requires multiset(s)[x] >= 2
    ensures exists p, q :: 0 <= p < |s| && 0 <= q < |s| && p != q && s[p] == x && s[q] == x
  {
    assert x in s;
    var p :| 0 <= p < |s| && s[p] == x;
    assert s == s[..p] + [x] + s[p + 1..];
    assert x in s[..p] || x in s[p + 1..];
    if x in s[..p] {
      var q :| 0 <= q < p && s[..p][q] == x;
      assert s[q] == x;
    } else {
      var q :| 0 <= q < |s| - p - 1 && s[p + 1..][q] == x;
      assert s[p + 1 + q] == x;
    }
  }

  // ----- Runs -----

  datatype Op = Insert(rec: Rec, alpha: bool) | Pack | Sort

  ghost predicate Does(s: seq<Rec>, op: Op, t: seq<Rec>) {
    match op
    case Insert(f, alpha) => t == Inserted(s, f, alpha)
    case Pack => t == Packed(s)
    case Sort => SortedFrom(s, t)
  }

  /** The areas a run passes through, from an empty one. */
  ghost predicate IsRun(areas: seq<seq<Rec>>, ops: seq<Op>) {
    && |areas| == |ops| + 1 && areas[0] == []
    && forall k :: 0 <= k < |ops| ==> Does(areas[k], ops[k], areas[k + 1])
  }

  lemma {:induction false} RunUnique(areas: seq<seq<Rec>>, ops: seq<Op>, k: nat)
    requires IsRun(areas, ops) && k <= |ops|
    ensures UniqueNames(areas[k]) && UniqueMagics(areas[k])
    decreases k
  {
    if k > 0 {
      hide UniqueNames, UniqueMagics, SortedCase;
      RunUnique(areas, ops, k - 1);
      assert Does(areas[k - 1], ops[k - 1], areas[k]);
      match ops[k - 1]
      case Insert(f, alpha) => InsertUnique(areas[k - 1], f, alpha);
      case Pack => PackKeeps(areas[k - 1]);
      case Sort => PermutedUnique(areas[k - 1], areas[k]);
    }
  }

  /** An area that only alphabetical inserts and packs have worked on is sorted. */
  lemma {:induction false} RunSorted(areas: seq<seq<Rec>>, ops: seq<Op>, k: nat)
    requires IsRun(areas, ops) && k <= |ops|
    requires forall op :: op in ops ==> op.Pack? || (op.Insert? && op.alpha)
    ensures Sorted(areas[k])
    decreases k
  {
    if k > 0 {
      hide Pairwise, SortedFrom;
      RunSorted(areas, ops, k - 1);
      assert Does(areas[k - 1], ops[k - 1], areas[k]) && ops[k - 1] in ops;
      match ops[k - 1]
      case Insert(f, _) => InsertSorted(areas[k - 1], f);
      case Pack => PackKeeps(areas[k - 1]);
      case Sort =>
    }
  }

  ghost predicate Lowered(s: seq<Rec>) {
    forall r :: r in s ==> Fold(r.lname) == r.lname
  }

  /** On names without capitals the two orders are one, so alphabetical inserts, packs and sorts in
      any order leave the area sorted. */
  lemma {:induction false} RunSortedLower(areas: seq<seq<Rec>>, ops: seq<Op>, k: nat)
    requires IsRun(areas, ops) && k <= |ops|
    requires forall op :: op in ops && op.Insert? ==> op.alpha && Fold(op.rec.lname) == op.rec.lname
    ensures Lowered(areas[k]) && Sorted(areas[k]) && SortedCase(areas[k])
    decreases k
  {
    if k > 0 {
      hide Pairwise, SortedFrom, Inserted, Packed, Fold, UpTo, Lowered;
      RunSortedLower(areas, ops, k - 1);
      assert Does(areas[k - 1], ops[k - 1], areas[k]) && ops[k - 1] in ops;
      match ops[k - 1] {
        case Insert(f, _) =>
          InsertSorted(areas[k - 1], f);
          InsertLowered(areas[k - 1], f);
        case Pack =>
          PackKeeps(areas[k - 1]);
          PackLowered(areas[k - 1]);
        case Sort =>
          SortLowered(areas[k - 1], areas[k]);
      }
      OneOrder(areas[k]);
    } else {
      assert areas[0] == [];
    }
  }

  lemma InsertLowered(recs: seq<Rec>, f: Rec)
    requires Lowered(recs) && Fold(f.lname) == f.lname
    ensures Lowered(Inserted(recs, f, true))
  {
    hide Flat, Fold, InsertPoint, CopyOf;
    var k := InsertPoint(recs, f.lname);
    CopyMembers(f, recs[..k]);
    CopyMembers(f, recs[k..]);
    forall x | x in Inserted(recs, f, true)
      ensures Fold(x.lname) == x.lname
    {
      if x in Flat(CopiedFor(f), recs[..k]) {
        CopyName(f, recs[..k], x);
      } else if x in Flat(CopiedFor(f), recs[k..]) {
        CopyName(f, recs[k..], x);
      }
    }
  }

  lemma PackLowered(recs: seq<Rec>)
    requires Lowered(recs)
    ensures Lowered(Packed(recs))
  {
    PackMembers(recs);
    hide Packed, Fold;
  }

  lemma SortLowered(recs: seq<Rec>, r: seq<Rec>)
    requires SortedFrom(recs, r) && Lowered(recs)
    ensures Lowered(r) && SortedCase(r)
  {
    forall x | x in r
      ensures Fold(x.lname) == x.lname
    {
      assert x in multiset(r);
    }
  }

  lemma OneOrder(s: seq<Rec>)
    requires Lowered(s) && (Sorted(s) || SortedCase(s))
    ensures Sorted(s) && SortedCase(s)
  {
    hide UpTo, Fold;
    forall i, j | 0 <= i < j < |s|
      ensures InOrder(s[i], s[j]) <==> InOrderCase(s[i], s[j])
    {
      assert s[i] in s && s[j] in s;
    }
  }
}
