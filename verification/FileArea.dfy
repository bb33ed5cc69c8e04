/** The operations of lib/dbfdb.c on the data file of one area. */
module FileArea {
  import opened Seqs
  import opened FilesDb

  /** An entry of the list that is sorted. */
  class Fdbs {
    var next: Fdbs?
    const filrec: Rec

    constructor (next: Fdbs?, filrec: Rec)
      ensures this.next == next && this.filrec == filrec
    {
      this.next, this.filrec := next, filrec;
    }
  }

  /** The list that starts at `head` is these entries, each once. */
  ghost predicate Chain(head: Fdbs?, nodes: seq<Fdbs>)
    reads nodes
  {
    && (if nodes == [] then head == null else head == nodes[0] && nodes[|nodes| - 1].next == null)
    && (forall i, j :: 0 <= i && i + 1 == j < |nodes| ==> nodes[i].next == nodes[j])
    && (forall i, j :: 0 <= i < j < |nodes| ==> nodes[i] != nodes[j])
  }

  function Recs(nodes: seq<Fdbs>): (r: seq<Rec>)
    ensures |r| == |nodes| && forall i :: 0 <= i < |r| ==> r[i] == nodes[i].filrec
  {
    seq(|nodes|, i requires 0 <= i < |nodes| => nodes[i].filrec)
  }

  // ----- qsort with comp_fdbs -----

  predicate CompUpTo(a: Fdbs, b: Fdbs) {
    UpToCase(a.filrec.lname, b.filrec.lname)
  }

  function Placed(x: Fdbs, s: seq<Fdbs>): (r: seq<Fdbs>)
    ensures multiset(r) == multiset(s) + multiset{x}
  {
    if s == [] || CompUpTo(x, s[0]) then [x] + s
    else
      assert s == [s[0]] + s[1..];
      [s[0]] + Placed(x, s[1..])
  }

  /** One of the orders the library's qsort may give. */
  function QSorted(s: seq<Fdbs>): (r: seq<Fdbs>)
    ensures multiset(r) == multiset(s) && |r| == |s|
  {
    if s == [] then []
    else
      assert s == [s[0]] + s[1..];
      var r := Placed(s[0], QSorted(s[1..]));
      SameSize(r, s);
      r
  }

  lemma SameSize<T>(r: seq<T>, s: seq<T>)
    requires multiset(r) == multiset(s)
    ensures |r| == |s|
  {
    assert |multiset(r)| == |r| && |multiset(s)| == |s|;
  }

  predicate Ascending(s: seq<Fdbs>) {
    forall i, j :: 0 <= i < j < |s| ==> CompUpTo(s[i], s[j])
  }

  lemma {:induction false} PlacedAscends(x: Fdbs, s: seq<Fdbs>)
    requires Ascending(s)
    ensures Ascending(Placed(x, s))
  {
    if s != [] {
      hide CompUpTo;
      Comparable(x, s[0]);
      if CompUpTo(x, s[0]) {
        forall j | 0 <= j < |s|
          ensures CompUpTo(x, s[j])
        {
          Comparable3(x, s[0], s[j]);
        }
      } else {
        PlacedAscends(x, s[1..]);
        var t := Placed(x, s[1..]);
        forall j | 0 <= j < |t|
          ensures CompUpTo(s[0], t[j])
        {
          assert t[j] in multiset(t);
          assert t[j] == x || t[j] in s[1..];
        }
      }
    }
  }

  lemma Comparable(x: Fdbs, y: Fdbs)
    ensures CompUpTo(x, y) || CompUpTo(y, x)
  {
    LessOrder(Fold(x.filrec.lname), Fold(y.filrec.lname));
  }

  lemma Comparable3(x: Fdbs, y: Fdbs, z: Fdbs)
    requires CompUpTo(x, y) && (y == z || CompUpTo(y, z))
    ensures CompUpTo(x, z)
  {
    if y != z {
      UpToChain(Fold(x.filrec.lname), Fold(y.filrec.lname), Fold(z.filrec.lname));
    }
  }

  lemma {:induction false} QSortedAscends(s: seq<Fdbs>)
    ensures Ascending(QSorted(s))
  {
    if s != [] {
      QSortedAscends(s[1..]);
      PlacedAscends(s[0], QSorted(s[1..]));
    }
  }

  /** The library's qsort.  Only that the vector is the same entries in an ascending order is known
      of it. */
  method QSort(vector: array<Fdbs>)
    modifies vector
    ensures multiset(vector[..]) == multiset(old(vector[..])) && Ascending(vector[..])
  {
    hide Ascending;
    var s := QSorted(vector[..]);
    QSortedAscends(vector[..]);
    var i := 0;
    while i < vector.Length
      invariant i <= vector.Length && vector[..i] == s[..i]
    {
      vector[i] := s[i];
      i := i + 1;
    }
    assert s[..i] == s;
    assert vector[..] == s;
  }

  lemma PermutedDistinct(s: seq<Fdbs>, r: seq<Fdbs>)
    requires multiset(r) == multiset(s) && forall i, j :: 0 <= i < j < |s| ==> s[i] != s[j]
    ensures forall i, j :: 0 <= i < j < |r| ==> r[i] != r[j]
  {
    forall i, j | 0 <= i < j < |r|
      ensures r[i] != r[j]
    {
      if r[i] == r[j] {
        CountsTwice(r, i, j);
        StandsTwice(s, r[i]);
      }
    }
  }

  // ----- sort_fdbs -----

  /** The entry behind the one at position k. */
  lemma NextOf(head: Fdbs?, nodes: seq<Fdbs>, k: nat)
    requires Chain(head, nodes) && k < |nodes|
    ensures nodes[k].next == if k + 1 < |nodes| then nodes[k + 1] else null
  {
  }

  method Count(head: Fdbs?, ghost nodes: seq<Fdbs>) returns (n: nat)
    requires Chain(head, nodes)
    ensures n == |nodes|
  {
    n := 0;
    var ta := head;
    while ta != null
      invariant n <= |nodes| && (if n < |nodes| then ta == nodes[n] else ta == null)
      decreases |nodes| - n
    {
      NextOf(head, nodes, n);
      n := n + 1;
      ta := ta.next;
    }
  }

  method ToVector(head: Fdbs, n: nat, ghost nodes: seq<Fdbs>) returns (vector: array<Fdbs>)
    requires Chain(head, nodes) && n == |nodes|
    ensures fresh(vector) && vector[..] == nodes
  {
    vector := new Fdbs[n](_ => head);
    var i := 0;
    var ta: Fdbs? := head;
    while ta != null
      invariant i <= n && vector.Length == n && vector[..i] == nodes[..i]
      invariant if i < n then ta == nodes[i] else ta == null
      decreases n - i
    {
      NextOf(head, nodes, i);
      vector[i] := ta;
      i := i + 1;
      ta := ta.next;
    }
  }

  /** The relinking loop: it walks the list it is making. */
  method Relink(vector: array<Fdbs>) returns (head: Fdbs)
    requires vector.Length > 0 && forall i, j :: 0 <= i < j < vector.Length ==> vector[i] != vector[j]
    modifies vector[..]
    ensures Chain(head, vector[..])
  {
    head := vector[0];
    var i := 1;
    var n := vector.Length;
    ghost var done := 0;
    ghost var was := vector[..];
    var ta: Fdbs? := head;
    while ta != null
      invariant vector[..] == was && 1 <= i <= n && done <= n && head == was[0]
      invariant if done < n then ta == was[done] && i == done + 1 else ta == null && was[n - 1].next == null
      invariant forall a, b :: 0 <= a && a + 1 == b < n && a < done ==> was[a].next == was[b]
      decreases n - done
    {
      if i < n {
        ta.next := vector[i];
        i := i + 1;
      } else {
        ta.next := null;
      }
      done := done + 1;
      ta := ta.next;
    }
  }

  method SortFdbs(fap: Fdbs?, ghost nodes: seq<Fdbs>) returns (head: Fdbs?, ghost sorted: seq<Fdbs>)
    requires Chain(fap, nodes)
    modifies nodes
    ensures Chain(head, sorted) && multiset(sorted) == multiset(nodes) && Ascending(sorted)
  {
    hide Ascending, Chain;
    ChainEnds(fap, nodes);
    if fap == null {
      return null, nodes;
    }
    var n := Count(fap, nodes);
    var vector := ToVector(fap, n, nodes);
    QSort(vector);
    sorted := vector[..];
    PermutedDistinct(nodes, sorted);
    Members(nodes, sorted);
    head := Relink(vector);
  }

  lemma ChainEnds(head: Fdbs?, nodes: seq<Fdbs>)
    requires Chain(head, nodes)
    ensures head == null <==> nodes == []
    ensures nodes == [] ==> Ascending(nodes)
    ensures forall i, j :: 0 <= i < j < |nodes| ==> nodes[i] != nodes[j]
  {
  }

  lemma Members(s: seq<Fdbs>, r: seq<Fdbs>)
    requires multiset(r) == multiset(s)
    ensures forall i :: 0 <= i < |r| ==> r[i] in s
  {
    forall i | 0 <= i < |r|
      ensures r[i] in s
    {
      assert r[i] in multiset(r);
    }
  }

  // ----- The data file -----

  class Area {
    var file: seq<Rec>

    constructor ()
      ensures file == []
    {
      file := [];
    }

    /** The number of records to copy before the new one. */
    method SearchPoint(lname: string) returns (insert: nat)
      ensures insert == InsertPoint(file, lname)
    {
      insert := 0;
      var at := 0;
      var found := false;
      while !found && at < |file|
        invariant at <= |file| && (!found ==> insert == at)
        invariant found ==> insert == InsertPoint(file, lname)
        invariant !found ==> InsertPoint(file, lname) == insert + InsertPoint(file[at..], lname)
        decreases !found, |file| - at
      {
        assert file[at..][1..] == file[at + 1..];
        var fdb := file[at];
        at := at + 1;
        if lname == fdb.lname {
          found := true;
          insert := insert + 1;
        } else if Less(lname, fdb.lname) {
          found := true;
        } else {
          insert := insert + 1;
        }
      }
    }

    /** Copy the records from `from` up to `until`, as they are copied when frec is inserted. */
    method CopyRecords(frec: Rec, from: nat, until: nat) returns (fp: seq<Rec>)
      requires from <= until <= |file|
      ensures fp == Flat(CopiedFor(frec), file[from..until])
    {
      fp := [];
      var i := from;
      assert file[from..from] == [];
      while i < until
        invariant from <= i <= until && fp == Flat(CopiedFor(frec), file[from..i])
      {
        FlatTake(CopiedFor(frec), file[from..until], i - from);
        assert file[from..until][..i - from] == file[from..i] && file[from..until][..i - from + 1] == file[from..i + 1];
        var fdb := file[i];
        if frec.magic != "" && fdb.magic == frec.magic { fdb := fdb.(magic := ""); }
        if fdb.lname != frec.lname { fp := fp + [fdb]; }
        i := i + 1;
      }
    }

    /** mbsedb_InsertFDB. */
    method InsertFDB(frec: Rec, addAlpha: bool) returns (ok: bool)
      modifies this
      ensures ok && file == Inserted(old(file), frec, addAlpha)
    {
      hide Flat, InsertPoint;
      ok := true;
      NoCopies(frec);
      if file == [] {
        assert file[..0] == [] && file[0..] == [] && InsertPoint([], frec.lname) == 0 by { NoPoint(frec.lname); }
        file := file + [frec];
        return;
      }
      var insert := SearchPoint(frec.lname);
      var fp := CopyRecords(frec, 0, insert);
      if addAlpha { fp := fp + [frec]; }
      var rest := CopyRecords(frec, insert, |file|);
      fp := fp + rest;
      if !addAlpha { fp := fp + [frec]; }
      FlatConcat(CopiedFor(frec), file[..insert], file[insert..]);
      assert file[0..insert] == file[..insert] && file[insert..|file|] == file[insert..];
      assert file[..insert] + file[insert..] == file && file[..|file|] == file && file[|file|..] == [];
      file := fp;
    }

    /** mbsedb_PackFDB: how many records were dropped. */
    method PackFDB() returns (count: nat)
      modifies this
      ensures file == Packed(old(file)) && count == |old(file)| - |file|
    {
      count := 0;
      if file == [] { return; }
      var fp: seq<Rec> := [];
      var i := 0;
      while i < |file|
        invariant i <= |file| && file == old(file) && fp == Packed(file[..i]) && count == i - |fp|
      {
        FlatTake(KeepStaying, file, i);
        var fdb := file[i];
        if !fdb.deleted && !fdb.double && fdb.name != "" {
          fp := fp + [fdb];
        } else {
          count := count + 1;
        }
        i := i + 1;
      }
      assert file[..i] == file;
      file := fp;
    }

    /** mbsedb_SortFDB: how many records were written, 0 when there was nothing to sort. */
    method SortFDB() returns (count: nat)
      modifies this
      ensures SortedFrom(old(file), file) && count == if |file| <= 1 then 0 else |file|
    {
      count := 0;
      if |file| <= 1 { return; }
      hide Ascending, Chain, SortedCase;
      var fdx, nodes := ReadList();
      ghost var sorted;
      fdx, sorted := SortFdbs(fdx, nodes);
      var fp := WriteList(fdx, sorted);
      SortedRecs(file, nodes, sorted);
      file := fp;
      count := |fp|;
    }

    /** Every record of the file in a list, the last one first. */
    method ReadList() returns (fdx: Fdbs?, ghost nodes: seq<Fdbs>)
      ensures Chain(fdx, nodes) && fresh(nodes) && multiset(Recs(nodes)) == multiset(file)
    {
      hide Recs;
      fdx, nodes := null, [];
      NoRecs();
      var i := 0;
      while i < |file|
        invariant i <= |file| && Chain(fdx, nodes) && fresh(nodes)
        invariant multiset(Recs(nodes)) == multiset(file[..i])
      {
        var tmp := new Fdbs(fdx, file[i]);
        RecsFirst(tmp, nodes);
        assert file[..i + 1] == file[..i] + [file[i]];
        ChainFirst(tmp, fdx, nodes);
        nodes := [tmp] + nodes;
        fdx := tmp;
        i := i + 1;
      }
      assert file[..i] == file;
    }

    method WriteList(fdx: Fdbs?, ghost nodes: seq<Fdbs>) returns (fp: seq<Rec>)
      requires Chain(fdx, nodes)
      ensures fp == Recs(nodes)
    {
      fp := [];
      var tmp := fdx;
      while tmp != null
        invariant |fp| <= |nodes| && (if |fp| < |nodes| then tmp == nodes[|fp|] else tmp == null)
        invariant forall k :: 0 <= k < |fp| ==> fp[k] == nodes[k].filrec
        decreases |nodes| - |fp|
      {
        NextOf(fdx, nodes, |fp|);
        fp := fp + [tmp.filrec];
        tmp := tmp.next;
      }
    }
  }

  lemma NoRecs()
    ensures Recs([]) == []
  {
  }

  lemma ChainFirst(node: Fdbs, head: Fdbs?, nodes: seq<Fdbs>)
    requires Chain(head, nodes) && node.next == head && node !in nodes
    ensures Chain(node, [node] + nodes)
  {
  }

  lemma NoPoint(lname: string)
    ensures InsertPoint([], lname) == 0
  {
  }

  lemma {:induction false} RecsPermuted(s: seq<Fdbs>, r: seq<Fdbs>)
    requires multiset(s) == multiset(r)
    ensures multiset(Recs(s)) == multiset(Recs(r))
    decreases |s|
  {
    hide Recs;
    if s != [] {
      var k := PlaceOf(s, r);
      RecsPermuted(s[1..], r[..k] + r[k + 1..]);
      RecsWithout(r, k);
      RecsFirst(s[0], s[1..]);
      assert [s[0]] + s[1..] == s;
    } else {
      SameSize(s, r);
      assert r == s;
    }
  }

  lemma PlaceOf(s: seq<Fdbs>, r: seq<Fdbs>) returns (k: nat)
    requires multiset(s) == multiset(r) && s != []
    ensures k < |r| && r[k] == s[0] && multiset(s[1..]) == multiset(r[..k] + r[k + 1..])
  {
    assert s[0] in multiset(r);
    k :| 0 <= k < |r| && r[k] == s[0];
    Without(r, k);
    Without(s, 0);
    assert s[..0] + s[1..] == s[1..];
    CancelOne(multiset(s[1..]), multiset(r[..k] + r[k + 1..]), s[0]);
  }

  lemma RecsWithout(r: seq<Fdbs>, k: nat)
    requires k < |r|
    ensures multiset(Recs(r)) == multiset(Recs(r[..k] + r[k + 1..])) + multiset{r[k].filrec}
  {
    Without(Recs(r), k);
    assert Recs(r)[..k] + Recs(r)[k + 1..] == Recs(r[..k] + r[k + 1..]);
  }

  lemma RecsFirst(node: Fdbs, nodes: seq<Fdbs>)
    ensures multiset(Recs([node] + nodes)) == multiset(Recs(nodes)) + multiset{node.filrec}
  {
    RecsWithout([node] + nodes, 0);
    assert ([node] + nodes)[..0] + ([node] + nodes)[1..] == nodes;
  }

  lemma CancelOne<T>(a: multiset<T>, b: multiset<T>, x: T)
    requires a + multiset{x} == b + multiset{x}
    ensures a == b
  {
    assert a == (a + multiset{x}) - multiset{x};
    assert b == (b + multiset{x}) - multiset{x};
  }

  lemma Without<T>(r: seq<T>, k: nat)
    requires k < |r|
    ensures multiset(r) == multiset(r[..k] + r[k + 1..]) + multiset{r[k]}
  {
    assert r == r[..k] + [r[k]] + r[k + 1..];
  }

  lemma SortedRecs(file: seq<Rec>, nodes: seq<Fdbs>, sorted: seq<Fdbs>)
    requires |file| > 1 && multiset(Recs(nodes)) == multiset(file) && multiset(sorted) == multiset(nodes)
             && Ascending(sorted)
    ensures SortedFrom(file, Recs(sorted)) && |Recs(sorted)| == |file|
  {
    RecsPermuted(sorted, nodes);
    SameSize(Recs(sorted), file);
  }
}
