/** What JAM_Pack makes of the messages and of the lastread pointers (lib/jammsg.c). */
module JamPack {
  import opened Seqs
  import opened LittleEndian
  import opened JamFormat
  import opened JamModel
  import opened JamOps

  // ----- Messages -----

  function Renumbered(s: seq<Stored>, i: nat): Stored
    requires i < |s|
  {
    s[i].(hdr := s[i].hdr.(msgNum := ToU32(i + 1), txtOffset := ToU32(TxtOff(s, i))))
  }

  function Renumber(s: seq<Stored>): (r: seq<Stored>)
    ensures |r| == |s|
  {
    seq(|s|, i requires 0 <= i < |s| => Renumbered(s, i))
  }

  /** The messages of the packed base. */
  function Packed(base: seq<Stored>): seq<Stored> {
    Renumber(LiveOnly(base))
  }

  /** The index positions of the live messages. */
  function LivePositions(base: seq<Stored>): (ps: seq<nat>)
    ensures forall k :: 0 <= k < |ps| ==> ps[k] < |base| && Live(base[ps[k]])
    ensures forall j, k :: 0 <= j < k < |ps| ==> ps[j] < ps[k]
    ensures forall i :: 0 <= i < |base| && Live(base[i]) ==> i in ps
  {
    if base == [] then []
    else
      var n := |base| - 1;
      LivePositions(base[..n]) + (if Live(base[n]) then [n] else [])
  }

  /** `LiveOnly` is the live messages, each once, in index order. */
  lemma {:induction false} LiveOnlyPositions(base: seq<Stored>)
    ensures |LiveOnly(base)| == |LivePositions(base)|
    ensures forall k :: 0 <= k < |LiveOnly(base)| ==> LiveOnly(base)[k] == base[LivePositions(base)[k]]
  {
    if base != [] {
      LiveOnlyPositions(base[..|base| - 1]);
    }
  }

  lemma LiveStep(base: seq<Stored>, i: nat)
    requires i < |base|
    ensures LiveOnly(base[..i + 1]) == if Live(base[i]) then LiveOnly(base[..i]) + [base[i]] else LiveOnly(base[..i])
  {
    FlatTake(KeepLive, base, i);
  }

  lemma {:induction false} LiveBound(base: seq<Stored>)
    ensures |LiveOnly(base)| <= |base|
    ensures |Records(LiveOnly(base))| <= |Records(base)| && |Texts(LiveOnly(base))| <= |Texts(base)|
    ensures forall s :: s in LiveOnly(base) ==> s in base && Live(s)
  {
    if base != [] {
      var n := |base| - 1;
      LiveBound(base[..n]);
      assert base[..n + 1] == base;
      LiveStep(base, n);
      FlatTake(RecBytes, base, n);
      FlatTake(TextOf, base, n);
      if Live(base[n]) {
        FlatConcat(RecBytes, LiveOnly(base[..n]), [base[n]]);
        FlatConcat(TextOf, LiveOnly(base[..n]), [base[n]]);
        assert Flat(RecBytes, [base[n]]) == RecBytes(base[n]) by { assert [base[n]][..0] == []; }
        assert Flat(TextOf, [base[n]]) == TextOf(base[n]) by { assert [base[n]][..0] == []; }
      }
    }
  }

  /** Renumbering moves no message. */
  lemma RenumberOffsets(s: seq<Stored>, i: nat)
    requires i <= |s|
    ensures Off(Renumber(s), i) == Off(s, i) && TxtOff(Renumber(s), i) == TxtOff(s, i)
    ensures |Records(Renumber(s))| == |Records(s)| && |Texts(Renumber(s))| == |Texts(s)|
  {
    hide Flat, HdrBytes;
    FlatLengths(RecBytes, Renumber(s)[..i], s[..i]);
    FlatLengths(TextOf, Renumber(s)[..i], s[..i]);
    FlatLengths(RecBytes, Renumber(s), s);
    FlatLengths(TextOf, Renumber(s), s);
  }

  lemma {:induction false} AllLive(base: seq<Stored>)
    requires forall s :: s in base ==> Live(s)
    ensures LiveOnly(base) == base
  {
    if base != [] {
      AllLive(base[..|base| - 1]);
    }
  }

  /** Message i of `p` is message i of `live` but for its number and text offset. */
  predicate KeptAt(p: seq<Stored>, live: seq<Stored>, i: nat)
    requires i < |p| == |live|
  {
    && p[i].subs == live[i].subs && p[i].text == live[i].text
    && p[i].hdr == live[i].hdr.(msgNum := p[i].hdr.msgNum, txtOffset := p[i].hdr.txtOffset)
    && p[i].hdr.msgNum == i + 1 && p[i].hdr.txtOffset == TxtOff(p, i)
  }

  lemma KeptWell(base: seq<Stored>, i: nat)
    requires WellFormed(base) && Fits(base) && i < |LiveOnly(base)|
    ensures var p := Packed(base); KeptAt(p, LiveOnly(base), i) && WellFormedAt(p, i) && Live(p[i])
  {
    hide Flat, HdrBytes, SubsBytes, WellFormedAt;
    var live := LiveOnly(base);
    var p := Renumber(live);
    LiveBound(base);
    OffMonotone(base, 0, |base|);
    OffLast(base);
    RenumberOffsets(live, i);
    OffMonotone(live, i, |live|);
    OffLast(live);
    assert live[i] in base;
    var j :| 0 <= j < |base| && base[j] == live[i];
    assert WellFormedAt(base, j);
    MovedWell(base, j, p, i);
  }

  lemma MovedWell(base: seq<Stored>, j: nat, p: seq<Stored>, i: nat)
    requires j < |base| && i < |p| && WellFormedAt(base, j)
    requires p[i].subs == base[j].subs && p[i].text == base[j].text && p[i].hdr.txtOffset == TxtOff(p, i)
    requires p[i].hdr == base[j].hdr.(msgNum := p[i].hdr.msgNum, txtOffset := p[i].hdr.txtOffset)
    ensures WellFormedAt(p, i)
  {
  }

  /** Packing keeps exactly the live messages, in order, with the same subfields and text;
      of the headers only the number and the text offset change.  They are numbered from 1
      and their texts follow one another. */
  lemma PackKeeps(base: seq<Stored>)
    requires WellFormed(base) && Fits(base)
    ensures var p := Packed(base); var live := LiveOnly(base);
            && |p| == |live| && WellFormed(p) && Fits(p) && LiveOnly(p) == p
            && forall i :: 0 <= i < |p| ==> KeptAt(p, live, i)
  {
    hide Flat, KeptAt, WellFormedAt, Live;
    LiveBound(base);
    RenumberOffsets(LiveOnly(base), 0);
    forall i | 0 <= i < |Packed(base)|
      ensures KeptAt(Packed(base), LiveOnly(base), i) && WellFormedAt(Packed(base), i) && Live(Packed(base)[i])
    {
      KeptWell(base, i);
    }
    AllLive(Packed(base));
  }

  // ----- Lastread pointers -----

  /** Numbering as this code leaves it: since the last restart at 1, before which all is
      deleted, numbers follow the index. */
  predicate NumberedFrom(base: seq<Stored>, r: nat) {
    && r <= |base|
    && (forall j :: 0 <= j < r ==> !Live(base[j]) && 1 <= Num(base[j]) <= |base|)
    && (forall j :: r <= j < |base| ==> Num(base[j]) == j - r + 1)
  }

  /** The in-place rewriting of one pointer, message by message. */
  function Remap(base: seq<Stored>, p: U32): U32 {
    if base == [] then p
    else
      var n := |base| - 1;
      var q := Remap(base[..n], p);
      if q == Num(base[n]) then ToU32(|LiveOnly(base)|) else q
  }

  /** The correction after the messages are done. */
  function ClipPointer(active: U32, p: U32): U32 {
    if active == 0 then 0 else if p > active then active else p
  }

  function PackPointer(base: seq<Stored>, active: U32, p: U32): U32 {
    ClipPointer(active, Remap(base, p))
  }

  /** The number of live messages numbered at most p. */
  function CountAtMost(base: seq<Stored>, p: U32): nat {
    if base == [] then 0
    else
      var n := |base| - 1;
      CountAtMost(base[..n], p) + if Live(base[n]) && Num(base[n]) <= p then 1 else 0
  }

  /** A number that belonged to a message before the last restart. */
  predicate Discarded(base: seq<Stored>, r: nat, p: U32)
    requires r <= |base|
  {
    exists j :: 0 <= j < r && Num(base[j]) == p
  }

  lemma {:induction false} CountBounds(base: seq<Stored>, p: U32)
    ensures CountAtMost(base, p) <= |LiveOnly(base)|
    ensures (forall j :: 0 <= j < |base| && Live(base[j]) ==> Num(base[j]) <= p) ==>
            CountAtMost(base, p) == |LiveOnly(base)|
    ensures (forall j :: 0 <= j < |base| && Live(base[j]) ==> Num(base[j]) > p) ==> CountAtMost(base, p) == 0
  {
    if base != [] {
      CountBounds(base[..|base| - 1], p);
    }
  }

  lemma {:induction false} CountMonotone(base: seq<Stored>, p: U32, q: U32)
    requires p <= q
    ensures CountAtMost(base, p) <= CountAtMost(base, q)
  {
    if base != [] {
      CountMonotone(base[..|base| - 1], p, q);
    }
  }

  lemma {:induction false} DeadPrefix(base: seq<Stored>)
    requires forall j :: 0 <= j < |base| ==> !Live(base[j])
    ensures LiveOnly(base) == []
  {
    if base != [] {
      DeadPrefix(base[..|base| - 1]);
    }
  }

  lemma {:induction false} LiveAfter(base: seq<Stored>, r: nat)
    requires r <= |base| && forall j :: 0 <= j < r ==> !Live(base[j])
    ensures |LiveOnly(base)| <= |base| - r
  {
    if |base| == r {
      DeadPrefix(base);
    } else {
      LiveAfter(base[..|base| - 1], r);
    }
  }

  /** Pointers in the part before the restart fall to 0; after it, none is remapped twice. */
  lemma {:induction false} RemapDead(base: seq<Stored>, p: U32)
    requires forall j :: 0 <= j < |base| ==> !Live(base[j]) && Num(base[j]) >= 1
    ensures Remap(base, p) == if exists j :: 0 <= j < |base| && Num(base[j]) == p then 0 else p
  {
    if base != [] {
      var n := |base| - 1;
      RemapDead(base[..n], p);
      DeadPrefix(base);
      if exists j :: 0 <= j < n && Num(base[j]) == p {
        var j :| 0 <= j < n && Num(base[j]) == p;
        assert Num(base[..n][j]) == p;
      }
    }
  }

  lemma {:induction false} RemapExact(base: seq<Stored>, r: nat, p: U32)
    requires |base| < WORD && r <= |base|
    requires forall j :: 0 <= j < r ==> !Live(base[j]) && Num(base[j]) >= 1
    requires forall j :: r <= j < |base| ==> Num(base[j]) == j - r + 1
    ensures Remap(base, p) == if Discarded(base, r, p) then 0
                              else if p <= |base| - r then CountAtMost(base, p) else p
  {
    if |base| == r {
      RemapDead(base, p);
      CountBounds(base, p);
      DeadPrefix(base);
    } else {
      hide LiveOnly, Discarded, ToU32;
      var n := |base| - 1;
      var before := base[..n];
      assert Num(base[n]) == n - r + 1;
      SmallWord(|LiveOnly(base)|);
      RemapExact(before, r, p);
      DiscardedPrefix(base, r, p);
      LiveAfter(before, r);
      LiveAfter(base, r);
      CountBounds(before, p);
      if p == n - r + 1 {
        CountBounds(base, p);
      }
    }
  }

  lemma SmallWord(x: nat)
    ensures x < WORD ==> ToU32(x) == x
  {
  }

  lemma DiscardedPrefix(base: seq<Stored>, r: nat, p: U32)
    requires r < |base|
    ensures Discarded(base[..|base| - 1], r, p) <==> Discarded(base, r, p)
  {
    if Discarded(base, r, p) {
      var j :| 0 <= j < r && Num(base[j]) == p;
      assert Num(base[..|base| - 1][j]) == p;
    }
  }

  /** What packing makes of any pointer of any base this code leaves: the number of live
      messages numbered at most p, or 0 when p was a number before the last restart. */
  lemma PointerExact(base: seq<Stored>, r: nat, active: U32, p: U32)
    requires NumberedFrom(base, r) && active == |LiveOnly(base)| && |base| < WORD
    ensures PackPointer(base, active, p) == if Discarded(base, r, p) then 0 else CountAtMost(base, p)
    ensures PackPointer(base, active, p) == CountAtMost(base, p)
            <==> !Discarded(base, r, p) || CountAtMost(base, p) == 0
  {
    RemapExact(base, r, p);
    LiveAfter(base, r);
    CountBounds(base, p);
  }

  /** When header numbers equal index positions every pointer, 0 and out of range ones
      included, becomes the number of live messages numbered at most it; so the map is
      monotone and bounded by the active count. */
  lemma PointerAtPositions(base: seq<Stored>, active: U32, p: U32, q: U32)
    requires forall j :: 0 <= j < |base| ==> Num(base[j]) == j + 1
    requires active == |LiveOnly(base)| && |base| < WORD && p <= q
    ensures PackPointer(base, active, p) == CountAtMost(base, p)
    ensures PackPointer(base, active, p) <= PackPointer(base, active, q) <= active
  {
    assert NumberedFrom(base, 0);
    PointerExact(base, 0, active, p);
    PointerExact(base, 0, active, q);
    CountMonotone(base, p, q);
    CountBounds(base, q);
  }

  // ----- The lastread file -----

  datatype LastRead = LastRead(userCRC: U32, userID: U32, lastReadMsg: U32, highReadMsg: U32)

  function MapLast(base: seq<Stored>, active: U32, lr: LastRead): LastRead {
    lr.(lastReadMsg := PackPointer(base, active, lr.lastReadMsg),
        highReadMsg := PackPointer(base, active, lr.highReadMsg))
  }

  /** Records the GoldED reader left with the CRC in place of the user's number. */
  predicate GoldED(lr: LastRead) {
    lr.userID == lr.userCRC && lr.userCRC != 0
  }

  /** One copy for every user record read, the number corrected from the match on. */
  function GoldEDCopies(lr: LastRead, crcs: seq<U32>): seq<LastRead> {
    if crcs == [] then []
    else
      var k := |crcs| - 1;
      GoldEDCopies(lr, crcs[..k]) + [lr.(userID := GoldEDUser(lr, crcs))]
  }

  function GoldEDUser(lr: LastRead, crcs: seq<U32>): U32 {
    if crcs == [] then lr.userID
    else if crcs[|crcs| - 1] == lr.userCRC then ToU32(|crcs| - 1)
    else GoldEDUser(lr, crcs[..|crcs| - 1])
  }

  /** Which records the copy keeps; `users` holds the CRC of each user record's name, or
      is None when there is no user file. */
  function Retained(lr: LastRead, users: Option<seq<U32>>): seq<LastRead> {
    match users
    case None => [lr]
    case Some(crcs) =>
      if GoldED(lr) then GoldEDCopies(lr, crcs)
      else if lr.userID < |crcs| && crcs[lr.userID] == lr.userCRC then [lr]
      else []
  }

  function PackLast(base: seq<Stored>, active: U32, users: Option<seq<U32>>): LastRead -> seq<LastRead> {
    lr => Retained(MapLast(base, active, lr), users)
  }

  lemma {:induction false} CopiesKeep(lr: LastRead, crcs: seq<U32>)
    ensures forall c :: c in GoldEDCopies(lr, crcs) ==>
              c.userCRC == lr.userCRC && c.lastReadMsg == lr.lastReadMsg && c.highReadMsg == lr.highReadMsg
  {
    if crcs != [] {
      CopiesKeep(lr, crcs[..|crcs| - 1]);
    }
  }

  /** Every record in the new lastread file carries the packed pointers of its original. */
  lemma RetainedPointers(base: seq<Stored>, active: U32, users: Option<seq<U32>>, lr: LastRead)
    ensures forall c :: c in PackLast(base, active, users)(lr) ==>
              && c.userCRC == lr.userCRC
              && c.lastReadMsg == PackPointer(base, active, lr.lastReadMsg)
              && c.highReadMsg == PackPointer(base, active, lr.highReadMsg)
  {
    hide PackPointer, GoldED, GoldEDCopies;
    if users.Some? {
      CopiesKeep(MapLast(base, active, lr), users.value);
    }
  }
}
