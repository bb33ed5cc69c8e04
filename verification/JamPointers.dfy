/** Which lastread records JAM_Pack keeps, and what each user then finds (lib/jammsg.c). */
module JamPointers {
  import opened Seqs
  import opened LittleEndian
  import opened JamPack
  import opened JamLastRead
  import opened JamRuns

  // ----- Where each record goes -----

  /** User k is the last of these with that CRC. */
  predicate LastAt(crcs: seq<U32>, crc: U32, k: nat) {
    k < |crcs| && crcs[k] == crc && forall l :: k < l < |crcs| ==> crcs[l] != crc
  }

  /** The number of the last of these users with the record's CRC, or the record's own when there
      is none. */
  predicate UserOf(u: U32, lr: LastRead, crcs: seq<U32>) {
    && (lr.userCRC !in crcs ==> u == lr.userID)
    && (forall k :: 0 <= k < |crcs| && LastAt(crcs, lr.userCRC, k) ==> u == ToU32(k))
  }

  /** Copy j of a record the GoldED reader left: its pointers, and the user's number as far as the
      user file was read. */
  predicate IsCopy(c: LastRead, lr: LastRead, crcs: seq<U32>, j: nat)
    requires j < |crcs|
  {
    c == lr.(userID := c.userID) && UserOf(c.userID, lr, crcs[..j + 1])
  }

  /** What stands from lo up to hi in the new file for one record, once its pointers are packed: a
      record that has the CRC in place of the number is copied once for each user; any other stays
      if and only if there is no user file or its number holds that CRC. */
  predicate PlacedAt(file: seq<LastRead>, lo: nat, hi: nat, lr: LastRead, users: Option<seq<U32>>) {
    && lo <= hi <= |file|
    && if users.Some? && lr.userID == lr.userCRC && lr.userCRC != 0 then
         hi == lo + |users.value| && forall i :: lo <= i < hi ==> IsCopy(file[i], lr, users.value, i - lo)
       else if users.None? || (lr.userID < |users.value| && users.value[lr.userID] == lr.userCRC) then
         hi == lo + 1 && file[lo] == lr
       else
         hi == lo
  }

  lemma {:induction false} UserIs(lr: LastRead, crcs: seq<U32>)
    ensures UserOf(GoldEDUser(lr, crcs), lr, crcs)
  {
    if crcs != [] {
      var n := |crcs| - 1;
      UserIs(lr, crcs[..n]);
      forall k | 0 <= k < |crcs| && LastAt(crcs, lr.userCRC, k)
        ensures GoldEDUser(lr, crcs) == ToU32(k)
      {
        if crcs[n] == lr.userCRC {
          LastIsLast(crcs, lr.userCRC, k);
        } else {
          LastShorter(crcs, lr.userCRC, k);
        }
      }
      assert crcs == crcs[..n] + [crcs[n]];
    }
  }

  lemma LastIsLast(crcs: seq<U32>, crc: U32, k: nat)
    requires LastAt(crcs, crc, k) && crcs[|crcs| - 1] == crc
    ensures k == |crcs| - 1
  {
  }

  lemma LastShorter(crcs: seq<U32>, crc: U32, k: nat)
    requires LastAt(crcs, crc, k) && crcs[|crcs| - 1] != crc
    ensures LastAt(crcs[..|crcs| - 1], crc, k)
  {
  }

  lemma {:induction false} CopiesAt(lr: LastRead, crcs: seq<U32>)
    ensures |GoldEDCopies(lr, crcs)| == |crcs|
    ensures forall j :: 0 <= j < |crcs| ==> GoldEDCopies(lr, crcs)[j] == lr.(userID := GoldEDUser(lr, crcs[..j + 1]))
  {
    if crcs != [] {
      var n := |crcs| - 1;
      CopiesAt(lr, crcs[..n]);
      forall j | 0 <= j < |crcs|
        ensures GoldEDCopies(lr, crcs)[j] == lr.(userID := GoldEDUser(lr, crcs[..j + 1]))
      {
        if j < n {
          assert crcs[..n][..j + 1] == crcs[..j + 1];
        } else {
          assert crcs[..j + 1] == crcs;
        }
      }
    }
  }

  lemma RetainedPlaced(before: seq<LastRead>, lr: LastRead, users: Option<seq<U32>>, after: seq<LastRead>)
    ensures PlacedAt(before + Retained(lr, users) + after, |before|, |before| + |Retained(lr, users)|, lr, users)
  {
    hide IsCopy;
    if users.Some? && GoldED(lr) {
      var crcs := users.value;
      CopiesAt(lr, crcs);
      var file := before + GoldEDCopies(lr, crcs) + after;
      forall i | |before| <= i < |before| + |crcs|
        ensures IsCopy(file[i], lr, crcs, i - |before|)
      {
        assert file[i] == GoldEDCopies(lr, crcs)[i - |before|];
        CopyIs(lr, crcs, i - |before|);
      }
    }
  }

  lemma CopyIs(lr: LastRead, crcs: seq<U32>, j: nat)
    requires j < |crcs| == |GoldEDCopies(lr, crcs)|
    ensures IsCopy(GoldEDCopies(lr, crcs)[j], lr, crcs, j)
  {
    hide UserOf;
    CopiesAt(lr, crcs);
    UserIs(lr, crcs[..j + 1]);
  }

  /** The new lastread file is what each record gives, one behind the other, in their old order. */
  lemma PackedPlaces(a: Area, users: Option<seq<U32>>) returns (at: seq<nat>)
    ensures var file := AfterPack(a, users).lr;
            && |at| == |a.lr| + 1 && at[0] == 0 && at[|a.lr|] == |file|
            && forall i :: 0 <= i < |a.lr| ==>
                 PlacedAt(file, at[i], at[i + 1], MapLast(a.base, PackedActive(a), a.lr[i]), users)
  {
    hide PlacedAt, Retained, Flat, Packed, MapLast;
    var f := PackLast(a.base, PackedActive(a), users);
    at := seq(|a.lr| + 1, i requires 0 <= i <= |a.lr| => |Flat(f, a.lr[..i])|);
    assert a.lr[..0] == [] && a.lr[..|a.lr|] == a.lr;
    NothingFlat(f);
    forall i | 0 <= i < |a.lr|
      ensures PlacedAt(Flat(f, a.lr), at[i], at[i + 1], MapLast(a.base, PackedActive(a), a.lr[i]), users)
    {
      FlatSplit(f, a.lr, i);
      FlatTake(f, a.lr, i);
      RetainedPlaced(Flat(f, a.lr[..i]), MapLast(a.base, PackedActive(a), a.lr[i]), users, Flat(f, a.lr[i + 1..]));
    }
  }

  lemma NothingFlat<S, T>(f: S -> seq<T>)
    ensures Flat(f, []) == []
  {
  }

  // ----- What a user finds -----

  /** A record that is that user's, and does not only have his number. */
  predicate Own(r: LastRead, user: LastRead, crcs: seq<U32>)
    requires crcs != []
  {
    IsOf(r, user) && r.userCRC == user.userCRC && (r.userID == r.userCRC == 0 ==> crcs[0] == 0)
  }

  /** His first own record. */
  function OwnRecord(lrs: seq<LastRead>, user: LastRead, crcs: seq<U32>): (r: Option<LastRead>)
    requires crcs != []
    ensures r.Some? ==> r.value in lrs && Own(r.value, user, crcs)
    ensures r.None? ==> forall x :: x in lrs ==> !Own(x, user, crcs)
  {
    if lrs == [] then None
    else
      var n := |lrs| - 1;
      var r := OwnRecord(lrs[..n], user, crcs);
      if r.Some? then r else if Own(lrs[n], user, crcs) then Some(lrs[n])
      else assert lrs == lrs[..n] + [lrs[n]]; None
  }

  lemma FindConcat(x: seq<LastRead>, y: seq<LastRead>, user: LastRead)
    ensures FindLast(x + y, user) == if FindLast(x, user) < |x| then FindLast(x, user) else |x| + FindLast(y, user)
  {
    hide FindLast;
    FirstOf(x, user);
    FirstOf(y, user);
    var k := if FindLast(x, user) < |x| then FindLast(x, user) else |x| + FindLast(y, user);
    forall j | 0 <= j < k
      ensures !IsOf((x + y)[j], user)
    {
      if j >= |x| { assert (x + y)[j] == y[j - |x|]; }
    }
    FindIs(x + y, user, k);
  }

  /** Of what one record gives, the user finds a part exactly when it is his own, with its pointers. */
  lemma OwnRetained(lr: LastRead, user: LastRead, crcs: seq<U32>)
    requires user.userID < |crcs| <= WORD && crcs[user.userID] == user.userCRC
    ensures var block := Retained(lr, Some(crcs)); var k := FindLast(block, user);
            && (k < |block| <==> Own(lr, user, crcs))
            && (k < |block| ==> block[k].lastReadMsg == lr.lastReadMsg && block[k].highReadMsg == lr.highReadMsg)
  {
    hide FindLast;
    var block := Retained(lr, Some(crcs));
    FirstOf(block, user);
    FoundIf(block, user);
    if GoldED(lr) {
      OwnCopies(lr, user, crcs);
      CopiesKeep(lr, crcs);
      assert block == GoldEDCopies(lr, crcs);
      assert FindLast(block, user) < |block| ==> block[FindLast(block, user)] in block;
    } else if lr.userID < |crcs| && crcs[lr.userID] == lr.userCRC {
      assert block == [lr] && block[0] == lr;
      assert IsOf(lr, user) <==> Own(lr, user, crcs);
    }
  }

  lemma FoundIf(lrs: seq<LastRead>, user: LastRead)
    ensures FindLast(lrs, user) < |lrs| <==> exists j :: 0 <= j < |lrs| && IsOf(lrs[j], user)
  {
    hide FindLast;
    FirstOf(lrs, user);
  }

  /** Some copy is found exactly by the user whose CRC the record has. */
  lemma OwnCopies(lr: LastRead, user: LastRead, crcs: seq<U32>)
    requires user.userID < |crcs| <= WORD && crcs[user.userID] == user.userCRC && GoldED(lr)
    ensures (exists j :: 0 <= j < |GoldEDCopies(lr, crcs)| && IsOf(GoldEDCopies(lr, crcs)[j], user))
       <==> lr.userCRC == user.userCRC
  {
    hide GoldEDCopies;
    CopiesAt(lr, crcs);
    if lr.userCRC == user.userCRC {
      OwnCopy(lr, user, crcs);
      assert IsOf(GoldEDCopies(lr, crcs)[user.userID], user);
    } else {
      forall j | 0 <= j < |crcs|
        ensures !IsOf(GoldEDCopies(lr, crcs)[j], user)
      {
        OtherCopy(lr, user, crcs, j);
      }
    }
  }

  lemma OwnCopy(lr: LastRead, user: LastRead, crcs: seq<U32>)
    requires user.userID < |crcs| <= WORD && crcs[user.userID] == user.userCRC == lr.userCRC
    ensures IsOf(lr.(userID := GoldEDUser(lr, crcs[..user.userID + 1])), user)
  {
    var j := user.userID;
    assert crcs[..j + 1][j] == user.userCRC;
  }

  /** No copy of another user's record is found under this user's number. */
  lemma OtherCopy(lr: LastRead, user: LastRead, crcs: seq<U32>, j: nat)
    requires user.userID < |crcs| <= WORD && crcs[user.userID] == user.userCRC && j < |crcs|
    requires GoldED(lr) && lr.userCRC != user.userCRC
    ensures !IsOf(lr.(userID := GoldEDUser(lr, crcs[..j + 1])), user)
  {
    LastMatch(lr, crcs[..j + 1]);
  }

  lemma {:induction false} LastMatch(lr: LastRead, crcs: seq<U32>)
    requires |crcs| <= WORD
    ensures GoldEDUser(lr, crcs) == lr.userID
            || (GoldEDUser(lr, crcs) < |crcs| && crcs[GoldEDUser(lr, crcs)] == lr.userCRC)
  {
    if crcs != [] && crcs[|crcs| - 1] != lr.userCRC {
      LastMatch(lr, crcs[..|crcs| - 1]);
    }
  }

  predicate Found(lrs: seq<LastRead>, user: LastRead) {
    FindLast(lrs, user) < |lrs|
  }

  lemma FoundConcat(x: seq<LastRead>, y: seq<LastRead>, user: LastRead)
    ensures Found(x + y, user) <==> Found(x, user) || Found(y, user)
    ensures Pointers(x + y, user) == if Found(x, user) then Pointers(x, user) else Pointers(y, user)
  {
    hide FindLast;
    FindConcat(x, y, user);
    FirstOf(x, user);
    FirstOf(y, user);
  }

  /** A user with those pointers, or as he was. */
  function WithPointers(user: LastRead, r: Option<LastRead>): LastRead {
    if r.Some? then user.(lastReadMsg := r.value.lastReadMsg, highReadMsg := r.value.highReadMsg) else user
  }

  lemma OwnBlock(lr: LastRead, user: LastRead, crcs: seq<U32>)
    requires user.userID < |crcs| <= WORD && crcs[user.userID] == user.userCRC
    ensures var block := Retained(lr, Some(crcs));
            && (Found(block, user) <==> Own(lr, user, crcs))
            && Pointers(block, user) == WithPointers(user, if Own(lr, user, crcs) then Some(lr) else None)
  {
    hide FindLast, Own, Retained;
    OwnRetained(lr, user, crcs);
    FirstOf(Retained(lr, Some(crcs)), user);
  }

  function Mapped(f: LastRead -> LastRead, r: Option<LastRead>): Option<LastRead> {
    if r.Some? then Some(f(r.value)) else None
  }

  lemma {:induction false} OwnFound(f: LastRead -> LastRead, lrs: seq<LastRead>, user: LastRead, crcs: seq<U32>)
    requires user.userID < |crcs| <= WORD && crcs[user.userID] == user.userCRC
    requires forall r: LastRead :: f(r).userID == r.userID && f(r).userCRC == r.userCRC
    ensures var file := Flat((r: LastRead) => Retained(f(r), Some(crcs)), lrs); var own := OwnRecord(lrs, user, crcs);
            && (Found(file, user) <==> own.Some?)
            && Pointers(file, user) == WithPointers(user, Mapped(f, own))
  {
    hide Found, Pointers, Retained, Own;
    var g := (r: LastRead) => Retained(f(r), Some(crcs));
    if lrs == [] {
      NothingFound(user);
    } else {
      var n := |lrs| - 1;
      OwnFound(f, lrs[..n], user, crcs);
      OwnBlock(f(lrs[n]), user, crcs);
      OwnByNumber(f(lrs[n]), lrs[n], user, crcs);
      FoundConcat(Flat(g, lrs[..n]), g(lrs[n]), user);
    }
  }

  lemma NothingFound(user: LastRead)
    ensures !Found([], user) && Pointers([], user) == user
  {
  }

  lemma OwnByNumber(r: LastRead, s: LastRead, user: LastRead, crcs: seq<U32>)
    requires crcs != [] && r.userID == s.userID && r.userCRC == s.userCRC
    ensures Own(r, user, crcs) <==> Own(s, user, crcs)
  {
  }

  /** After packing, a user who is in the user file finds the packed pointers of the first record that
      is his own, and finds none exactly when he had none of his own. */
  lemma UserAfterPack(a: Area, crcs: seq<U32>, user: LastRead)
    requires user.userID < |crcs| <= WORD && crcs[user.userID] == user.userCRC
    ensures var file := AfterPack(a, Some(crcs)).lr; var own := OwnRecord(a.lr, user, crcs);
            && (Found(file, user) <==> own.Some?)
            && Pointers(file, user)
               == WithPointers(user, Mapped((r: LastRead) => MapLast(a.base, PackedActive(a), r), own))
  {
    hide PackPointer, PackedActive, Retained, Found, Pointers, OwnRecord, Packed;
    var active := PackedActive(a);
    var f := (r: LastRead) => MapLast(a.base, active, r);
    OwnFound(f, a.lr, user, crcs);
    FlatSame((r: LastRead) => Retained(f(r), Some(crcs)), a.lr, PackLast(a.base, active, Some(crcs)), a.lr);
  }

  /** So he keeps the pointers he had, packed, when the record found for him before was his own,
      and has none when he had none. */
  lemma UserKeepsPointers(a: Area, crcs: seq<U32>, user: LastRead)
    requires user.userID < |crcs| <= WORD && crcs[user.userID] == user.userCRC
    requires Found(a.lr, user) ==> Own(a.lr[FindLast(a.lr, user)], user, crcs)
    ensures var file := AfterPack(a, Some(crcs)).lr; var was := Pointers(a.lr, user);
            && (Found(file, user) <==> Found(a.lr, user))
            && Pointers(file, user)
               == if Found(a.lr, user) then
                    user.(lastReadMsg := PackPointer(a.base, PackedActive(a), was.lastReadMsg),
                          highReadMsg := PackPointer(a.base, PackedActive(a), was.highReadMsg))
                  else user
  {
    hide PackPointer, PackedActive, Retained, FindLast, OwnRecord, Packed;
    UserAfterPack(a, crcs, user);
    FirstOf(a.lr, user);
    FirstOf(AfterPack(a, Some(crcs)).lr, user);
    OwnIsFirst(a.lr, user, crcs);
  }

  lemma {:induction false} OwnIsFirst(lrs: seq<LastRead>, user: LastRead, crcs: seq<U32>)
    requires crcs != []
    ensures var k := FindLast(lrs, user);
            && (k < |lrs| && Own(lrs[k], user, crcs) ==> OwnRecord(lrs, user, crcs) == Some(lrs[k]))
            && (k == |lrs| ==> OwnRecord(lrs, user, crcs) == None)
  {
    if lrs != [] {
      OwnIsFirst(lrs[..|lrs| - 1], user, crcs);
    }
  }

  /** Without a user file everyone keeps his pointers, packed. */
  lemma NoUserFile(a: Area, user: LastRead)
    ensures var k := FindLast(a.lr, user); var file := AfterPack(a, None).lr;
            && FindLast(file, user) == k && |file| == |a.lr|
            && (k < |a.lr| ==>
                  && file[k].lastReadMsg == PackPointer(a.base, PackedActive(a), a.lr[k].lastReadMsg)
                  && file[k].highReadMsg == PackPointer(a.base, PackedActive(a), a.lr[k].highReadMsg))
  {
    hide PackPointer, PackedActive, FindLast, Packed;
    var f := PackLast(a.base, PackedActive(a), None);
    OneEach(f, a.lr);
    FirstOf(a.lr, user);
    FindIs(Flat(f, a.lr), user, FindLast(a.lr, user));
  }

  lemma {:induction false} OneEach<S, T>(f: S -> seq<T>, s: seq<S>)
    requires forall x :: |f(x)| == 1
    ensures |Flat(f, s)| == |s| && forall i :: 0 <= i < |s| ==> Flat(f, s)[i] == f(s[i])[0]
  {
    if s != [] {
      OneEach(f, s[..|s| - 1]);
    }
  }

  /** A record of the user's number with another CRC, left by a user who is gone, is what he found
      before, and packing drops it. */
  lemma StaleRecordDropped(a: Area, crc: U32, gone: U32)
    requires a.lr == [LastRead(gone, 0, 5, 5)] && crc != gone && crc != 0 && gone != 0
    ensures var user := LastRead(crc, 0, 0, 0);
            && Pointers(a.lr, user).lastReadMsg == 5
            && AfterPack(a, Some([crc])).lr == [] && Pointers(AfterPack(a, Some([crc])).lr, user) == user
  {
    hide PackPointer, PackedActive, Packed;
    assert a.lr[..0] == [] && FindLast(a.lr[..0], LastRead(crc, 0, 0, 0)) == 0;
    var f := PackLast(a.base, PackedActive(a), Some([crc]));
    assert f(a.lr[0]) == [];
    assert Flat(f, a.lr[..0]) == [];
  }
}
