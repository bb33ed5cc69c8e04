/** The lastread file: one record of pointers per user (lib/jammsg.c), and what a reader does
    with it (Read_a_Msg of mbsebbs/mail.c). */
module JamLastRead {
  import opened LittleEndian
  import opened JamPack

  /** Whether a record is that user's: GoldED leaves the CRC in place of the number, and then
      the CRC is looked at. */
  predicate IsOf(rec: LastRead, user: LastRead) {
    if rec.userID == rec.userCRC then rec.userCRC == user.userCRC else rec.userID == user.userID
  }

  /** The first record of that user, or the end of the file. */
  function FindLast(lrs: seq<LastRead>, user: LastRead): (k: nat)
    ensures k <= |lrs| && (k < |lrs| ==> IsOf(lrs[k], user))
    ensures forall j :: 0 <= j < k ==> !IsOf(lrs[j], user)
  {
    if lrs == [] then 0
    else
      var n := |lrs| - 1;
      var k := FindLast(lrs[..n], user);
      if k < n then k else if IsOf(lrs[n], user) then n else n + 1
  }

  /** The pointers that JAM_GetLastRead gives a user. */
  function Pointers(lrs: seq<LastRead>, user: LastRead): (r: LastRead) {
    var k := FindLast(lrs, user);
    if k < |lrs| then user.(lastReadMsg := lrs[k].lastReadMsg, highReadMsg := lrs[k].highReadMsg) else user
  }

  const NO_RECORD := LastRead(0, 0, 0, 0)

  /** Writing record k; what lies between the end of the file and it becomes zeros. */
  function Written(lrs: seq<LastRead>, k: nat, lr: LastRead): seq<LastRead> {
    if k < |lrs| then lrs[k := lr] else lrs + seq(k - |lrs|, _ => NO_RECORD) + [lr]
  }

  function Min(a: U32, b: U32): U32 {
    if a < b then a else b
  }

  function Max(a: U32, b: U32): U32 {
    if a > b then a else b
  }

  /** What a reader makes of the file who has read message num, in an area whose highest message
      had the given number when it was opened. */
  function ReadTo(lrs: seq<LastRead>, user: LastRead, num: U32, highest: U32): seq<LastRead> {
    var k := FindLast(lrs, user);
    if k < |lrs| then lrs[k := user.(lastReadMsg := num, highReadMsg := Min(Max(num, lrs[k].highReadMsg), highest))]
    else lrs + [user.(lastReadMsg := num, highReadMsg := num)]
  }

  lemma FindIs(lrs: seq<LastRead>, user: LastRead, k: nat)
    requires k <= |lrs| && (k < |lrs| ==> IsOf(lrs[k], user))
    requires forall j :: 0 <= j < k ==> !IsOf(lrs[j], user)
    ensures FindLast(lrs, user) == k
  {
  }

  /** What was marked is found again under the same user, with a high pointer that never falls
      but to the highest message of the area. */
  lemma MarkedFound(lrs: seq<LastRead>, user: LastRead, num: U32, highest: U32)
    ensures var r := Pointers(ReadTo(lrs, user, num, highest), user); var k := FindLast(lrs, user);
            && FindLast(ReadTo(lrs, user, num, highest), user) == k
            && r.userID == user.userID && r.userCRC == user.userCRC && r.lastReadMsg == num
            && (if k == |lrs| then r.highReadMsg == num
                else
                  && r.highReadMsg <= highest
                  && (num <= highest ==> num <= r.highReadMsg)
                  && (lrs[k].highReadMsg <= highest ==> lrs[k].highReadMsg <= r.highReadMsg)
                  && r.highReadMsg in {num, lrs[k].highReadMsg, highest})
  {
    hide FindLast;
    var f := FindLast(lrs, user);
    var lrs' := ReadTo(lrs, user, num, highest);
    FirstOf(lrs, user);
    FindIs(lrs', user, f);
  }

  lemma FirstOf(lrs: seq<LastRead>, user: LastRead)
    ensures var k := FindLast(lrs, user);
            k <= |lrs| && (k < |lrs| ==> IsOf(lrs[k], user)) && forall j :: 0 <= j < k ==> !IsOf(lrs[j], user)
  {
  }

  /** Another user, with another number and another CRC, keeps his pointers. */
  lemma MarkedOthers(lrs: seq<LastRead>, user: LastRead, num: U32, highest: U32, other: LastRead)
    requires other.userID != user.userID && other.userCRC != user.userCRC
    ensures Pointers(ReadTo(lrs, user, num, highest), other) == Pointers(lrs, other)
  {
    hide FindLast;
    var k := FindLast(lrs, other);
    var lrs' := ReadTo(lrs, user, num, highest);
    FirstOf(lrs, user);
    FirstOf(lrs, other);
    var f := FindLast(lrs, user);
    assert f < |lrs| ==> f != k;
    FindIs(lrs', other, if k == |lrs| then |lrs'| else k);
  }
}
