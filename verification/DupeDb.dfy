/** The window of message identifiers already seen (lib/dbdupe.c). */
module DupeDb {
  import opened LittleEndian

  /** One database: what is on disk, and the table while it is loaded. */
  datatype Ddb = Ddb(file: seq<U32>, loaded: bool, changed: bool, crcs: seq<U32>, max: nat, peak: nat)

  /** Extra memory reserved for new identifiers. */
  const RESERVE: nat := 5000

  function Load(d: Ddb, max: nat): Ddb {
    if d.loaded then d
    else Ddb(d.file, true, false, d.file, max, (if |d.file| > max then |d.file| else max) + RESERVE)
  }

  function Last(s: seq<U32>, n: nat): (r: seq<U32>)
    ensures |r| == if |s| > n then n else |s|
    ensures r == s[|s| - |r|..]
  {
    if |s| > n then s[|s| - n..] else s
  }

  /** CloseDdb: only the newest identifiers are kept. */
  function Close(d: Ddb): Ddb {
    if !d.loaded then d
    else Ddb(if d.changed then Last(d.crcs, d.max) else d.file, false, false, [], 0, 0)
  }

  function Append(d: Ddb, crc: U32): Ddb {
    var a := d.(crcs := d.crcs + [crc], changed := true);
    if |a.crcs| >= a.peak then Close(a) else a
  }

  /** CheckDupe. */
  function Check(d: Ddb, crc: U32, max: nat): (Ddb, bool) {
    var l := Load(d, max);
    if crc in l.crcs then (l, true) else (Append(l, crc), false)
  }

  // ----- Runs -----

  datatype Op = CheckDupe(crc: U32) | CloseDdb

  /** The database, and every identifier it ever held or recorded, oldest first. */
  datatype World = World(ddb: Ddb, history: seq<U32>)

  function Start(file: seq<U32>): World {
    World(Ddb(file, false, false, [], 0, 0), file)
  }

  function Apply(w: World, op: Op, max: nat): World {
    match op
    case CheckDupe(crc) =>
      var (d, dupe) := Check(w.ddb, crc, max);
      World(d, if dupe then w.history else w.history + [crc])
    case CloseDdb => w.(ddb := Close(w.ddb))
  }

  function Run(file: seq<U32>, ops: seq<Op>, max: nat): World {
    if ops == [] then Start(file) else Apply(Run(file, ops[..|ops| - 1], max), ops[|ops| - 1], max)
  }

  /** The identifiers a check looks through. */
  function Known(d: Ddb): seq<U32> {
    if d.loaded then d.crcs else d.file
  }

  /** The table has room for one more, and an unchanged one is what is on disk. */
  predicate Ready(d: Ddb) {
    d.loaded ==> |d.crcs| < d.peak && (!d.changed ==> d.crcs == d.file)
  }

  predicate Suffix(s: seq<U32>, t: seq<U32>) {
    |s| <= |t| && t[|t| - |s|..] == s
  }

  /** What is known is the newest part of the history, and at least the last `max` of it. */
  predicate Window(w: World, max: nat) {
    && Ready(w.ddb) && (w.ddb.loaded ==> w.ddb.max == max)
    && Suffix(Known(w.ddb), w.history)
    && (|Known(w.ddb)| >= max || Known(w.ddb) == w.history)
  }

  lemma LastSuffix(s: seq<U32>, n: nat, t: seq<U32>)
    requires Suffix(s, t)
    ensures Suffix(Last(s, n), t)
  {
    var r := Last(s, n);
    assert t[|t| - |r|..] == t[|t| - |s|..][|s| - |r|..];
  }

  lemma CloseWindow(d: Ddb, history: seq<U32>, max: nat)
    requires d.loaded ==> |d.crcs| <= d.peak && (!d.changed ==> d.crcs == d.file) && d.max == max
    requires Suffix(Known(d), history) && (|Known(d)| >= max || Known(d) == history)
    ensures Window(World(Close(d), history), max)
  {
    if d.loaded {
      LastSuffix(d.crcs, max, history);
    }
  }

  lemma AppendWindow(d: Ddb, history: seq<U32>, crc: U32, max: nat)
    requires d.loaded && Window(World(d, history), max)
    ensures Window(World(Append(d, crc), history + [crc]), max)
  {
    var a := d.(crcs := d.crcs + [crc], changed := true);
    var h := history + [crc];
    assert h[|h| - |a.crcs|..] == history[|history| - |d.crcs|..] + [crc];
    CloseWindow(a, h, max);
  }

  /** Every run keeps the window. */
  lemma {:induction false} RunWindow(file: seq<U32>, ops: seq<Op>, max: nat)
    ensures Window(Run(file, ops, max), max)
  {
    if ops == [] {
      assert file[0..] == file;
    } else {
      RunWindow(file, ops[..|ops| - 1], max);
      var w := Run(file, ops[..|ops| - 1], max);
      match ops[|ops| - 1]
      case CheckDupe(crc) =>
        var l := Load(w.ddb, max);
        assert Window(World(l, w.history), max);
        if crc !in l.crcs { AppendWindow(l, w.history, crc, max); }
      case CloseDdb => CloseWindow(w.ddb, w.history, max);
    }
  }

  /** After any run, an identifier among the last `max` of the history is reported as a dupe,
      one that is not in the history never is, and a new one always finds room. */
  lemma DupeReported(file: seq<U32>, ops: seq<Op>, max: nat, crc: U32)
    ensures var w := Run(file, ops, max); var dupe := Check(w.ddb, crc, max).1; var l := Load(w.ddb, max);
            && (crc in Last(w.history, max) ==> dupe)
            && (dupe ==> crc in w.history)
            && (dupe <==> crc in Known(w.ddb))
            && |l.crcs| < l.peak
  {
    RunWindow(file, ops, max);
    var w := Run(file, ops, max);
    hide Run, Append;
    InLast(Known(w.ddb), w.history, max, crc);
  }

  /** What closing leaves on disk, after any run: the newest part of the history and no more than max
      identifiers of it, if any was added; if not, the database as it was.  The next check reads it. */
  lemma ClosedOnDisk(file: seq<U32>, ops: seq<Op>, max: nat)
    ensures var w := Run(file, ops, max); var d := Close(w.ddb);
            && !d.loaded && Suffix(d.file, w.history) && (|d.file| >= max || d.file == w.history)
            && (w.ddb.loaded && w.ddb.changed ==> |d.file| <= max)
            && (!(w.ddb.loaded && w.ddb.changed) ==> d.file == w.ddb.file)
            && Load(d, max).crcs == d.file
  {
    RunWindow(file, ops, max);
    var w := Run(file, ops, max);
    hide Run;
    CloseWindow(w.ddb, w.history, max);
  }

  lemma InLast(k: seq<U32>, h: seq<U32>, max: nat, crc: U32)
    requires Suffix(k, h) && (|k| >= max || k == h)
    ensures crc in Last(h, max) ==> crc in k
    ensures crc in k ==> crc in h
  {
    var l := Last(h, max);
    forall j | 0 <= j < |l|
      ensures l[j] in k
    {
      assert l[j] == h[|h| - |l| + j] == h[|h| - |k|..][|k| - |l| + j];
    }
    forall j | 0 <= j < |k|
      ensures k[j] in h
    {
      assert k[j] == h[|h| - |k| + j];
    }
  }

  // ----- The table -----

  class Dupes {
    var file: seq<U32>
    var crcs: array?<U32>
    var loaded: bool
    var changed: bool
    var count: nat
    var max: nat
    var peak: nat

    ghost predicate Valid()
      reads this, crcs
    {
      && (loaded <==> crcs != null)
      && (loaded ==> crcs.Length == peak)
      && (!loaded ==> !changed && count == max == peak == 0)
      && count <= peak
      && Ready(View())
    }

    ghost function View(): Ddb
      reads this, crcs
      requires (loaded <==> crcs != null) && (crcs != null ==> count <= crcs.Length)
    {
      Ddb(file, loaded, changed, if crcs == null then [] else crcs[..count], max, peak)
    }

    /** InitDupes, with what is on disk. */
    constructor (file: seq<U32>)
      ensures Valid() && View() == Start(file).ddb
    {
      this.file := file;
      crcs, loaded, changed, count, max, peak := null, false, false, 0, 0, 0;
    }

    /** The first part of CheckDupe: read the database, with room for more. */
    method LoadDdb(limit: nat)
      requires Valid() && !loaded
      modifies this
      ensures Valid() && loaded && fresh(crcs) && View() == Load(old(View()), limit)
    {
      var size := |file|;
      peak := if size > limit then size + RESERVE else limit + RESERVE;
      crcs := new U32[peak](_ => 0);
      while count < |file|
        invariant crcs != null && fresh(crcs) && !changed && !loaded && max == 0
        invariant count <= |file| < peak == crcs.Length
        invariant peak == (if |file| > limit then |file| else limit) + RESERVE
        invariant file == old(file) && crcs[..count] == file[..count]
        decreases |file| - count
      {
        crcs[count] := file[count];
        count := count + 1;
      }
      assert file[..count] == file;
      loaded := true;
      max := limit;
    }

    method CheckDupe(crc: U32, limit: nat) returns (dupe: bool)
      requires Valid()
      modifies this, crcs
      ensures Valid() && (View(), dupe) == Check(old(View()), crc, limit)
    {
      if !loaded { LoadDdb(limit); }
      ghost var l := View();
      var i := 0;
      while i < count
        invariant i <= count && forall j :: 0 <= j < i ==> crcs[j] != crc
      {
        if crcs[i] == crc {
          assert l.crcs[i] == crc;
          return true;
        }
        i := i + 1;
      }
      hide Suffix, Last;
      assert crc !in l.crcs;
      AddCrc(crc);
      if count >= peak { CloseDdb(); }
      return false;
    }

    method AddCrc(crc: U32)
      requires Valid() && loaded
      modifies this`count, this`changed, crcs
      ensures (loaded <==> crcs != null) && crcs.Length == peak && count <= peak && changed
      ensures View() == old(View()).(crcs := old(View()).crcs + [crc], changed := true)
    {
      crcs[count] := crc;
      count := count + 1;
      changed := true;
      assert crcs[..count] == old(crcs[..count]) + [crc];
    }

    method CloseDdb()
      requires (loaded <==> crcs != null) && (loaded ==> crcs.Length == peak) && count <= peak
      requires !loaded ==> !changed && count == max == peak == 0
      modifies this
      ensures Valid() && View() == Close(old(View()))
    {
      if loaded {
        if changed {
          var start := if count > max then count - max else 0;
          file := [];
          var j := start;
          while j < count
            invariant start <= j <= count && loaded && crcs != null && count <= crcs.Length
            invariant crcs == old(crcs) && count == old(count) && crcs[..] == old(crcs[..])
            invariant file == crcs[start..j]
          {
            file := file + [crcs[j]];
            j := j + 1;
          }
          assert crcs[start..count] == crcs[..count][start..];
        }
        changed, loaded, count, max, peak, crcs := false, false, 0, 0, 0, null;
      }
    }
  }
}
