/** The node record that lib/dbnode.c holds in memory and writes back when its checksum
    has changed. */
module NodeRecord {
  import opened Crc32

  class NodeCache {
    const recsize: nat
    var file: seq<bv8>
    var nodes: seq<bv8>
    var pos: int
    var crc: bv32

    /** While a record is held, `crc` is the checksum of what the file holds for it. */
    ghost predicate Valid()
      reads this
    {
      && |nodes| == recsize
      && (pos != -1 ==> 0 <= pos && pos + recsize <= |file| && crc == Register(0xffffffff, OnFile()))
    }

    ghost function OnFile(): seq<bv8>
      requires 0 <= pos && pos + recsize <= |file|
      reads this
    {
      file[pos..pos + recsize]
    }

    constructor (recsize: nat, file: seq<bv8>)
      ensures Valid() && this.recsize == recsize && this.file == file && pos == -1
    {
      this.recsize := recsize;
      this.file := file;
      nodes := seq(recsize, _ => 0);
      pos := -1;
      crc := 0xffffffff;
    }

    /** SearchNode once the record at `at` matches. */
    method Load(at: nat)
      requires Valid() && at + recsize <= |file|
      modifies this
      ensures Valid() && file == old(file) && pos == at && nodes == OnFile()
    {
      nodes := file[at..at + recsize];
      pos := at;
      crc := UpdCrc32(nodes, 0xffffffff);
    }

    /** UpdateNode: the record, edited or not, goes back to its place when the checksums differ,
        and an edit inside four consecutive bytes is never lost. */
    method UpdateNode() returns (held: bool)
      requires Valid()
      modifies this
      ensures Valid() && pos == -1 && held == (old(pos) != -1)
      ensures file == if held && Register(0xffffffff, old(nodes)) != Register(0xffffffff, old(OnFile()))
                      then old(file)[..old(pos)] + old(nodes) + old(file)[old(pos) + recsize..]
                      else old(file)
      ensures held ==> (forall k: nat :: DifferInWindow(old(OnFile()), old(nodes), k)
                          ==> file[old(pos)..old(pos) + recsize] == old(nodes))
    {
      hide Register;
      held := pos != -1;
      if held {
        var now := UpdCrc32(nodes, 0xffffffff);
        ghost var stored := OnFile();
        forall k: nat | DifferInWindow(stored, nodes, k)
          ensures now == crc <==> stored == nodes
        {
          WindowDetected(0xffffffff, stored, nodes, k);
        }
        if now != crc {
          file := file[..pos] + nodes + file[pos + recsize..];
        }
        crc := 0xffffffff;
        pos := -1;
        nodes := seq(recsize, _ => 0);
      }
    }
  }
}
