/** The tables on the disk: `wr_altsctr` of usr/src/cmd/addbadse/ix_altsc.c stores the partition
    table, the map and the entries one after the other, each in its own sectors, and
    `get_altsctr` reads them back from there. */
module AltDisk {
  import opened Bytes
  import opened AltAssign
  import opened AltTable

  /** The sectors of the partition from its start on, each with its bytes. */
  type Blocks = seq<seq<byte>>

  /** `absdsk_io`: `data` in the sectors from `at` on, and `n` sectors from there. */
  function Store(disk: Blocks, at: nat, data: Blocks): (r: Blocks)
    requires at + |data| <= |disk|
    ensures |r| == |disk|
    ensures forall i :: 0 <= i < |r| ==> r[i] == if at <= i < at + |data| then data[i - at] else disk[i]
  {
    disk[..at] + data + disk[at + |data|..]
  }

  function Fetch(disk: Blocks, at: nat, n: nat): (data: Blocks)
    requires at + n <= |disk|
    ensures |data| == n && forall i :: 0 <= i < n ==> data[i] == disk[at + i]
  {
    disk[at..at + n]
  }

  /** The three regions lie in the partition, apart from each other, on sectors not marked. */
  lemma RegionsApart(p: Part, t: Tab, known: set<int>, i: nat)
    requires Valid(p, t, known) && i < p.size
    ensures 1 <= t.mapBase && Behind(p, t) <= p.size
    ensures t.ents != [] ==> Behind(p, t) <= t.entBase && t.entBase + t.EntSec() <= p.size
    ensures i == 0 || t.mapBase <= i < Behind(p, t) ==> !t.m[i]
    ensures t.ents != [] && t.entBase <= i < t.entBase + t.EntSec() ==> !t.m[i]
  {
  }

  /** `wr_altsctr`; the entries are stored only if there are any. */
  ghost function Written(p: Part, t: Tab, known: set<int>, disk: Blocks, tab: seq<byte>, bitmap: Blocks, ents: Blocks):
    (r: Blocks)
    requires Valid(p, t, known) && |disk| == p.size && |bitmap| == p.MapSec() && |ents| == t.EntSec()
    ensures |r| == |disk|
  {
    RegionsApart(p, t, known, 0);
    var one := Store(disk, 0, [tab]);
    var two := Store(one, t.mapBase, bitmap);
    if t.ents == [] then two else Store(two, t.entBase, ents)
  }

  /** Whatever the tables hold, as long as they are valid each part is read back as it was
      stored, and no bad sector and no replacement in use is touched. */
  lemma WrittenReadBack(p: Part, t: Tab, known: set<int>, disk: Blocks, tab: seq<byte>, bitmap: Blocks, ents: Blocks)
    requires Valid(p, t, known) && |disk| == p.size && |bitmap| == p.MapSec() && |ents| == t.EntSec()
    ensures var r := Written(p, t, known, disk, tab, bitmap, ents);
            && Fetch(r, 0, 1) == [tab] && t.mapBase >= 0 && Fetch(r, t.mapBase, p.MapSec()) == bitmap
            && (t.ents != [] ==> t.entBase >= 0 && Fetch(r, t.entBase, t.EntSec()) == ents)
            && forall i :: 0 <= i < |r| && t.m[i] ==> r[i] == disk[i]
  {
    var r := Written(p, t, known, disk, tab, bitmap, ents);
    forall i | 0 <= i < |r| && t.m[i] ensures r[i] == disk[i] { RegionsApart(p, t, known, i); }
    RegionsApart(p, t, known, 0);
  }

  lemma InUseIsMarked(start: nat, m: seq<bool>, known: set<int>, goods: multiset<int>, x: int)
    requires MapExact(start, m, known, goods) && start <= x < start + |m| && (x in known || x in goods)
    ensures m[x - start]
  {
    assert start + (x - start) == x;
  }

  /** A sector that was bad, or stands in for one, keeps its contents. */
  lemma {:induction false} WrittenSpares(p: Part, t: Tab, known: set<int>, disk: Blocks, tab: seq<byte>,
                                         bitmap: Blocks, ents: Blocks, x: int)
    requires Valid(p, t, known) && |disk| == p.size && |bitmap| == p.MapSec() && |ents| == t.EntSec()
    requires In(p, x) && (x in known || x in GoodBag(t.ents))
    ensures Written(p, t, known, disk, tab, bitmap, ents)[x - p.start] == disk[x - p.start]
  {
    InUseIsMarked(p.start, t.m, known, GoodBag(t.ents), x);
    WrittenReadBack(p, t, known, disk, tab, bitmap, ents);
  }
}
