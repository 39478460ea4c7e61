/** Runs of usr/src/cmd/addbadse/ix_altsc.c as a relation between the tables on the disk
    before and after, and what holds over every sequence of runs. */
module AltRuns {
  import opened AltEntries
  import opened AltMerge
  import opened AltSearch
  import opened AltMap
  import opened AltAssign
  import opened AltCheck
  import opened AltTable
  import opened Wrappers

  function Blank(n: nat): (m: seq<bool>)
    ensures |m| == n && forall i :: 0 <= i < n ==> !m[i]
  {
    if n == 0 then [] else Blank(n - 1) + [false]
  }

  /** The layout while `init_altsctr` marks bad sectors, before the map has its place. */
  function NewLayout(p: Part): Layout { Layout(p.start, p.size, 0, p.MapSec(), 0, 0) }

  /** `read_altsctr`: from the tables of the disk, or on a new partition, to `t` in core, with
      `left` remaining of the reported sectors. */
  ghost predicate Reads(p: Part, disk: Option<Tab>, bads: seq<Ent>, t: Tab, left: seq<Ent>) {
    match disk
    case None =>
      && Examine(true, NewLayout(p), Blank(p.size), [], [], bads) == Ok(Assigned(t.m, left))
      && |t.m| == p.size && t == Tab(t.m, [], LowestRun(t.m, 1, p.size, p.MapSec()), 0) && t.mapBase != 0
    case Some(d) =>
      && |d.m| == p.size && t == d.(m := t.m)
      && Examine(false, LayoutOf(p, d), d.m, d.ents, [], bads) == Ok(Assigned(t.m, left))
  }

  /** `ent_sort` and `ent_compress` on the list `left`. */
  ghost predicate Compressed(left: seq<Ent>, g: seq<Ent>) {
    && LiveSorted(g) && EndsOrdered(g) && Proper(g) && Bag(g) == Bag(left)
    && forall i :: 0 <= i < |g| ==> g[i].good == 0
  }

  /** `gen_alts_ent`, which does nothing when no sector was reported. */
  ghost predicate Generates(p: Part, bads: seq<Ent>, t: Tab, g: seq<Ent>, t': Tab) {
    Shaped(p, t) && if bads == [] then t' == t else Generate(p, t, g) == Ok(t')
  }

  /** One run that succeeds: the list reported, what was left of it, and the tables before and
      after the merge. */
  datatype Run = Run(init: bool, bads: seq<Ent>, left: seq<Ent>, g: seq<Ent>, read: Tab, after: Tab)

  /** What a run finds: with the flag set, or without readable tables, a new partition. */
  function Found(disk: Option<Tab>, init: bool): Option<Tab> { if init then None else disk }

  ghost predicate Succeeds(p: Part, disk: Option<Tab>, r: Run) {
    && p.size > 0 && Reported(r.bads)
    && Reads(p, Found(disk, r.init), r.bads, r.read, r.left) && Compressed(r.left, r.g)
    && Generates(p, r.bads, r.read, r.g, r.after)
  }

  ghost predicate ValidDisk(p: Part, disk: Option<Tab>, known: set<int>) {
    match disk
    case None => known == {}
    case Some(t) => Valid(p, t, known)
  }

  /** The sectors reported since the tables were set up. */
  function KnownAfter(known: set<int>, r: Run): set<int> { (if r.init then {} else known) + SectorSet(r.bads) }

  // ----- one run -----

  /** After `read_altsctr` the map is right for the sectors known now, the entries are those
      of the disk, and what is left are the sectors that need a replacement. */
  lemma ReadMarked(p: Part, disk: Option<Tab>, known: set<int>, bads: seq<Ent>, t: Tab, left: seq<Ent>, g: seq<Ent>)
    requires p.size > 0 && ValidDisk(p, disk, known) && Reported(bads) && Reads(p, disk, bads, t, left)
             && Compressed(left, g)
    ensures Marked(p, t, known + SectorSet(bads)) && NewList(p, t, g, known + SectorSet(bads))
    ensures Ordered(t.ents) && AllServed(t.ents)
    ensures disk.Some? ==> t == disk.value.(m := t.m)
  {
    if disk.None? {
      var out := ExamineSound(true, NewLayout(p), Blank(p.size), [], [], bads, Assigned(t.m, left));
      assert [] + out == out;
      InitMarked(p, bads, Blank(p.size), t.m, left, t.mapBase);
      InitNewList(p, bads, Blank(p.size), t.m, left, g, t.mapBase);
      assert known + SectorSet(bads) == SectorSet(bads);
    } else {
      var d := disk.value;
      var out := ExamineSound(false, LayoutOf(p, d), d.m, d.ents, [], bads, Assigned(t.m, left));
      assert [] + out == out;
      CheckedMarked(p, d, known, bads, t.m, left);
      CheckedNewList(p, d, known, bads, t.m, left, g);
    }
  }

  lemma NothingReported(p: Part, disk: Option<Tab>, known: set<int>, t: Tab, left: seq<Ent>)
    requires p.size > 0 && ValidDisk(p, disk, known) && Reads(p, disk, [], t, left)
    ensures left == [] && (disk.Some? ==> t == disk.value) && (disk.None? ==> t.ents == [])
  {
  }

  /** Every run that succeeds leaves tables that are right for all sectors reported so far. */
  lemma RunValid(p: Part, disk: Option<Tab>, known: set<int>, r: Run)
    requires ValidDisk(p, disk, known) && Succeeds(p, disk, r)
    ensures Valid(p, r.after, KnownAfter(known, r))
    ensures !r.init && disk.Some? ==> forall e :: e in disk.value.ents ==> e in r.after.ents
    ensures Bag(r.after.ents) == Bag(r.read.ents) + Bag(r.g)
  {
    var from, base := Found(disk, r.init), if r.init then {} else known;
    ReadMarked(p, from, base, r.bads, r.read, r.left, r.g);
    if r.bads == [] {
      NothingReported(p, from, base, r.read, r.left);
      assert SectorSet(r.bads) == {} && base + {} == base;
    } else {
      GenerateValid(p, r.read, r.g, KnownAfter(known, r), r.after);
    }
  }

  // ----- sequences of runs -----

  /** Each run starts from the disk its predecessor left. */
  ghost predicate History(p: Part, disk: Option<Tab>, rs: seq<Run>)
    decreases |rs|
  {
    rs == [] || (Succeeds(p, disk, rs[0]) && History(p, Some(rs[0].after), rs[1..]))
  }

  function DiskAfter(disk: Option<Tab>, rs: seq<Run>): (after: Option<Tab>)
    ensures disk.Some? ==> after.Some?
    decreases |rs|
  {
    if rs == [] then disk else DiskAfter(Some(rs[0].after), rs[1..])
  }

  function KnownAfterAll(known: set<int>, rs: seq<Run>): set<int>
    decreases |rs|
  {
    if rs == [] then known else KnownAfterAll(KnownAfter(known, rs[0]), rs[1..])
  }

  /** Whatever sectors are reported in however many runs, the tables stay right. */
  lemma {:induction false} EveryRunValid(p: Part, disk: Option<Tab>, known: set<int>, rs: seq<Run>)
    requires ValidDisk(p, disk, known) && History(p, disk, rs)
    ensures ValidDisk(p, DiskAfter(disk, rs), KnownAfterAll(known, rs))
    decreases |rs|
  {
    if rs != [] {
      RunValid(p, disk, known, rs[0]);
      EveryRunValid(p, Some(rs[0].after), KnownAfter(known, rs[0]), rs[1..]);
    }
  }

  /** An entry once made is kept by runs that do not set the tables up anew: a bad sector has
      the same replacement for good. */
  lemma {:induction false} EntriesStay(p: Part, t: Tab, known: set<int>, rs: seq<Run>, e: Ent)
    requires Valid(p, t, known) && History(p, Some(t), rs) && (forall i :: 0 <= i < |rs| ==> !rs[i].init) && e in t.ents
    ensures e in DiskAfter(Some(t), rs).value.ents
    decreases |rs|
  {
    if rs != [] {
      RunValid(p, Some(t), known, rs[0]);
      EntriesStay(p, rs[0].after, KnownAfter(known, rs[0]), rs[1..], e);
    }
  }

  // ----- what valid tables give the driver -----

  /** The index of the first entry that covers `x`. */
  function Covering(es: seq<Ent>, x: int): (i: nat)
    requires Remapped(es, x)
    ensures i < |es| && Contains(es[i], x)
  {
    if Contains(es[0], x) then 0
    else
      assert Remapped(es[1..], x) by {
        var i :| 0 <= i < |es| && Contains(es[i], x);
        assert es[1..][i - 1] == es[i];
      }
      1 + Covering(es[1..], x)
  }

  /** The sector used instead of `x`. */
  function Instead(es: seq<Ent>, x: int): int
    requires Remapped(es, x)
  {
    var e := es[Covering(es, x)];
    e.good + (x - e.bad)
  }

  /** Two runs that share a sector are one. */
  lemma {:induction false} SharedRun(es: seq<Ent>, i: nat, j: nat, z: int)
    requires i < j < |es| && z in Goods(es[i]) && z in Goods(es[j])
    ensures GoodBag(es)[z] >= 2
  {
    if i == 0 {
      GoodBagAt(es[1..], j - 1, z);
    } else {
      SharedRun(es[1..], i - 1, j - 1, z);
    }
  }

  lemma {:induction false} GoodBagAt(es: seq<Ent>, i: nat, z: int)
    requires i < |es| && z in Goods(es[i])
    ensures GoodBag(es)[z] >= 1
  {
    if i > 0 { GoodBagAt(es[1..], i - 1, z); }
  }

  lemma InsteadIsGood(es: seq<Ent>, x: int)
    requires Ordered(es) && AllServed(es) && Remapped(es, x)
    ensures Instead(es, x) in GoodBag(es)
  {
    var i, y := Covering(es, x), Instead(es, x);
    assert y in Goods(es[i]);
    GoodBagAt(es, i, y);
  }

  lemma MarkedAt(start: nat, m: seq<bool>, known: set<int>, goods: multiset<int>, y: int)
    requires MapExact(start, m, known, goods) && y in goods && start <= y < start + |m|
    ensures m[y - start]
  {
    assert start + (y - start) == y;
  }

  /** Every bad sector outside the partition is replaced, by a sector of the partition that
      never was bad and is in none of its tables. */
  lemma InsteadIsSafe(p: Part, t: Tab, known: set<int>, x: int)
    requires Valid(p, t, known) && x in known && !In(p, x)
    ensures Remapped(t.ents, x)
    ensures var y := Instead(t.ents, x);
            && p.start + Behind(p, t) <= y < p.start + p.size && y !in known
            && !(p.start + t.entBase <= y < p.start + t.entBase + t.EntSec())
  {
    assert x in Bag(t.ents);
    RemappedIsCovered(t.ents, x);
    InsteadIsGood(t.ents, x);
    var y := Instead(t.ents, x);
    MarkedAt(p.start, t.m, known, GoodBag(t.ents), y);
  }

  /** Different bad sectors have different replacements. */
  lemma InsteadIsInjective(p: Part, t: Tab, known: set<int>, x: int, x': int)
    requires Valid(p, t, known) && x in known && !In(p, x) && x' in known && !In(p, x')
    requires Remapped(t.ents, x) && Remapped(t.ents, x') && Instead(t.ents, x) == Instead(t.ents, x')
    ensures x == x'
  {
    var es, y := t.ents, Instead(t.ents, x);
    var i, j := Covering(es, x), Covering(es, x');
    assert y in Goods(es[i]) && y in Goods(es[j]) && GoodBag(es)[y] <= 1;
    if i < j { SharedRun(es, i, j, y); }
    if j < i { SharedRun(es, j, i, y); }
  }

  // ----- repeated sectors -----

  /** No sector that needs a replacement is reported twice. */
  ghost predicate Distinct(p: Part, disk: Option<Tab>, bads: seq<Ent>) {
    forall x :: Bag(bads)[x] <= 1 || In(p, x) || x in Bag(EntsOf(disk))
  }

  function EntsOf(disk: Option<Tab>): seq<Ent> { if disk.None? then [] else disk.value.ents }

  /** What is left of the list: each sector outside the partition and without a replacement,
      as often as it was reported. */
  lemma LeftBag(p: Part, disk: Option<Tab>, bads: seq<Ent>, t: Tab, left: seq<Ent>, x: int)
    requires Reported(bads) && Reads(p, disk, bads, t, left) && Ordered(EntsOf(disk))
    ensures Bag(left)[x] == if In(p, x) || x in Bag(EntsOf(disk)) then 0 else Bag(bads)[x]
  {
    RemappedIsCovered(EntsOf(disk), x);
    if disk.None? {
      ExamineBag(true, NewLayout(p), Blank(p.size), [], bads, t.m, left, x);
    } else {
      ExamineBag(false, LayoutOf(p, disk.value), disk.value.m, disk.value.ents, bads, t.m, left, x);
    }
  }

  lemma ExamineBag(first: bool, lay: Layout, m: seq<bool>, ents: seq<Ent>, bads: seq<Ent>, m': seq<bool>,
          left: seq<Ent>, x: int)
    requires |m| == lay.size && Reported(bads) && Examine(first, lay, m, ents, [], bads) == Ok(Assigned(m', left))
    ensures Bag(left)[x] == if Dropped(first, lay, ents, x) then 0 else Bag(bads)[x]
  {
    var out := ExamineSound(first, lay, m, ents, [], bads, Assigned(m', left));
    assert [] + out == out;
  }

  lemma LeftIsDistinct(p: Part, disk: Option<Tab>, bads: seq<Ent>, t: Tab, left: seq<Ent>)
    requires Reported(bads) && Reads(p, disk, bads, t, left) && Ordered(EntsOf(disk))
    ensures NoRepeat(Bag(left)) <==> Distinct(p, disk, bads)
  {
    forall x ensures Bag(left)[x] == if In(p, x) || x in Bag(EntsOf(disk)) then 0 else Bag(bads)[x] {
      LeftBag(p, disk, bads, t, left, x);
    }
    if NoRepeat(Bag(left)) {
      forall x ensures Bag(bads)[x] <= 1 || In(p, x) || x in Bag(EntsOf(disk)) { assert Bag(left)[x] <= 1; }
    }
  }

  /** The entries after a run are pairwise disjoint exactly if they were before and no sector
      that needs a replacement was reported twice. */
  lemma DisjointIffDistinct(p: Part, disk: Option<Tab>, known: set<int>, r: Run)
    requires ValidDisk(p, disk, known) && Succeeds(p, disk, r)
    ensures LiveStrict(r.after.ents) <==> LiveStrict(r.read.ents) && Distinct(p, Found(disk, r.init), r.bads)
  {
    var from, base := Found(disk, r.init), if r.init then {} else known;
    RunValid(p, disk, known, r);
    ReadMarked(p, from, base, r.bads, r.read, r.left, r.g);
    LeftIsDistinct(p, from, r.bads, r.read, r.left);
    OrderedStrict(r.after.ents);
    OrderedStrict(r.read.ents);
    SumNoRepeat(Bag(r.read.ents), Bag(r.g));
  }

  lemma OrderedStrict(es: seq<Ent>)
    requires Ordered(es)
    ensures LiveStrict(es) <==> NoRepeat(Bag(es))
  {
    forall i | 0 <= i < |es| ensures StartsAfter(es, i, es[i].bad) {
      forall j | i < j < |es| ensures es[i].bad <= es[j].bad { assert Before(es[i], es[j]); }
    }
    StrictIffNoRepeat(es);
  }

  lemma SumNoRepeat(a: multiset<int>, b: multiset<int>)
    requires forall x :: x in b ==> x !in a
    ensures NoRepeat(a + b) <==> NoRepeat(a) && NoRepeat(b)
  {
    if NoRepeat(a + b) {
      forall x ensures a[x] <= 1 && b[x] <= 1 { assert (a + b)[x] <= 1; }
    }
  }

  /** Sector 5 reported twice. */
  predicate Twice(bads: seq<Ent>) { |bads| == 2 && bads[0] == bads[1] == Ent(5, 5, 0) }

  /** A new partition of eight sectors, and its tables when no sector of it is bad. */
  predicate Small(p: Part, t: Tab) { p == Part(100, 8) && t == Tab(Blank(p.size), [], 1, 0) }

  lemma TwiceReads(p: Part, bads: seq<Ent>, t: Tab)
    requires Small(p, t) && Twice(bads)
    ensures Reads(p, None, bads, t, bads)
  {
    assert bads[1..][1..] == [] && [] + [bads[0]] + [bads[1]] == bads;
    assert Examine(true, NewLayout(p), t.m, [], bads, []) == Ok(Assigned(t.m, bads));
    assert Examine(true, NewLayout(p), t.m, [], [] + [bads[0]], bads[1..]) == Ok(Assigned(t.m, bads));
    assert Free(t.m, t.mapBase, 1) && p.MapSec() == 1;
  }

  lemma {:induction false} TwiceAssigns(m: seq<bool>, bads: seq<Ent>, end: nat, start: nat) returns (a: Assigned)
    requires |m| == 8 && (forall i :: 0 <= i < 8 ==> !m[i]) && Twice(bads) && end == 1 && start == 100
    ensures AssignAll(m, bads, end, start) == Ok(a)
            && a == Assigned(Mark(Mark(m, 7, 1), 6, 1), [Ent(5, 5, 107), Ent(5, 5, 106)])
  {
    var m1, e1, e2 := Mark(m, 7, 1), Ent(5, 5, 107), Ent(5, 5, 106);
    var m2 := Mark(m1, 6, 1);
    assert FreeDown(m, 7, 1) && !FreeDown(m1, 7, 1) && FreeDown(m1, 6, 1) by { assert m1[7]; }
    assert HighestRun(m1, 7, end, 1) == HighestRun(m1, 6, end, 1) == 6;
    assert AssignOne(m, bads[0], end, start) == Ok(Step(m1, e1))
        && AssignOne(m1, bads[1], end, start) == Ok(Step(m2, e2));
    assert AssignAll(m1, bads[1..], end, start) == Ok(Assigned(m2, [e2] + []));
    a := Assigned(m2, [e1, e2]);
    assert [e1] + ([e2] + []) == [e1, e2];
  }

  lemma {:induction false} TwiceGenerates(p: Part, bads: seq<Ent>, t: Tab) returns (t': Tab)
    requires Small(p, t) && Twice(bads)
    ensures Generate(p, t, bads) == Ok(t') && t'.ents == [Ent(5, 5, 107), Ent(5, 5, 106)]
  {
    AllLive(bads);
    assert Merge([], bads) == bads && p.MapSec() == 1;
    var a := TwiceAssigns(t.m, bads, Behind(p, t) - 1, p.start);
    assert Free(a.m, Behind(p, t), 1) && SectorsFor(24) == 1;
    t' := Tab(a.m, a.ents, t.mapBase, Behind(p, t));
  }

  lemma TwiceCompressed(bads: seq<Ent>)
    requires Twice(bads)
    ensures Compressed(bads, bads)
  {
    forall i | 0 <= i < 2 ensures StartsAfter(bads, i, 5) && EndsAfter(bads, i, 5) { }
  }

  /** Two entries then cover the sector. */
  lemma RepeatedSector() returns (p: Part, r: Run)
    ensures Succeeds(p, None, r) && Twice(r.bads) && !LiveStrict(r.after.ents)
  {
    p := Part(100, 8);
    var bads, t := [Ent(5, 5, 0), Ent(5, 5, 0)], Tab(Blank(p.size), [], 1, 0);
    TwiceReads(p, bads, t);
    TwiceCompressed(bads);
    var t' := TwiceGenerates(p, bads, t);
    r := Run(false, bads, bads, bads, t, t');
    var es := t'.ents;
    assert !StartsAfter(es, 0, es[0].end + 1) by { assert Live(es[1]) && es[1].bad == 5; }
  }

  // ----- failures -----

  predicate AllInside(p: Part, bads: seq<Ent>) { forall i :: 0 <= i < |bads| ==> In(p, bads[i].bad) }

  /** `gen_alts_ent` runs, and there is no entry for it to place. */
  predicate NothingToPlace(bads: seq<Ent>, t: Tab, g: seq<Ent>) {
    bads != [] && Merge(LiveOf(t.ents), LiveOf(g)) == []
  }

  /** No sector is left for the new intervals exactly when all reported ones lie inside. */
  lemma NoneLeft(p: Part, disk: Option<Tab>, bads: seq<Ent>, t: Tab, left: seq<Ent>, g: seq<Ent>)
    requires Reported(bads) && Reads(p, disk, bads, t, left) && Compressed(left, g) && EntsOf(disk) == []
    ensures LiveOf(g) == [] <==> AllInside(p, bads)
  {
    forall x ensures x in Bag(g) <==> !In(p, x) && x in Bag(bads) { LeftBag(p, disk, bads, t, left, x); }
    if AllInside(p, bads) {
      forall x ensures x !in Bag(g) { BagHas(bads, x); }
      NoneLive(g);
    }
    if LiveOf(g) == [] {
      LiveOfKeeps(g);
      forall i | 0 <= i < |bads| ensures In(p, bads[i].bad) {
        assert bads[i].bad in Sectors(bads[i]);
        BagHas(bads, bads[i].bad);
      }
    }
  }

  /** A run has no entry to place exactly when sectors were reported, the tables it found have
      no entries, and every sector reported lies in the partition.  The allocation of no
      sectors then fails, and the run exits with 65 though its map could be written. */
  lemma NoEntriesFails(p: Part, disk: Option<Tab>, known: set<int>, bads: seq<Ent>, t: Tab, left: seq<Ent>, g: seq<Ent>)
    requires p.size > 0 && ValidDisk(p, disk, known) && Reported(bads)
    requires Reads(p, disk, bads, t, left) && Compressed(left, g)
    ensures NothingToPlace(bads, t, g) <==> bads != [] && EntsOf(disk) == [] && AllInside(p, bads)
    ensures Shaped(p, t) && (NothingToPlace(bads, t, g) ==> Generate(p, t, g) == Exit(65))
  {
    ReadMarked(p, disk, known, bads, t, left, g);
    AllLive(t.ents);
    if EntsOf(disk) == [] { NoneLeft(p, disk, bads, t, left, g); }
  }

  /** A partition set up without any bad sector, of which one sector is reported now. */
  predicate Later(p: Part, d: Tab, bads: seq<Ent>) {
    Small(p, d) && |bads| == 1 && bads[0] == Ent(103, 103, 0)
  }

  lemma LaterValid(p: Part, d: Tab, bads: seq<Ent>)
    requires Later(p, d, bads)
    ensures Valid(p, d, {}) && Reported(bads)
  {
    assert p.MapSec() == 1 && Free(d.m, d.mapBase, p.MapSec());
    assert Bag(d.ents) == multiset{} && GoodBag(d.ents) == multiset{};
  }

  lemma LaterReads(p: Part, d: Tab, bads: seq<Ent>) returns (t: Tab, left: seq<Ent>)
    requires Later(p, d, bads)
    ensures Reads(p, Some(d), bads, t, left) && Compressed(left, left)
  {
    var lay, e := LayoutOf(p, d), bads[0];
    var m' := d.m[3 := true];
    left := [Drop(e)];
    t := d.(m := m');
    assert CheckOne(lay, d.m, d.ents, e) == Ok(Step(m', Drop(e)));
    assert bads[1..] == [] && [] + [Drop(e)] == left;
    assert Examine(false, lay, m', d.ents, left, []) == Ok(Assigned(m', left));
  }

  /** It is the first sector to be marked, and the run fails. */
  lemma FirstInside() returns (p: Part, d: Tab, bads: seq<Ent>, t: Tab, left: seq<Ent>)
    ensures Valid(p, d, {}) && Reported(bads) && Reads(p, Some(d), bads, t, left) && Compressed(left, left)
    ensures Shaped(p, t) && NothingToPlace(bads, t, left) && Generate(p, t, left) == Exit(65)
  {
    p, bads := Part(100, 8), [Ent(103, 103, 0)];
    d := Tab(Blank(p.size), [], 1, 0);
    LaterValid(p, d, bads);
    t, left := LaterReads(p, d, bads);
    NoEntriesFails(p, Some(d), {}, bads, t, left, left);
  }

  lemma {:induction false} NoneLive(g: seq<Ent>)
    requires Proper(g) && forall x :: x !in Bag(g)
    ensures LiveOf(g) == []
  {
    if g != [] {
      BagHas(g, g[0].bad);
      assert Bag(g) == Bag(g[1..]);
      NoneLive(g[1..]);
    }
  }
}
