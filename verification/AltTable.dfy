/** The tables of the alternate-sector partition as values: what a run of
    usr/src/cmd/addbadse/ix_altsc.c computes from them, and the invariant every run keeps. */
module AltTable {
  import opened AltEntries
  import opened AltMerge
  import opened AltSearch
  import opened AltMap
  import opened AltAssign
  import opened AltCheck

  /** `byte_to_secsiz`, in sectors of 512 bytes; an entry takes 12 bytes. */
  function SectorsFor(bytes: nat): nat { (bytes + 511) / 512 }

  /** The fewest sectors that hold a map of `n` bits, and `n` entries. */
  lemma {:induction false} SectorsNeeded(n: nat)
    ensures n <= 8 * 512 * SectorsFor(BytesFor(n)) < n + 8 * 512
    ensures 12 * n <= 512 * SectorsFor(12 * n) < 12 * n + 512
  {
  }

  /** The partition on the disk. */
  datatype Part = Part(start: nat, size: nat) {
    function MapSec(): nat { SectorsFor(BytesFor(size)) }
  }

  /** The map, the entries, and where map and entries lie on the disk. */
  datatype Tab = Tab(m: seq<bool>, ents: seq<Ent>, mapBase: int, entBase: int) {
    function EntSec(): nat { SectorsFor(12 * |ents|) }
  }

  function LayoutOf(p: Part, t: Tab): Layout {
    Layout(p.start, p.size, t.mapBase, p.MapSec(), t.entBase, t.EntSec())
  }

  /** The first sector behind the map. */
  function Behind(p: Part, t: Tab): int { t.mapBase + p.MapSec() }

  /** Entries without replacements are served, and the entry table is given its place. */
  ghost function ServeAll(p: Part, t: Tab): (r: Result<Tab>)
    requires |t.m| == p.size && 0 < Behind(p, t) <= p.size
    ensures r.Exit? ==> r.code == 65
  {
    var a := AssignAll(t.m, t.ents, Behind(p, t) - 1, p.start);
    if a.Exit? then Exit(a.code)
    else
      var base := LowestRun(a.value.m, Behind(p, t), p.size, SectorsFor(12 * |a.value.ents|));
      if base == 0 then Exit(65) else Ok(Tab(a.value.m, a.value.ents, t.mapBase, base))
  }

  /** `gen_alts_ent` on the list `g` of new intervals. */
  ghost function Generate(p: Part, t: Tab, g: seq<Ent>): (r: Result<Tab>)
    requires |t.m| == p.size && 0 < Behind(p, t) <= p.size
    ensures r.Exit? ==> r.code == 65
  {
    ServeAll(p, t.(ents := Merge(LiveOf(t.ents), LiveOf(g))))
  }

  // ----- the invariant -----

  predicate Shaped(p: Part, t: Tab) {
    && |t.m| == p.size && 1 <= t.mapBase && Behind(p, t) <= p.size
  }

  /** Partition table and map lie on good sectors. */
  ghost predicate Clear(p: Part, t: Tab)
    requires Shaped(p, t)
  {
    p.size > 0 && !t.m[0] && Free(t.m, t.mapBase, p.MapSec())
  }

  /** So does the entry table, behind the map. */
  ghost predicate EntriesClear(p: Part, t: Tab) {
    t.ents != [] ==> Behind(p, t) <= t.entBase <= p.size - t.EntSec() && Free(t.m, t.entBase, t.EntSec())
  }

  predicate In(p: Part, x: int) { p.start <= x < p.start + p.size }

  /** The map marks exactly the bad sectors of the partition and the replacements in use. */
  ghost predicate MapExact(start: nat, m: seq<bool>, known: set<int>, goods: multiset<int>) {
    forall i :: 0 <= i < |m| ==> m[i] == (start + i in known || start + i in goods)
  }

  /** Replacements are pairwise different good sectors between `lo` and `hi`. */
  ghost predicate Replaced(lo: int, hi: int, known: set<int>, goods: multiset<int>) {
    NoRepeat(goods) && forall x :: x in goods ==> lo <= x < hi && x !in known
  }

  predicate AllServed(es: seq<Ent>) { forall i :: 0 <= i < |es| ==> es[i].good != 0 }

  /** The entries cover exactly the bad sectors outside the partition. */
  ghost predicate Covers(p: Part, t: Tab, known: set<int>) {
    forall x :: x in Bag(t.ents) <==> x in known && !In(p, x)
  }

  /** Map and replacements are right for the set `known` of all sectors reported bad. */
  ghost predicate Marked(p: Part, t: Tab, known: set<int>) {
    && Shaped(p, t) && Clear(p, t)
    && MapExact(p.start, t.m, known, GoodBag(t.ents))
    && Replaced(p.start + Behind(p, t), p.start + p.size, known, GoodBag(t.ents))
  }

  ghost predicate Valid(p: Part, t: Tab, known: set<int>) {
    Marked(p, t, known) && EntriesClear(p, t) && Covers(p, t, known) && Ordered(t.ents) && AllServed(t.ents)
  }

  // ----- bags of a table -----

  lemma {:induction false} GoodBagHas(es: seq<Ent>, x: int)
    requires Proper(es)
    ensures x in GoodBag(es) <==> exists i :: 0 <= i < |es| && x in Goods(es[i])
  {
    if es != [] {
      GoodBagHas(es[1..], x);
      if i :| 0 <= i < |es| && x in Goods(es[i]) {
        if i > 0 { assert x in Goods(es[1..][i - 1]); }
      }
      if x in GoodBag(es[1..]) {
        var i :| 0 <= i < |es[1..]| && x in Goods(es[1..][i]);
        assert x in Goods(es[i + 1]);
      }
    }
  }

  lemma AlternateIsGood(es: seq<Ent>, x: int)
    requires Ordered(es) && AllServed(es)
    ensures IsAlternate(es, x) <==> x in GoodBag(es)
  {
    GoodBagHas(es, x);
    if i :| 0 <= i < |es| && Replaces(es[i], x) { assert x in Goods(es[i]); }
    if i :| 0 <= i < |es| && x in Goods(es[i]) { assert Replaces(es[i], x); }
  }

  lemma RemappedIsCovered(es: seq<Ent>, x: int)
    requires Ordered(es)
    ensures Remapped(es, x) <==> x in Bag(es)
  {
    BagHas(es, x);
    if i :| 0 <= i < |es| && Contains(es[i], x) { assert x in Sectors(es[i]); }
    if i :| 0 <= i < |es| && x in Sectors(es[i]) { assert Contains(es[i], x); }
  }

  lemma {:induction false} MergeGoods(a: seq<Ent>, b: seq<Ent>)
    ensures GoodBag(Merge(a, b)) == GoodBag(a) + GoodBag(b)
    decreases |a| + |b|
  {
    if a != [] && b != [] {
      if a[0].bad < b[0].bad {
        MergeGoods(a[1..], b);
        assert Merge(a, b)[1..] == Merge(a[1..], b);
      } else {
        MergeGoods(a, b[1..]);
        assert Merge(a, b)[1..] == Merge(a, b[1..]);
      }
    }
  }

  lemma {:induction false} AllLive(es: seq<Ent>)
    requires forall i :: 0 <= i < |es| ==> Live(es[i])
    ensures LiveOf(es) == es
  {
    if es != [] { AllLive(es[1..]); }
  }

  lemma {:induction false} NoGoods(es: seq<Ent>)
    requires forall i :: 0 <= i < |es| ==> es[i].good == 0
    ensures GoodBag(LiveOf(es)) == multiset{}
  {
    if es != [] {
      NoGoods(es[1..]);
      if Live(es[0]) { assert LiveOf(es)[1..] == LiveOf(es[1..]); }
    }
  }

  lemma {:induction false} SameBadsSameBag(a: seq<Ent>, b: seq<Ent>)
    requires SameBads(a, b)
    ensures Bag(a) == Bag(b)
  {
    if a != [] { SameBadsSameBag(a[1..], b[1..]); }
  }

  // ----- merging in new intervals -----

  /** The list of new intervals: in order, without replacements, and outside the partition
      and the intervals there are. */
  ghost predicate NewList(p: Part, t: Tab, g: seq<Ent>, known: set<int>) {
    && LiveSorted(g) && EndsOrdered(g) && Proper(g) && (forall i :: 0 <= i < |g| ==> g[i].good == 0)
    && (forall x :: x in Bag(g) ==> x !in Bag(t.ents))
    && (forall x :: x in Bag(t.ents) + Bag(g) <==> x in known && !In(p, x))
  }

  lemma DisjointApart(a: seq<Ent>, b: seq<Ent>)
    requires Ordered(a) && Ordered(b) && forall x :: x in Bag(b) ==> x !in Bag(a)
    ensures AllApart(a, b)
  {
    forall i, j | 0 <= i < |a| && 0 <= j < |b| ensures Apart(a[i], b[j]) {
      var x := if a[i].bad < b[j].bad then b[j].bad else a[i].bad;
      BagHas(a, x);
      BagHas(b, x);
      assert Contains(a[i], x) ==> x in Sectors(a[i]);
      assert Contains(b[j], x) ==> x in Sectors(b[j]);
    }
    forall i | 0 <= i < |a| ensures ApartFrom(a[i], b) {
      forall j | 0 <= j < |b| ensures Apart(a[i], b[j]) { }
    }
  }

  /** `es` has the entries `prior` and others without replacements, with the sectors `bag`. */
  ghost predicate MergedInto(prior: seq<Ent>, es: seq<Ent>, bag: multiset<int>) {
    && Ordered(es) && Proper(es) && Bag(es) == bag && GoodBag(es) == GoodBag(prior)
    && forall e :: e in prior ==> e in es
  }

  lemma MergedOrdered(prior: seq<Ent>, added: seq<Ent>)
    requires Ordered(prior) && Ordered(added) && (forall x :: x in Bag(added) ==> x !in Bag(prior))
             && GoodBag(added) == multiset{}
    ensures MergedInto(prior, Merge(prior, added), Bag(prior) + Bag(added))
  {
    DisjointApart(prior, added);
    MergeOrdered(prior, added);
    MergeKeeps(prior, added);
    MergeGoods(prior, added);
    MergePermutes(prior, added);
    forall e | e in prior ensures e in Merge(prior, added) { assert e in multiset(Merge(prior, added)); }
  }

  /** The merged list before replacements are assigned. */
  lemma MergedTable(p: Part, t: Tab, g: seq<Ent>, known: set<int>) returns (es: seq<Ent>)
    requires Ordered(t.ents) && NewList(p, t, g, known)
    ensures LiveOf(t.ents) == t.ents && es == Merge(t.ents, LiveOf(g))
    ensures MergedInto(t.ents, es, Bag(t.ents) + Bag(g))
  {
    AllLive(t.ents);
    LiveOfOrdered(g);
    LiveOfKeeps(g);
    NoGoods(g);
    es := Merge(t.ents, LiveOf(g));
    MergedOrdered(t.ents, LiveOf(g));
  }

  lemma ServedKeeps(es: seq<Ent>, es': seq<Ent>)
    requires Ordered(es) && SameBads(es, es') && Served(es, es')
    ensures Ordered(es') && AllServed(es')
    ensures forall e :: e in es && e.good != 0 ==> e in es'
  {
    forall i | 0 <= i < |es'| ensures 0 <= es'[i].bad <= es'[i].end && es'[i].good != 0 {
      assert es[i].bad == es'[i].bad;
    }
    forall i, j | 0 <= i < j < |es'| ensures Before(es'[i], es'[j]) { assert Before(es[i], es[j]); }
    forall e | e in es && e.good != 0 ensures e in es' {
      var i :| 0 <= i < |es| && es[i] == e;
      assert es'[i] == e;
    }
  }

  lemma ExactBacked(start: nat, end: nat, m: seq<bool>, known: set<int>, goods: multiset<int>)
    requires MapExact(start, m, known, goods) && Replaced(start + end + 1, start + |m|, known, goods)
    ensures Backed(m, start, end, goods)
  {
    forall x | x in goods ensures start + end < x < start + |m| && m[x - start] { assert start + (x - start) == x; }
  }

  /** What the soundness of the assignment says about map and replacements. */
  lemma ExactNext(start: nat, end: nat, m: seq<bool>, m': seq<bool>, known: set<int>, g: multiset<int>,
          g': multiset<int>)
    requires MapExact(start, m, known, g) && Sound(m, m', start, end, g, g')
    ensures MapExact(start, m', known, g')
  {
    forall i | 0 <= i < |m'| ensures m'[i] == (start + i in known || start + i in g') {
      assert m[i] == (start + i in known || start + i in g) && g[start + i] <= g'[start + i];
    }
  }

  lemma ReplacedNext(start: nat, end: nat, m: seq<bool>, m': seq<bool>, known: set<int>, g: multiset<int>,
          g': multiset<int>)
    requires MapExact(start, m, known, g) && Sound(m, m', start, end, g, g')
             && Replaced(start + end + 1, start + |m|, known, g)
    ensures Replaced(start + end + 1, start + |m|, known, g')
  {
    forall x | x in g' ensures start + end + 1 <= x < start + |m| && x !in known {
      if x !in g { assert !m[x - start] && start + (x - start) == x; }
    }
  }

  /** Only sectors behind the map were marked. */
  lemma ClearNext(p: Part, t: Tab, m': seq<bool>, es': seq<Ent>, base: int, known: set<int>, g': multiset<int>)
    requires Shaped(p, t) && Clear(p, t) && Marks(t.m, m', p.start, g')
    requires Replaced(p.start + Behind(p, t), p.start + p.size, known, g')
    ensures Shaped(p, Tab(m', es', t.mapBase, base)) && Clear(p, Tab(m', es', t.mapBase, base))
  {
    forall i | 0 <= i < Behind(p, t) ensures m'[i] == t.m[i] { assert p.start + i !in g'; }
  }

  lemma AssignedTable(p: Part, t: Tab, known: set<int>, m': seq<bool>, es': seq<Ent>, base: int)
    requires Marked(p, t, known) && Sound(t.m, m', p.start, Behind(p, t) - 1, GoodBag(t.ents), GoodBag(es'))
    ensures Marked(p, Tab(m', es', t.mapBase, base), known)
  {
    ExactNext(p.start, Behind(p, t) - 1, t.m, m', known, GoodBag(t.ents), GoodBag(es'));
    ReplacedNext(p.start, Behind(p, t) - 1, t.m, m', known, GoodBag(t.ents), GoodBag(es'));
    ClearNext(p, t, m', es', base, known, GoodBag(es'));
  }

  /** `a` serves a list made of the entries `prior` and new ones, with the sectors `bag`. */
  ghost predicate Completes(start: nat, end: nat, m: seq<bool>, prior: seq<Ent>, bag: multiset<int>, a: Assigned) {
    && Ordered(a.ents) && AllServed(a.ents) && Bag(a.ents) == bag && (forall e :: e in prior ==> e in a.ents)
    && Sound(m, a.m, start, end, GoodBag(prior), GoodBag(a.ents))
  }

  lemma ServedList(start: nat, end: nat, m: seq<bool>, prior: seq<Ent>, es: seq<Ent>, bag: multiset<int>, a: Assigned)
    requires MergedInto(prior, es, bag) && AllServed(prior) && Serves(m, es, end, start, a)
    ensures Completes(start, end, m, prior, bag, a)
  {
    ServedKeeps(es, a.ents);
    SameBadsSameBag(es, a.ents);
    forall e | e in prior ensures e in a.ents { assert e.good != 0; }
  }

  lemma GeneratedValid(p: Part, t: Tab, known: set<int>, a: Assigned, bag: multiset<int>, t': Tab)
    requires Marked(p, t, known) && Completes(p.start, Behind(p, t) - 1, t.m, t.ents, bag, a)
    requires forall x :: x in bag <==> x in known && !In(p, x)
    requires t' == Tab(a.m, a.ents, t.mapBase, t'.entBase) && t'.entBase != 0
    requires t'.entBase == LowestRun(a.m, Behind(p, t), p.size, SectorsFor(12 * |a.ents|))
    ensures Valid(p, t', known) && Bag(t'.ents) == bag && forall e :: e in t.ents ==> e in t'.ents
  {
    AssignedTable(p, t, known, a.m, a.ents, t'.entBase);
  }

  lemma GenerateSteps(p: Part, t: Tab, g: seq<Ent>, es: seq<Ent>, t': Tab) returns (a: Assigned)
    requires Shaped(p, t) && LiveOf(t.ents) == t.ents && es == Merge(t.ents, LiveOf(g)) && Generate(p, t, g) == Ok(t')
    ensures AssignAll(t.m, es, Behind(p, t) - 1, p.start) == Ok(a)
    ensures t' == Tab(a.m, a.ents, t.mapBase, t'.entBase) && t'.entBase != 0
    ensures t'.entBase == LowestRun(a.m, Behind(p, t), p.size, SectorsFor(12 * |a.ents|))
  {
    a := AssignAll(t.m, es, Behind(p, t) - 1, p.start).value;
  }

  lemma ExactServes(start: nat, end: nat, m: seq<bool>, known: set<int>, goods: multiset<int>, es: seq<Ent>,
          a: Assigned)
    requires MapExact(start, m, known, goods) && Replaced(start + end + 1, start + |m|, known, goods)
    requires Proper(es) && GoodBag(es) == goods && AssignAll(m, es, end, start) == Ok(a)
    ensures Serves(m, es, end, start, a)
  {
    ExactBacked(start, end, m, known, goods);
    AssignAllSound(m, es, end, start);
  }

  lemma {:induction false} GenerateServes(p: Part, t: Tab, g: seq<Ent>, es: seq<Ent>, known: set<int>,
                                          t': Tab) returns (a: Assigned)
    requires Shaped(p, t) && LiveOf(t.ents) == t.ents && es == Merge(t.ents, LiveOf(g)) && Generate(p, t, g) == Ok(t')
    requires MapExact(p.start, t.m, known, GoodBag(es))
             && Replaced(p.start + Behind(p, t), p.start + p.size, known, GoodBag(es))
    requires Proper(es)
    ensures Serves(t.m, es, Behind(p, t) - 1, p.start, a)
    ensures t' == Tab(a.m, a.ents, t.mapBase, t'.entBase) && t'.entBase != 0
    ensures t'.entBase == LowestRun(a.m, Behind(p, t), p.size, SectorsFor(12 * |a.ents|))
  {
    a := GenerateSteps(p, t, g, es, t');
    ExactServes(p.start, Behind(p, t) - 1, t.m, known, GoodBag(es), es, a);
  }

  /** Merging in and serving the new intervals completes the tables, and what was replaced
      before is replaced by the same sectors now. */
  lemma GenerateValid(p: Part, t: Tab, g: seq<Ent>, known: set<int>, t': Tab)
    requires Marked(p, t, known) && Ordered(t.ents) && AllServed(t.ents) && NewList(p, t, g, known)
    requires Generate(p, t, g) == Ok(t')
    ensures Valid(p, t', known) && Bag(t'.ents) == Bag(t.ents) + Bag(g) && forall e :: e in t.ents ==> e in t'.ents
  {
    var es := MergedTable(p, t, g, known);
    var a := GenerateServes(p, t, g, es, known, t');
    ServedList(p.start, Behind(p, t) - 1, t.m, t.ents, es, Bag(t.ents) + Bag(g), a);
    GeneratedValid(p, t, known, a, Bag(t.ents) + Bag(g), t');
  }

  // ----- examining the reported sectors -----

  function SectorSet(es: seq<Ent>): set<int> { set x | x in Bag(es) }

  /** A reported sector of the partition is no replacement and in neither table nor map. */
  lemma SpareMeans(p: Part, t: Tab, known: set<int>, x: int)
    requires Shaped(p, t) && Clear(p, t) && MapExact(p.start, t.m, known, GoodBag(t.ents)) && Ordered(t.ents)
             && AllServed(t.ents)
    requires In(p, x) && Spare(false, LayoutOf(p, t), t.m, t.ents, x)
    ensures x !in GoodBag(t.ents) && x != p.start && !InMap(LayoutOf(p, t), x)
  {
    var i := x - p.start;
    if t.m[i] {
      AlternateIsGood(t.ents, x);
    } else {
      assert p.start + i == x;
    }
  }

  ghost predicate AllSpare(p: Part, t: Tab, bads: multiset<int>) {
    forall x :: x in bads && In(p, x) ==> x !in GoodBag(t.ents) && x != p.start && !InMap(LayoutOf(p, t), x)
  }

  lemma SparesMarked(p: Part, t: Tab, known: set<int>, m': seq<bool>, bads: multiset<int>, more: set<int>)
    requires Marked(p, t, known) && AllSpare(p, t, bads) && Marks(t.m, m', p.start, bads)
             && (forall x :: x in more <==> x in bads)
    ensures Marked(p, t.(m := m'), known + more)
  {
    assert !m'[0] by { assert m'[0] == (t.m[0] || p.start + 0 in bads); }
    forall i | t.mapBase <= i < Behind(p, t) ensures !m'[i] {
      assert p.start + i in bads ==> InMap(LayoutOf(p, t), p.start + i);
    }
    forall i | 0 <= i < |m'| ensures m'[i] == (p.start + i in known + more || p.start + i in GoodBag(t.ents)) {
      assert m'[i] == (t.m[i] || p.start + i in bads);
    }
  }

  /** After `chk_badsec` the map is exact for the sectors known now. */
  lemma CheckedMarked(p: Part, t: Tab, known: set<int>, bads: seq<Ent>, m': seq<bool>, out: seq<Ent>)
    requires Valid(p, t, known) && Examined(false, LayoutOf(p, t), t.m, m', t.ents, bads, out)
    ensures Marked(p, t.(m := m'), known + SectorSet(bads))
  {
    forall x | x in Bag(bads) && In(p, x)
      ensures x !in GoodBag(t.ents) && x != p.start && !InMap(LayoutOf(p, t), x)
    {
      assert Inside(LayoutOf(p, t), x);
      SpareMeans(p, t, known, x);
    }
    SparesMarked(p, t, known, m', Bag(bads), SectorSet(bads));
  }

  /** What is left of the list has no replacement yet. */
  lemma CheckedNewList(p: Part, t: Tab, known: set<int>, bads: seq<Ent>, m': seq<bool>, out: seq<Ent>, g: seq<Ent>)
    requires Valid(p, t, known) && Examined(false, LayoutOf(p, t), t.m, m', t.ents, bads, out)
    requires LiveSorted(g) && EndsOrdered(g) && Proper(g) && (forall i :: 0 <= i < |g| ==> g[i].good == 0)
             && Bag(g) == Bag(out)
    ensures NewList(p, t.(m := m'), g, known + SectorSet(bads))
  {
    var lay := LayoutOf(p, t);
    forall x ensures x in Bag(g) <==> x in Bag(bads) && !In(p, x) && x !in Bag(t.ents) {
      RemappedIsCovered(t.ents, x);
      assert Bag(out)[x] == if Dropped(false, lay, t.ents, x) then 0 else Bag(bads)[x];
    }
  }

  /** `init_altsctr`: the tables of an empty partition whose map avoids the bad sectors. */
  lemma InitMarked(p: Part, bads: seq<Ent>, m: seq<bool>, m': seq<bool>, out: seq<Ent>, mapBase: int)
    requires |m| == p.size && p.size > 0 && (forall i :: 0 <= i < |m| ==> !m[i])
    requires Examined(true, Layout(p.start, p.size, 0, p.MapSec(), 0, 0), m, m', [], bads, out)
    requires mapBase == LowestRun(m', 1, p.size, p.MapSec()) && mapBase != 0
    ensures Marked(p, Tab(m', [], mapBase, 0), SectorSet(bads))
  {
    var lay := Layout(p.start, p.size, 0, p.MapSec(), 0, 0);
    assert Inside(lay, p.start) && !Spare(true, lay, m, [], p.start);
    assert !m'[0] by { assert m'[0] == (m[0] || p.start + 0 in Bag(bads)); }
  }

  lemma InitNewList(p: Part, bads: seq<Ent>, m: seq<bool>, m': seq<bool>, out: seq<Ent>, g: seq<Ent>, mapBase: int)
    requires |m| == p.size
    requires Examined(true, Layout(p.start, p.size, 0, p.MapSec(), 0, 0), m, m', [], bads, out)
    requires LiveSorted(g) && EndsOrdered(g) && Proper(g) && (forall i :: 0 <= i < |g| ==> g[i].good == 0)
             && Bag(g) == Bag(out)
    ensures NewList(p, Tab(m', [], mapBase, 0), g, SectorSet(bads))
  {
    var lay := Layout(p.start, p.size, 0, p.MapSec(), 0, 0);
    forall x ensures x in Bag(g) <==> x in Bag(bads) && !In(p, x) {
      assert Bag(out)[x] == if Dropped(true, lay, [], x) then 0 else Bag(bads)[x];
    }
  }
}
