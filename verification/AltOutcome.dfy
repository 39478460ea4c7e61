/** When a run of usr/src/cmd/addbadse/ix_altsc.c succeeds, and with which status it ends if it
    does not. */
module AltOutcome {
  import opened AltEntries
  import opened AltMerge
  import opened AltMap
  import opened AltAssign
  import opened AltCheck
  import opened AltTable
  import opened AltRuns
  import opened Wrappers

  // ----- examining the reported sectors -----

  /** Why the sector cannot be done without: it replaces another one, or it holds the partition
      table, the map or the entries; else 0. */
  function Refusal(p: Part, t: Tab, x: int): int {
    if x in GoodBag(t.ents) then 66
    else if x == p.start then 53
    else if p.start + t.mapBase <= x < p.start + t.mapBase + p.MapSec() then 54
    else if p.start + t.entBase <= x < p.start + t.entBase + t.EntSec() then 55
    else 0
  }

  /** A sector that may be reported: outside the partition, known to be bad, or dispensable. */
  predicate Acceptable(p: Part, t: Tab, known: set<int>, x: int) { !In(p, x) || x in known || Refusal(p, t, x) == 0 }

  /** The map while the list is examined: `more` has been marked so far. */
  ghost predicate MarkedSoFar(p: Part, t: Tab, known: set<int>, more: set<int>, m: seq<bool>) {
    && |m| == p.size
    && (forall i :: 0 <= i < |m| ==>
          m[i] == (p.start + i in known || p.start + i in GoodBag(t.ents) || p.start + i in more))
    && (forall x :: x in more ==> Refusal(p, t, x) == 0)
  }

  lemma {:induction false} MarkedMore(p: Part, t: Tab, known: set<int>, more: set<int>, m: seq<bool>, x: int)
    requires MarkedSoFar(p, t, known, more, m) && In(p, x) && Refusal(p, t, x) == 0
    ensures MarkedSoFar(p, t, known, more + {x}, m[x - p.start := true])
  {
  }

  /** What is needed of the entries: in order, and their replacements are good sectors. */
  ghost predicate Healthy(t: Tab, known: set<int>) {
    Ordered(t.ents) && AllServed(t.ents) && forall x :: x in GoodBag(t.ents) ==> x !in known
  }

  /** A sector of the partition that is marked already. */
  lemma {:induction false} CheckMarked(p: Part, t: Tab, known: set<int>, more: set<int>, m: seq<bool>, e: Ent)
    requires Healthy(t, known) && MarkedSoFar(p, t, known, more, m) && In(p, e.bad) && m[e.bad - p.start]
    ensures CheckOne(LayoutOf(p, t), m, t.ents, e) ==
            if Acceptable(p, t, known, e.bad) then Ok(Step(m, Drop(e))) else Exit(Refusal(p, t, e.bad))
  {
    AlternateIsGood(t.ents, e.bad);
    assert p.start + (e.bad - p.start) == e.bad;
  }

  /** One that is not. */
  lemma {:induction false} CheckUnmarked(p: Part, t: Tab, known: set<int>, more: set<int>, m: seq<bool>, e: Ent)
    requires MarkedSoFar(p, t, known, more, m) && In(p, e.bad) && !m[e.bad - p.start]
    ensures e.bad !in known
    ensures CheckOne(LayoutOf(p, t), m, t.ents, e) ==
            if Refusal(p, t, e.bad) == 0 then Ok(Step(m[e.bad - p.start := true], Drop(e)))
            else Exit(Refusal(p, t, e.bad))
  {
    assert p.start + (e.bad - p.start) == e.bad;
  }

  /** One sector: it is accepted, or the program exits with the reason. */
  lemma {:induction false} CheckOutcome(p: Part, t: Tab, known: set<int>, more: set<int>, m: seq<bool>, e: Ent)
    returns (r: Result<Step>, more': set<int>)
    requires Healthy(t, known) && MarkedSoFar(p, t, known, more, m)
    ensures r == CheckOne(LayoutOf(p, t), m, t.ents, e)
    ensures Acceptable(p, t, known, e.bad) ==> r.Ok? && MarkedSoFar(p, t, known, more', r.value.m)
    ensures !Acceptable(p, t, known, e.bad) ==> r == Exit(Refusal(p, t, e.bad))
  {
    r, more' := CheckOne(LayoutOf(p, t), m, t.ents, e), more;
    var x := e.bad;
    if In(p, x) && m[x - p.start] {
      CheckMarked(p, t, known, more, m, e);
    } else if In(p, x) {
      CheckUnmarked(p, t, known, more, m, e);
      if Refusal(p, t, x) == 0 {
        MarkedMore(p, t, known, more, m, x);
        more' := more + {x};
      }
    }
  }

  lemma {:induction false} StartMarked(p: Part, t: Tab, known: set<int>)
    requires |t.m| == p.size && MapExact(p.start, t.m, known, GoodBag(t.ents))
    ensures MarkedSoFar(p, t, known, {}, t.m)
  {
    var goods, none: set<int> := GoodBag(t.ents), {};
    forall i | 0 <= i < |t.m|
      ensures t.m[i] == (p.start + i in known || p.start + i in goods || p.start + i in none)
    {
    }
  }

  lemma {:induction false} ExamineFrom(p: Part, t: Tab, known: set<int>, more: set<int>, m: seq<bool>, done: seq<Ent>,
                                       rest: seq<Ent>)
    requires Healthy(t, known) && MarkedSoFar(p, t, known, more, m)
    requires forall i :: 0 <= i < |rest| ==> Acceptable(p, t, known, rest[i].bad)
    ensures Examine(false, LayoutOf(p, t), m, t.ents, done, rest).Ok?
    decreases |rest|
  {
    if rest != [] {
      var r, more' := CheckOutcome(p, t, known, more, m, rest[0]);
      ExamineFrom(p, t, known, more', r.value.m, done + [r.value.e], rest[1..]);
    }
  }

  lemma {:induction false} ExamineUpTo(p: Part, t: Tab, known: set<int>, more: set<int>, m: seq<bool>, done: seq<Ent>,
                                       rest: seq<Ent>, i: nat)
    requires Healthy(t, known) && MarkedSoFar(p, t, known, more, m)
    requires i < |rest| && !Acceptable(p, t, known, rest[i].bad)
    requires forall j :: 0 <= j < i ==> Acceptable(p, t, known, rest[j].bad)
    ensures Examine(false, LayoutOf(p, t), m, t.ents, done, rest) == Exit(Refusal(p, t, rest[i].bad))
    decreases |rest|
  {
    var r, more' := CheckOutcome(p, t, known, more, m, rest[0]);
    if i > 0 { ExamineUpTo(p, t, known, more', r.value.m, done + [r.value.e], rest[1..], i - 1); }
  }

  /** `chk_badsec` on valid tables succeeds exactly if every sector reported may be. */
  lemma {:induction false} ExamineOkIff(p: Part, t: Tab, known: set<int>, bads: seq<Ent>)
    requires Valid(p, t, known)
    ensures Examine(false, LayoutOf(p, t), t.m, t.ents, [], bads).Ok? <==>
            forall i :: 0 <= i < |bads| ==> Acceptable(p, t, known, bads[i].bad)
  {
    StartMarked(p, t, known);
    if forall i :: 0 <= i < |bads| ==> Acceptable(p, t, known, bads[i].bad) {
      ExamineFrom(p, t, known, {}, t.m, [], bads);
    } else {
      var i := FirstRefused(p, t, known, bads);
      ExamineUpTo(p, t, known, {}, t.m, [], bads, i);
    }
  }

  lemma {:induction false} FirstRefused(p: Part, t: Tab, known: set<int>, bads: seq<Ent>) returns (i: nat)
    requires exists j :: 0 <= j < |bads| && !Acceptable(p, t, known, bads[j].bad)
    ensures i < |bads| && !Acceptable(p, t, known, bads[i].bad)
    ensures forall j :: 0 <= j < i ==> Acceptable(p, t, known, bads[j].bad)
  {
    i := 0;
    while i < |bads| && Acceptable(p, t, known, bads[i].bad)
      invariant i <= |bads| && forall j :: 0 <= j < i ==> Acceptable(p, t, known, bads[j].bad)
    {
      i := i + 1;
    }
  }

  /** Else it exits for the first that may not, with the reason. */
  lemma {:induction false} ExamineStatus(p: Part, t: Tab, known: set<int>, bads: seq<Ent>, i: nat)
    requires Valid(p, t, known) && i < |bads| && !Acceptable(p, t, known, bads[i].bad)
    requires forall j :: 0 <= j < i ==> Acceptable(p, t, known, bads[j].bad)
    ensures Examine(false, LayoutOf(p, t), t.m, t.ents, [], bads) == Exit(Refusal(p, t, bads[i].bad))
    ensures Refusal(p, t, bads[i].bad) in {66, 53, 54, 55}
  {
    StartMarked(p, t, known);
    ExamineUpTo(p, t, known, {}, t.m, [], bads, i);
  }

  /** On a new partition only its first sector may not be reported: that is status 56. */
  lemma {:induction false} InitOutcome(lay: Layout, m: seq<bool>, done: seq<Ent>, rest: seq<Ent>)
    requires |m| == lay.size > 0
    ensures var r := Examine(true, lay, m, [], done, rest);
            if forall i :: 0 <= i < |rest| ==> rest[i].bad != lay.start then r.Ok? else r == Exit(56)
    decreases |rest|
  {
    if rest != [] {
      var r := InitOne(lay, m, rest[0]);
      if r.Ok? {
        InitOutcome(lay, r.value.m, done + [r.value.e], rest[1..]);
        assert rest[0].bad != lay.start;
        assert forall i :: 0 < i < |rest| ==> rest[i] == rest[1..][i - 1];
        assert forall i :: 0 <= i < |rest| - 1 ==> rest[1..][i] == rest[i + 1];
      }
    }
  }

  // ----- giving the entries their sectors -----

  /** There is no run of `n` good sectors behind `end`. */
  ghost predicate NoRun(m: seq<bool>, end: nat, n: int) { forall f :: end < f <= |m| - n ==> !Free(m, f, n) }

  /** `lo` is where the highest such run starts. */
  ghost predicate Highest(m: seq<bool>, end: nat, n: int, lo: int) {
    end < lo <= |m| - n && Free(m, lo, n) && forall f :: lo < f <= |m| - n ==> !Free(m, f, n)
  }

  /** An entry without replacement is given the highest run there is, and only if there is none
      the program exits; any other entry is left alone. */
  lemma {:induction false} AssignMeans(m: seq<bool>, e: Ent, end: nat, start: nat)
    requires Live(e) ==> 0 <= e.bad <= e.end
    ensures var r, n := AssignOne(m, e, end, start), e.end - e.bad + 1;
            if !Needy(e) then r == Ok(Step(m, e))
            else if NoRun(m, end, n) then r == Exit(65)
            else r.Ok? && var lo := r.value.e.good - start;
                          Highest(m, end, n, lo) && r.value.e == e.(good := start + lo) && r.value.m == Mark(m, lo, n)
  {
    if Needy(e) {
      var n := Cluster(e);
      var f := HighestRun(m, |m| - 1, end, n);
      if f == 0 {
        forall lo | end < lo <= |m| - n ensures !Free(m, lo, n) { assert !FreeDown(m, lo + n - 1, n); }
      } else {
        var lo := f - n + 1;
        assert FreeDown(m, f, n) && Free(m, lo, n);
        forall lo' | lo < lo' <= |m| - n ensures !Free(m, lo', n) { assert !FreeDown(m, lo' + n - 1, n); }
      }
    }
  }

  /** The entries before `i` are served, and for entry `i` there is nothing left. */
  ghost predicate Unserved(m: seq<bool>, ents: seq<Ent>, end: nat, start: nat, i: int) {
    0 <= i < |ents| && Needy(ents[i]) &&
    match AssignAll(m, ents[..i], end, start)
    case Exit(_) => false
    case Ok(a) => NoRun(a.m, end, Cluster(ents[i]))
  }

  lemma {:induction false} UnservedTail(m: seq<bool>, ents: seq<Ent>, end: nat, start: nat, i: nat, s: Step)
    requires 0 < i < |ents| && AssignOne(m, ents[0], end, start) == Ok(s)
    ensures Unserved(m, ents, end, start, i) <==> Unserved(s.m, ents[1..], end, start, i - 1)
  {
    var front := ents[..i];
    assert front[0] == ents[0] && front[1..] == ents[1..][..i - 1];
  }

  /** `assign_altsctr` fails exactly if some entry finds no run. */
  lemma {:induction false} AssignFailsIff(m: seq<bool>, ents: seq<Ent>, end: nat, start: nat)
    requires Proper(ents)
    ensures AssignAll(m, ents, end, start).Exit? <==> exists i :: Unserved(m, ents, end, start, i)
    decreases |ents|
  {
    if ents != [] {
      AssignMeans(m, ents[0], end, start);
      var r := AssignOne(m, ents[0], end, start);
      assert ents[..0] == [];
      if r.Exit? {
        assert Unserved(m, ents, end, start, 0);
      } else {
        TailProper(ents);
        AssignFailsIff(r.value.m, ents[1..], end, start);
        if i :| Unserved(r.value.m, ents[1..], end, start, i) { UnservedTail(m, ents, end, start, i + 1, r.value); }
        if i :| Unserved(m, ents, end, start, i) {
          assert i > 0;
          UnservedTail(m, ents, end, start, i, r.value);
        }
      }
    }
  }

  /** Nothing to do: the list is left as it is. */
  lemma {:induction false} AssignNothing(m: seq<bool>, ents: seq<Ent>, end: nat, start: nat)
    requires forall i :: 0 <= i < |ents| ==> !Needy(ents[i])
    ensures AssignAll(m, ents, end, start) == Ok(Assigned(m, ents))
    decreases |ents|
  {
    if ents != [] {
      AssignNothing(m, ents[1..], end, start);
      assert [ents[0]] + ents[1..] == ents;
    }
  }

  lemma {:induction false} PlaceFailsIff(m: seq<bool>, end: nat, size: nat, cnt: int)
    requires size == |m|
    ensures LowestRun(m, end + 1, size, cnt) == 0 <==> cnt <= 0 || NoRun(m, end, cnt)
  {
  }

  /** The merged entries `es` are served from the map `m`, and their table finds no place. */
  ghost predicate Unplaced(m: seq<bool>, es: seq<Ent>, end: nat, start: nat) {
    match AssignAll(m, es, end, start)
    case Exit(_) => false
    case Ok(a) => NoRun(a.m, end, SectorsFor(12 * |es|))
  }

  lemma {:induction false} ServeFails(p: Part, t: Tab, end: nat)
    requires |t.m| == p.size && end == t.mapBase + p.MapSec() - 1 < p.size
    ensures ServeAll(p, t).Exit? <==>
            AssignAll(t.m, t.ents, end, p.start).Exit? || t.ents == [] || Unplaced(t.m, t.ents, end, p.start)
  {
    var a := AssignAll(t.m, t.ents, end, p.start);
    if a.Ok? {
      var n := SectorsFor(12 * |t.ents|);
      PlaceFailsIff(a.value.m, end, p.size, n);
      assert n <= 0 <==> t.ents == [];
    }
  }

  /** `gen_alts_ent` on the merged entries `es` ends with status 65 exactly if there are none, or
      one of them finds no run, or their table finds no place behind the map. */
  lemma {:induction false} GenerateFailsIff(p: Part, t: Tab, g: seq<Ent>, es: seq<Ent>, end: nat)
    requires Shaped(p, t) && es == Merge(LiveOf(t.ents), LiveOf(g)) && Proper(es)
    requires end == t.mapBase + p.MapSec() - 1
    ensures Generate(p, t, g).Exit? <==>
            es == [] || (exists i :: Unserved(t.m, es, end, p.start, i)) || Unplaced(t.m, es, end, p.start)
    ensures Generate(p, t, g).Exit? ==> Generate(p, t, g) == Exit(65)
  {
    AssignFailsIff(t.m, es, end, p.start);
    ServeFails(p, t.(ents := es), end);
  }

  // ----- sectors reported once more -----

  lemma {:induction false} RepeatMap(p: Part, t: Tab, known: set<int>, bads: multiset<int>, m': seq<bool>)
    requires |t.m| == p.size && MapExact(p.start, t.m, known, GoodBag(t.ents)) && Marks(t.m, m', p.start, bads)
    requires forall x :: x in bads ==> x in known
    ensures m' == t.m
  {
    forall i | 0 <= i < |m'| ensures m'[i] == t.m[i] { assert p.start + i in bads ==> p.start + i in known; }
  }

  /** Sectors known to be bad are taken off the list, and nothing else happens. */
  lemma {:induction false} RepeatReads(p: Part, t: Tab, known: set<int>, bads: seq<Ent>) returns (left: seq<Ent>)
    requires Valid(p, t, known) && Reported(bads) && SectorSet(bads) <= known
    ensures Reads(p, Some(t), bads, t, left) && Thinned(bads, left) && forall x :: x !in Bag(left)
  {
    forall x | x in Bag(bads) ensures x in known { assert x in SectorSet(bads); }
    forall i | 0 <= i < |bads| ensures Acceptable(p, t, known, bads[i].bad) {
      assert bads[i].bad in Sectors(bads[i]);
      BagHas(bads, bads[i].bad);
    }
    ExamineOkIff(p, t, known, bads);
    var lay := LayoutOf(p, t);
    var a := Examine(false, lay, t.m, t.ents, [], bads).value;
    left := ExamineSound(false, lay, t.m, t.ents, [], bads, a);
    assert [] + left == left;
    RepeatMap(p, t, known, Bag(bads), a.m);
    forall x ensures x !in Bag(left) {
      LeftBag(p, Some(t), bads, t, left, x);
    }
  }

  lemma {:induction false} RepeatMerge(t: Tab, g: seq<Ent>)
    requires Ordered(t.ents) && Proper(g) && forall x :: x !in Bag(g)
    ensures Merge(LiveOf(t.ents), LiveOf(g)) == t.ents
  {
    AllLive(t.ents);
    NoneLive(g);
  }

  lemma {:induction false} RepeatPlace(p: Part, t: Tab, known: set<int>)
    requires Valid(p, t, known) && t.ents != []
    ensures LowestRun(t.m, Behind(p, t), p.size, t.EntSec()) != 0
  {
    assert t.EntSec() > 0 && Free(t.m, t.entBase, t.EntSec());
  }

  lemma {:induction false} ServedAlready(p: Part, t: Tab, base: int)
    requires Shaped(p, t) && base == LowestRun(t.m, Behind(p, t), p.size, t.EntSec())
    requires AssignAll(t.m, t.ents, Behind(p, t) - 1, p.start) == Ok(Assigned(t.m, t.ents))
    ensures ServeAll(p, t) == if base == 0 then Exit(65) else Ok(t.(entBase := base))
  {
  }

  lemma {:induction false} RepeatGenerates(p: Part, t: Tab, known: set<int>, g: seq<Ent>)
    requires Valid(p, t, known) && Proper(g) && forall x :: x !in Bag(g)
    ensures var r := Generate(p, t, g);
            if t.ents == [] then r == Exit(65) else r.Ok? && r.value.m == t.m && r.value.ents == t.ents
  {
    RepeatMerge(t, g);
    AssignNothing(t.m, t.ents, Behind(p, t) - 1, p.start);
    ServedAlready(p, t, LowestRun(t.m, Behind(p, t), p.size, t.EntSec()));
    if t.ents != [] { RepeatPlace(p, t, known); }
  }

  lemma {:induction false} NoneCompressed(bads: seq<Ent>, left: seq<Ent>)
    requires Reported(bads) && Thinned(bads, left) && forall x :: x !in Bag(left)
    ensures Proper(left) && Compressed(left, left)
  {
    forall i | 0 <= i < |left| ensures !Live(left[i]) && left[i].good == 0 {
      assert left[i] == bads[i] || left[i] == Drop(bads[i]);
      BagHas(left, left[i].bad);
    }
  }

  /** A run that reports only sectors known to be bad changes neither map nor entries. */
  lemma {:induction false} RepeatKeeps(p: Part, t: Tab, known: set<int>, r: Run)
    requires Valid(p, t, known) && Succeeds(p, Some(t), r) && !r.init && SectorSet(r.bads) <= known
    ensures r.after.m == t.m && r.after.ents == t.ents
  {
    var left := RepeatReads(p, t, known, r.bads);
    assert r.read == t && r.left == left;
    if r.bads != [] { RepeatGenerates(p, t, known, r.g); }
  }

  /** It fails if it reports any and there are no entries, and else it succeeds. */
  lemma {:induction false} RepeatOutcome(p: Part, t: Tab, known: set<int>, bads: seq<Ent>) returns (r: Run)
    requires Valid(p, t, known) && Reported(bads) && SectorSet(bads) <= known
    ensures !r.init && r.bads == bads && Reads(p, Some(t), bads, r.read, r.left) && Compressed(r.left, r.g)
    ensures if bads != [] && t.ents == [] then r.read == t && Generate(p, t, r.g) == Exit(65)
            else Succeeds(p, Some(t), r) && r.after.m == t.m && r.after.ents == t.ents
  {
    var left := RepeatReads(p, t, known, bads);
    NoneCompressed(bads, left);
    RepeatGenerates(p, t, known, left);
    var g := Generate(p, t, left);
    r := Run(false, bads, left, left, t, if bads == [] || g.Exit? then t else g.value);
  }
}
