/** `assign_altsctr` of usr/src/cmd/addbadse/ix_altsc.c: every entry without a replacement is
    given the highest free run of the partition, which is then marked. */
module AltAssign {
  import opened AltEntries
  import opened AltMap

  datatype Result<T> = Ok(value: T) | Exit(code: int)

  /** The run of sectors that replaces an entry, if it has one. */
  function Goods(e: Ent): set<int> {
    if Live(e) && e.good != 0 then Range(e.good, e.good + (e.end - e.bad)) else {}
  }

  function GoodBag(es: seq<Ent>): multiset<int> {
    if es == [] then multiset{} else multiset(Goods(es[0])) + GoodBag(es[1..])
  }

  function Mark(m: seq<bool>, lo: nat, n: nat): (r: seq<bool>)
    requires lo + n <= |m|
    ensures |r| == |m| && forall i :: 0 <= i < |m| ==> r[i] == (m[i] || lo <= i < lo + n)
  {
    if n == 0 then m else Mark(m, lo, n - 1)[lo + n - 1 := true]
  }

  datatype Assigned = Assigned(m: seq<bool>, ents: seq<Ent>)
  datatype Step = Step(m: seq<bool>, e: Ent)

  /** An entry needs a run: it is live and has none. */
  predicate Needy(e: Ent) { Live(e) && e.good == 0 }

  function Cluster(e: Ent): int { e.end - e.bad + 1 }

  ghost function AssignOne(m: seq<bool>, e: Ent, end: nat, start: nat): (r: Result<Step>)
    ensures r.Ok? ==> |r.value.m| == |m|
    ensures r.Exit? ==> r.code == 65
  {
    if !Needy(e) then Ok(Step(m, e))
    else
      var n := Cluster(e);
      var f := HighestRun(m, |m| - 1, end, n);
      if f == 0 then Exit(65) else Ok(Step(Mark(m, f - n + 1, n), e.(good := f - n + 1 + start)))
  }

  /** All entries served in order, or the exit of the first that cannot be. */
  ghost function AssignAll(m: seq<bool>, ents: seq<Ent>, end: nat, start: nat): (r: Result<Assigned>)
    ensures r.Ok? ==> |r.value.m| == |m| && |r.value.ents| == |ents|
    ensures r.Exit? ==> r.code == 65
    decreases |ents|
  {
    if ents == [] then Ok(Assigned(m, []))
    else
      var s := AssignOne(m, ents[0], end, start);
      if s.Exit? then Exit(s.code) else Prepend(s.value.e, AssignAll(s.value.m, ents[1..], end, start))
  }

  ghost function Prepend(e: Ent, r: Result<Assigned>): Result<Assigned> {
    if r.Exit? then r else Ok(Assigned(r.value.m, [e] + r.value.ents))
  }

  /** The same with the entries already served as an argument. */
  ghost function AssignFrom(m: seq<bool>, done: seq<Ent>, rest: seq<Ent>, end: nat, start: nat): Result<Assigned>
    decreases |rest|
  {
    if rest == [] then Ok(Assigned(m, done))
    else
      var s := AssignOne(m, rest[0], end, start);
      if s.Exit? then Exit(s.code) else AssignFrom(s.value.m, done + [s.value.e], rest[1..], end, start)
  }

  lemma {:induction false} AssignFromIsAll(m: seq<bool>, done: seq<Ent>, rest: seq<Ent>, end: nat, start: nat)
    ensures var r := AssignAll(m, rest, end, start);
            AssignFrom(m, done, rest, end, start) == if r.Exit? then r else Ok(Assigned(r.value.m, done + r.value.ents))
    decreases |rest|
  {
    if rest == [] {
      assert done + [] == done;
    } else {
      var s := AssignOne(m, rest[0], end, start);
      if s.Ok? {
        AssignFromIsAll(s.value.m, done + [s.value.e], rest[1..], end, start);
        var r := AssignAll(s.value.m, rest[1..], end, start);
        if r.Ok? { assert done + [s.value.e] + r.value.ents == done + ([s.value.e] + r.value.ents); }
      }
    }
  }

  // ----- what the assignment guarantees -----

  /** The replacements lie in the partition behind `end` and are marked in the map. */
  ghost predicate Backed(m: seq<bool>, start: nat, end: nat, goods: multiset<int>) {
    forall x :: x in goods ==> start + end < x < start + |m| && m[x - start]
  }

  predicate SameBads(a: seq<Ent>, b: seq<Ent>) {
    |a| == |b| && forall i :: 0 <= i < |a| ==> a[i].bad == b[i].bad && a[i].end == b[i].end
  }

  /** Entries that had a replacement keep it, the others have one now. */
  predicate Served(a: seq<Ent>, b: seq<Ent>) {
    |a| == |b| && forall i :: 0 <= i < |a| ==> if Needy(a[i]) then b[i].good != 0 else b[i] == a[i]
  }

  /** Replacements that were there before, or were free then. */
  ghost predicate FromFree(m: seq<bool>, start: nat, end: nat, before: multiset<int>, after: multiset<int>) {
    forall x :: x in after ==> x in before || (start + end < x < start + |m| && !m[x - start])
  }

  /** Exactly the replacements were marked in addition. */
  ghost predicate Marks(m: seq<bool>, m': seq<bool>, start: nat, goods: multiset<int>) {
    |m'| == |m| && forall p :: 0 <= p < |m| ==> m'[p] == (m[p] || start + p in goods)
  }

  /** The guarantees of serving a list: `g` and `g'` are its replacements before and after. */
  ghost predicate Sound(m: seq<bool>, m': seq<bool>, start: nat, end: nat, g: multiset<int>, g': multiset<int>) {
    NoRepeat(g') && (forall x :: g[x] <= g'[x]) && FromFree(m, start, end, g, g') && Marks(m, m', start, g')
  }

  lemma KeepFirst(m: seq<bool>, m': seq<bool>, start: nat, end: nat, run: set<int>, g: multiset<int>, g': multiset<int>)
    requires NoRepeat(multiset(run) + g) && Backed(m, start, end, multiset(run) + g) && Sound(m, m', start, end, g, g')
    ensures Sound(m, m', start, end, multiset(run) + g, multiset(run) + g')
  {
    forall x ensures (multiset(run) + g')[x] <= 1 {
      assert (multiset(run) + g)[x] <= 1 && g'[x] <= 1;
      if x in run {
        assert x in multiset(run) + g;
        assert x in g' ==> x in g;
      }
    }
    forall p | 0 <= p < |m| ensures m'[p] == (m[p] || start + p in multiset(run) + g') {
      assert start + p in run ==> start + p in multiset(run) + g;
    }
  }

  lemma ServeFirst(m: seq<bool>, m': seq<bool>, start: nat, end: nat, lo: nat, n: nat, run: set<int>,
          g: multiset<int>, g': multiset<int>)
    requires end < lo && lo + n <= |m| && Free(m, lo, n) && run == Range(start + lo, start + lo + n - 1)
    requires Backed(m, start, end, g) && Sound(Mark(m, lo, n), m', start, end, g, g')
    ensures Sound(m, m', start, end, g, multiset(run) + g')
  {
    forall x ensures (multiset(run) + g')[x] <= 1 {
      assert g'[x] <= 1;
    }
    forall x | x in multiset(run) + g' ensures x in g || (start + end < x < start + |m| && !m[x - start]) {
      if x !in run { assert x in g'; }
    }
  }

  /** The run found for a needy entry, and the facts `ServeFirst` needs of it. */
  lemma RunFound(m: seq<bool>, e: Ent, end: nat, start: nat) returns (lo: nat)
    requires Needy(e) && 0 <= e.bad <= e.end && AssignOne(m, e, end, start).Ok?
    ensures end < lo && lo + Cluster(e) <= |m| && Free(m, lo, Cluster(e)) && Goods(e) == {}
    ensures AssignOne(m, e, end, start) == Ok(Step(Mark(m, lo, Cluster(e)), e.(good := start + lo)))
    ensures Goods(e.(good := start + lo)) == Range(start + lo, start + lo + Cluster(e) - 1)
  {
    var f := HighestRun(m, |m| - 1, end, Cluster(e));
    assert FreeDown(m, f, Cluster(e));
    lo := f - Cluster(e) + 1;
  }

  lemma OneSound(m: seq<bool>, m': seq<bool>, e: Ent, end: nat, start: nat, g: multiset<int>, g': multiset<int>)
    requires (Live(e) ==> 0 <= e.bad <= e.end) && AssignOne(m, e, end, start).Ok?
    requires NoRepeat(multiset(Goods(e)) + g) && Backed(m, start, end, multiset(Goods(e)) + g)
    requires Sound(AssignOne(m, e, end, start).value.m, m', start, end, g, g')
    ensures Sound(m, m', start, end, multiset(Goods(e)) + g, multiset(Goods(AssignOne(m, e, end, start).value.e)) + g')
  {
    if !Needy(e) {
      KeepFirst(m, m', start, end, Goods(e), g, g');
    } else {
      var lo := RunFound(m, e, end, start);
      assert multiset(Goods(e)) + g == g;
      ServeFirst(m, m', start, end, lo, Cluster(e), Goods(e.(good := start + lo)), g, g');
    }
  }

  lemma OneBacked(m: seq<bool>, e: Ent, end: nat, start: nat, g: multiset<int>)
    requires AssignOne(m, e, end, start).Ok? && Backed(m, start, end, g)
    ensures Backed(AssignOne(m, e, end, start).value.m, start, end, g)
  {
  }

  lemma OneServed(m: seq<bool>, e: Ent, end: nat, start: nat, s: Step)
    requires (Live(e) ==> 0 <= e.bad <= e.end) && AssignOne(m, e, end, start) == Ok(s)
    ensures s.e.bad == e.bad && s.e.end == e.end && if Needy(e) then s.e.good != 0 else s.e == e
  {
    if Needy(e) { var lo := RunFound(m, e, end, start); }
  }

  lemma {:induction false} ServedFirst(ents: seq<Ent>, e: Ent, rest: seq<Ent>, all: seq<Ent>)
    requires ents != [] && all == [e] + rest && SameBads(ents[1..], rest) && Served(ents[1..], rest)
    requires e.bad == ents[0].bad && e.end == ents[0].end && if Needy(ents[0]) then e.good != 0 else e == ents[0]
    ensures SameBads(ents, all) && Served(ents, all)
  {
    forall i | 0 < i < |ents| ensures ents[i] == ents[1..][i - 1] && all[i] == rest[i - 1] { }
  }

  lemma {:induction false} SoundFirst(m: seq<bool>, m': seq<bool>, e: Ent, end: nat, start: nat, s: Step,
                                      g: multiset<int>, g': multiset<int>, all: multiset<int>, all': multiset<int>)
    requires (Live(e) ==> 0 <= e.bad <= e.end) && AssignOne(m, e, end, start) == Ok(s)
    requires all == multiset(Goods(e)) + g && all' == multiset(Goods(s.e)) + g'
    requires NoRepeat(all) && Backed(m, start, end, all) && Sound(s.m, m', start, end, g, g')
    ensures Sound(m, m', start, end, all, all')
  {
    OneSound(m, m', e, end, start, g, g');
  }

  lemma {:induction false} GoodBagCons(e: Ent, es: seq<Ent>, all: seq<Ent>)
    requires all == [e] + es
    ensures GoodBag(all) == multiset(Goods(e)) + GoodBag(es)
  {
    assert all[1..] == es;
  }

  /** The first entry served, and then the others. */
  lemma {:induction false} ServesFirst(m: seq<bool>, ents: seq<Ent>, end: nat, start: nat, s: Step, rest: Assigned,
                                       r: Assigned)
    requires ents != [] && Proper(ents) && Backed(m, start, end, GoodBag(ents)) && NoRepeat(GoodBag(ents))
    requires AssignOne(m, ents[0], end, start) == Ok(s) && Serves(s.m, ents[1..], end, start, rest)
    requires r == Assigned(rest.m, [s.e] + rest.ents)
    ensures Serves(m, ents, end, start, r)
  {
    OneServed(m, ents[0], end, start, s);
    ServedFirst(ents, s.e, rest.ents, r.ents);
    GoodBagCons(ents[0], ents[1..], ents);
    GoodBagCons(s.e, rest.ents, r.ents);
    SoundFirst(m, rest.m, ents[0], end, start, s, GoodBag(ents[1..]), GoodBag(rest.ents), GoodBag(ents),
               GoodBag(r.ents));
  }

  ghost predicate Serves(m: seq<bool>, ents: seq<Ent>, end: nat, start: nat, r: Assigned) {
    SameBads(ents, r.ents) && Served(ents, r.ents) && Sound(m, r.m, start, end, GoodBag(ents), GoodBag(r.ents))
  }

  /** Serving a table whose replacements are marked and pairwise different: nothing but
      missing replacements changes, and replacements are again marked and pairwise different. */
  lemma {:induction false} AssignAllSound(m: seq<bool>, ents: seq<Ent>, end: nat, start: nat)
    requires Proper(ents) && Backed(m, start, end, GoodBag(ents)) && NoRepeat(GoodBag(ents))
    requires AssignAll(m, ents, end, start).Ok?
    ensures Serves(m, ents, end, start, AssignAll(m, ents, end, start).value)
    decreases |ents|
  {
    if ents != [] {
      TailProper(ents);
      var e, rest := ents[0], ents[1..];
      var s := AssignOne(m, e, end, start).value;
      OneBacked(m, e, end, start, GoodBag(rest));
      AssignAllSound(s.m, rest, end, start);
      ServesFirst(m, ents, end, start, s, AssignAll(s.m, rest, end, start).value,
                  AssignAll(m, ents, end, start).value);
    }
  }

  lemma TailProper(es: seq<Ent>)
    requires es != [] && Proper(es)
    ensures Proper(es[1..])
    ensures NoRepeat(GoodBag(es)) ==> NoRepeat(GoodBag(es[1..]))
    ensures forall x :: x in GoodBag(es[1..]) ==> x in GoodBag(es)
  {
    if NoRepeat(GoodBag(es)) {
      forall x ensures GoodBag(es[1..])[x] <= 1 { assert GoodBag(es)[x] <= 1; }
    }
  }

  // ----- the code -----

  method MarkRun(memmap: array<bool>, lo: nat, cluster: nat)
    requires lo + cluster <= memmap.Length
    modifies memmap
    ensures memmap[..] == Mark(old(memmap[..]), lo, cluster)
  {
    var j := 0;
    while j < cluster
      invariant 0 <= j <= cluster && memmap[..] == Mark(old(memmap[..]), lo, j)
    {
      memmap[lo + j] := true;
      j := j + 1;
    }
  }

  lemma Slide(done: seq<Ent>, rest: seq<Ent>, e: Ent)
    requires rest != []
    ensures (done + rest)[|done|] == rest[0] && (done + rest)[|done| := e] == (done + [e]) + rest[1..]
  {
  }

  /** An entry that needs a run gets the highest one, from its last sector `ind` down. */
  lemma AssignNeedy(m: seq<bool>, e: Ent, end: nat, start: nat, ind: int)
    requires Needy(e) && ind == HighestRun(m, |m| - 1, end, Cluster(e))
    ensures var n := Cluster(e);
            AssignOne(m, e, end, start) ==
            if ind == 0 then Exit(65) else Ok(Step(Mark(m, ind - n + 1, n), e.(good := ind - n + 1 + start)))
  {
  }

  method AssignEntry(memmap: array<bool>, entp: array<Ent>, used: nat, i: nat, end: nat, start: nat,
          ghost es: seq<Ent>) returns (code: int)
    requires i < used <= entp.Length && end < memmap.Length && entp[..used] == es
    modifies memmap, entp
    ensures var r := AssignOne(old(memmap[..]), es[i], end, start);
            && code == (if r.Exit? then r.code else 0)
            && (r.Ok? ==> memmap[..] == r.value.m && entp[..used] == es[i := r.value.e])
    ensures code == 0 || code == 65
  {
    code := 0;
    var e := entp[i];
    if e.bad != EMPTY && e.good == 0 {
      ghost var m := memmap[..];
      var cluster := e.end - e.bad + 1;
      var ind := MapAlloc(memmap, memmap.Length - 1, end, cluster, MAP_DOWN);
      AssignNeedy(m, e, end, start, ind);
      if ind == 0 { return 65; }
      ind := ind - cluster + 1;
      entp[i] := e.(good := ind + start);
      MarkRun(memmap, ind, cluster);
    }
  }

  /** `assign_altsctr`; the result is the exit status, 0 when it returns. */
  method AssignAltsctr(memmap: array<bool>, entp: array<Ent>, used: nat, end: nat, start: nat) returns (code: int)
    requires used <= entp.Length && end < memmap.Length
    modifies memmap, entp
    ensures var r := AssignAll(old(memmap[..]), old(entp[..used]), end, start);
            && code == (if r.Exit? then r.code else 0)
            && (r.Ok? ==> memmap[..] == r.value.m && entp[..used] == r.value.ents)
    ensures code == 0 || code == 65
  {
    ghost var m, done: seq<Ent>, rest := memmap[..], [], entp[..used];
    ghost var orig := AssignFrom(m, done, rest, end, start);
    AssignFromIsAll(m, done, rest, end, start);
    assert entp[..used] == done + rest;
    var i := 0;
    while i < used
      invariant 0 <= i <= used && |done| == i && entp[..used] == done + rest && memmap[..] == m
      invariant AssignFrom(m, done, rest, end, start) == orig
    {
      ghost var s := AssignOne(m, rest[0], end, start);
      assert (done + rest)[i] == rest[0];
      code := AssignEntry(memmap, entp, used, i, end, start, done + rest);
      if code != 0 { return; }
      Slide(done, rest, s.value.e);
      m, done, rest := s.value.m, done + [s.value.e], rest[1..];
      i := i + 1;
    }
    assert done + rest == done;
    code := 0;
  }
}
