/** `chk_badsec`, `chk_bad_altsctr` and the marking loop of `init_altsctr` of
    usr/src/cmd/addbadse/ix_altsc.c: reported sectors inside the partition are marked in the
    map and taken off the list, and so are sectors that have a replacement already. */
module AltCheck {
  import opened AltEntries
  import opened AltSearch
  import opened AltAssign

  /** The partition and where its parts lie, in sectors from its start; the partition table
      is its first sector. */
  datatype Layout = Layout(start: nat, size: nat, mapBase: int, mapSec: nat, entBase: int, entSec: int)

  predicate Inside(lay: Layout, x: int) { lay.start <= x <= lay.start + lay.size - 1 }

  predicate InTable(lay: Layout, x: int) { lay.start <= x <= lay.start + 1 - 1 }

  predicate InMap(lay: Layout, x: int) { lay.start + lay.mapBase <= x <= lay.start + lay.mapBase + lay.mapSec - 1 }

  predicate InEntries(lay: Layout, x: int) { lay.start + lay.entBase <= x <= lay.start + lay.entBase + lay.entSec - 1 }

  predicate Replaces(e: Ent, x: int) { e.good <= x <= e.good + (e.end - e.bad) }

  predicate IsAlternate(ents: seq<Ent>, x: int) { exists i :: 0 <= i < |ents| && Replaces(ents[i], x) }

  predicate Remapped(ents: seq<Ent>, x: int) { exists i :: 0 <= i < |ents| && Contains(ents[i], x) }

  function Drop(e: Ent): Ent { e.(bad := EMPTY) }

  /** A reported sector when the tables are new, and when they were read from disk. */
  function InitOne(lay: Layout, m: seq<bool>, e: Ent): (r: Result<Step>)
    requires |m| == lay.size
    ensures r.Exit? ==> r.code == 56
  {
    if !Inside(lay, e.bad) then Ok(Step(m, e))
    else if e.bad == lay.start then Exit(56)
    else Ok(Step(m[e.bad - lay.start := true], Drop(e)))
  }

  function CheckOne(lay: Layout, m: seq<bool>, ents: seq<Ent>, e: Ent): (r: Result<Step>)
    requires |m| == lay.size
    ensures r.Exit? ==> 53 <= r.code <= 66
  {
    var x := e.bad;
    if !Inside(lay, x) then Ok(Step(m, if Remapped(ents, x) then Drop(e) else e))
    else if m[x - lay.start] then if IsAlternate(ents, x) then Exit(66) else Ok(Step(m, Drop(e)))
    else if InTable(lay, x) then Exit(53)
    else if InMap(lay, x) then Exit(54)
    else if InEntries(lay, x) then Exit(55)
    else Ok(Step(m[x - lay.start := true], Drop(e)))
  }

  function ExamineOne(first: bool, lay: Layout, m: seq<bool>, ents: seq<Ent>, e: Ent): Result<Step>
    requires |m| == lay.size
  {
    if first then InitOne(lay, m, e) else CheckOne(lay, m, ents, e)
  }

  /** All reported sectors in order, with those examined already in `done`. */
  function Examine(first: bool, lay: Layout, m: seq<bool>, ents: seq<Ent>, done: seq<Ent>,
          rest: seq<Ent>): (r: Result<Assigned>)
    requires |m| == lay.size
    ensures r.Exit? ==> 53 <= r.code <= 66
    decreases |rest|
  {
    if rest == [] then Ok(Assigned(m, done))
    else
      var s := ExamineOne(first, lay, m, ents, rest[0]);
      if s.Exit? then Exit(s.code) else Examine(first, lay, s.value.m, ents, done + [s.value.e], rest[1..])
  }

  // ----- what it guarantees -----

  /** A list of reported sectors, one entry each. */
  predicate Reported(es: seq<Ent>) {
    forall i :: 0 <= i < |es| ==> 0 <= es[i].bad == es[i].end && es[i].good == 0
  }

  /** Entries of a list were kept or emptied. */
  predicate Thinned(es: seq<Ent>, es': seq<Ent>) {
    |es| == |es'| && forall i :: 0 <= i < |es| ==> es'[i] == es[i] || es'[i] == Drop(es[i])
  }

  predicate Dropped(first: bool, lay: Layout, ents: seq<Ent>, x: int) {
    Inside(lay, x) || (!first && Remapped(ents, x))
  }

  /** A reported sector of the partition is one the program can do without. */
  predicate Spare(first: bool, lay: Layout, m: seq<bool>, ents: seq<Ent>, x: int)
    requires |m| == lay.size && Inside(lay, x)
  {
    if first then x != lay.start
    else if m[x - lay.start] then !IsAlternate(ents, x)
    else !InTable(lay, x) && !InMap(lay, x) && !InEntries(lay, x)
  }

  /** `m'` is `m` with the reported sectors of the partition, all spare, marked. */
  ghost predicate Absorbed(first: bool, lay: Layout, m: seq<bool>, m': seq<bool>, ents: seq<Ent>, bads: multiset<int>)
    requires |m| == lay.size
  {
    && Marks(m, m', lay.start, bads)
    && forall x :: x in bads && Inside(lay, x) ==> Spare(first, lay, m, ents, x)
  }

  /** `left` is what remains of the reported sectors `bads`. */
  ghost predicate Filtered(first: bool, lay: Layout, ents: seq<Ent>, bads: multiset<int>, left: multiset<int>) {
    forall x :: left[x] == if Dropped(first, lay, ents, x) then 0 else bads[x]
  }

  lemma ExamineOneMarks(first: bool, lay: Layout, m: seq<bool>, ents: seq<Ent>, e: Ent)
    requires |m| == lay.size && ExamineOne(first, lay, m, ents, e).Ok?
    ensures var s := ExamineOne(first, lay, m, ents, e).value;
            && Marks(m, s.m, lay.start, multiset{e.bad})
            && (Inside(lay, e.bad) ==> Spare(first, lay, m, ents, e.bad))
  {
  }

  lemma AbsorbedMore(first: bool, lay: Layout, m: seq<bool>, m1: seq<bool>, m': seq<bool>, ents: seq<Ent>, x0: int,
          bads: multiset<int>)
    requires |m| == lay.size && Marks(m, m1, lay.start, multiset{x0})
             && (Inside(lay, x0) ==> Spare(first, lay, m, ents, x0))
    requires Absorbed(first, lay, m1, m', ents, bads)
    ensures Absorbed(first, lay, m, m', ents, multiset{x0} + bads)
  {
    forall x | x in multiset{x0} + bads && Inside(lay, x) ensures Spare(first, lay, m, ents, x) {
      if x != x0 {
        assert x in bads && Spare(first, lay, m1, ents, x);
        assert m1[x - lay.start] == m[x - lay.start];
      }
    }
  }

  lemma FilterOne(first: bool, lay: Layout, m: seq<bool>, ents: seq<Ent>, e: Ent, bads: multiset<int>,
          left: multiset<int>)
    requires |m| == lay.size && 0 <= e.bad == e.end && ExamineOne(first, lay, m, ents, e).Ok?
    requires Filtered(first, lay, ents, bads, left)
    ensures Filtered(first, lay, ents, multiset{e.bad} + bads,
            multiset(Sectors(ExamineOne(first, lay, m, ents, e).value.e)) + left)
  {
    var f := ExamineOne(first, lay, m, ents, e).value.e;
    assert Sectors(f) == if Dropped(first, lay, ents, e.bad) then {} else {e.bad};
  }

  /** What became of a list of reported sectors. */
  ghost predicate Examined(first: bool, lay: Layout, m: seq<bool>, m': seq<bool>, ents: seq<Ent>, es: seq<Ent>,
          es': seq<Ent>)
    requires |m| == lay.size
  {
    && Thinned(es, es') && Filtered(first, lay, ents, Bag(es), Bag(es'))
    && Absorbed(first, lay, m, m', ents, Bag(es))
  }

  lemma ThinnedMore(e: Ent, f: Ent, es: seq<Ent>, es': seq<Ent>)
    requires Thinned(es, es') && (f == e || f == Drop(e))
    ensures Thinned([e] + es, [f] + es')
  {
  }

  lemma SingleBag(e: Ent, es: seq<Ent>)
    requires 0 <= e.bad == e.end
    ensures Bag([e] + es) == multiset{e.bad} + Bag(es)
  {
    BagFirst(e, es);
    assert Sectors(e) == {e.bad};
  }

  lemma ExamineOneThins(first: bool, lay: Layout, m: seq<bool>, ents: seq<Ent>, e: Ent, s: Step)
    requires |m| == lay.size && ExamineOne(first, lay, m, ents, e) == Ok(s)
    ensures s.e == e || s.e == Drop(e)
  {
  }

  lemma {:induction false} ExaminedMore(first: bool, lay: Layout, m: seq<bool>, m': seq<bool>, ents: seq<Ent>, e: Ent,
                                        s: Step, es: seq<Ent>, es': seq<Ent>, all: seq<Ent>, out: seq<Ent>)
    requires all == [e] + es && out == [s.e] + es'
    requires |m| == lay.size && 0 <= e.bad == e.end && ExamineOne(first, lay, m, ents, e) == Ok(s) && |s.m| == |m|
    requires Examined(first, lay, s.m, m', ents, es, es')
    ensures Examined(first, lay, m, m', ents, all, out)
  {
    var bads, left := Bag(es), Bag(es');
    ExamineOneThins(first, lay, m, ents, e, s);
    ThinnedMore(e, s.e, es, es');
    ExamineOneMarks(first, lay, m, ents, e);
    AbsorbedMore(first, lay, m, s.m, m', ents, e.bad, bads);
    FilterOne(first, lay, m, ents, e, bads, left);
    BagFirst(s.e, es');
    SingleBag(e, es);
  }

  lemma ExamineNext(first: bool, lay: Layout, m: seq<bool>, ents: seq<Ent>, done: seq<Ent>, rest: seq<Ent>)
    returns (s: Step)
    requires |m| == lay.size && rest != [] && Examine(first, lay, m, ents, done, rest).Ok?
    ensures ExamineOne(first, lay, m, ents, rest[0]) == Ok(s) && |s.m| == lay.size
    ensures Examine(first, lay, s.m, ents, done + [s.e], rest[1..]) == Examine(first, lay, m, ents, done, rest)
  {
    s := ExamineOne(first, lay, m, ents, rest[0]).value;
  }

  lemma Rejoined(done: seq<Ent>, e: Ent, tail: seq<Ent>, rest: seq<Ent>)
    requires rest != []
    ensures done + [e] + tail == done + ([e] + tail) && [rest[0]] + rest[1..] == rest
  {
  }

  lemma {:induction false} ExaminedNone(first: bool, lay: Layout, m: seq<bool>, ents: seq<Ent>, none: seq<Ent>)
    requires |m| == lay.size && none == []
    ensures Examined(first, lay, m, m, ents, none, none)
  {
  }

  /** What `chk_badsec` and `init_altsctr` leave of a list of reported sectors. */
  lemma {:induction false} ExamineSound(first: bool, lay: Layout, m: seq<bool>, ents: seq<Ent>, done: seq<Ent>,
          rest: seq<Ent>, r: Assigned)
    returns (out: seq<Ent>)
    requires |m| == lay.size && Reported(rest) && Examine(first, lay, m, ents, done, rest) == Ok(r)
    ensures r.ents == done + out && Examined(first, lay, m, r.m, ents, rest, out)
    decreases |rest|
  {
    if rest == [] {
      out := [];
      assert done + out == done;
      ExaminedNone(first, lay, m, ents, out);
    } else {
      var s := ExamineNext(first, lay, m, ents, done, rest);
      var tail := ExamineSound(first, lay, s.m, ents, done + [s.e], rest[1..], r);
      out := [s.e] + tail;
      Rejoined(done, s.e, tail, rest);
      ExaminedMore(first, lay, m, r.m, ents, rest[0], s, rest[1..], tail, rest, out);
    }
  }

  // ----- the code -----

  /** `chk_bad_altsctr`: true where the source exits with status 66. */
  method ChkBadAltsctr(entp: array<Ent>, used: nat, badsec: int) returns (taken: bool)
    requires used <= entp.Length
    ensures taken == IsAlternate(entp[..used], badsec)
  {
    ghost var ents := entp[..used];
    var i := 0;
    while i < used
      invariant 0 <= i <= used && forall k :: 0 <= k < i ==> !Replaces(ents[k], badsec)
    {
      var numsec := entp[i].end - entp[i].bad;
      if badsec >= entp[i].good && badsec <= entp[i].good + numsec {
        assert Replaces(ents[i], badsec);
        return true;
      }
      i := i + 1;
    }
    taken := false;
  }

  /** The body of the loop of `chk_badsec`. */
  method CheckEntry(lay: Layout, memmap: array<bool>, entp: array<Ent>, used: nat, gbadp: array<Ent>, gbadcnt: nat,
          cnt: nat, ghost es: seq<Ent>)
    returns (code: int)
    requires memmap.Length == lay.size && used <= entp.Length && cnt < gbadcnt <= gbadp.Length && entp != gbadp
    requires Ordered(entp[..used]) && gbadp[..gbadcnt] == es
    modifies memmap, gbadp
    ensures var r := CheckOne(lay, old(memmap[..]), entp[..used], es[cnt]);
            && code == (if r.Exit? then r.code else 0)
            && (r.Ok? ==> memmap[..] == r.value.m && gbadp[..gbadcnt] == es[cnt := r.value.e])
    ensures code == 0 || 53 <= code <= 66
  {
    code := 0;
    var badsec := gbadp[cnt].bad;
    if badsec >= lay.start && badsec <= lay.start + lay.size - 1 {
      if !memmap[badsec - lay.start] {
        if badsec >= lay.start && badsec <= lay.start + 1 - 1 { return 53; }
        if badsec >= lay.start + lay.mapBase && badsec <= lay.start + lay.mapBase + lay.mapSec - 1 { return 54; }
        if badsec >= lay.start + lay.entBase && badsec <= lay.start + lay.entBase + lay.entSec - 1 { return 55; }
        memmap[badsec - lay.start] := true;
        gbadp[cnt] := gbadp[cnt].(bad := EMPTY);
      } else {
        var taken := ChkBadAltsctr(entp, used, badsec);
        if taken { return 66; }
        gbadp[cnt] := gbadp[cnt].(bad := EMPTY);
      }
    } else {
      var status := EntBsearch(entp, used, badsec);
      if status != -1 {
        assert Contains(entp[..used][status], badsec);
        gbadp[cnt] := gbadp[cnt].(bad := EMPTY);
      }
    }
  }

  /** `chk_badsec` */
  method ChkBadsec(lay: Layout, memmap: array<bool>, entp: array<Ent>, used: nat, gbadp: array<Ent>, gbadcnt: nat)
    returns (code: int)
    requires memmap.Length == lay.size && used <= entp.Length && entp != gbadp && gbadcnt <= gbadp.Length
             && Ordered(entp[..used])
    modifies memmap, gbadp
    ensures var r := Examine(false, lay, old(memmap[..]), entp[..used], [], old(gbadp[..gbadcnt]));
            && code == (if r.Exit? then r.code else 0)
            && (r.Ok? ==> memmap[..] == r.value.m && gbadp[..gbadcnt] == r.value.ents)
    ensures code == 0 || 53 <= code <= 66
  {
    ghost var m, done: seq<Ent>, rest, ents := memmap[..], [], gbadp[..gbadcnt], entp[..used];
    ghost var orig := Examine(false, lay, m, ents, done, rest);
    assert gbadp[..gbadcnt] == done + rest;
    var cnt := 0;
    while cnt < gbadcnt
      invariant 0 <= cnt <= gbadcnt && |done| == cnt && gbadp[..gbadcnt] == done + rest && memmap[..] == m
      invariant Examine(false, lay, m, ents, done, rest) == orig
    {
      ghost var s := CheckOne(lay, m, ents, rest[0]);
      assert (done + rest)[cnt] == rest[0];
      code := CheckEntry(lay, memmap, entp, used, gbadp, gbadcnt, cnt, done + rest);
      if code != 0 { return; }
      Slide(done, rest, s.value.e);
      m, done, rest := s.value.m, done + [s.value.e], rest[1..];
      cnt := cnt + 1;
    }
    assert done + rest == done;
    code := 0;
  }

  method InitEntry(lay: Layout, memmap: array<bool>, gbadp: array<Ent>, gbadcnt: nat, cnt: nat, ghost es: seq<Ent>)
    returns (code: int)
    requires memmap.Length == lay.size && cnt < gbadcnt <= gbadp.Length && gbadp[..gbadcnt] == es
    modifies memmap, gbadp
    ensures var r := InitOne(lay, old(memmap[..]), es[cnt]);
            && code == (if r.Exit? then r.code else 0)
            && (r.Ok? ==> memmap[..] == r.value.m && gbadp[..gbadcnt] == es[cnt := r.value.e])
    ensures code == 0 || code == 56
  {
    code := 0;
    var badsec := gbadp[cnt].bad;
    if badsec >= lay.start && badsec <= lay.start + lay.size - 1 {
      if badsec == lay.start { return 56; }
      memmap[badsec - lay.start] := true;
      gbadp[cnt] := gbadp[cnt].(bad := EMPTY);
    }
  }

  /** The marking loop of `init_altsctr`. */
  method InitMarks(lay: Layout, memmap: array<bool>, gbadp: array<Ent>, gbadcnt: nat) returns (code: int)
    requires memmap.Length == lay.size && gbadcnt <= gbadp.Length
    modifies memmap, gbadp
    ensures var r := Examine(true, lay, old(memmap[..]), [], [], old(gbadp[..gbadcnt]));
            && code == (if r.Exit? then r.code else 0)
            && (r.Ok? ==> memmap[..] == r.value.m && gbadp[..gbadcnt] == r.value.ents)
    ensures code == 0 || code == 56
  {
    ghost var m, done: seq<Ent>, rest := memmap[..], [], gbadp[..gbadcnt];
    ghost var orig := Examine(true, lay, m, [], done, rest);
    assert gbadp[..gbadcnt] == done + rest;
    var cnt := 0;
    while cnt < gbadcnt
      invariant 0 <= cnt <= gbadcnt && |done| == cnt && gbadp[..gbadcnt] == done + rest && memmap[..] == m
      invariant Examine(true, lay, m, [], done, rest) == orig
    {
      ghost var s := InitOne(lay, m, rest[0]);
      assert (done + rest)[cnt] == rest[0];
      code := InitEntry(lay, memmap, gbadp, gbadcnt, cnt, done + rest);
      if code != 0 { return; }
      Slide(done, rest, s.value.e);
      m, done, rest := s.value.m, done + [s.value.e], rest[1..];
      cnt := cnt + 1;
    }
    assert done + rest == done;
    code := 0;
  }
}
