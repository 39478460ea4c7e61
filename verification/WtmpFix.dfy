/** usr/src/cmd/acct/wtmpfix.c: the first pass copies the log and lists the intervals of it
    to be adjusted, the second adjusts them. */
module WtmpFix {
  import opened WtmpChanges

  /** `struct dtab`: records from `off1` up to `off2` are to be moved by `adj`. */
  datatype Dtab = Dtab(off1: int, off2: int, adj: int)

  function Share(d: Dtab, q: int): int { if d.off1 <= q < d.off2 then d.adj else 0 }

  /** What a list of intervals adds to the time of record `q`. */
  function Applied(ds: seq<Dtab>, q: int): int {
    if ds == [] then 0 else Applied(ds[..|ds| - 1], q) + Share(ds[|ds| - 1], q)
  }

  lemma AppliedMore(ds: seq<Dtab>, d: Dtab, q: int)
    ensures Applied(ds + [d], q) == Applied(ds, q) + Share(d, q)
  {
    assert (ds + [d])[..|ds|] == ds;
  }

  /** The intervals that are closed: all but the last of the list. */
  function Closed(ds: seq<Dtab>): seq<Dtab> { if ds == [] then [] else ds[..|ds| - 1] }

  /** The intervals to be moved: from the last boot up to each change in multi-user mode. */
  function Intervals(xs: seq<Rec>): seq<Dtab> {
    if xs == [] then []
    else
      var n := |xs| - 1;
      if n > 0 && xs[n - 1].kind.OldTime? && Mode(xs[..n - 1]) != 0 then
        Intervals(xs[..n]) + [Dtab(LastBoot(xs[..n - 1]), n - 1, xs[n].time - xs[n - 1].time)]
      else Intervals(xs[..n])
  }

  lemma {:induction false} IntervalsGrow(xs: seq<Rec>, ys: seq<Rec>)
    ensures Intervals(xs) <= Intervals(xs + ys)
    decreases |ys|
  {
    if ys == [] {
      assert xs + ys == xs;
    } else {
      var n := |ys| - 1;
      assert (xs + ys)[..|xs| + n] == xs + ys[..n];
      IntervalsGrow(xs, ys[..n]);
    }
  }

  lemma {:induction false} IntervalsPlain(xs: seq<Rec>, r: Rec)
    requires Paired(xs)
    ensures Intervals(xs + [r]) == Intervals(xs)
  {
    assert (xs + [r])[..|xs|] == xs;
    if xs != [] { assert PairAt(xs, |xs| - 1); }
  }

  lemma {:induction false} IntervalsLast(xs: seq<Rec>, o: Rec, w: Rec, front: seq<Rec>, all: seq<Rec>)
    requires front == xs + [o] && all == front + [w] && o.kind.OldTime?
    ensures Intervals(all) ==
            Intervals(front) + if Mode(xs) != 0 then [Dtab(LastBoot(xs), |xs|, w.time - o.time)] else []
  {
    assert all[..|xs| + 1] == front && all[..|xs|] == xs && all[|xs|] == o;
  }

  lemma {:induction false} IntervalsPair(xs: seq<Rec>, o: Rec, w: Rec)
    requires Paired(xs) && o.kind.OldTime?
    ensures Intervals(xs + [o, w]) ==
            Intervals(xs) + if Mode(xs) != 0 then [Dtab(LastBoot(xs), |xs|, w.time - o.time)] else []
  {
    IntervalsPlain(xs, o);
    IntervalsLast(xs, o, w, xs + [o], xs + [o, w]);
  }

  lemma {:induction false} PlainMeans(xs: seq<Rec>, r: Rec, q: nat)
    requires Paired(xs) && !r.kind.OldTime? && Applied(Intervals(xs), q) == Effects(xs, q, |xs|)
    ensures Applied(Intervals(xs + [r]), q) == Effects(xs + [r], q, |xs| + 1)
  {
    IntervalsPlain(xs, r);
    EffectsKept(xs, [r], q, |xs|);
  }

  lemma {:induction false} PairMeans(xs: seq<Rec>, o: Rec, w: Rec, q: nat)
    requires Paired(xs) && o.kind.OldTime? && w.kind.NewTime? && Applied(Intervals(xs), q) == Effects(xs, q, |xs|)
    ensures Applied(Intervals(xs + [o, w]), q) == Effects(xs + [o, w], q, |xs| + 2)
  {
    var ds, d := Intervals(xs), Dtab(LastBoot(xs), |xs|, w.time - o.time);
    IntervalsPair(xs, o, w);
    PairEffects(xs, o, w, q);
    AppliedMore(ds, d, q);
    assert ds + [] == ds;
  }

  /** The intervals of a complete log add to each record what the changes behind it do. */
  lemma {:induction false} IntervalsMean(xs: seq<Rec>, q: nat)
    requires Paired(xs)
    ensures Applied(Intervals(xs), q) == Effects(xs, q, |xs|)
    decreases |xs|
  {
    if xs != [] {
      var init, o, w := LastStep(xs);
      IntervalsMean(init, q);
      if o == [] { PlainMeans(init, w, q); } else { PairMeans(init, o[0], w, q); }
    }
  }

  /** A complete log ends in a change of the clock or in a record that is no part of one. */
  lemma {:induction false} LastStep(xs: seq<Rec>) returns (init: seq<Rec>, o: seq<Rec>, w: Rec)
    requires Paired(xs) && xs != []
    ensures Paired(init) && |init| < |xs| && |o| <= 1
    ensures o == [] ==> xs == init + [w] && !w.kind.OldTime?
    ensures o != [] ==> xs == init + [o[0], w] && o[0].kind.OldTime? && w.kind.NewTime?
  {
    var n := |xs| - 1;
    assert PairAt(xs, n) && PairAt(xs, n - 1) && PairAt(xs, n - 2);
    w := xs[n];
    if n > 0 && xs[n - 1].kind.OldTime? {
      init, o := xs[..n - 1], [xs[n - 1]];
      PairedFront(xs, n - 1);
    } else {
      init, o := xs[..n], [];
      PairedFront(xs, n);
    }
  }

  /** A log up to where no change is cut in two is complete. */
  lemma {:induction false} PairedFront(xs: seq<Rec>, n: nat)
    requires Paired(xs) && n <= |xs| && (n > 0 ==> !xs[n - 1].kind.OldTime?)
    ensures Paired(xs[..n])
  {
    forall c | 0 <= c < n ensures PairAt(xs[..n], c) { assert PairAt(xs, c); }
  }

  /** The list after the log `xs`: its last interval is open since the last boot, and the
      others are those of the changes so far. */
  predicate Lists(ds: seq<Dtab>, xs: seq<Rec>) {
    && (ds == [] <==> xs == [])
    && (xs != [] ==> ds[|ds| - 1] == Dtab(LastBoot(xs), 0, 0))
    && Closed(ds) == Intervals(xs)
  }

  /** `mkdtab`, and its use at the first record and at boots. */
  function Begin(ds: seq<Dtab>, p: nat): (r: seq<Dtab>)
    ensures r != [] && Closed(r) == Closed(ds)
  {
    if ds == [] then [Dtab(p, 0, 0)] else ds[|ds| - 1 := ds[|ds| - 1].(off1 := p)]
  }

  /** `setdtab`: the open interval is closed, and one from the same start opened. */
  function Close(ds: seq<Dtab>, p: nat, adj: int): (r: seq<Dtab>)
    requires ds != []
    ensures r != [] && Closed(r) == Closed(ds) + [Dtab(ds[|ds| - 1].off1, p, adj)]
    ensures var n, off1 := |ds| - 1, ds[|ds| - 1].off1;
            && |r| == n + 2 && r[n] == Dtab(off1, p, adj) && r[n + 1] == Dtab(off1, 0, 0)
            && forall i :: 0 <= i < n ==> r[i] == ds[i]
  {
    var d := ds[|ds| - 1];
    ds[..|ds| - 1] + [Dtab(d.off1, p, adj), Dtab(d.off1, 0, 0)]
  }

  /** A record that is no part of a change of the clock. */
  lemma PlainStep(ds: seq<Dtab>, xs: seq<Rec>, r: Rec)
    requires Lists(ds, xs) && Paired(xs) && !r.kind.OldTime?
    ensures Lists(if xs == [] || r.kind.BootTime? then Begin(ds, |xs|) else ds, xs + [r])
    ensures Paired(xs + [r])
  {
    var all := xs + [r];
    assert all[..|xs|] == xs;
    PairedAppend(xs, [r]);
    IntervalsPlain(xs, r);
  }

  /** The list when a change is met: begun, if it is the first record. */
  function Met(ds: seq<Dtab>, xs: seq<Rec>): seq<Dtab> { if xs == [] then Begin(ds, 0) else ds }

  lemma PairEffects(xs: seq<Rec>, o: Rec, w: Rec, q: nat)
    requires Paired(xs) && o.kind.OldTime? && w.kind.NewTime?
    ensures Effects(xs + [o, w], q, |xs| + 2) ==
            Effects(xs, q, |xs|) + if Mode(xs) != 0 then Share(Dtab(LastBoot(xs), |xs|, w.time - o.time), q) else 0
  {
    var all, c := xs + [o, w], |xs|;
    EffectsKept(xs, [o, w], q, c);
    assert all[..c] == xs && all[c] == o && all[c + 1] == w;
    assert Effects(all, q, c + 2) == Effects(all, q, c) + Effect(all, q, c) + Effect(all, q, c + 1);
    ModeMeans(xs);
    if q < c { BootMeans(all, q, c); }
  }

  lemma LastBootPair(xs: seq<Rec>, o: Rec, w: Rec)
    requires o.kind.OldTime? && w.kind.NewTime?
    ensures LastBoot(xs + [o, w]) == LastBoot(xs)
  {
    var a := xs + [o];
    assert xs + [o, w] == a + [w] && (a + [w])[..|a|] == a && a[..|xs|] == xs;
  }

  lemma {:induction false} PairStep(ds: seq<Dtab>, xs: seq<Rec>, o: Rec, w: Rec)
    requires Lists(ds, xs) && Paired(xs) && o.kind.OldTime? && w.kind.NewTime?
    ensures Lists(if Mode(xs) != 0 then Close(Met(ds, xs), |xs|, w.time - o.time) else Met(ds, xs), xs + [o, w])
    ensures Paired(xs + [o, w])
  {
    assert Paired([o, w]);
    PairedAppend(xs, [o, w]);
    LastBootPair(xs, o, w);
    IntervalsPair(xs, o, w);
  }

  lemma CleanedPlain(xs: seq<Rec>, r: Rec)
    requires Paired(xs)
    ensures Cleaned(xs + [r]) == Cleaned(xs) + [Clean(r)] && Mode(xs + [r]) == NextMode(Mode(xs), r)
  {
    assert (xs + [r])[..|xs|] == xs;
    if xs != [] { assert PairAt(xs, |xs| - 1); }
  }

  lemma CleanedPair(xs: seq<Rec>, o: Rec, w: Rec)
    requires Paired(xs) && o.kind.OldTime? && w.kind.NewTime?
    ensures Cleaned(xs + [o, w]) == Cleaned(xs) + [Clean(o), w] && Mode(xs + [o, w]) == Mode(xs)
  {
    CleanedPlain(xs, o);
    var all := xs + [o, w];
    assert all[..|xs| + 1] == xs + [o] && all[|xs|] == o;
  }

  /** In the end the open interval adds nothing, and the others the effects of all changes. */
  lemma {:induction false} ListedEffects(ds: seq<Dtab>, xs: seq<Rec>, q: nat)
    requires Paired(xs) && Lists(ds, xs)
    ensures Applied(ds, q) == Effects(xs, q, |xs|)
  {
    IntervalsMean(xs, q);
    if ds != [] { assert ds == Closed(ds) + [ds[|ds| - 1]]; AppliedMore(Closed(ds), ds[|ds| - 1], q); }
  }

  /** The variables of the first pass after the log `xs`. */
  ghost predicate Scanned(ds: seq<Dtab>, recno: nat, multimode: int, opw: seq<Rec>, xs: seq<Rec>) {
    && Paired(xs) && Lists(ds, xs)
    && recno == |xs| && multimode == Mode(xs) && opw == Cleaned(xs)
  }

  lemma {:induction false} ScannedPlain(ds: seq<Dtab>, recno: nat, multimode: int, opw: seq<Rec>, xs: seq<Rec>, r: Rec)
    requires Scanned(ds, recno, multimode, opw, xs) && !r.kind.OldTime?
    ensures Scanned(if recno == 0 || r.kind.BootTime? then Begin(ds, recno) else ds, recno + 1,
                    NextMode(multimode, r), opw + [Clean(r)], xs + [r])
  {
    PlainStep(ds, xs, r);
    CleanedPlain(xs, r);
  }

  lemma {:induction false} ScannedPair(ds: seq<Dtab>, recno: nat, multimode: int, opw: seq<Rec>, xs: seq<Rec>,
                                       o: Rec, w: Rec)
    requires Scanned(ds, recno, multimode, opw, xs) && o.kind.OldTime? && w.kind.NewTime?
    ensures var met := if recno == 0 then Begin(ds, 0) else ds;
            Scanned(if multimode != 0 then Close(met, recno, w.time - o.time) else met, recno + 2,
                    multimode, opw + [Clean(o)] + [w], xs + [o, w])
  {
    PairStep(ds, xs, o, w);
    CleanedPair(xs, o, w);
    assert opw + [Clean(o)] + [w] == Cleaned(xs) + [Clean(o), w];
  }

  /** Of the file `f`, behind the log `xs`, `i` records are read, up to the log `seen`. */
  ghost predicate Into(f: seq<Rec>, i: nat, xs: seq<Rec>, seen: seq<Rec>) {
    && i <= |f| && |seen| == |xs| + i
    && (forall k :: 0 <= k < |xs| ==> seen[k] == xs[k])
    && (forall k :: 0 <= k < i ==> seen[|xs| + k] == f[k])
    && (forall c :: 0 <= c < i ==> PairAt(f, c))
    && (i > 0 ==> !f[i - 1].kind.OldTime?)
  }

  lemma IntoAll(f: seq<Rec>, xs: seq<Rec>, seen: seq<Rec>)
    requires Into(f, |f|, xs, seen)
    ensures seen == xs + f && Paired(f)
  {
  }

  lemma IntoPlain(f: seq<Rec>, i: nat, xs: seq<Rec>, seen: seq<Rec>)
    requires Into(f, i, xs, seen) && i < |f| && !f[i].kind.OldTime?
    ensures Into(f, i + 1, xs, seen + [f[i]])
  {
  }

  lemma IntoPair(f: seq<Rec>, i: nat, xs: seq<Rec>, seen: seq<Rec>)
    requires Into(f, i, xs, seen) && i + 1 < |f| && f[i].kind.OldTime? && f[i + 1].kind.NewTime?
    ensures Into(f, i + 2, xs, seen + [f[i], f[i + 1]])
  {
  }

  /** `struct dtab`, as it lies in memory. */
  class Node {
    var off1: int
    var off2: int
    var adj: int
    var ndp: Node?

    /** `calloc` */
    constructor ()
      ensures off1 == 0 && off2 == 0 && adj == 0 && ndp == null
    {
      off1, off2, adj, ndp := 0, 0, 0, null;
    }

    ghost predicate Holds(d: Dtab)
      reads this
    {
      off1 == d.off1 && off2 == d.off2 && adj == d.adj
    }
  }

  /** The list of intervals between the pointers `fdp` and `ldp`. */
  class DtabList {
    var fdp: Node?
    var ldp: Node?
    ghost var nodes: seq<Node>
    ghost var dtab: seq<Dtab>

    /** The list from `fdp` to `ldp` runs through the nodes, which hold the intervals. */
    ghost predicate Valid()
      reads this, nodes
    {
      && |nodes| == |dtab|
      && fdp == (if nodes == [] then null else nodes[0])
      && ldp == (if nodes == [] then null else nodes[|nodes| - 1])
      && (forall i :: 0 <= i < |nodes| ==> nodes[i].Holds(dtab[i]))
      && (forall i {:trigger nodes[i].ndp} :: 0 <= i < |nodes| - 1 ==> nodes[i] != ldp && nodes[i].ndp == nodes[i + 1])
      && (nodes != [] ==> nodes[|nodes| - 1].ndp == null)
    }

    /** The last node is that of the earlier state, or a new one. */
    twostate predicate Grown()
      reads this
    {
      ldp == old(ldp) || (ldp != null && fresh(ldp))
    }

    constructor ()
      ensures Valid() && dtab == [] && ldp == null
    {
      fdp, ldp, nodes, dtab := null, null, [], [];
    }

    /** `mkdtab` */
    method Mkdtab(p: nat)
      requires Valid()
      modifies this, ldp
      ensures Valid() && dtab == Begin(old(dtab), p) && Grown() && old(nodes) <= nodes
    {
      var dp := ldp;
      if dp == null {
        dp := new Node();
        fdp, ldp := dp, dp;
        nodes, dtab := [dp], [Dtab(0, 0, 0)];
      }
      dp.off1 := p;
      dtab := Begin(dtab, p);
    }

    /** A node behind the last one. */
    method Append(off1: int)
      requires Valid() && ldp != null
      modifies this, ldp
      ensures Valid() && dtab == old(dtab) + [Dtab(off1, 0, 0)] && ldp != null && fresh(ldp)
      ensures nodes == old(nodes) + [ldp]
    {
      var dp := ldp;
      ldp := new Node();
      ldp.off1 := off1;
      dp.ndp := ldp;
      nodes, dtab := nodes + [ldp], dtab + [Dtab(off1, 0, 0)];
    }

    /** `setdtab`, which fails without a list. */
    method Setdtab(p: nat, w1: Rec, w2: Rec) returns (ok: bool)
      requires Valid()
      modifies this, ldp
      ensures Valid() && ok == (old(dtab) != []) && Grown() && old(nodes) <= nodes
      ensures dtab == if ok then Close(old(dtab), p, w2.time - w1.time) else old(dtab)
    {
      var dp := ldp;
      if dp == null { return false; }
      dp.off2 := p;
      dp.adj := w2.time - w1.time;
      dtab := dtab[|dtab| - 1 := Dtab(dp.off1, p, dp.adj)];
      Append(dp.off1);
      ok := true;
    }

    /** `adjust` */
    method Adjust(p: nat, w: Rec) returns (r: Rec)
      requires Valid()
      ensures r == w.(time := w.time + Applied(dtab, p))
    {
      r := w;
      var dp := fdp;
      ghost var i := 0;
      while dp != null
        invariant 0 <= i <= |nodes| && dp == (if i < |nodes| then nodes[i] else null)
        invariant r == w.(time := w.time + Applied(dtab[..i], p))
        decreases |nodes| - i
      {
        assert dtab[..i + 1][..i] == dtab[..i] && dp.Holds(dtab[i]);
        if dp.adj != 0 {
          if p >= dp.off1 && p < dp.off2 { r := r.(time := r.time + dp.adj); }
        }
        dp := dp.ndp;
        i := i + 1;
      }
      assert dtab[..|dtab|] == dtab;
    }

  }

  class Fixer {
    const list: DtabList
    var recno: nat
    var multimode: int
    var opw: seq<Rec>

    /** The first pass has seen the log `xs`. */
    ghost predicate Seen(xs: seq<Rec>)
      reads this, list, list.nodes
    {
      list.Valid() && Scanned(list.dtab, recno, multimode, opw, xs)
    }

    constructor ()
      ensures Seen([]) && fresh(list) && list.ldp == null
    {
      list := new DtabList();
      recno, multimode, opw := 0, 0, [];
    }

    /** One record of the loop of `scanfile` that is no old time. */
    method ScanPlain(r: Rec, ghost xs: seq<Rec>)
      requires Seen(xs) && !r.kind.OldTime?
      modifies this, list, list.ldp
      ensures Seen(xs + [r]) && Closed(list.dtab) == Closed(old(list.dtab)) && list.Grown()
    {
      ScannedPlain(list.dtab, recno, multimode, opw, xs, r);
      if recno == 0 || r.kind.BootTime? { list.Mkdtab(recno); }
      SetMode(r);
      opw := opw + [Clean(r)];
      recno := recno + 1;
    }

    /** The case of a change of the run level. */
    method SetMode(r: Rec)
      modifies this`multimode
      ensures multimode == NextMode(old(multimode), r)
    {
      Levels(r.line);
      if r.kind.RunLevel? {
        if RUN_LEVEL + SINGLE <= r.line { multimode := 0; }
        if RUN_LEVEL + MULTI <= r.line { multimode := multimode + 1; }
      }
    }

    /** An old time and the new time behind it. */
    method ScanPair(o: Rec, w: Rec, ghost xs: seq<Rec>)
      requires Seen(xs) && o.kind.OldTime? && w.kind.NewTime?
      modifies this, list, list.ldp
      ensures Seen(xs + [o, w]) && Closed(old(list.dtab)) <= Closed(list.dtab) && list.Grown()
    {
      ScannedPair(list.dtab, recno, multimode, opw, xs, o, w);
      if recno == 0 { list.Mkdtab(recno); }
      if multimode != 0 { var _ := list.Setdtab(recno, o, w); }
      recno := recno + 2;
      opw := opw + [Clean(o)] + [w];
    }

    /** The body of the loop of `scanfile`: one or two records are read, or none where a new
        time is missing. */
    method ScanNext(f: seq<Rec>, i: nat, ghost xs: seq<Rec>, ghost seen: seq<Rec>)
      returns (n: nat, ghost seen': seq<Rec>)
      requires Into(f, i, xs, seen) && i < |f| && Seen(seen)
      modifies this, list, list.ldp
      ensures n == 0 ==> !Paired(f)
      ensures n != 0 ==> Into(f, i + n, xs, seen') && Seen(seen')
      ensures list.Grown()
    {
      if f[i].kind.OldTime? {
        if i + 1 == |f| || !f[i + 1].kind.NewTime? {
          assert !PairAt(f, i);
          return 0, seen;
        }
        IntoPair(f, i, xs, seen);
        ScanPair(f[i], f[i + 1], seen);
        n, seen' := 2, seen + [f[i], f[i + 1]];
      } else {
        IntoPlain(f, i, xs, seen);
        ScanPlain(f[i], seen);
        n, seen' := 1, seen + [f[i]];
      }
    }

    /** `scanfile`: reads a file after the log `xs`, or fails where a new time is missing. */
    method ScanFile(f: seq<Rec>, ghost xs: seq<Rec>) returns (ok: bool)
      requires Seen(xs)
      modifies this, list, list.ldp
      ensures ok <==> Paired(f)
      ensures ok ==> Seen(xs + f) && Closed(old(list.dtab)) <= Closed(list.dtab)
      ensures list.Grown()
    {
      ghost var seen := xs;
      var i := 0;
      while i < |f|
        invariant Into(f, i, xs, seen) && Seen(seen) && list.Grown()
        decreases |f| - i
      {
        var n;
        n, seen := ScanNext(f, i, xs, seen);
        if n == 0 { return false; }
        i := i + n;
      }
      IntoAll(f, xs, seen);
      IntervalsGrow(xs, f);
      ok := true;
    }

    /** The second loop of `main`. */
    method AdjustAll(ghost xs: seq<Rec>) returns (out: seq<Rec>)
      requires Seen(xs)
      ensures Repaired(xs, out)
    {
      out := [];
      var p := 0;
      while p < |opw|
        invariant 0 <= p <= |opw| && |out| == p
        invariant forall q: nat :: q < p ==> out[q] == opw[q].(time := opw[q].time + Effects(xs, q, |xs|))
      {
        var w := list.Adjust(p, opw[p]);
        ListedEffects(list.dtab, xs, p);
        out := out + [w];
        p := p + 1;
      }
    }
  }

  lemma Levels(line: Text)
    ensures !(RUN_LEVEL + SINGLE <= line && RUN_LEVEL + MULTI <= line)
  {
    assert (RUN_LEVEL + SINGLE)[10] == 83 && (RUN_LEVEL + MULTI)[10] == 50;
  }

  function Flat(files: seq<seq<Rec>>): seq<Rec> {
    if files == [] then [] else Flat(files[..|files| - 1]) + files[|files| - 1]
  }

  /** The first `i` files are complete, and `seen` is what they hold. */
  ghost predicate Through(files: seq<seq<Rec>>, i: nat, seen: seq<Rec>) {
    i <= |files| && seen == Flat(files[..i]) && forall k :: 0 <= k < i ==> Paired(files[k])
  }

  lemma ThroughMore(files: seq<seq<Rec>>, i: nat, seen: seq<Rec>)
    requires Through(files, i, seen) && i < |files| && Paired(files[i])
    ensures Through(files, i + 1, seen + files[i])
  {
    assert files[..i + 1][..i] == files[..i];
  }

  lemma ThroughAll(files: seq<seq<Rec>>, seen: seq<Rec>)
    requires Through(files, |files|, seen)
    ensures seen == Flat(files) && forall k :: 0 <= k < |files| ==> Paired(files[k])
  {
    assert files[..|files|] == files;
  }

  /** `main`: the files are one log; it is repaired, if in every file every old time is
      followed by a new one. */
  method Fix(files: seq<seq<Rec>>) returns (ok: bool, out: seq<Rec>)
    ensures ok <==> forall i :: 0 <= i < |files| ==> Paired(files[i])
    ensures ok ==> Repaired(Flat(files), out)
  {
    var fixer := new Fixer();
    out := [];
    ghost var seen := [];
    var i := 0;
    while i < |files|
      invariant Through(files, i, seen) && fixer.Seen(seen) && (fixer.list.ldp != null ==> fresh(fixer.list.ldp))
      decreases |files| - i
    {
      ok := fixer.ScanFile(files[i], seen);
      if !ok { return; }
      ThroughMore(files, i, seen);
      seen, i := seen + files[i], i + 1;
    }
    ThroughAll(files, seen);
    out := fixer.AdjustAll(seen);
    ok := true;
  }
}
