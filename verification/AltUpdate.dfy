/** `updatebadsec` and the operations it is made of, on the in-core tables of
    usr/src/cmd/addbadse/ix_altsc.c. */
module AltUpdate {
  import opened Bytes
  import opened AltEntries
  import opened AltSort
  import opened AltCompress
  import opened AltMerge
  import opened AltMap
  import opened AltAssign
  import opened AltCheck
  import opened AltTable
  import opened AltRuns
  import opened Wrappers

  // ----- the reported sectors -----

  /** A sector of the drive behind its first track. */
  predicate OnDrive(x: int, nsect: nat, maxsec: int) { nsect <= x < maxsec }

  function Accept(xs: seq<int>, nsect: nat, maxsec: int): (es: seq<Ent>)
    ensures |es| <= |xs| && Reported(es)
  {
    if xs == [] then []
    else if OnDrive(xs[0], nsect, maxsec) then [Ent(xs[0], xs[0], 0)] + Accept(xs[1..], nsect, maxsec)
    else Accept(xs[1..], nsect, maxsec)
  }

  /** The list comes in blocks. */
  function AcceptAll(chain: seq<seq<int>>, nsect: nat, maxsec: int): (es: seq<Ent>)
    ensures |es| <= Count(chain) && Reported(es)
  {
    if chain == [] then [] else Accept(chain[0], nsect, maxsec) + AcceptAll(chain[1..], nsect, maxsec)
  }

  function Count(chain: seq<seq<int>>): nat {
    if chain == [] then 0 else |chain[0]| + Count(chain[1..])
  }

  /** Exactly the sectors of the list that are on the drive, as often as they are listed. */
  lemma {:induction false} AcceptIsFilter(xs: seq<int>, nsect: nat, maxsec: int, x: int)
    ensures Bag(Accept(xs, nsect, maxsec))[x] == if OnDrive(x, nsect, maxsec) then multiset(xs)[x] else 0
  {
    if xs != [] {
      AcceptIsFilter(xs[1..], nsect, maxsec, x);
      FirstOf(xs, x);
      if OnDrive(xs[0], nsect, maxsec) { OneMore(xs[0], Accept(xs[1..], nsect, maxsec), x); }
    }
  }

  function Listed(chain: seq<seq<int>>): seq<int> { if chain == [] then [] else chain[0] + Listed(chain[1..]) }

  lemma {:induction false} AcceptAppend(a: seq<int>, b: seq<int>, nsect: nat, maxsec: int)
    ensures Accept(a + b, nsect, maxsec) == Accept(a, nsect, maxsec) + Accept(b, nsect, maxsec)
  {
    if a == [] {
      assert a + b == b;
    } else {
      assert (a + b)[1..] == a[1..] + b;
      AcceptAppend(a[1..], b, nsect, maxsec);
    }
  }

  lemma {:induction false} AcceptAllIsAccept(chain: seq<seq<int>>, nsect: nat, maxsec: int)
    ensures AcceptAll(chain, nsect, maxsec) == Accept(Listed(chain), nsect, maxsec)
  {
    if chain != [] {
      AcceptAllIsAccept(chain[1..], nsect, maxsec);
      AcceptAppend(chain[0], Listed(chain[1..]), nsect, maxsec);
    }
  }

  /** Of a list in blocks exactly the sectors on the drive are reported, as often as listed. */
  lemma ReportedIsFilter(chain: seq<seq<int>>, nsect: nat, maxsec: int, x: int)
    ensures Bag(AcceptAll(chain, nsect, maxsec))[x] == if OnDrive(x, nsect, maxsec) then multiset(Listed(chain))[x]
            else 0
  {
    AcceptAllIsAccept(chain, nsect, maxsec);
    AcceptIsFilter(Listed(chain), nsect, maxsec, x);
  }

  lemma FirstOf(xs: seq<int>, x: int)
    requires xs != []
    ensures multiset(xs)[x] == (if x == xs[0] then 1 else 0) + multiset(xs[1..])[x]
  {
    assert xs == [xs[0]] + xs[1..];
  }

  lemma OneMore(y: int, es: seq<Ent>, x: int)
    requires y >= 0
    ensures Bag([Ent(y, y, 0)] + es)[x] == (if x == y then 1 else 0) + Bag(es)[x]
  {
    BagFirst(Ent(y, y, 0), es);
    assert Sectors(Ent(y, y, 0)) == {y};
  }

  method TakeBlock(block: seq<int>, growbadp: array<Ent>, from: nat, nsect: nat, maxsec: int, ghost before: seq<Ent>)
    returns (cnt: nat)
    requires from + |block| <= growbadp.Length && growbadp[..from] == before
    modifies growbadp
    ensures from <= cnt <= from + |block| && growbadp[..cnt] == before + Accept(block, nsect, maxsec)
  {
    ghost var done, rest := before, block;
    ghost var goal := before + Accept(block, nsect, maxsec);
    cnt := from;
    var i := 0;
    while i < |block|
      invariant 0 <= i <= |block| && from <= cnt <= from + i && growbadp[..cnt] == done
      invariant |rest| == |block| - i && (forall k :: 0 <= k < |rest| ==> rest[k] == block[i + k])
      invariant done + Accept(rest, nsect, maxsec) == goal
    {
      var curbad := block[i];
      if curbad >= nsect && curbad < maxsec {
        growbadp[cnt] := Ent(curbad, curbad, 0);
        Shift(done, Ent(curbad, curbad, 0), Accept(rest[1..], nsect, maxsec));
        done := done + [Ent(curbad, curbad, 0)];
        cnt := cnt + 1;
      }
      rest := rest[1..];
      i := i + 1;
    }
  }

  lemma Append(a: seq<Ent>, b: seq<Ent>, c: seq<Ent>)
    ensures a + (b + c) == (a + b) + c
  {
  }

  /** The blocks from the `i`th on. */
  predicate From(rest: seq<seq<int>>, chain: seq<seq<int>>, i: nat) {
    i <= |chain| && |rest| == |chain| - i && forall k :: 0 <= k < |rest| ==> rest[k] == chain[i + k]
  }

  lemma FromNext(rest: seq<seq<int>>, chain: seq<seq<int>>, i: nat)
    requires From(rest, chain, i) && i < |chain|
    ensures rest != [] && rest[0] == chain[i] && From(rest[1..], chain, i + 1)
  {
  }

  /** The loop of `get_badsec` over the blocks. */
  method TakeAll(chain: seq<seq<int>>, nsect: nat, maxsec: int) returns (buf: array<Ent>, cnt: nat)
    ensures fresh(buf) && cnt <= buf.Length && buf[..cnt] == AcceptAll(chain, nsect, maxsec)
  {
    buf := new Ent[Count(chain)];
    ghost var done: seq<Ent>, rest := [], chain;
    ghost var goal := AcceptAll(chain, nsect, maxsec);
    assert done + goal == goal;
    cnt := 0;
    var i := 0;
    while i < |chain|
      invariant 0 <= i <= |chain| && cnt + Count(rest) <= buf.Length && buf[..cnt] == done
      invariant From(rest, chain, i) && done + AcceptAll(rest, nsect, maxsec) == goal
    {
      FromNext(rest, chain, i);
      cnt := TakeBlock(chain[i], buf, cnt, nsect, maxsec, done);
      Append(done, Accept(rest[0], nsect, maxsec), AcceptAll(rest[1..], nsect, maxsec));
      done, rest := done + Accept(rest[0], nsect, maxsec), rest[1..];
      i := i + 1;
    }
  }

  // ----- the disk -----

  /** What is stored in the partition. */
  datatype Image = Image(mapBytes: seq<byte>, ents: seq<Ent>, mapBase: int, entBase: int)

  function Unpack(bytes: seq<byte>, n: nat): (m: seq<bool>)
    requires n <= 8 * |bytes|
    ensures |m| == n && forall i: nat :: i < n ==> m[i] == GetBit(bytes, i)
  {
    if n == 0 then [] else Unpack(bytes, n - 1) + [GetBit(bytes, n - 1)]
  }

  predicate Readable(p: Part, im: Image) { |im.mapBytes| == 512 * p.MapSec() }

  lemma MapFits(p: Part)
    ensures p.size <= 8 * (512 * p.MapSec()) && BytesFor(p.size) <= 512 * p.MapSec()
  {
  }

  function Load(p: Part, im: Image): (t: Tab)
    requires Readable(p, im)
    ensures |t.m| == p.size
  {
    MapFits(p);
    Tab(Unpack(im.mapBytes, p.size), im.ents, im.mapBase, im.entBase)
  }

  ghost predicate DiskOk(p: Part, disk: Option<Image>) {
    disk.Some? ==> Readable(p, disk.value) && Shaped(p, Load(p, disk.value)) && Ordered(disk.value.ents)
  }

  function LoadDisk(p: Part, disk: Option<Image>): Option<Tab>
    requires disk.Some? ==> Readable(p, disk.value)
  {
    if disk.None? then None else Some(Load(p, disk.value))
  }

  // ----- failing runs -----

  /** `read_altsctr` ends the program with status `code`. */
  ghost predicate ReadStops(p: Part, disk: Option<Tab>, bads: seq<Ent>, code: int) {
    match disk
    case None =>
      var r := Examine(true, NewLayout(p), Blank(p.size), [], [], bads);
      if r.Exit? then code == r.code
      else |r.value.m| == p.size && code == 57 && LowestRun(r.value.m, 1, p.size, p.MapSec()) == 0
    case Some(d) => |d.m| == p.size && Examine(false, LayoutOf(p, d), d.m, d.ents, [], bads) == Exit(code)
  }

  /** The run ends with status `code`. */
  ghost predicate Stops(p: Part, disk: Option<Tab>, r: Run, code: int) {
    || ReadStops(p, Found(disk, r.init), r.bads, code)
    || (Reads(p, Found(disk, r.init), r.bads, r.read, r.left) && Compressed(r.left, r.g)
        && Shaped(p, r.read) && r.bads != [] && Generate(p, r.read, r.g) == Exit(code))
  }

  /** The list after sorting: single sectors in order. */
  lemma SortedSingles(bads: seq<Ent>, left: seq<Ent>, es: seq<Ent>)
    requires Reported(bads) && Thinned(bads, left) && Sorted(es) && Permuted(es, left)
    ensures LiveSorted(es) && Singles(es) && Proper(es) && Bag(es) == Bag(left)
    ensures forall i :: 0 <= i < |es| ==> es[i].good == 0
  {
    forall i | 0 <= i < |es| ensures es[i].good == 0 && (Live(es[i]) ==> 0 <= es[i].bad == es[i].end) {
      assert es[i] in multiset(es);
      assert es[i] in left;
      var k :| 0 <= k < |left| && left[k] == es[i];
      assert left[k] == bads[k] || left[k] == Drop(bads[k]);
    }
    forall i | 0 <= i < |es| && Live(es[i]) ensures StartsAfter(es, i, es[i].bad) { }
  }

  /** The two steps between reading and generating. */
  method SortBads(gbadp: array<Ent>, gbadcnt: nat, ghost bads: seq<Ent>, ghost left: seq<Ent>)
    requires gbadcnt <= gbadp.Length && gbadp[..gbadcnt] == left && Reported(bads) && Thinned(bads, left)
    modifies gbadp
    ensures Compressed(left, gbadp[..gbadcnt])
  {
    EntSort(gbadp, gbadcnt);
    ghost var es := gbadp[..gbadcnt];
    SortedSingles(bads, left, es);
    EntCompress(gbadp, gbadcnt);
    KeptGoods(gbadp[..gbadcnt], es);
  }

  lemma KeptGoods(es: seq<Ent>, orig: seq<Ent>)
    requires Kept(es, orig) && forall i :: 0 <= i < |orig| ==> orig[i].good == 0
    ensures forall i :: 0 <= i < |es| ==> es[i].good == 0
  {
  }

  lemma ThinnedBads(p: Part, disk: Option<Tab>, bads: seq<Ent>, t: Tab, left: seq<Ent>)
    requires Reported(bads) && Reads(p, disk, bads, t, left)
    ensures Thinned(bads, left) && |left| == |bads|
  {
    if disk.None? {
      var out := ExamineSound(true, NewLayout(p), Blank(p.size), [], [], bads, Assigned(t.m, left));
      assert [] + out == out;
    } else {
      var out := ExamineSound(false, LayoutOf(p, disk.value), disk.value.m, disk.value.ents, [], bads,
          Assigned(t.m, left));
      assert [] + out == out;
    }
  }

  /** `struct alts_mempart`: the tables in core. */
  class AltPart {
    const part: Part
    const memmap: array<bool>
    const mapp: array<byte>
    var entp: array<Ent>
    var entUsed: nat
    var entSec: nat
    var gbadp: array<Ent>
    var gbadcnt: nat
    var mapBase: int
    var entBase: int
    var entEnd: int

    ghost predicate Ready()
      reads this
    {
      && memmap.Length == part.size > 0 && mapp.Length == 512 * part.MapSec()
      && entUsed <= entp.Length && gbadcnt <= gbadp.Length && entp != gbadp
    }

    ghost function View(): Tab
      requires Ready()
      reads this, memmap, entp
    {
      Tab(memmap[..], entp[..entUsed], mapBase, entBase)
    }

    ghost function Bads(): seq<Ent>
      requires Ready()
      reads this, gbadp
    {
      gbadp[..gbadcnt]
    }

    constructor (part: Part)
      requires part.size > 0
      ensures Ready() && this.part == part && memmap[..] == Blank(part.size) && fresh(memmap) && fresh(mapp)
              && fresh(entp) && fresh(gbadp)
    {
      this.part := part;
      memmap := new bool[part.size](_ => false);
      mapp := new byte[512 * part.MapSec()](_ => 0);
      entp, entUsed, entSec := new Ent[0], 0, 0;
      gbadp, gbadcnt := new Ent[0], 0;
      mapBase, entBase, entEnd := 0, 0, 0;
      new;
      assert memmap[..] == Blank(part.size);
    }

    /** `get_badsec` */
    method GetBadsec(chain: seq<seq<int>>, nsect: nat, maxsec: int)
      requires Ready()
      modifies this`gbadp, this`gbadcnt
      ensures Ready() && fresh(gbadp) && Bads() == AcceptAll(chain, nsect, maxsec)
    {
      gbadp, gbadcnt := TakeAll(chain, nsect, maxsec);
    }

    /** `init_altsctr` */
    method InitAltsctr() returns (code: int)
      requires Ready() && memmap[..] == Blank(part.size)
      modifies this, memmap, gbadp
      ensures Ready() && gbadp == old(gbadp) && gbadcnt == old(gbadcnt)
      ensures code == 0 ==> Reads(part, None, old(Bads()), View(), Bads())
      ensures code != 0 ==> ReadStops(part, None, old(Bads()), code)
    {
      entp, entUsed, entSec := new Ent[0], 0, 0;
      entBase, entEnd := 0, 0;
      code := InitMarks(NewLayout(part), memmap, gbadp, gbadcnt);
      if code != 0 { return; }
      mapBase := MapAlloc(memmap, 1, part.size, part.MapSec(), MAP_UP);
      if mapBase == 0 { code := 57; }
    }

    /** `get_altsctr`, with what the disk holds as its argument. */
    method GetAltsctr(im: Image)
      requires Ready() && Readable(part, im)
      modifies this, memmap, mapp
      ensures Ready() && gbadp == old(gbadp) && gbadcnt == old(gbadcnt) && fresh(entp)
      ensures View() == Load(part, im) && entSec == SectorsFor(12 * |im.ents|)
    {
      forall i | 0 <= i < mapp.Length { mapp[i] := im.mapBytes[i]; }
      MapFits(part);
      ExpandMap(mapp, memmap);
      entp := new Ent[|im.ents|](i requires 0 <= i < |im.ents| => im.ents[i]);
      entUsed := |im.ents|;
      mapBase, entBase := im.mapBase, im.entBase;
      entSec := if entUsed == 0 then 0 else SectorsFor(entUsed * 12);
      assert mapp[..] == im.mapBytes && memmap[..] == Unpack(im.mapBytes, part.size) && entp[..] == im.ents;
    }

    /** `read_altsctr` */
    method ReadAltsctr(init: bool, disk: Option<Image>) returns (code: int)
      requires Ready() && memmap[..] == Blank(part.size) && DiskOk(part, disk)
      modifies this, memmap, mapp, gbadp
      ensures Ready() && gbadp == old(gbadp) && gbadcnt == old(gbadcnt)
      ensures code == 0 ==> Reads(part, Found(LoadDisk(part, disk), init), old(Bads()), View(), Bads())
      ensures code != 0 ==> ReadStops(part, Found(LoadDisk(part, disk), init), old(Bads()), code)
    {
      if init {
        code := InitAltsctr();
      } else if disk.Some? {
        GetAltsctr(disk.value);
        code := ChkBadsec(Layout(part.start, part.size, mapBase, part.MapSec(), entBase, entSec), memmap, entp,
            entUsed, gbadp, gbadcnt);
      } else {
        code := InitAltsctr();
      }
    }

    /** The first half of `gen_alts_ent`. */
    method MergeBads()
      requires Ready()
      modifies this
      ensures Ready() && mapBase == old(mapBase) && entBase == old(entBase) && gbadcnt == 0 && fresh(entp)
      ensures entp[..entUsed] == Merge(LiveOf(old(View()).ents), LiveOf(old(Bads())))
              && entSec == SectorsFor(12 * entUsed)
    {
      var buf := new Ent[entUsed + gbadcnt];
      var used := EntMerge(buf, entp, entUsed, gbadp, gbadcnt);
      entp, entUsed, entSec := buf, used, SectorsFor(used * 12);
      gbadp, gbadcnt := new Ent[0], 0;
    }

    /** The second half. */
    method ServeEnts() returns (code: int)
      requires Ready() && Shaped(part, View()) && entSec == SectorsFor(12 * entUsed)
      modifies this`entBase, this`entEnd, memmap, entp
      ensures Ready()
      ensures var r := ServeAll(part, old(View()));
              code == (if r.Exit? then r.code else 0) && (r.Ok? ==> View() == r.value)
    {
      code := AssignAltsctr(memmap, entp, entUsed, mapBase + part.MapSec() - 1, part.start);
      if code != 0 { return; }
      entBase := MapAlloc(memmap, mapBase + part.MapSec(), part.size, entSec, MAP_UP);
      if entBase == 0 { return 65; }
      entEnd := entBase + entSec - 1;
    }

    /** `gen_alts_ent` */
    method GenAltsEnt() returns (code: int)
      requires Ready() && Shaped(part, View())
      modifies this, memmap
      ensures Ready()
      ensures old(gbadcnt) == 0 ==> code == 0 && View() == old(View())
      ensures old(gbadcnt) != 0 ==>
                var r := Generate(part, old(View()), old(Bads()));
                code == (if r.Exit? then r.code else 0) && (r.Ok? ==> View() == r.value)
    {
      if gbadcnt == 0 { return 0; }
      ghost var t := View().(ents := Merge(LiveOf(View().ents), LiveOf(Bads())));
      MergeBads();
      assert View() == t;
      code := ServeEnts();
    }

    /** `updatebadsec`, starting from the tables on the disk. */
    method UpdateBadsec(chain: seq<seq<int>>, nsect: nat, maxsec: int, init: bool, disk: Option<Image>)
      returns (code: int, ghost r: Run)
      requires Ready() && memmap[..] == Blank(part.size) && DiskOk(part, disk)
      modifies this, memmap, mapp
      ensures Ready() && r.init == init && r.bads == AcceptAll(chain, nsect, maxsec)
      ensures code == 0 ==> Succeeds(part, LoadDisk(part, disk), r) && View() == r.after && Packed(memmap[..], mapp[..])
      ensures code != 0 ==> Stops(part, LoadDisk(part, disk), r, code)
    {
      GetBadsec(chain, nsect, maxsec);
      r := Run(init, Bads(), [], [], View(), View());
      code := ReadAltsctr(init, disk);
      if code != 0 { return; }
      r := r.(read := View(), left := Bads());
      ThinnedBads(part, Found(LoadDisk(part, disk), init), r.bads, r.read, r.left);
      SortBads(gbadp, gbadcnt, r.bads, r.left);
      r := r.(g := Bads());
      code := GenAltsEnt();
      if code != 0 { return; }
      r := r.(after := View());
      MapFits(part);
      CompressMap(memmap, mapp);
    }

    /** `wr_altsctr`: what is stored is what is in core. */
    method WrAltsctr() returns (im: Image)
      requires Ready() && Packed(memmap[..], mapp[..])
      ensures Readable(part, im) && Load(part, im) == View()
    {
      im := Image(mapp[..], entp[..entUsed], mapBase, entBase);
      MapFits(part);
      assert Unpack(im.mapBytes, part.size) == memmap[..];
    }
  }
}
