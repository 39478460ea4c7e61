/** `ent_merge` of usr/src/cmd/addbadse/ix_altsc.c. */
module AltMerge {
  import opened AltEntries

  /** The live entries, in their order. */
  function LiveOf(es: seq<Ent>): (r: seq<Ent>)
    ensures |r| <= |es|
  {
    if es == [] then []
    else if Live(es[0]) then [es[0]] + LiveOf(es[1..])
    else LiveOf(es[1..])
  }

  function Merge(a: seq<Ent>, b: seq<Ent>): (r: seq<Ent>)
    ensures |r| == |a| + |b|
    decreases |a| + |b|
  {
    if a == [] then b
    else if b == [] then a
    else if a[0].bad < b[0].bad then [a[0]] + Merge(a[1..], b)
    else [b[0]] + Merge(a, b[1..])
  }

  lemma {:induction false} LiveOfKeeps(es: seq<Ent>)
    ensures Bag(LiveOf(es)) == Bag(es)
    ensures forall e :: e in LiveOf(es) <==> e in es && Live(e)
  {
    if es != [] {
      LiveOfKeeps(es[1..]);
      assert es == [es[0]] + es[1..];
      if Live(es[0]) { assert LiveOf(es)[1..] == LiveOf(es[1..]); }
    }
  }

  /** A live entry comes before the live ones behind it. */
  lemma {:induction false} LiveBefore(es: seq<Ent>, e: Ent)
    requires es != [] && LiveSorted(es) && EndsOrdered(es) && Live(es[0]) && e in LiveOf(es[1..])
    ensures Before(es[0], e)
  {
    LiveOfKeeps(es[1..]);
    var k :| 0 <= k < |es[1..]| && es[1..][k] == e;
    assert StartsAfter(es, 0, es[0].bad) && EndsAfter(es, 0, es[0].end) && es[k + 1] == e;
  }

  /** A list whose live entries are in order, by start and by end, is in order without the
      empty slots. */
  lemma {:induction false} LiveOfOrdered(es: seq<Ent>)
    requires LiveSorted(es) && EndsOrdered(es) && Proper(es)
    ensures Ordered(LiveOf(es))
  {
    if es != [] {
      TailOrdered(es);
      LiveOfOrdered(es[1..]);
      if Live(es[0]) {
        var rest := LiveOf(es[1..]);
        forall j | 0 <= j < |rest| ensures Before(es[0], rest[j]) { LiveBefore(es, rest[j]); }
        OrderedCons(es[0], rest);
      }
    }
  }

  lemma {:induction false} MergeKeeps(a: seq<Ent>, b: seq<Ent>)
    ensures Bag(Merge(a, b)) == Bag(a) + Bag(b)
    decreases |a| + |b|
  {
    if a != [] && b != [] {
      if a[0].bad < b[0].bad {
        MergeKeeps(a[1..], b);
        assert Merge(a, b)[1..] == Merge(a[1..], b);
      } else {
        MergeKeeps(a, b[1..]);
        assert Merge(a, b)[1..] == Merge(a, b[1..]);
      }
    }
  }

  lemma FirstAndRest(es: seq<Ent>)
    requires es != []
    ensures multiset(es) == multiset{es[0]} + multiset(es[1..])
  {
    assert es == [es[0]] + es[1..];
  }

  lemma {:induction false} MergePermutes(a: seq<Ent>, b: seq<Ent>)
    ensures multiset(Merge(a, b)) == multiset(a) + multiset(b)
    decreases |a| + |b|
  {
    if a != [] && b != [] {
      if a[0].bad < b[0].bad {
        MergePermutes(a[1..], b);
        FirstAndRest(a);
        FirstAndRest(Merge(a, b));
      } else {
        MergePermutes(a, b[1..]);
        FirstAndRest(b);
        FirstAndRest(Merge(a, b));
      }
    }
  }

  /** The entries do not overlap. */
  predicate Apart(e: Ent, f: Ent) { e.end < f.bad || f.end < e.bad }

  predicate ApartFrom(e: Ent, b: seq<Ent>) { forall j :: 0 <= j < |b| ==> Apart(e, b[j]) }

  predicate AllApart(a: seq<Ent>, b: seq<Ent>) { forall i :: 0 <= i < |a| ==> ApartFrom(a[i], b) }

  predicate BeforeAll(e: Ent, b: seq<Ent>) { forall j :: 0 <= j < |b| ==> Before(e, b[j]) }

  /** Two tables in order that cover different sectors merge into one in order. */
  lemma {:induction false} MergeOrdered(a: seq<Ent>, b: seq<Ent>)
    requires Ordered(a) && Ordered(b) && AllApart(a, b)
    ensures Ordered(Merge(a, b))
    decreases |a| + |b|
  {
    if a != [] && b != [] {
      if a[0].bad < b[0].bad {
        forall j | 0 <= j < |b| ensures Before(a[0], b[j]) {
          assert Apart(a[0], b[j]) && (j > 0 ==> Before(b[0], b[j]));
        }
        assert AllApart(a[1..], b);
        MergeOrdered(a[1..], b);
        MergeLeast(a[0], a[1..], b);
        OrderedCons(a[0], Merge(a[1..], b));
      } else {
        forall i | 0 <= i < |a| ensures Before(b[0], a[i]) {
          assert ApartFrom(a[i], b) && Apart(a[i], b[0]) && (i > 0 ==> Before(a[0], a[i]));
        }
        assert AllApart(a, b[1..]) by {
          forall i | 0 <= i < |a| ensures ApartFrom(a[i], b[1..]) { assert ApartFrom(a[i], b); }
        }
        MergeOrdered(a, b[1..]);
        MergeLeast(b[0], a, b[1..]);
        OrderedCons(b[0], Merge(a, b[1..]));
      }
    }
  }

  lemma OrderedCons(e: Ent, m: seq<Ent>)
    requires Ordered(m) && 0 <= e.bad <= e.end && BeforeAll(e, m)
    ensures Ordered([e] + m)
  {
  }

  /** What comes before both lists comes before their merge. */
  lemma {:induction false} MergeLeast(e: Ent, a: seq<Ent>, b: seq<Ent>)
    requires BeforeAll(e, a) && BeforeAll(e, b)
    ensures BeforeAll(e, Merge(a, b))
    decreases |a| + |b|
  {
    if a != [] && b != [] {
      if a[0].bad < b[0].bad { MergeLeast(e, a[1..], b); } else { MergeLeast(e, a, b[1..]); }
    }
  }

  /** What the loop of `ent_merge` still has to write when `a` and `b` are left. */
  function MergeLive(a: seq<Ent>, b: seq<Ent>): seq<Ent>
    decreases |a| + |b|
  {
    if a == [] then LiveOf(b)
    else if b == [] then LiveOf(a)
    else if !Live(a[0]) then MergeLive(a[1..], b)
    else if !Live(b[0]) then MergeLive(a, b[1..])
    else if a[0].bad < b[0].bad then [a[0]] + MergeLive(a[1..], b)
    else [b[0]] + MergeLive(a, b[1..])
  }

  /** Skipping empty slots while merging is merging what is left without them. */
  lemma {:induction false} MergeLiveIsMerge(a: seq<Ent>, b: seq<Ent>)
    ensures MergeLive(a, b) == Merge(LiveOf(a), LiveOf(b))
    decreases |a| + |b|
  {
    if a != [] && b != [] {
      if !Live(a[0]) || (Live(b[0]) && a[0].bad < b[0].bad) {
        MergeLiveIsMerge(a[1..], b);
        if Live(a[0]) { assert LiveOf(a)[1..] == LiveOf(a[1..]); }
      } else {
        MergeLiveIsMerge(a, b[1..]);
        if Live(b[0]) { assert LiveOf(b)[1..] == LiveOf(b[1..]); }
      }
    }
  }

  /** `rest` is what follows position `j` of `list`. */
  ghost predicate Remains(rest: seq<Ent>, list: seq<Ent>, j: nat) {
    && j <= |list| && |rest| == |list| - j
    && forall k :: 0 <= k < |rest| ==> rest[k] == list[j + k]
  }

  lemma RemainsNext(rest: seq<Ent>, list: seq<Ent>, j: nat)
    requires Remains(rest, list, j) && j < |list|
    ensures rest != [] && rest[0] == list[j] && Remains(rest[1..], list, j + 1)
  {
  }

  lemma Shift(done: seq<Ent>, e: Ent, rest: seq<Ent>)
    ensures done + ([e] + rest) == (done + [e]) + rest
  {
  }

  method Put(buf: array<Ent>, i: nat, e: Ent, ghost done: seq<Ent>)
    requires i < buf.Length && buf[..i] == done
    modifies buf
    ensures buf[..i + 1] == done + [e]
  {
    buf[i] := e;
  }

  /** `ent_merge`: the live entries of both lists, merged into `buf`. */
  method EntMerge(buf: array<Ent>, list1: array<Ent>, lcnt1: nat, list2: array<Ent>, lcnt2: nat) returns (i: nat)
    requires lcnt1 <= list1.Length && lcnt2 <= list2.Length && lcnt1 + lcnt2 <= buf.Length
    requires buf != list1 && buf != list2
    modifies buf
    ensures i <= lcnt1 + lcnt2
    ensures buf[..i] == Merge(LiveOf(list1[..lcnt1]), LiveOf(list2[..lcnt2]))
  {
    ghost var one, two := list1[..lcnt1], list2[..lcnt2];
    var j1, j2;
    ghost var a, b, done;
    i, j1, j2, a, b, done := MergeBoth(buf, list1, lcnt1, list2, lcnt2, one, two);
    i := CopyLive(buf, i, list1, j1, lcnt1, one, a, done);
    i := CopyLive(buf, i, list2, j2, lcnt2, two, b, done + LiveOf(a));
    assert done + MergeLive(a, b) == done + LiveOf(a) + LiveOf(b);
    MergeLiveIsMerge(one, two);
  }

  /** The first loop of `ent_merge`, which ends when one list does. */
  method MergeBoth(buf: array<Ent>, list1: array<Ent>, lcnt1: nat, list2: array<Ent>, lcnt2: nat,
          ghost one: seq<Ent>, ghost two: seq<Ent>)
    returns (i: nat, j1: nat, j2: nat, ghost a: seq<Ent>, ghost b: seq<Ent>, ghost done: seq<Ent>)
    requires lcnt1 <= list1.Length && lcnt2 <= list2.Length && lcnt1 + lcnt2 <= buf.Length
    requires buf != list1 && buf != list2 && list1[..lcnt1] == one && list2[..lcnt2] == two
    modifies buf
    ensures Remains(a, one, j1) && Remains(b, two, j2) && (a == [] || b == [])
    ensures i <= j1 + j2 && buf[..i] == done && done + MergeLive(a, b) == MergeLive(one, two)
  {
    a, b, done := one, two, [];
    i, j1, j2 := 0, 0, 0;
    assert done + MergeLive(a, b) == MergeLive(a, b);
    while j1 < lcnt1 && j2 < lcnt2
      invariant Remains(a, one, j1) && Remains(b, two, j2)
      invariant i <= j1 + j2 && buf[..i] == done
      invariant done + MergeLive(a, b) == MergeLive(one, two)
      decreases lcnt1 - j1 + lcnt2 - j2
    {
      RemainsNext(a, one, j1);
      RemainsNext(b, two, j2);
      if list1[j1].bad == EMPTY {
        j1, a := j1 + 1, a[1..];
      } else if list2[j2].bad == EMPTY {
        j2, b := j2 + 1, b[1..];
      } else if list1[j1].bad < list2[j2].bad {
        Put(buf, i, list1[j1], done);
        Shift(done, a[0], MergeLive(a[1..], b));
        i, j1, a, done := i + 1, j1 + 1, a[1..], done + [a[0]];
      } else {
        Put(buf, i, list2[j2], done);
        Shift(done, b[0], MergeLive(a, b[1..]));
        i, j2, b, done := i + 1, j2 + 1, b[1..], done + [b[0]];
      }
    }
  }

  /** The two loops at the end of `ent_merge`. */
  method CopyLive(buf: array<Ent>, start: nat, list: array<Ent>, from: nat, cnt: nat, ghost all: seq<Ent>,
          ghost es: seq<Ent>, ghost before: seq<Ent>)
    returns (i: nat)
    requires cnt <= list.Length && list[..cnt] == all && Remains(es, all, from)
    requires start + (cnt - from) <= buf.Length && buf != list && buf[..start] == before
    modifies buf
    ensures start <= i <= start + (cnt - from) && buf[..i] == before + LiveOf(es)
  {
    ghost var rest, done := es, before;
    ghost var goal := before + LiveOf(es);
    var j := from;
    i := start;
    while j < cnt
      invariant from <= j && Remains(rest, all, j) && start <= i <= start + (j - from)
      invariant buf[..i] == done && done + LiveOf(rest) == goal
    {
      RemainsNext(rest, all, j);
      if list[j].bad != EMPTY {
        Put(buf, i, list[j], done);
        Shift(done, rest[0], LiveOf(rest[1..]));
        i, done := i + 1, done + [rest[0]];
      }
      j, rest := j + 1, rest[1..];
    }
  }
}
