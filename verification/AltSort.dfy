/** `ent_sort` of usr/src/cmd/addbadse/ix_altsc.c. */
module AltSort {
  import opened AltEntries

  /** No entry behind `k` is smaller, or even as small. */
  predicate LeastFrom(es: seq<Ent>, k: nat)
    requires k < |es|
  {
    forall l :: k < l < |es| ==> es[k].bad <= es[l].bad
  }

  predicate StrictlyLeastFrom(es: seq<Ent>, k: nat)
    requires k < |es|
  {
    forall l :: k < l < |es| ==> es[k].bad < es[l].bad
  }

  /** From index `i` on the order is strict. */
  predicate StrictFrom(es: seq<Ent>, i: nat) { forall k :: i <= k < |es| ==> StrictlyLeastFrom(es, k) }

  /** The first `i` entries are in place: in order, and none of the others is smaller. */
  predicate PlacedUpTo(es: seq<Ent>, i: nat) { forall k :: 0 <= k < i && k < |es| ==> LeastFrom(es, k) }

  lemma PlacedAreSorted(es: seq<Ent>, i: nat)
    requires PlacedUpTo(es, i) && (StrictFrom(es, i) || |es| <= i + 1)
    ensures Sorted(es)
  {
    forall k, l | 0 <= k < l < |es| ensures es[k].bad <= es[l].bad {
      if k < i { assert LeastFrom(es, k); } else { assert StrictlyLeastFrom(es, k); }
    }
  }

  /** A pass of the sort from the end down to `i` stands at `j`. */
  predicate Passing(es: seq<Ent>, i: nat, j: nat, flag: bool) {
    && i <= j < |es| && PlacedUpTo(es, i) && LeastFrom(es, j)
    && (flag ==> StrictFrom(es, j))
  }

  function Swap(es: seq<Ent>, j: nat): seq<Ent>
    requires j + 1 < |es|
  {
    es[j := es[j + 1]][j + 1 := es[j]]
  }

  lemma PassingNext(es: seq<Ent>, i: nat, j: nat, flag: bool)
    requires Passing(es, i, j, flag) && i < j
    ensures es[j - 1].bad < es[j].bad ==> Passing(es, i, j - 1, flag)
    ensures es[j - 1].bad >= es[j].bad ==> Passing(Swap(es, j - 1), i, j - 1, false)
  {
    if es[j - 1].bad >= es[j].bad {
      var t := Swap(es, j - 1);
      forall k | 0 <= k < i && k < |t| ensures LeastFrom(t, k) {
        assert t[k] == es[k] && LeastFrom(es, k);
        assert es[k].bad <= es[j - 1].bad && es[k].bad <= es[j].bad;
        assert forall l :: k < l < |t| && l != j - 1 && l != j ==> t[l] == es[l];
      }
      assert forall k :: j < k < |t| ==> t[k] == es[k];
    }
  }

  /** A history of exchanges of neighbours, and its effect on a list. */
  datatype Trail = Untouched | Then(before: Trail, j: nat)

  function Swapped(es: seq<Ent>, t: Trail): (r: seq<Ent>)
    ensures |r| == |es|
  {
    match t
    case Untouched => es
    case Then(before, j) =>
      var r := Swapped(es, before);
      if j + 1 < |es| then Swap(r, j) else r
  }

  lemma {:induction false} SwappedPermutes(es: seq<Ent>, t: Trail)
    ensures Permuted(Swapped(es, t), es)
  {
    if t.Then? {
      SwappedPermutes(es, t.before);
      if t.j + 1 < |es| { BagSwap(Swapped(es, t.before), t.j, t.j + 1); }
    }
  }

  /** One pass: the smallest of the entries from `i` on moves to `i`; the result tells
      whether they were in order already. */
  method SortPass(buf: array<Ent>, cnt: nat, i: nat, ghost orig: seq<Ent>, ghost before: Trail)
    returns (flag: bool, ghost t: Trail)
    requires i < cnt <= buf.Length && PlacedUpTo(buf[..cnt], i) && buf[..cnt] == Swapped(orig, before)
    modifies buf
    ensures PlacedUpTo(buf[..cnt], i + 1) && buf[..cnt] == Swapped(orig, t)
    ensures flag ==> StrictFrom(buf[..cnt], i)
    ensures forall k :: cnt <= k < buf.Length ==> buf[k] == old(buf[k])
  {
    ghost var view := buf[..cnt];
    var temp := buf[cnt - 1];
    flag, t := true, before;
    var j := cnt - 1;
    while j > i
      invariant i <= j < cnt && view == buf[..cnt][j := temp] && Passing(view, i, j, flag)
      invariant view == Swapped(orig, t)
      invariant forall k :: cnt <= k < buf.Length ==> buf[k] == old(buf[k])
      decreases j
    {
      PassingNext(view, i, j, flag);
      if buf[j - 1].bad < temp.bad {
        buf[j] := temp;
        temp := buf[j - 1];
        assert view == buf[..cnt][j - 1 := temp];
      } else {
        buf[j] := buf[j - 1];
        flag := false;
        view, t := Swap(view, j - 1), Then(t, j - 1);
        assert view == buf[..cnt][j - 1 := temp];
      }
      j := j - 1;
    }
    buf[i] := temp;
    assert buf[..cnt] == view;
  }

  /** `ent_sort`: a bubble sort that stops early when a pass finds the rest in order. */
  method EntSort(buf: array<Ent>, cnt: nat)
    requires cnt <= buf.Length
    modifies buf
    ensures Sorted(buf[..cnt]) && Permuted(buf[..cnt], old(buf[..cnt]))
    ensures forall k :: cnt <= k < buf.Length ==> buf[k] == old(buf[k])
  {
    ghost var orig := buf[..cnt];
    ghost var t := Untouched;
    var i := 0;
    var flag := false;
    while i < cnt - 1 && !flag
      invariant 0 <= i && (cnt > 0 ==> i <= cnt - 1)
      invariant PlacedUpTo(buf[..cnt], i) && buf[..cnt] == Swapped(orig, t)
      invariant flag ==> StrictFrom(buf[..cnt], i)
      invariant forall k :: cnt <= k < buf.Length ==> buf[k] == old(buf[k])
      decreases cnt - i, !flag
    {
      flag, t := SortPass(buf, cnt, i, orig, t);
      if !flag { i := i + 1; }
    }
    PlacedAreSorted(buf[..cnt], i);
    SwappedPermutes(orig, t);
  }
}
