/** `ent_compress` of usr/src/cmd/addbadse/ix_altsc.c. */
module AltCompress {
  import opened AltEntries

  /** Entry `m`, a single sector right behind entry `k`, becomes part of entry `k`. */
  function Absorb(es: seq<Ent>, k: nat, m: nat): seq<Ent>
    requires k < m < |es|
  {
    es[k := es[k].(end := es[k].end + 1)][m := es[m].(bad := EMPTY)]
  }

  lemma Rebalance(a: multiset<int>, b: multiset<int>, c: multiset<int>, k: multiset<int>, e: multiset<int>,
          m: multiset<int>)
    requires b + k == a + e && c + m == b && e == k + m
    ensures c == a
  {
    forall x ensures c[x] == a[x] {
      assert (b + k)[x] == (a + e)[x] && (c + m)[x] == b[x] && e[x] == (k + m)[x];
    }
  }

  /** An interval grown by the single sector behind it covers both. */
  lemma GrownSectors(a: Ent, b: Ent, e: Ent, f: Ent)
    requires Live(a) && 0 <= a.bad <= a.end && b.bad == b.end == a.end + 1
    requires e == a.(end := a.end + 1) && f == b.(bad := EMPTY)
    ensures multiset(Sectors(e)) == multiset(Sectors(a)) + multiset(Sectors(b)) && multiset(Sectors(f)) == multiset{}
  {
    var x := b.bad;
    assert Sectors(e) == Sectors(a) + {x} && Sectors(b) == {x} && x !in Sectors(a);
  }

  lemma {:induction false} AbsorbBag(es: seq<Ent>, k: nat, m: nat)
    requires k < m < |es| && Live(es[k]) && Live(es[m]) && 0 <= es[k].bad <= es[k].end
    requires es[m].bad == es[m].end == es[k].end + 1
    ensures Bag(Absorb(es, k, m)) == Bag(es)
  {
    var e, f := es[k].(end := es[k].end + 1), es[m].(bad := EMPTY);
    var s := es[k := e];
    BagUpdate(es, k, e);
    BagUpdate(s, m, f);
    assert s[m] == es[m] && Absorb(es, k, m) == s[m := f];
    GrownSectors(es[k], es[m], e, f);
    Rebalance(Bag(es), Bag(s), Bag(s[m := f]), multiset(Sectors(es[k])), multiset(Sectors(e)),
        multiset(Sectors(es[m])));
  }

  predicate SinglesFrom(es: seq<Ent>, i: nat) {
    forall k :: i <= k < |es| && Live(es[k]) ==> es[k].bad == es[k].end
  }

  /** The outer loop stands at `i`: from there on only single sectors; what is before is
      final.  `strict` tells that no sector was repeated. */
  predicate Compressing(es: seq<Ent>, i: nat, strict: bool) {
    && i <= |es| && LiveSorted(es) && EndsOrdered(es) && Proper(es) && SinglesFrom(es, i)
    && (strict ==> LiveStrict(es) && SeparatedUpTo(es, i))
  }

  /** The inner loop stands at `m`: what lies between is empty. */
  predicate Absorbing(es: seq<Ent>, i: nat, m: nat, strict: bool) {
    && i < m <= |es| && LiveSorted(es) && EndsOrdered(es) && Proper(es) && Live(es[i]) && SinglesFrom(es, m)
    && (forall k :: i < k < m ==> !Live(es[k]))
    && (strict ==> LiveStrict(es) && SeparatedUpTo(es, i))
  }

  lemma AbsorbingNext(es: seq<Ent>, i: nat, m: nat, strict: bool)
    requires Absorbing(es, i, m, strict) && m < |es| && Live(es[m]) && es[i].end + 1 == es[m].bad
    ensures Absorbing(Absorb(es, i, m), i, m + 1, strict)
  {
    var t := Absorb(es, i, m);
    assert forall k :: 0 <= k < |es| && k != i && k != m ==> t[k] == es[k];
    forall k | 0 <= k < |es| && Live(t[k])
      ensures StartsAfter(t, k, t[k].bad) && EndsAfter(t, k, t[k].end)
      ensures strict ==> StartsAfter(t, k, t[k].end + 1)
      ensures strict && k < i ==> StartsAfter(t, k, t[k].end + 2)
    {
      assert StartsAfter(es, k, es[k].bad) && EndsAfter(es, k, es[k].end);
      assert StartsAfter(es, m, es[m].bad);
      if strict {
        assert StartsAfter(es, k, es[k].end + 1);
        assert StartsAfter(es, m, es[m].end + 1);
        assert k < i ==> StartsAfter(es, k, es[k].end + 2);
      }
    }
  }

  lemma AbsorbingStops(es: seq<Ent>, i: nat, m: nat, strict: bool)
    requires Absorbing(es, i, m, strict) && (m < |es| ==> Live(es[m]) && es[i].end + 1 != es[m].bad)
    ensures Compressing(es, i + 1, strict)
    ensures m == |es| && strict ==> Separated(es)
  {
    if strict {
      assert StartsAfter(es, i, es[i].end + 1);
      if m < |es| { assert StartsAfter(es, m, es[m].bad); }
      assert StartsAfter(es, i, es[i].end + 2);
    }
  }

  predicate SameGoods(es: seq<Ent>, orig: seq<Ent>) {
    |es| == |orig| && forall k :: 0 <= k < |es| ==> es[k].good == orig[k].good
  }

  /** The same sectors and replacements as before. */
  predicate Kept(es: seq<Ent>, orig: seq<Ent>) { Bag(es) == Bag(orig) && SameGoods(es, orig) }

  lemma AbsorbKeeps(es: seq<Ent>, orig: seq<Ent>, i: nat, m: nat, strict: bool)
    requires Absorbing(es, i, m, strict) && m < |es| && Live(es[m]) && es[i].end + 1 == es[m].bad && Kept(es, orig)
    ensures Kept(Absorb(es, i, m), orig)
  {
    AbsorbBag(es, i, m);
  }

  lemma AbsorbingStart(es: seq<Ent>, i: nat, strict: bool)
    requires Compressing(es, i, strict) && i < |es| && Live(es[i])
    ensures Absorbing(es, i, i + 1, strict)
  {
  }

  lemma AbsorbingSkip(es: seq<Ent>, i: nat, m: nat, strict: bool)
    requires Absorbing(es, i, m, strict) && m < |es| && !Live(es[m])
    ensures Absorbing(es, i, m + 1, strict)
  {
  }

  method AbsorbEntry(buf: array<Ent>, cnt: nat, i: nat, movp: nat, ghost es: seq<Ent>)
    requires i < movp < cnt <= buf.Length && buf[..cnt] == es
    modifies buf
    ensures buf[..cnt] == Absorb(es, i, movp) && buf[cnt..] == old(buf[cnt..])
  {
    buf[i] := buf[i].(end := buf[i].end + 1);
    buf[movp] := buf[movp].(bad := EMPTY);
  }

  /** The inner loop: entry `i` takes in the single sectors that continue it. */
  method AbsorbRun(buf: array<Ent>, cnt: nat, i: nat, ghost strict: bool) returns (movp: nat)
    requires i < cnt <= buf.Length && Compressing(buf[..cnt], i, strict) && Live(buf[i])
    modifies buf
    ensures i < movp <= cnt && Compressing(buf[..cnt], i + 1, strict)
    ensures movp == cnt && strict ==> Separated(buf[..cnt])
    ensures Kept(buf[..cnt], old(buf[..cnt]))
    ensures buf[cnt..] == old(buf[cnt..])
  {
    ghost var orig := buf[..cnt];
    ghost var es := orig;
    AbsorbingStart(es, i, strict);
    movp := i + 1;
    while movp < cnt
      invariant i < movp <= cnt && es == buf[..cnt] && Absorbing(es, i, movp, strict)
      invariant Kept(es, orig)
      invariant buf[cnt..] == old(buf[cnt..])
    {
      if buf[movp].bad != EMPTY {
        if buf[i].end + 1 != buf[movp].bad { break; }
        AbsorbingNext(es, i, movp, strict);
        AbsorbKeeps(es, orig, i, movp, strict);
        AbsorbEntry(buf, cnt, i, movp, es);
        es := Absorb(es, i, movp);
      } else {
        AbsorbingSkip(es, i, movp, strict);
      }
      movp := movp + 1;
    }
    AbsorbingStops(es, i, movp, strict);
  }

  lemma SinglesOrdered(es: seq<Ent>)
    requires Singles(es) && LiveSorted(es)
    ensures EndsOrdered(es)
  {
    forall i | 0 <= i < |es| && Live(es[i]) ensures EndsAfter(es, i, es[i].end) {
      assert StartsAfter(es, i, es[i].bad);
    }
  }

  /** `ent_compress`: sorted single sectors become intervals covering the same sectors; if
      none was repeated, exactly the maximal runs. */
  method EntCompress(buf: array<Ent>, cnt: nat)
    requires cnt <= buf.Length && LiveSorted(buf[..cnt]) && Singles(buf[..cnt]) && Proper(buf[..cnt])
    modifies buf
    ensures LiveSorted(buf[..cnt]) && EndsOrdered(buf[..cnt]) && Proper(buf[..cnt]) && Kept(buf[..cnt], old(buf[..cnt]))
    ensures LiveStrict(old(buf[..cnt])) ==> Separated(buf[..cnt])
    ensures buf[cnt..] == old(buf[cnt..])
  {
    ghost var orig := buf[..cnt];
    ghost var strict := LiveStrict(orig);
    SinglesOrdered(orig);
    var i := 0;
    while i < cnt
      invariant 0 <= i <= cnt && Compressing(buf[..cnt], i, strict)
      invariant Kept(buf[..cnt], orig)
      invariant buf[cnt..] == old(buf[cnt..])
    {
      if buf[i].bad != EMPTY {
        var movp := AbsorbRun(buf, cnt, i, strict);
        if movp == cnt { return; }
      }
      i := i + 1;
    }
  }
}
