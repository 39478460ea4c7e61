/** Entry tables of usr/src/cmd/addbadse/ix_altsc.c: lists of bad-sector intervals, the
    sectors they cover and the orders they are kept in. */
module AltEntries {

  /** `struct alts_ent`: bad sectors `bad` to `end`, replaced by a run starting at `good`,
      or by none yet if that is 0. */
  datatype Ent = Ent(bad: int, end: int, good: int)

  const EMPTY := -1

  predicate Live(e: Ent) { e.bad != EMPTY }

  function Range(lo: int, hi: int): (r: set<int>)
    ensures forall x :: x in r <==> lo <= x <= hi
    decreases hi - lo
  {
    if lo > hi then {} else {lo} + Range(lo + 1, hi)
  }

  /** The sectors of an entry, and of a list with their multiplicity. */
  function Sectors(e: Ent): set<int> { if Live(e) then Range(e.bad, e.end) else {} }

  function Bag(es: seq<Ent>): multiset<int> {
    if es == [] then multiset{} else multiset(Sectors(es[0])) + Bag(es[1..])
  }

  lemma {:induction false} BagAppend(a: seq<Ent>, b: seq<Ent>)
    ensures Bag(a + b) == Bag(a) + Bag(b)
  {
    if a == [] {
      assert a + b == b;
    } else {
      assert (a + b)[1..] == a[1..] + b;
      BagAppend(a[1..], b);
    }
  }

  lemma {:induction false} BagFirst(e: Ent, es: seq<Ent>)
    ensures Bag([e] + es) == multiset(Sectors(e)) + Bag(es)
  {
    assert ([e] + es)[1..] == es;
  }

  lemma {:induction false} BagSplit(es: seq<Ent>, i: nat)
    requires i < |es|
    ensures Bag(es) == Bag(es[..i]) + multiset(Sectors(es[i])) + Bag(es[i + 1..])
  {
    var a, e, b := es[..i], es[i], es[i + 1..];
    assert es == a + ([e] + b);
    BagAppend(a, [e] + b);
    BagFirst(e, b);
  }

  lemma {:induction false} BagUpdate(es: seq<Ent>, i: nat, e: Ent)
    requires i < |es|
    ensures Bag(es[i := e]) + multiset(Sectors(es[i])) == Bag(es) + multiset(Sectors(e))
  {
    BagSplit(es, i);
    BagSplit(es[i := e], i);
    assert es[i := e][..i] == es[..i] && es[i := e][i + 1..] == es[i + 1..];
  }

  lemma {:induction false} BagHas(es: seq<Ent>, x: int)
    ensures x in Bag(es) <==> exists i :: 0 <= i < |es| && x in Sectors(es[i])
  {
    if es != [] {
      BagHas(es[1..], x);
      if i :| 0 <= i < |es| && x in Sectors(es[i]) {
        if i > 0 { assert x in Sectors(es[1..][i - 1]); }
      }
      if x in Bag(es[1..]) {
        var i :| 0 <= i < |es[1..]| && x in Sectors(es[1..][i]);
        assert x in Sectors(es[i + 1]);
      }
    }
  }

  lemma BagSwap(es: seq<Ent>, i: nat, j: nat)
    requires i < j < |es|
    ensures Bag(es[i := es[j]][j := es[i]]) == Bag(es)
    ensures multiset(es[i := es[j]][j := es[i]]) == multiset(es)
  {
    var s := es[i := es[j]];
    BagUpdate(es, i, es[j]);
    BagUpdate(s, j, es[i]);
    assert s[j] == es[j];
    Cancel(Bag(s[j := es[i]]), Bag(es), multiset(Sectors(es[j])));
  }

  lemma Cancel(a: multiset<int>, b: multiset<int>, c: multiset<int>)
    requires a + c == b + c
    ensures a == b
  {
    assert a == (a + c) - c && b == (b + c) - c;
  }

  // ----- orders on tables -----

  predicate Sorted(es: seq<Ent>) {
    forall i, j :: 0 <= i < j < |es| ==> es[i].bad <= es[j].bad
  }

  /** Every live entry behind live entry `i` starts at or after `from`. */
  predicate StartsAfter(es: seq<Ent>, i: nat, from: int) {
    forall j :: i < j < |es| && Live(es[j]) ==> from <= es[j].bad
  }

  /** The live entries are in order, whatever lies between them. */
  predicate LiveSorted(es: seq<Ent>) {
    forall i :: 0 <= i < |es| && Live(es[i]) ==> StartsAfter(es, i, es[i].bad)
  }

  predicate EndsAfter(es: seq<Ent>, i: nat, from: int) {
    forall j :: i < j < |es| && Live(es[j]) ==> from <= es[j].end
  }

  /** The live entries end in order. */
  predicate EndsOrdered(es: seq<Ent>) {
    forall i :: 0 <= i < |es| && Live(es[i]) ==> EndsAfter(es, i, es[i].end)
  }

  predicate LiveStrict(es: seq<Ent>) {
    forall i :: 0 <= i < |es| && Live(es[i]) ==> StartsAfter(es, i, es[i].end + 1)
  }

  /** No two live entries touch or overlap: they are the maximal runs of what they cover. */
  predicate Separated(es: seq<Ent>) { SeparatedUpTo(es, |es|) }

  predicate SeparatedUpTo(es: seq<Ent>, n: nat) {
    forall i :: 0 <= i < n && i < |es| && Live(es[i]) ==> StartsAfter(es, i, es[i].end + 2)
  }

  predicate Singles(es: seq<Ent>) {
    forall i :: 0 <= i < |es| && Live(es[i]) ==> es[i].bad == es[i].end
  }

  predicate Proper(es: seq<Ent>) {
    forall i :: 0 <= i < |es| && Live(es[i]) ==> 0 <= es[i].bad <= es[i].end
  }

  ghost predicate NoRepeat(m: multiset<int>) { forall x :: m[x] <= 1 }

  lemma TailOrdered(es: seq<Ent>)
    requires es != []
    ensures LiveSorted(es) ==> LiveSorted(es[1..])
    ensures EndsOrdered(es) ==> EndsOrdered(es[1..])
    ensures Proper(es) ==> Proper(es[1..])
    ensures LiveStrict(es) ==> LiveStrict(es[1..])
    ensures Live(es[0]) && LiveStrict(es) ==> forall j :: 0 <= j < |es[1..]| && Live(es[1..][j]) ==>
            es[0].end < es[1..][j].bad
  {
    var rest := es[1..];
    assert forall j :: 0 <= j < |rest| ==> rest[j] == es[j + 1];
    forall i, from | 0 <= i < |rest| && StartsAfter(es, i + 1, from) ensures StartsAfter(rest, i, from) {
    }
    if LiveSorted(es) {
      forall i | 0 <= i < |rest| && Live(rest[i]) ensures StartsAfter(rest, i, rest[i].bad) {
        assert StartsAfter(es, i + 1, es[i + 1].bad);
      }
    }
    if EndsOrdered(es) {
      forall i | 0 <= i < |rest| && Live(rest[i]) ensures EndsAfter(rest, i, rest[i].end) {
        assert EndsAfter(es, i + 1, es[i + 1].end);
      }
    }
    if LiveStrict(es) {
      forall i | 0 <= i < |rest| && Live(rest[i]) ensures StartsAfter(rest, i, rest[i].end + 1) {
        assert StartsAfter(es, i + 1, es[i + 1].end + 1);
      }
    }
  }

  /** In a table in order, no sector is repeated exactly when the entries are disjoint. */
  lemma {:induction false} StrictIffNoRepeat(es: seq<Ent>)
    requires LiveSorted(es) && Proper(es)
    ensures LiveStrict(es) <==> NoRepeat(Bag(es))
  {
    if es != [] {
      var rest := es[1..];
      TailOrdered(es);
      StrictIffNoRepeat(rest);
      if LiveStrict(es) {
        forall x ensures Bag(es)[x] <= 1 {
          BagHas(rest, x);
        }
      }
      if NoRepeat(Bag(es)) {
        forall x ensures Bag(rest)[x] <= 1 { assert Bag(es)[x] <= 1; }
        forall i | 0 <= i < |es| && Live(es[i]) ensures StartsAfter(es, i, es[i].end + 1) {
          forall j | i < j < |es| && Live(es[j]) ensures es[i].end + 1 <= es[j].bad {
            if i == 0 {
              var x := es[j].bad;
              assert es[0].bad <= x && x in Sectors(rest[j - 1]);
              BagHas(rest, x);
              assert Bag(es)[x] <= 1;
            } else {
              assert StartsAfter(rest, i - 1, rest[i - 1].end + 1) && Live(rest[j - 1]);
            }
          }
        }
      }
    }
  }

  /** What `ent_bsearch` needs: proper entries whose starts and ends are both in order.
      Repeated sectors are no obstacle. */
  predicate Before(e: Ent, f: Ent) { e.bad <= f.bad && e.end <= f.end }

  predicate Ordered(es: seq<Ent>) {
    && (forall i :: 0 <= i < |es| ==> 0 <= es[i].bad <= es[i].end)
    && (forall i, j :: 0 <= i < j < |es| ==> Before(es[i], es[j]))
  }

  predicate Permuted(a: seq<Ent>, b: seq<Ent>) { multiset(a) == multiset(b) && Bag(a) == Bag(b) }
}
