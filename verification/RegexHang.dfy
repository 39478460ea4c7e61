/** When the matcher of usr/src/head/regexp.h returns whatever it is given: exactly for the
    patterns that pass the check `Solid`.  For any other pattern the shortest text that takes
    every item as rarely as it can be taken leads into an endless loop. */
module RegexHang {
  import opened Bytes
  import opened RegexProgram
  import opened RegexMatch
  import opened RegexCaptures
  import opened RegexAdvance

  /** An end-of-line anchor stands last, where the compiler puts it. */
  predicate AnchorLast(items: seq<Item>) {
    forall j :: 0 <= j < |items| - 1 ==> !items[j].core.Dol?
  }

  /** A character of the set of `core`. */
  ghost function Member(core: Core): (c: byte)
    requires OneChar(core) && CoreOk(core) && exists c: byte :: Has(core, c)
    ensures Has(core, c) && c != 0
  {
    var c: byte :| Has(core, c); c
  }

  /** `it` taken as rarely as it can be, behind the text `s`. */
  ghost function Grow(it: Item, s: seq<byte>, caps: Caps): seq<byte>
    requires ItemOk(it) && !Dead(it)
  {
    if OneChar(it.core) then
      if Least(it) == 0 then s else s + seq(Least(it), _ => Member(it.core))
    else if it.core.Back? && !it.star then s + Word(s, caps, it.core.slot)
    else s
  }

  function GrownBy(it: Item, begun: set<slot>, grown: set<slot>, full: set<slot>): set<slot> {
    match it.core
    case Bra(i) => grown - {i}
    case Ket(_) => grown
    case Back(i) => if !it.star && i in full then begun else grown
    case _ => if OneChar(it.core) && Least(it) > 0 then begun else grown
  }

  function FullBy(it: Item, grown: set<slot>, full: set<slot>): set<slot> {
    match it.core
    case Ket(i) => if i in grown then full + {i} else full - {i}
    case _ => full
  }

  /** The item at which the check fails. */
  predicate Trap(it: Item, full: set<slot>) {
    it.core.Back? && it.star && it.core.slot !in full
  }

  lemma UnsolidNext(items: seq<Item>, begun: set<slot>, grown: set<slot>, full: set<slot>)
    requires ItemsOk(items) && AnchorLast(items) && !Solid(items, begun, grown, full)
    ensures items != [] && !Dead(items[0]) && !items[0].core.Dol? && AnchorLast(items[1..])
    ensures !Trap(items[0], full) ==>
              !Solid(items[1..], Begun(items[0], begun), GrownBy(items[0], begun, grown, full),
                     FullBy(items[0], grown, full))
  {
    if items[0].core.Dol? { assert items[1..] == []; }
  }

  /** The text that leads to the first item at which the check fails. */
  ghost function Bait(items: seq<Item>, begun: set<slot>, grown: set<slot>, full: set<slot>,
                      s: seq<byte>, caps: Caps): seq<byte>
    requires ItemsOk(items) && AnchorLast(items) && !Solid(items, begun, grown, full)
  {
    UnsolidNext(items, begun, grown, full);
    var it := items[0];
    if Trap(it, full) then s
    else Bait(items[1..], Begun(it, begun), GrownBy(it, begun, grown, full), FullBy(it, grown, full),
              Grow(it, s, caps), Marked(it, |s|, caps))
  }

  /** Along the shortest text the check's sets are exact. */
  ghost predicate Exact(begun: set<slot>, closed: set<slot>, grown: set<slot>, full: set<slot>,
                        s: seq<byte>, caps: Caps)
  {
    && Behind(begun, closed, caps, |s|) && full <= closed && IsText(s)
    && (forall i :: i in begun && i !in closed ==> (i in grown <==> caps.b[i] < |s|))
    && (forall i :: i in closed ==> (i in full <==> caps.b[i] < caps.e[i]))
  }

  /** What the item at the head asks of the groups before it. */
  predicate HeadGuarded(it: Item, begun: set<slot>, closed: set<slot>) {
    match it.core
    case Bra(i) => i !in begun
    case Ket(i) => i in begun && i !in closed
    case Back(i) => i in closed
    case _ => true
  }

  lemma GrowsExactly(it: Item, begun: set<slot>, closed: set<slot>, grown: set<slot>, full: set<slot>,
                     s: seq<byte>, caps: Caps)
    requires ItemOk(it) && !Dead(it) && HeadGuarded(it, begun, closed) && Exact(begun, closed, grown, full, s, caps)
    ensures s <= Grow(it, s, caps) && IsText(Grow(it, s, caps))
    ensures |Grow(it, s, caps)| > |s| <==>
            (OneChar(it.core) && Least(it) > 0) || (it.core.Back? && !it.star && it.core.slot in full)
  {
  }

  lemma ExactNext(it: Item, begun: set<slot>, closed: set<slot>, grown: set<slot>, full: set<slot>,
                  s: seq<byte>, caps: Caps)
    requires ItemOk(it) && !Dead(it) && HeadGuarded(it, begun, closed) && Exact(begun, closed, grown, full, s, caps)
    ensures Exact(Begun(it, begun), Closed(it, closed), GrownBy(it, begun, grown, full), FullBy(it, grown, full),
                  Grow(it, s, caps), Marked(it, |s|, caps))
  {
    GrowsExactly(it, begun, closed, grown, full, s, caps);
    BehindNext(it, begun, closed, caps, |s|, |Grow(it, s, caps)|);
  }

  lemma {:induction false} BaitExtends(items: seq<Item>, begun: set<slot>, closed: set<slot>, grown: set<slot>,
                                       full: set<slot>, s: seq<byte>, caps: Caps)
    requires ItemsOk(items) && AnchorLast(items) && !Solid(items, begun, grown, full)
    requires Guarded(items, begun, closed) && Exact(begun, closed, grown, full, s, caps)
    ensures s <= Bait(items, begun, grown, full, s, caps) && IsText(Bait(items, begun, grown, full, s, caps))
  {
    UnsolidNext(items, begun, grown, full);
    var it := items[0];
    if !Trap(it, full) {
      GrowsExactly(it, begun, closed, grown, full, s, caps);
      ExactNext(it, begun, closed, grown, full, s, caps);
      BaitExtends(items[1..], Begun(it, begun), Closed(it, closed), GrownBy(it, begun, grown, full),
                  FullBy(it, grown, full), Grow(it, s, caps), Marked(it, |s|, caps));
    }
  }

  // ----- the least counts lead into the loop -----

  /** Any text that goes on as `Grow` does lets `it` be taken least often. */
  lemma GrownTakes(it: Item, begun: set<slot>, closed: set<slot>, grown: set<slot>, full: set<slot>,
                   s: seq<byte>, caps: Caps, t: seq<byte>)
    requires ItemOk(it) && !Dead(it) && HeadGuarded(it, begun, closed) && Exact(begun, closed, grown, full, s, caps)
    requires !Trap(it, full) && !it.core.Dol? && s <= Grow(it, s, caps) <= t
    ensures CanTake(it, t, |s|, caps, Least(it))
    ensures After(it, t, |s|, caps, Least(it)) == |Grow(it, s, caps)|
  {
    var g := Grow(it, s, caps);
    if OneChar(it.core) {
      forall j | |s| <= j < |s| + Least(it) ensures Has(it.core, t[j]) {
        assert t[j] == g[j];
      }
    } else if it.core.Back? {
      var i := it.core.slot;
      var w := Word(s, caps, i);
      assert Word(t, caps, i) == w by { assert t[..|s|] == s; }
      if !it.star {
        assert t[|s|..|s| + |w|] == g[|s|..] == w;
        assert Repeats(w, t, |s| + |w|, 0);
        assert Times(1, |w|) == |w| + Times(0, |w|);
      }
    }
  }

  lemma {:induction false} BaitHangs(items: seq<Item>, begun: set<slot>, closed: set<slot>, grown: set<slot>,
                                     full: set<slot>, s: seq<byte>, caps: Caps)
    returns (ks: seq<nat>)
    requires ItemsOk(items) && AnchorLast(items) && !Solid(items, begun, grown, full)
    requires Guarded(items, begun, closed) && Exact(begun, closed, grown, full, s, caps)
    ensures Hangs(items, Bait(items, begun, grown, full, s, caps), |s|, caps, ks)
  {
    UnsolidNext(items, begun, grown, full);
    var it := items[0];
    if Trap(it, full) {
      ks := [];
    } else {
      var begun', closed' := Begun(it, begun), Closed(it, closed);
      var grown', full' := GrownBy(it, begun, grown, full), FullBy(it, grown, full);
      var s', caps' := Grow(it, s, caps), Marked(it, |s|, caps);
      GrowsExactly(it, begun, closed, grown, full, s, caps);
      ExactNext(it, begun, closed, grown, full, s, caps);
      BaitExtends(items[1..], begun', closed', grown', full', s', caps');
      var rest := BaitHangs(items[1..], begun', closed', grown', full', s', caps');
      var t := Bait(items[1..], begun', grown', full', s', caps');
      GrownTakes(it, begun, closed, grown, full, s, caps, t);
      ks := [Least(it)] + rest;
      assert ks[1..] == rest;
    }
  }

  // ----- no choice of counts gets past it -----

  /** A match at `p` with marks `c` on the way through the text of the least counts, which is
      at `n` with marks `caps`: it is ahead, and every group is longer by at most the lead. */
  ghost predicate Ahead(begun: set<slot>, closed: set<slot>, n: nat, caps: Caps, p: nat, c: Caps) {
    && n <= p
    && (forall i :: i in begun ==> caps.b[i] <= c.b[i] <= caps.b[i] + (p - n))
    && (forall i :: i in closed ==>
          caps.e[i] - caps.b[i] <= c.e[i] - c.b[i] <= caps.e[i] - caps.b[i] + (p - n))
  }

  lemma AheadNext(it: Item, begun: set<slot>, closed: set<slot>, n: nat, caps: Caps, p: nat, c: Caps, n': nat, p': nat)
    requires Ahead(begun, closed, n, caps, p, c) && closed <= begun && HeadGuarded(it, begun, closed)
    requires n <= n' && p' - n' >= p - n
    ensures Ahead(Begun(it, begun), Closed(it, closed), n', Marked(it, n, caps), p', Marked(it, p, c))
  {
  }

  /** Whatever `it` takes, it takes no less than the least. */
  lemma TakesNoLess(it: Item, begun: set<slot>, closed: set<slot>, grown: set<slot>, full: set<slot>,
                    s: seq<byte>, caps: Caps, t: seq<byte>, p: nat, c: Caps, k: nat)
    requires ItemOk(it) && !Dead(it) && HeadGuarded(it, begun, closed) && Exact(begun, closed, grown, full, s, caps)
    requires Ahead(begun, closed, |s|, caps, p, c) && Behind(begun, closed, c, p) && p <= |t|
    requires CanTake(it, t, p, c, k)
    ensures After(it, t, p, c, k) - |Grow(it, s, caps)| >= p - |s|
  {
    if it.core.Back? && !it.star {
      assert Times(1, |Word(t, c, it.core.slot)|) == |Word(t, c, it.core.slot)| + Times(0, 0);
    }
  }

  lemma {:induction false} BaitUnmatched(items: seq<Item>, begun: set<slot>, closed: set<slot>, grown: set<slot>,
                                         full: set<slot>, s: seq<byte>, caps: Caps, p: nat, c: Caps, ks: seq<nat>)
    requires ItemsOk(items) && AnchorLast(items) && !Solid(items, begun, grown, full)
    requires Guarded(items, begun, closed) && Exact(begun, closed, grown, full, s, caps)
    requires Ahead(begun, closed, |s|, caps, p, c) && Behind(begun, closed, c, p)
    requires p <= |Bait(items, begun, grown, full, s, caps)|
    ensures !Accepts(items, Bait(items, begun, grown, full, s, caps), p, c, ks)
  {
    UnsolidNext(items, begun, grown, full);
    var it, t := items[0], Bait(items, begun, grown, full, s, caps);
    if Trap(it, full) {
      assert Stuck(it, t, c);
    } else if ks != [] && CanTake(it, t, p, c, ks[0]) {
      var begun', closed' := Begun(it, begun), Closed(it, closed);
      var s', caps' := Grow(it, s, caps), Marked(it, |s|, caps);
      var p' := After(it, t, p, c, ks[0]);
      TakeRange(it, t, p, c, ks[0]);
      GrowsExactly(it, begun, closed, grown, full, s, caps);
      ExactNext(it, begun, closed, grown, full, s, caps);
      TakesNoLess(it, begun, closed, grown, full, s, caps, t, p, c, ks[0]);
      AheadNext(it, begun, closed, |s|, caps, p, c, |s'|, p');
      BehindNext(it, begun, closed, c, p, p');
      BaitUnmatched(items[1..], begun', closed', GrownBy(it, begun, grown, full), FullBy(it, grown, full),
                    s', caps', p', Marked(it, p, c), ks[1..]);
    }
  }

  // ----- the exact condition -----

  /** Started anywhere in any subject, whatever the marks hold, the search comes to an end. */
  ghost predicate AlwaysReturns(items: seq<Item>)
    requires ItemsOk(items)
  {
    forall s, p, caps :: IsText(s) && 0 <= p <= |s| ==> !Search(items, s, p, caps).Hang?
  }

  /** A pattern that fails the check has a subject that it neither matches nor rejects. */
  lemma UnsolidHangs(items: seq<Item>, caps: Caps) returns (t: seq<byte>)
    requires ItemsOk(items) && AnchorLast(items) && Guarded(items, {}, {}) && !Solid(items, {}, {}, {})
    ensures IsText(t) && Search(items, t, 0, caps).Hang?
    ensures !Matches(items, t, 0, caps)
  {
    t := Bait(items, {}, {}, {}, [], caps);
    BaitExtends(items, {}, {}, {}, {}, [], caps);
    var ks := BaitHangs(items, {}, {}, {}, {}, [], caps);
    SearchGreatest(items, t, 0, caps, ks);
    SearchSound(items, t, 0, caps);
    forall ks': seq<nat> ensures !Accepts(items, t, 0, caps, ks') {
      BaitUnmatched(items, {}, {}, {}, {}, [], caps, 0, caps, ks');
    }
  }

  /** The matcher returns on every subject exactly when the pattern passes the check. */
  lemma ReturnsIffSolid(items: seq<Item>)
    requires ItemsOk(items) && AnchorLast(items) && Guarded(items, {}, {})
    ensures AlwaysReturns(items) <==> Solid(items, {}, {}, {})
  {
    if Solid(items, {}, {}, {}) {
      forall s, p, caps | IsText(s) && 0 <= p <= |s| ensures !Search(items, s, p, caps).Hang? {
        SolidDecides(items, s, p, caps);
      }
    } else {
      var caps: Caps := Marks([0, 0, 0, 0, 0, 0, 0, 0, 0], [0, 0, 0, 0, 0, 0, 0, 0, 0]);
      var t := UnsolidHangs(items, caps);
    }
  }

  /** Whatever `step` ends with, it did not run into the endless loop. */
  ghost predicate StepReturns(items: seq<Item>, s: seq<byte>, caps: Caps)
    requires ItemsOk(items)
  {
    forall v, caps', loc1, loc1', loc2, loc2' ::
      Located(v, items, s, caps, caps', loc1, loc1', loc2, loc2') ==> !v.Looping?
  }

  /** `step` returns on every subject exactly when the pattern passes the check. */
  lemma StepReturnsIffSolid(items: seq<Item>)
    requires ItemsOk(items) && AnchorLast(items) && Guarded(items, {}, {})
    ensures (forall s, caps :: IsText(s) ==> StepReturns(items, s, caps)) <==> Solid(items, {}, {}, {})
  {
    if Solid(items, {}, {}, {}) {
      forall s, caps | IsText(s) ensures StepReturns(items, s, caps) {
        forall v, caps', loc1, loc1', loc2, loc2' | Located(v, items, s, caps, caps', loc1, loc1', loc2, loc2')
          ensures !v.Looping?
        {
          StepDecides(v, items, s, caps, caps', loc1, loc1', loc2, loc2');
        }
      }
    } else {
      var caps: Caps := Marks([0, 0, 0, 0, 0, 0, 0, 0, 0], [0, 0, 0, 0, 0, 0, 0, 0, 0]);
      var t := UnsolidHangs(items, caps);
      assert Located(Looping, items, t, caps, caps, 0, 0, 0, 0);
      assert !StepReturns(items, t, caps);
    }
  }
}
