/** Captures under backtracking: which items may disturb which group's marks, why a search
    does not notice marks left behind by a failed attempt, and when no starred
    back-reference can get stuck. */
module RegexCaptures {
  import opened Bytes
  import opened RegexProgram
  import opened RegexMatch

  /** Every group is opened once and closed once, after it was opened; every back-reference
      names a group already closed.  `begun` and `closed` tell what happened before. */
  predicate Guarded(items: seq<Item>, begun: set<slot>, closed: set<slot>) {
    items == [] ||
    match items[0].core
    case Bra(i) => i !in begun && Guarded(items[1..], begun + {i}, closed)
    case Ket(i) => i in begun && i !in closed && Guarded(items[1..], begun, closed + {i})
    case Back(i) => i in closed && Guarded(items[1..], begun, closed)
    case _ => Guarded(items[1..], begun, closed)
  }

  function Begun(it: Item, begun: set<slot>): set<slot> {
    if it.core.Bra? then begun + {it.core.slot} else begun
  }

  function Closed(it: Item, closed: set<slot>): set<slot> {
    if it.core.Ket? then closed + {it.core.slot} else closed
  }

  /** Marks set so far lie in the text already passed. */
  ghost predicate Behind(begun: set<slot>, closed: set<slot>, caps: Caps, p: nat) {
    && closed <= begun
    && (forall i :: i in begun ==> 0 <= caps.b[i] <= p)
    && (forall i :: i in closed ==> caps.b[i] <= caps.e[i] <= p)
  }

  lemma BehindNext(it: Item, begun: set<slot>, closed: set<slot>, caps: Caps, p: nat, p': nat)
    requires Behind(begun, closed, caps, p) && p <= p'
    requires it.core.Bra? ==> it.core.slot !in begun
    requires it.core.Ket? ==> it.core.slot in begun
    ensures Behind(Begun(it, begun), Closed(it, closed), Marked(it, p, caps), p')
  {
  }

  /** The groups that `items` open, and close. */
  function Bras(items: seq<Item>): set<slot> {
    if items == [] then {} else Begun(items[0], Bras(items[1..]))
  }

  function Kets(items: seq<Item>): set<slot> {
    if items == [] then {} else Closed(items[0], Kets(items[1..]))
  }

  /** The two sets of marks differ only where `items` will write. */
  predicate DiffOnly(items: seq<Item>, c1: Caps, c2: Caps) {
    && (forall i: slot :: i !in Bras(items) ==> c1.b[i] == c2.b[i])
    && (forall i: slot :: i !in Kets(items) ==> c1.e[i] == c2.e[i])
  }

  lemma {:induction false} GuardedWritesFresh(items: seq<Item>, begun: set<slot>, closed: set<slot>)
    requires Guarded(items, begun, closed)
    ensures Bras(items) !! begun && Kets(items) !! closed
  {
    if items != [] {
      GuardedWritesFresh(items[1..], Begun(items[0], begun), Closed(items[0], closed));
    }
  }

  lemma {:induction false} SuffixWritesLess(items: seq<Item>, n: nat)
    requires n <= |items|
    ensures Bras(items[n..]) <= Bras(items) && Kets(items[n..]) <= Kets(items)
  {
    if n > 0 {
      SuffixWritesLess(items[1..], n - 1);
      assert items[1..][n - 1..] == items[n..];
    }
  }

  lemma DiffOnlyNext(items: seq<Item>, c1: Caps, c2: Caps, p: nat)
    requires items != [] && DiffOnly(items, c1, c2)
    ensures DiffOnly(items[1..], Marked(items[0], p, c1), Marked(items[0], p, c2))
  {
  }

  lemma DiffOnlySuffix(items: seq<Item>, n: nat, c1: Caps, c2: Caps)
    requires n <= |items| && DiffOnly(items[n..], c1, c2)
    ensures DiffOnly(items, c1, c2)
  {
    SuffixWritesLess(items, n);
  }

  lemma DiffOnlyTransitive(items: seq<Item>, c1: Caps, c2: Caps, c3: Caps)
    requires DiffOnly(items, c1, c2) && DiffOnly(items, c2, c3)
    ensures DiffOnly(items, c1, c3)
  {
    forall i: slot ensures i !in Bras(items) ==> c1.b[i] == c3.b[i] {
      assert i !in Bras(items) ==> c1.b[i] == c2.b[i];
    }
    forall i: slot ensures i !in Kets(items) ==> c1.e[i] == c3.e[i] {
      assert i !in Kets(items) ==> c1.e[i] == c2.e[i];
    }
  }

  lemma DiffOnlySelf(items: seq<Item>, p: nat, caps: Caps)
    requires items != []
    ensures DiffOnly(items, caps, Marked(items[0], p, caps))
  {
  }

  /** Marks that the remaining items write anyway make no difference to them: whatever a
      failed attempt left there, the next attempt behaves as if it had not happened. */
  lemma {:induction false} SearchIgnoresDebris(items: seq<Item>, s: seq<byte>, p: nat, c1: Caps, c2: Caps,
                                               begun: set<slot>, closed: set<slot>)
    requires ItemsOk(items) && p <= |s| && closed <= begun
    requires Guarded(items, begun, closed) && DiffOnly(items, c1, c2)
    ensures Search(items, s, p, c1) == Search(items, s, p, c2)
    decreases |items|, 1, 0
  {
    if items == [] {
      assert forall i: slot :: c1.b[i] == c2.b[i] && c1.e[i] == c2.e[i];
      assert c1.b == c2.b && c1.e == c2.e;
    } else {
      HeadIgnoresDebris(items, s, p, c1, c2, begun, closed);
      if !Stuck(items[0], s, c1) {
        TryIgnoresDebris(items, s, p, c1, c2, begun, closed, Most(items[0], s, p, c1));
      }
    }
  }

  lemma HeadIgnoresDebris(items: seq<Item>, s: seq<byte>, p: nat, c1: Caps, c2: Caps,
                          begun: set<slot>, closed: set<slot>)
    requires ItemsOk(items) && items != [] && p <= |s| && closed <= begun
    requires Guarded(items, begun, closed) && DiffOnly(items, c1, c2)
    ensures items[0].core.Back? ==> Word(s, c1, items[0].core.slot) == Word(s, c2, items[0].core.slot)
    ensures Stuck(items[0], s, c1) <==> Stuck(items[0], s, c2)
    ensures !Stuck(items[0], s, c1) ==> Most(items[0], s, p, c1) == Most(items[0], s, p, c2)
    ensures forall k: nat :: After(items[0], s, p, c1, k) == After(items[0], s, p, c2, k)
  {
    if items[0].core.Back? {
      GuardedWritesFresh(items, begun, closed);
      assert c1.b[items[0].core.slot] == c2.b[items[0].core.slot];
      assert c1.e[items[0].core.slot] == c2.e[items[0].core.slot];
    }
  }

  lemma {:induction false} TryIgnoresDebris(items: seq<Item>, s: seq<byte>, p: nat, c1: Caps, c2: Caps,
                                            begun: set<slot>, closed: set<slot>, k: int)
    requires ItemsOk(items) && items != [] && p <= |s| && closed <= begun
    requires Guarded(items, begun, closed) && DiffOnly(items, c1, c2)
    requires !Stuck(items[0], s, c1) && !Stuck(items[0], s, c2)
    requires k <= Most(items[0], s, p, c1) == Most(items[0], s, p, c2)
    ensures Try(items, s, p, c1, k) == Try(items, s, p, c2, k)
    decreases |items|, 0, k + 1
  {
    if k >= Least(items[0]) {
      HeadIgnoresDebris(items, s, p, c1, c2, begun, closed);
      TakeRange(items[0], s, p, c1, k);
      TakeRange(items[0], s, p, c2, k);
      DiffOnlyNext(items, c1, c2, p);
      SearchIgnoresDebris(items[1..], s, After(items[0], s, p, c1, k), Marked(items[0], p, c1), Marked(items[0], p, c2),
                          Begun(items[0], begun), Closed(items[0], closed));
      TryIgnoresDebris(items, s, p, c1, c2, begun, closed, k - 1);
    }
  }

  // ----- no stuck back-reference -----

  /** No text can take `it`: it needs a character, and no character is in its set. */
  ghost predicate Dead(it: Item)
    requires ItemOk(it)
  {
    OneChar(it.core) && Least(it) > 0 && forall c: byte :: !Has(it.core, c)
  }

  /** A check on the items alone: every starred back-reference that can be reached names a
      group that is sure to have captured at least one character.  `grown` holds the groups
      sure to have moved since they were opened, `full` the groups sure to have captured
      something. */
  ghost predicate Solid(items: seq<Item>, begun: set<slot>, grown: set<slot>, full: set<slot>)
    requires ItemsOk(items)
  {
    items == [] ||
    var it := items[0];
    match it.core
    case Bra(i) => Solid(items[1..], begun + {i}, grown - {i}, full)
    case Ket(i) => Solid(items[1..], begun, grown, if i in grown then full + {i} else full - {i})
    case Back(i) =>
      if it.star then i in full && Solid(items[1..], begun, grown, full)
      else Solid(items[1..], begun, if i in full then begun else grown, full)
    case _ =>
      Dead(it) || Solid(items[1..], begun, if OneChar(it.core) && Least(it) > 0 then begun else grown, full)
  }

  ghost predicate SolidMarks(begun: set<slot>, grown: set<slot>, full: set<slot>, closed: set<slot>,
                             s: seq<byte>, p: nat, caps: Caps)
  {
    && Behind(begun, closed, caps, p) && p <= |s|
    && grown <= begun && full <= closed
    && (forall i :: i in grown ==> caps.b[i] < p)
    && (forall i :: i in full ==> caps.b[i] < caps.e[i])
  }

  lemma TakenAlive(it: Item, s: seq<byte>, p: nat, caps: Caps, k: nat)
    requires ItemOk(it) && CanTake(it, s, p, caps, k)
    ensures !Dead(it)
  {
    if OneChar(it.core) && Least(it) > 0 { assert Has(it.core, s[p]); }
  }

  lemma {:induction false} SolidNeverHangs(items: seq<Item>, s: seq<byte>, p: nat, caps: Caps, ks: seq<nat>,
                                           begun: set<slot>, closed: set<slot>, grown: set<slot>, full: set<slot>)
    requires ItemsOk(items) && Guarded(items, begun, closed) && Solid(items, begun, grown, full)
    requires SolidMarks(begun, grown, full, closed, s, p, caps)
    ensures !Hangs(items, s, p, caps, ks)
  {
    if items != [] && ks != [] && CanTake(items[0], s, p, caps, ks[0]) {
      var it := items[0];
      TakenAlive(it, s, p, caps, ks[0]);
      TakeRange(it, s, p, caps, ks[0]);
      var p' := After(it, s, p, caps, ks[0]);
      var begun', closed' := Begun(it, begun), Closed(it, closed);
      BehindNext(it, begun, closed, caps, p, p');
      var grown', full' := grown, full;
      match it.core {
        case Bra(i) => grown' := grown - {i};
        case Ket(i) => full' := if i in grown then full + {i} else full - {i};
        case Back(i) => if !it.star && i in full { grown' := begun; }
        case _ => if OneChar(it.core) && Least(it) > 0 { grown' := begun; }
      }
      SolidNeverHangs(items[1..], s, p', Marked(it, p, caps), ks[1..], begun', closed', grown', full');
    }
  }

  lemma SolidFinds(items: seq<Item>, s: seq<byte>, p: nat, caps: Caps, ks: seq<nat>)
    requires ItemsOk(items) && p <= |s| && Guarded(items, {}, {}) && Solid(items, {}, {}, {})
    requires Accepts(items, s, p, caps, ks)
    ensures Search(items, s, p, caps).Accept?
  {
    SearchSound(items, s, p, caps);
    SearchGreatest(items, s, p, caps, ks);
    var o := Search(items, s, p, caps);
    SolidNeverHangs(items, s, p, caps, o.ks, {}, {}, {}, {});
  }

  /** For a pattern that passes the check the search decides membership: it succeeds exactly
      when some choice of counts matches. */
  lemma SolidDecides(items: seq<Item>, s: seq<byte>, p: nat, caps: Caps)
    requires ItemsOk(items) && p <= |s| && Guarded(items, {}, {}) && Solid(items, {}, {}, {})
    ensures !Search(items, s, p, caps).Hang?
    ensures Search(items, s, p, caps).Accept? <==> Matches(items, s, p, caps)
  {
    SearchSound(items, s, p, caps);
    var o := Search(items, s, p, caps);
    if o.Hang? { SolidNeverHangs(items, s, p, caps, o.ks, {}, {}, {}, {}); }
    if !o.Accept? && Matches(items, s, p, caps) {
      var ks: seq<nat> :| Accepts(items, s, p, caps, ks);
      SolidFinds(items, s, p, caps, ks);
    }
  }
}
