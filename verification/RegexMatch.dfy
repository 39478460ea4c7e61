/** What a list of items matches, stated by repetition counts, and the order in which the
    matcher of usr/src/head/regexp.h tries them.

    A candidate match gives one count per item.  The counts fix every position the match
    passes through, hence every capture and every back-referenced word. */
module RegexMatch {
  import opened Bytes
  import opened RegexProgram
  import opened Wrappers

  /** Where each group started and stopped when its marks were last passed. */
  datatype Marks = Marks(b: seq<int>, e: seq<int>)
  type Caps = m: Marks | |m.b| == 9 && |m.e| == 9
    witness Marks([0, 0, 0, 0, 0, 0, 0, 0, 0], [0, 0, 0, 0, 0, 0, 0, 0, 0])

  /** The subject: a C string, without its terminator. */
  predicate IsText(s: seq<byte>) { forall j :: 0 <= j < |s| ==> s[j] != 0 }

  /** `*lp`: the character at `p`, the terminator included and nothing past it. */
  function At(s: seq<byte>, p: nat): byte
    requires p <= |s|
  {
    if p == |s| then 0 else s[p]
  }

  /** The one-character test of an item. */
  predicate Has(core: Core, c: byte)
    requires OneChar(core) && CoreOk(core)
  {
    match core
    case Chr(d) => c == d
    case Dot => c != 0
    case Bracket(Narrow, bits) => c < 128 && BitAt(bits, c)
    case Bracket(NarrowNot, bits) => !(c < 128 && BitAt(bits, c))
    case Bracket(Wide, bits) => BitAt(bits, c)
  }

  /** The captured word; a group that captured nothing sensible counts as empty. */
  function Word(s: seq<byte>, caps: Caps, i: slot): seq<byte> {
    if 0 <= caps.b[i] <= caps.e[i] <= |s| then s[caps.b[i]..caps.e[i]] else []
  }

  // ----- bounds on the count of one item -----

  function Least(it: Item): nat {
    if OneChar(it.core) then
      if it.ivs != [] then it.ivs[0].0 else if it.star then 0 else 1
    else if it.core.Back? && !it.star then 1 else 0
  }

  /** The greatest count a one-character item allows.  An open interval, stored with upper
      bound 255, stops 20000 above its lower bound. */
  function Limit(it: Item): Option<nat> {
    if it.ivs != [] then 
      var lo: int, hi: int := it.ivs[0].0, it.ivs[0].1;
      Some(if hi == 255 then lo + 20000 else hi)
    else if it.star then None
    else Some(1)
  }

  predicate AllHave(core: Core, s: seq<byte>, p: nat, k: nat)
    requires OneChar(core) && CoreOk(core)
  {
    p + k <= |s| && forall j :: p <= j < p + k ==> Has(core, s[j])
  }

  predicate Repeats(w: seq<byte>, s: seq<byte>, p: nat, k: nat)
    decreases k
  {
    k == 0 || (p + |w| <= |s| && s[p..p + |w|] == w && Repeats(w, s, p + |w|, k - 1))
  }

  /** A starred back-reference to an empty capture: the scan at its head never moves. */
  predicate Stuck(it: Item, s: seq<byte>, caps: Caps) {
    it.core.Back? && it.star && Word(s, caps, it.core.slot) == []
  }

  /** Item `it` may be taken `k` times at position `p`. */
  predicate CanTake(it: Item, s: seq<byte>, p: nat, caps: Caps, k: nat)
    requires ItemOk(it)
  {
    if OneChar(it.core) then
      Least(it) <= k && (Limit(it).Some? ==> k <= Limit(it).value) && AllHave(it.core, s, p, k)
    else if it.core.Back? then
      !Stuck(it, s, caps) && (!it.star ==> k == 1) && Repeats(Word(s, caps, it.core.slot), s, p, k)
    else k == 0 && (it.core.Dol? ==> p == |s|)
  }

  /** `k` words of length `w`. */
  function Times(k: nat, w: nat): nat { if k == 0 then 0 else w + Times(k - 1, w) }

  function After(it: Item, s: seq<byte>, p: nat, caps: Caps, k: nat): nat {
    if OneChar(it.core) then p + k
    else if it.core.Back? then p + Times(k, |Word(s, caps, it.core.slot)|)
    else p
  }

  function Marked(it: Item, p: nat, caps: Caps): Caps {
    if it.core.Bra? then Marks(caps.b[it.core.slot := p], caps.e)
    else if it.core.Ket? then Marks(caps.b, caps.e[it.core.slot := p])
    else caps
  }

  // ----- whole matches -----

  /** The counts `ks`, one per item, describe a match from `p`. */
  predicate Accepts(items: seq<Item>, s: seq<byte>, p: nat, caps: Caps, ks: seq<nat>)
    requires ItemsOk(items)
  {
    if items == [] then ks == []
    else
      && ks != []
      && CanTake(items[0], s, p, caps, ks[0])
      && Accepts(items[1..], s, After(items[0], s, p, caps, ks[0]), Marked(items[0], p, caps), ks[1..])
  }

  /** Some choice of counts matches from `p`. */
  ghost predicate Matches(items: seq<Item>, s: seq<byte>, p: nat, caps: Caps)
    requires ItemsOk(items)
  {
    exists ks: seq<nat> :: Accepts(items, s, p, caps, ks)
  }

  function EndOf(items: seq<Item>, s: seq<byte>, p: nat, caps: Caps, ks: seq<nat>): nat {
    if items == [] || ks == [] then p
    else EndOf(items[1..], s, After(items[0], s, p, caps, ks[0]), Marked(items[0], p, caps), ks[1..])
  }

  function CapsOf(items: seq<Item>, s: seq<byte>, p: nat, caps: Caps, ks: seq<nat>): Caps {
    if items == [] || ks == [] then caps
    else CapsOf(items[1..], s, After(items[0], s, p, caps, ks[0]), Marked(items[0], p, caps), ks[1..])
  }

  /** The counts `ks` lead, from `p`, up to a stuck back-reference. */
  predicate Hangs(items: seq<Item>, s: seq<byte>, p: nat, caps: Caps, ks: seq<nat>)
    requires ItemsOk(items)
  {
    items != [] &&
    if ks == [] then Stuck(items[0], s, caps)
    else
      && CanTake(items[0], s, p, caps, ks[0])
      && Hangs(items[1..], s, After(items[0], s, p, caps, ks[0]), Marked(items[0], p, caps), ks[1..])
  }

  predicate Event(items: seq<Item>, s: seq<byte>, p: nat, caps: Caps, ks: seq<nat>)
    requires ItemsOk(items)
  {
    Accepts(items, s, p, caps, ks) || Hangs(items, s, p, caps, ks)
  }

  /** `a` equals `b` or has the greater count where they first differ. */
  predicate NotAfter(a: seq<nat>, b: seq<nat>) {
    a == b || (a != [] && b != [] && (a[0] > b[0] || (a[0] == b[0] && NotAfter(a[1..], b[1..]))))
  }

  // ----- the greedy search, as a function -----

  datatype Outcome = Accept(ks: seq<nat>, end: nat, caps: Caps) | Reject | Hang(ks: seq<nat>)

  function Prepend(k: nat, o: Outcome): Outcome {
    match o
    case Accept(ks, end, caps) => Accept([k] + ks, end, caps)
    case Reject => Reject
    case Hang(ks) => Hang([k] + ks)
  }

  function Run(core: Core, s: seq<byte>, p: nat): (k: nat)
    requires OneChar(core) && CoreOk(core) && p <= |s|
    ensures AllHave(core, s, p, k)
    ensures p + k < |s| ==> !Has(core, s[p + k])
    decreases |s| - p
  {
    if p < |s| && Has(core, s[p]) then 1 + Run(core, s, p + 1) else 0
  }

  function WordRun(w: seq<byte>, s: seq<byte>, p: nat): (k: nat)
    requires w != []
    ensures Repeats(w, s, p, k) && !Repeats(w, s, p, k + 1)
    decreases |s| - p
  {
    if p + |w| <= |s| && s[p..p + |w|] == w then 1 + WordRun(w, s, p + |w|) else 0
  }

  function MostChars(it: Item, s: seq<byte>, p: nat): nat
    requires ItemOk(it) && p <= |s| && OneChar(it.core)
  {
    var run := Run(it.core, s, p);
    if Limit(it).Some? && Limit(it).value < run then Limit(it).value else run
  }

  /** The greatest count to try, or -1 when the item cannot be taken at all. */
  function Most(it: Item, s: seq<byte>, p: nat, caps: Caps): int
    requires ItemOk(it) && p <= |s| && !Stuck(it, s, caps)
  {
    if OneChar(it.core) then MostChars(it, s, p)
    else if it.core.Back? then
      var w := Word(s, caps, it.core.slot);
      if it.star then WordRun(w, s, p) else if Repeats(w, s, p, 1) then 1 else -1
    else if it.core.Dol? && p != |s| then -1 else 0
  }

  lemma {:induction false} RepeatsShorter(w: seq<byte>, s: seq<byte>, p: nat, k: nat, m: nat)
    requires Repeats(w, s, p, k) && m <= k
    ensures Repeats(w, s, p, m)
    decreases k
  {
    if m > 0 { RepeatsShorter(w, s, p + |w|, k - 1, m - 1); }
  }

  lemma {:induction false} RepeatsFit(w: seq<byte>, s: seq<byte>, p: nat, k: nat)
    requires Repeats(w, s, p, k) && p <= |s|
    ensures p + Times(k, |w|) <= |s|
    decreases k
  {
    if k > 0 { RepeatsFit(w, s, p + |w|, k - 1); }
  }

  /** The counts an item can be taken form exactly the range the search tries. */
  lemma TakeRange(it: Item, s: seq<byte>, p: nat, caps: Caps, k: nat)
    requires ItemOk(it) && p <= |s| && !Stuck(it, s, caps)
    ensures CanTake(it, s, p, caps, k) <==> Least(it) <= k <= Most(it, s, p, caps)
    ensures CanTake(it, s, p, caps, k) ==> After(it, s, p, caps, k) <= |s|
  {
    if OneChar(it.core) {
      var run := Run(it.core, s, p);
      assert AllHave(it.core, s, p, k) ==> k <= run;
    } else if it.core.Back? {
      var w := Word(s, caps, it.core.slot);
      if Repeats(w, s, p, k) {
        RepeatsFit(w, s, p, k);
        if it.star && k > WordRun(w, s, p) { RepeatsShorter(w, s, p, k, WordRun(w, s, p) + 1); }
      }
      if it.star && k <= WordRun(w, s, p) { RepeatsShorter(w, s, p, WordRun(w, s, p), k); }
    }
  }

  function Search(items: seq<Item>, s: seq<byte>, p: nat, caps: Caps): Outcome
    requires ItemsOk(items) && p <= |s|
    decreases |items|, 1, 0
  {
    if items == [] then Accept([], p, caps)
    else if Stuck(items[0], s, caps) then Hang([])
    else Try(items, s, p, caps, Most(items[0], s, p, caps))
  }

  /** Tries `k`, then every smaller count down to the least. */
  function Try(items: seq<Item>, s: seq<byte>, p: nat, caps: Caps, k: int): Outcome
    requires ItemsOk(items) && items != [] && p <= |s| && !Stuck(items[0], s, caps)
    requires k <= Most(items[0], s, p, caps)
    decreases |items|, 0, k + 1
  {
    if k < Least(items[0]) then Reject
    else
      TakeRange(items[0], s, p, caps, k);
      var o := Search(items[1..], s, After(items[0], s, p, caps, k), Marked(items[0], p, caps));
      if o.Reject? then Try(items, s, p, caps, k - 1) else Prepend(k, o)
  }

  // ----- the search finds the greatest event -----

  ghost predicate Good(items: seq<Item>, s: seq<byte>, p: nat, caps: Caps, o: Outcome)
    requires ItemsOk(items)
  {
    match o
    case Accept(ks, end, caps') =>
      && Accepts(items, s, p, caps, ks)
      && end == EndOf(items, s, p, caps, ks)
      && caps' == CapsOf(items, s, p, caps, ks)
    case Hang(ks) => Hangs(items, s, p, caps, ks)
    case Reject => true
  }

  lemma {:induction false} SearchSound(items: seq<Item>, s: seq<byte>, p: nat, caps: Caps)
    requires ItemsOk(items) && p <= |s|
    ensures Good(items, s, p, caps, Search(items, s, p, caps))
    decreases |items|, 1, 0
  {
    if items != [] && !Stuck(items[0], s, caps) {
      TrySound(items, s, p, caps, Most(items[0], s, p, caps));
    }
  }

  lemma {:induction false} TrySound(items: seq<Item>, s: seq<byte>, p: nat, caps: Caps, k: int)
    requires ItemsOk(items) && items != [] && p <= |s| && !Stuck(items[0], s, caps)
    requires k <= Most(items[0], s, p, caps)
    ensures Good(items, s, p, caps, Try(items, s, p, caps, k))
    decreases |items|, 0, k + 1
  {
    if k >= Least(items[0]) {
      TakeRange(items[0], s, p, caps, k);
      var p', caps' := After(items[0], s, p, caps, k), Marked(items[0], p, caps);
      SearchSound(items[1..], s, p', caps');
      var o := Search(items[1..], s, p', caps');
      if o.Reject? {
        TrySound(items, s, p, caps, k - 1);
      } else {
        assert ([k] + o.ks)[1..] == o.ks;
      }
    }
  }

  /** `o` is an event at least as early as `ks` in the order of the search. */
  predicate Earlier(o: Outcome, ks: seq<nat>) {
    !o.Reject? && NotAfter(o.ks, ks)
  }

  lemma {:induction false} SearchGreatest(items: seq<Item>, s: seq<byte>, p: nat, caps: Caps, ks: seq<nat>)
    requires ItemsOk(items) && p <= |s|
    requires Event(items, s, p, caps, ks)
    ensures Earlier(Search(items, s, p, caps), ks)
    decreases |items|, 1, 0
  {
    if items != [] && !Stuck(items[0], s, caps) {
      TakeRange(items[0], s, p, caps, ks[0]);
      TryGreatest(items, s, p, caps, Most(items[0], s, p, caps), ks);
    }
  }

  lemma {:induction false} TryGreatest(items: seq<Item>, s: seq<byte>, p: nat, caps: Caps, k: int, ks: seq<nat>)
    requires ItemsOk(items) && items != [] && p <= |s| && !Stuck(items[0], s, caps)
    requires Event(items, s, p, caps, ks)
    requires ks[0] <= k <= Most(items[0], s, p, caps)
    ensures Earlier(Try(items, s, p, caps, k), ks)
    decreases |items|, 0, k + 1
  {
    TakeRange(items[0], s, p, caps, ks[0]);
    TakeRange(items[0], s, p, caps, k);
    var p', caps' := After(items[0], s, p, caps, k), Marked(items[0], p, caps);
    var o := Search(items[1..], s, p', caps');
    if k == ks[0] {
      SearchGreatest(items[1..], s, p', caps', ks[1..]);
    } else if o.Reject? {
      TryGreatest(items, s, p, caps, k - 1, ks);
    }
    if !o.Reject? { assert ([k] + o.ks)[1..] == o.ks; }
  }

  /** `ks` comes before every other event. */
  ghost predicate Foremost(items: seq<Item>, s: seq<byte>, p: nat, caps: Caps, ks: seq<nat>)
    requires ItemsOk(items)
  {
    forall ks' :: Event(items, s, p, caps, ks') ==> NotAfter(ks, ks')
  }

  /** The search succeeds exactly when some choice of counts matches and no stuck
      back-reference comes before all such choices. */
  lemma SearchDecides(items: seq<Item>, s: seq<byte>, p: nat, caps: Caps)
    requires ItemsOk(items) && p <= |s|
    ensures Search(items, s, p, caps).Reject? <==> forall ks: seq<nat> :: !Event(items, s, p, caps, ks)
    ensures Search(items, s, p, caps).Accept? <==>
            exists ks: seq<nat> :: Accepts(items, s, p, caps, ks) && Foremost(items, s, p, caps, ks)
    ensures Search(items, s, p, caps).Hang? <==>
            exists ks: seq<nat> :: Hangs(items, s, p, caps, ks) && Foremost(items, s, p, caps, ks)
  {
    SearchSound(items, s, p, caps);
    var o := Search(items, s, p, caps);
    forall ks | Event(items, s, p, caps, ks)
      ensures Earlier(o, ks)
    {
      SearchGreatest(items, s, p, caps, ks);
    }
    if !o.Reject? {
      assert Event(items, s, p, caps, o.ks) && Foremost(items, s, p, caps, o.ks);
      forall ks | Event(items, s, p, caps, ks) && Foremost(items, s, p, caps, ks)
        ensures ks == o.ks
      {
        NotAfterAntisymmetric(ks, o.ks);
      }
      AcceptOrHang(items, s, p, caps, o.ks);
    }
    assert forall ks: seq<nat> :: Accepts(items, s, p, caps, ks) ==> Event(items, s, p, caps, ks);
    assert forall ks: seq<nat> :: Hangs(items, s, p, caps, ks) ==> Event(items, s, p, caps, ks);
  }

  lemma {:induction false} NotAfterAntisymmetric(a: seq<nat>, b: seq<nat>)
    requires NotAfter(a, b) && NotAfter(b, a)
    ensures a == b
  {
    if a != b {
      NotAfterAntisymmetric(a[1..], b[1..]);
    }
  }

  lemma {:induction false} AcceptOrHang(items: seq<Item>, s: seq<byte>, p: nat, caps: Caps, ks: seq<nat>)
    requires ItemsOk(items)
    ensures !(Accepts(items, s, p, caps, ks) && Hangs(items, s, p, caps, ks))
  {
    if items != [] && ks != [] && CanTake(items[0], s, p, caps, ks[0]) {
      AcceptOrHang(items[1..], s, After(items[0], s, p, caps, ks[0]), Marked(items[0], p, caps), ks[1..]);
    }
  }
}
