/** The matcher of usr/src/head/regexp.h: `advance` interprets the byte program with
    recursive backtracking, `step` looks for the leftmost place where it succeeds.

    `Looping` stands for a call that does not return: a starred back-reference to an empty
    capture spins in its scanning loop. */
module RegexAdvance {
  import opened Bytes
  import opened RegexProgram
  import opened Wrappers
  import opened RegexMatch
  import opened RegexCaptures

  datatype Verdict = Found | Absent | Looping

  /** The bytes of `prog` from `ep` on are the program of `items`. */
  predicate Holds(prog: seq<byte>, ep: nat, items: seq<Item>) {
    ep <= |prog| && prog[ep..] == Code(items)
  }

  /** The one-character tests, on the bytes: `op` is the opcode without STAR or RNGE. */
  predicate Passes(prog: seq<byte>, at: nat, op: byte, c: byte)
    requires op in {CCHR, CDOT, CCL, NCCL, CXCL} && at + CoreLength(op) <= |prog|
  {
    if op == CCHR then prog[at] == c
    else if op == CDOT then c != 0
    else if op == CXCL then Bit(prog[at + c / 8], c % 8)
    else (c < 128 && Bit(prog[at + c / 8], c % 8)) != (op == NCCL)
  }

  /** The payload of `core` lies at `at`. */
  predicate Stored(prog: seq<byte>, at: nat, core: Core) {
    at + |Payload(core)| <= |prog| && prog[at..at + |Payload(core)|] == Payload(core)
  }

  lemma PassesIsHas(prog: seq<byte>, at: nat, core: Core, c: byte)
    requires OneChar(core) && CoreOk(core) && Stored(prog, at, core)
    ensures CoreLength(BaseOp(core)) == |Payload(core)|
    ensures Passes(prog, at, BaseOp(core), c) <==> Has(core, c)
  {
    if core.Chr? {
      assert prog[at..at + 1][0] == prog[at];
    } else if core.Bracket? && c / 8 < |core.bits| {
      assert prog[at..at + |core.bits|][c / 8] == prog[at + c / 8];
    }
  }

  lemma Slice(prog: seq<byte>, ep: nat, head: seq<byte>, tail: seq<byte>, i: nat, j: nat)
    requires ep <= |prog| && prog[ep..] == head + tail && i <= j <= |head|
    ensures ep + |head| <= |prog| && prog[ep + |head|..] == tail
    ensures prog[ep + i..ep + j] == head[i..j]
    ensures i < j ==> prog[ep + i] == head[i]
  {
    assert |prog| - ep == |head| + |tail|;
    forall k | 0 <= k < |head| + |tail| ensures prog[ep + k] == (head + tail)[k] {
      assert prog[ep..][k] == prog[ep + k];
    }
    forall k | 0 <= k < |tail| ensures prog[ep + |head|..][k] == tail[k] {
      assert (head + tail)[|head| + k] == tail[k];
    }
    forall k | 0 <= k < j - i ensures prog[ep + i..ep + j][k] == head[i..j][k] {
      assert (head + tail)[i + k] == head[i + k];
    }
  }

  /** Where the item after `it` starts. */
  function Next(ep: nat, it: Item): nat { ep + 1 + |Payload(it.core)| + 2 * |it.ivs| }

  /** The bytes of one item at `ep`, in front of `tail`. */
  lemma {:induction false} ItemBytes(prog: seq<byte>, ep: nat, it: Item, head: seq<byte>, tail: seq<byte>)
    requires ItemOk(it) && head == EncodeItem(it) && ep <= |prog| && prog[ep..] == head + tail
    ensures ep < |prog| && prog[ep] == Opcode(it) && Stored(prog, ep + 1, it.core)
    ensures ep + |head| <= |prog| && prog[ep + |head|..] == tail
  {
    var n := |Payload(it.core)|;
    ItemLayout(it);
    Slice(prog, ep, head, tail, 0, 1);
    Slice(prog, ep, head, tail, 1, 1 + n);
  }

  lemma {:induction false} BoundBytes(prog: seq<byte>, ep: nat, it: Item, head: seq<byte>, tail: seq<byte>)
    requires ItemOk(it) && it.ivs != [] && head == EncodeItem(it) && ep <= |prog| && prog[ep..] == head + tail
    ensures var at := ep + 1 + |Payload(it.core)|;
            at + 1 < |prog| && prog[at] == it.ivs[0].0 && prog[at + 1] == it.ivs[0].1
  {
    var n := |Payload(it.core)|;
    ItemLayout(it);
    Slice(prog, ep, head, tail, 1 + n, 2 + n);
    Slice(prog, ep, head, tail, 2 + n, 3 + n);
  }

  lemma {:induction false} HeadSplit(prog: seq<byte>, ep: nat, items: seq<Item>)
    returns (head: seq<byte>, tail: seq<byte>)
    requires Holds(prog, ep, items) && ItemsOk(items) && items != []
    ensures head == EncodeItem(items[0]) && tail == Code(items[1..]) && ep <= |prog| && prog[ep..] == head + tail
    ensures Next(ep, items[0]) == ep + |head| && tail != []
  {
    head, tail := EncodeItem(items[0]), Code(items[1..]);
    CodeSplit(items);
    ItemLayout(items[0]);
  }

  lemma {:induction false} HeadOf(prog: seq<byte>, ep: nat, items: seq<Item>)
    requires Holds(prog, ep, items) && ItemsOk(items) && items != []
    ensures ep < |prog| && prog[ep] == Opcode(items[0])
    ensures Stored(prog, ep + 1, items[0].core)
    ensures var at := ep + 1 + |Payload(items[0].core)|;
            && (items[0].ivs != [] ==>
                  at + 1 < |prog| && prog[at] == items[0].ivs[0].0 && prog[at + 1] == items[0].ivs[0].1)
    ensures Next(ep, items[0]) < |prog| && Holds(prog, Next(ep, items[0]), items[1..])
  {
    var head, tail := HeadSplit(prog, ep, items);
    ItemBytes(prog, ep, items[0], head, tail);
    if items[0].ivs != [] { BoundBytes(prog, ep, items[0], head, tail); }
  }

  /** Two outcomes that look the same to the caller of `advance`. */
  predicate Alike(o: Outcome, o': Outcome) {
    match o
    case Accept(_, end, caps) => o'.Accept? && o'.end == end && o'.caps == caps
    case Reject => o'.Reject?
    case Hang(_) => o'.Hang?
  }

  lemma TakeChar(it: Item, s: seq<byte>, p: nat, caps: Caps)
    requires ItemOk(it) && OneChar(it.core) && !it.star && it.ivs == [] && p <= |s|
    ensures CanTake(it, s, p, caps, Least(it)) <==> Has(it.core, At(s, p))
    ensures After(it, s, p, caps, Least(it)) == p + 1
  {
  }

  lemma TakeBack(it: Item, s: seq<byte>, p: nat, caps: Caps)
    requires ItemOk(it) && it.core.Back? && !it.star && p <= |s|
    ensures var w := Word(s, caps, it.core.slot);
            && (CanTake(it, s, p, caps, Least(it)) <==> p + |w| <= |s| && w == s[p..p + |w|])
            && After(it, s, p, caps, Least(it)) == p + |w|
  {
    var w := Word(s, caps, it.core.slot);
    assert Times(1, |w|) == |w| + Times(0, |w|);
    assert Repeats(w, s, p, 1) <==> p + |w| <= |s| && s[p..p + |w|] == w && Repeats(w, s, p + |w|, 0);
  }

  /** An item without star or interval leaves the search no choice. */
  lemma Forced(items: seq<Item>, s: seq<byte>, p: nat, caps: Caps)
    requires ItemsOk(items) && items != [] && p <= |s| && !items[0].star && items[0].ivs == []
    ensures !CanTake(items[0], s, p, caps, Least(items[0])) ==> Search(items, s, p, caps).Reject?
    ensures CanTake(items[0], s, p, caps, Least(items[0])) ==>
              && p <= After(items[0], s, p, caps, Least(items[0])) <= |s|
              && Alike(Search(items, s, p, caps),
                       Search(items[1..], s, After(items[0], s, p, caps, Least(items[0])), Marked(items[0], p, caps)))
  {
    var k: int := Least(items[0]);
    TakeRange(items[0], s, p, caps, k);
    var m := Most(items[0], s, p, caps);
    assert m <= k;
    assert Search(items, s, p, caps) == Try(items, s, p, caps, m);
    if m == k {
      var o := Search(items[1..], s, After(items[0], s, p, caps, k), Marked(items[0], p, caps));
      assert Try(items, s, p, caps, k) == if o.Reject? then Try(items, s, p, caps, k - 1) else Prepend(k, o);
    }
  }

  lemma TooShort(items: seq<Item>, s: seq<byte>, p: nat, caps: Caps)
    requires ItemsOk(items) && items != [] && p <= |s| && OneChar(items[0].core)
    requires Run(items[0].core, s, p) < Least(items[0])
    ensures Search(items, s, p, caps).Reject?
  {
    assert Search(items, s, p, caps) == Try(items, s, p, caps, Most(items[0], s, p, caps));
  }

  /** What the caller of `advance` sees, against the outcome `o` of the search: on success
      `loc2` and the marks are those of the match found; on failure `loc2` is untouched and
      only marks that `items` write have changed. */
  predicate Settled(v: Verdict, o: Outcome, items: seq<Item>, caps: Caps, caps': Caps, loc2: int, loc2': int) {
    match v
    case Found => o.Accept? && loc2' == o.end && caps' == o.caps
    case Absent => o.Reject? && loc2' == loc2 && DiffOnly(items, caps, caps')
    case Looping => o.Hang?
  }

  /** Failed attempts leave the marks made before them alone. */
  lemma BehindDebris(items: seq<Item>, begun: set<slot>, closed: set<slot>, c1: Caps, c2: Caps, p: nat)
    requires Guarded(items, begun, closed) && DiffOnly(items, c1, c2) && Behind(begun, closed, c1, p)
    ensures Behind(begun, closed, c2, p)
  {
    GuardedWritesFresh(items, begun, closed);
  }

  /** The state of the loop of `advance`: some items that left no choice have been passed,
      `its` remain. */
  ghost predicate Underway(items: seq<Item>, s: seq<byte>, goal: Outcome, caps: Caps,
                           its: seq<Item>, p: nat, now: Caps, begun: set<slot>, closed: set<slot>)
  {
    && ItemsOk(its) && p <= |s|
    && Bras(its) <= Bras(items) && Kets(its) <= Kets(items)
    && Guarded(its, begun, closed) && Behind(begun, closed, now, p)
    && Alike(goal, Search(its, s, p, now))
    && DiffOnly(items, caps, now)
  }

  lemma UnderwayNext(items: seq<Item>, s: seq<byte>, goal: Outcome, caps: Caps,
                     its: seq<Item>, p: nat, now: Caps, begun: set<slot>, closed: set<slot>)
    requires its != [] && !its[0].star && its[0].ivs == []
    requires Underway(items, s, goal, caps, its, p, now, begun, closed)
    ensures var it := its[0];
            var k := Least(it);
            if CanTake(it, s, p, now, k) then
              Underway(items, s, goal, caps, its[1..], After(it, s, p, now, k), Marked(it, p, now),
                       Begun(it, begun), Closed(it, closed))
            else goal.Reject?
  {
    Forced(its, s, p, now);
    if CanTake(its[0], s, p, now, Least(its[0])) {
      BehindNext(its[0], begun, closed, now, p, After(its[0], s, p, now, Least(its[0])));
      DiffOnlySelf(its, p, now);
      DiffOnlyTransitive(items, caps, now, Marked(its[0], p, now));
    }
  }

  /** The first item with a choice settles the whole. */
  lemma UnderwayEnd(v: Verdict, items: seq<Item>, s: seq<byte>, goal: Outcome, caps: Caps,
                    its: seq<Item>, p: nat, now: Caps, begun: set<slot>, closed: set<slot>,
                    caps': Caps, loc2: int, loc2': int)
    requires Underway(items, s, goal, caps, its, p, now, begun, closed)
    requires Settled(v, Search(its, s, p, now), its, now, caps', loc2, loc2')
    ensures Settled(v, goal, items, caps, caps', loc2, loc2')
  {
    if v.Absent? { DiffOnlyTransitive(items, caps, now, caps'); }
  }

  /** The state of the loops that try one end after the other: counts above `k` have failed. */
  ghost predicate Trying(items: seq<Item>, s: seq<byte>, p: nat, goal: Outcome, caps: Caps,
                         k: int, now: Caps, begun: set<slot>, closed: set<slot>)
  {
    && items != [] && ItemsOk(items) && (OneChar(items[0].core) || items[0].core.Back?)
    && p <= |s| && !Stuck(items[0], s, caps) && k <= Most(items[0], s, p, caps)
    && goal == Try(items, s, p, caps, k)
    && Guarded(items[1..], begun, closed) && Behind(begun, closed, now, p)
    && DiffOnly(items[1..], caps, now)
  }

  lemma TryingFits(items: seq<Item>, s: seq<byte>, p: nat, goal: Outcome, caps: Caps,
                   k: nat, now: Caps, begun: set<slot>, closed: set<slot>)
    requires Trying(items, s, p, goal, caps, k, now, begun, closed) && k >= Least(items[0])
    ensures p <= After(items[0], s, p, caps, k) <= |s|
    ensures Behind(begun, closed, now, After(items[0], s, p, caps, k))
  {
    TakeRange(items[0], s, p, caps, k);
  }

  lemma TryingNext(v: Verdict, items: seq<Item>, s: seq<byte>, p: nat, goal: Outcome, caps: Caps,
                   k: nat, now: Caps, begun: set<slot>, closed: set<slot>, now': Caps, loc2: int, loc2': int)
    requires Trying(items, s, p, goal, caps, k, now, begun, closed) && k >= Least(items[0])
    requires After(items[0], s, p, caps, k) <= |s|
    requires Settled(v, Search(items[1..], s, After(items[0], s, p, caps, k), now), items[1..], now, now', loc2, loc2')
    ensures if v.Absent? then Trying(items, s, p, goal, caps, k - 1, now', begun, closed) && loc2' == loc2
            else Settled(v, goal, items, caps, now', loc2, loc2')
  {
    var rest, p' := items[1..], After(items[0], s, p, caps, k);
    SearchIgnoresDebris(rest, s, p', caps, now, begun, closed);
    assert Marked(items[0], p, caps) == caps;
    if v.Absent? {
      DiffOnlyTransitive(rest, caps, now, now');
      BehindDebris(rest, begun, closed, now, now', p);
    }
  }

  lemma TryingEnd(items: seq<Item>, s: seq<byte>, p: nat, goal: Outcome, caps: Caps,
                  k: int, now: Caps, begun: set<slot>, closed: set<slot>, loc2: int)
    requires Trying(items, s, p, goal, caps, k, now, begun, closed) && k < Least(items[0])
    ensures Settled(Absent, goal, items, caps, now, loc2, loc2)
  {
    DiffOnlySuffix(items, 1, caps, now);
  }

  lemma SlotByte(prog: seq<byte>, ep: nat, core: Core)
    requires Stored(prog, ep + 1, core) && (core.Bra? || core.Ket? || core.Back?)
    ensures prog[ep + 1] == core.slot
  {
    assert prog[ep + 1..ep + 2][0] == prog[ep + 1];
  }

  /** What the caller of `step` sees: the leftmost position from which the search does not
      fail decides. */
  ghost predicate Located(v: Verdict, items: seq<Item>, s: seq<byte>, caps: Caps, caps': Caps,
                          loc1: int, loc1': int, loc2: int, loc2': int)
    requires ItemsOk(items)
  {
    match v
    case Found =>
      && 0 <= loc1' <= |s|
      && Settled(v, Search(items, s, loc1', caps), items, caps, caps', loc2, loc2')
      && (forall q: nat :: q < loc1' ==> Search(items, s, q, caps).Reject?)
    case Absent =>
      && (forall q: nat :: q <= |s| ==> Search(items, s, q, caps).Reject?)
      && loc1' == loc1 && loc2' == loc2
    case Looping =>
      exists q: nat :: q <= |s| && Search(items, s, q, caps).Hang? &&
        forall r: nat :: r < q ==> Search(items, s, r, caps).Reject?
  }

  /** The loop of `step` has failed at every position before `p`. */
  ghost predicate Seeking(items: seq<Item>, s: seq<byte>, caps: Caps, now: Caps, p: nat)
    requires ItemsOk(items)
  {
    && Guarded(items, {}, {}) && p <= |s| && DiffOnly(items, caps, now)
    && forall q: nat :: q < p ==> Search(items, s, q, caps).Reject?
  }

  lemma SeekingNext(v: Verdict, items: seq<Item>, s: seq<byte>, caps: Caps, now: Caps, p: nat,
                    now': Caps, loc1: int, loc2: int, loc2': int)
    requires ItemsOk(items) && Seeking(items, s, caps, now, p)
    requires Settled(v, Search(items, s, p, now), items, now, now', loc2, loc2')
    ensures if v.Absent? then
              && DiffOnly(items, caps, now')
              && (forall q: nat :: q <= p ==> Search(items, s, q, caps).Reject?)
            else Located(v, items, s, caps, now', loc1, p, loc2, loc2')
  {
    SearchIgnoresDebris(items, s, p, caps, now, {}, {});
    if v.Absent? { DiffOnlyTransitive(items, caps, now, now'); }
  }

  /** The first-character check skips only positions where the search fails. */
  lemma FirstCharacter(items: seq<Item>, s: seq<byte>, p: nat, caps: Caps)
    requires ItemsOk(items) && p <= |s| && items != [] && items[0].core.Chr? && !items[0].star && items[0].ivs == []
    requires At(s, p) != items[0].core.c
    ensures Search(items, s, p, caps).Reject?
  {
    Forced(items, s, p, caps);
    TakeChar(items[0], s, p, caps);
  }

  /** For a pattern with no starred reference to a possibly empty group, `step` finds a
      match exactly when there is one, and the leftmost one. */
  lemma StepDecides(v: Verdict, items: seq<Item>, s: seq<byte>, caps: Caps, caps': Caps,
                    loc1: int, loc1': int, loc2: int, loc2': int)
    requires ItemsOk(items) && Guarded(items, {}, {}) && Solid(items, {}, {}, {})
    requires Located(v, items, s, caps, caps', loc1, loc1', loc2, loc2')
    ensures !v.Looping?
    ensures v.Found? <==> exists q: nat :: q <= |s| && Matches(items, s, q, caps)
    ensures v.Found? ==> forall q: nat :: q <= |s| && Matches(items, s, q, caps) ==> loc1' <= q
  {
    forall q: nat | q <= |s|
      ensures !Search(items, s, q, caps).Hang?
      ensures Search(items, s, q, caps).Accept? <==> Matches(items, s, q, caps)
    {
      SolidDecides(items, s, q, caps);
    }
  }

  /** The word a guarded back-reference repeats. */
  lemma BackWord(items: seq<Item>, s: seq<byte>, p: nat, caps: Caps, begun: set<slot>, closed: set<slot>)
    requires ItemsOk(items) && items != [] && items[0].core.Back? && p <= |s|
    requires Guarded(items, begun, closed) && Behind(begun, closed, caps, p)
    ensures Guarded(items[1..], begun, closed)
    ensures var i := items[0].core.slot;
            0 <= caps.b[i] <= caps.e[i] <= |s| && Word(s, caps, i) == s[caps.b[i]..caps.e[i]]
  {
  }

  class Matcher {
    const braslist: array<int>
    const braelist: array<int>
    var loc1: int
    var loc2: int
    var low: int
    var size: int

    ghost predicate Ready() {
      braslist.Length == 9 && braelist.Length == 9 && braslist != braelist
    }

    ghost function Now(): Caps
      requires Ready()
      reads braslist, braelist
    {
      Marks(braslist[..], braelist[..])
    }

    /** What `advance` needs: `items` lie at `ep`, and the groups that the rest of the
        program relies on were marked in the text before `lp`. */
    ghost predicate Poised(s: seq<byte>, lp: nat, prog: seq<byte>, ep: nat,
                           items: seq<Item>, begun: set<slot>, closed: set<slot>)
      reads braslist, braelist
    {
      && Ready() && IsText(s) && lp <= |s|
      && Holds(prog, ep, items) && ItemsOk(items)
      && Guarded(items, begun, closed) && Behind(begun, closed, Now(), lp)
    }

    constructor ()
      ensures Ready() && fresh(braslist) && fresh(braelist)
    {
      braslist := new int[9];
      braelist := new int[9];
      loc1, loc2, low, size := 0, 0, 0, 0;
    }

    /** `getrnge`: how many characters must match, and how many more may. */
    method GetRange(prog: seq<byte>, at: nat, ghost it: Item)
      requires ItemOk(it) && it.ivs != [] && at + 1 < |prog|
      requires prog[at] == it.ivs[0].0 && prog[at + 1] == it.ivs[0].1
      modifies this`low, this`size
      ensures low == Least(it) && Limit(it) == Some(low + size) && size >= 0
    {
      low := prog[at];
      size := if prog[at + 1] == 255 then 20000 else prog[at + 1] - prog[at];
    }

    /** The scan of a starred one-character item, up to and including the first misfit. */
    method Scan(s: seq<byte>, start: nat, prog: seq<byte>, at: nat, op: byte, ghost core: Core)
      returns (lp: nat)
      requires IsText(s) && start <= |s|
      requires OneChar(core) && CoreOk(core) && Stored(prog, at, core) && op == BaseOp(core)
      ensures lp == start + Run(core, s, start) + 1
    {
      PassesIsHas(prog, at, core, 0);
      lp := start;
      while true
        invariant start <= lp <= |s|
        invariant Run(core, s, start) == lp - start + Run(core, s, lp)
        decreases |s| - lp
      {
        var c := At(s, lp);
        PassesIsHas(prog, at, core, c);
        lp := lp + 1;
        if !Passes(prog, at, op, c) { break; }
      }
    }

    /** The `low` and `size` countdowns of an interval.  `lp` ends one past the last
        character that may be taken, as the star loop expects. */
    method ScanRange(s: seq<byte>, start: nat, prog: seq<byte>, at: nat, op: byte, ghost it: Item)
      returns (ok: bool, curlp: nat, lp: nat)
      requires IsText(s) && start <= |s|
      requires ItemOk(it) && it.ivs != [] && Stored(prog, at, it.core) && op == BaseOp(it.core)
      requires at + CoreLength(op) + 1 < |prog|
      requires prog[at + CoreLength(op)] == it.ivs[0].0 && prog[at + CoreLength(op) + 1] == it.ivs[0].1
      modifies this`low, this`size
      ensures ok <==> Least(it) <= Run(it.core, s, start)
      ensures ok ==> curlp == start + Least(it)
      ensures ok ==> lp == start + MostChars(it, s, start) + 1
    {
      PassesIsHas(prog, at, it.core, 0);
      GetRange(prog, at + CoreLength(op), it);
      ghost var more := size;
      lp, curlp := start, start;
      ghost var run := Run(it.core, s, start);
      while low != 0
        invariant start <= lp <= |s| && low >= 0 && lp - start + low == Least(it)
        invariant run == lp - start + Run(it.core, s, lp)
        invariant size == more
        decreases low
      {
        low := low - 1;
        var c := At(s, lp);
        PassesIsHas(prog, at, it.core, c);
        lp := lp + 1;
        if !Passes(prog, at, op, c) { return false, curlp, lp; }
      }
      low := -1;
      curlp := lp;
      ok := true;
      var stopped := false;
      while size != 0 && !stopped
        invariant curlp <= lp <= |s| + 1 && size >= 0
        invariant stopped ==> lp == start + run + 1 && start + run < curlp + more
        invariant !stopped ==> lp - curlp + size == more && lp <= |s| && run == lp - start + Run(it.core, s, lp)
        decreases size, !stopped
      {
        size := size - 1;
        var c := At(s, lp);
        PassesIsHas(prog, at, it.core, c);
        lp := lp + 1;
        if !Passes(prog, at, op, c) { stopped := true; }
      }
      if !stopped {
        size := -1;
        lp := lp + 1;
      }
    }

    /** The opcodes that leave no choice. */
    method Single(s: seq<byte>, lp: nat, prog: seq<byte>, ep: nat,
                  ghost items: seq<Item>, ghost begun: set<slot>, ghost closed: set<slot>)
      returns (ok: bool, lp': nat, ep': nat)
      requires Poised(s, lp, prog, ep, items, begun, closed) && items != [] && !items[0].star && items[0].ivs == []
      modifies braslist, braelist
      ensures ok <==> CanTake(items[0], s, lp, old(Now()), Least(items[0]))
      ensures ok ==> lp' == After(items[0], s, lp, old(Now()), Least(items[0])) && ep' == Next(ep, items[0])
      ensures ok ==> Now() == Marked(items[0], lp, old(Now()))
      ensures !ok ==> Now() == old(Now())
    {
      HeadOf(prog, ep, items);
      OpcodeTells(items[0]);
      var op := prog[ep];
      ok, lp', ep' := true, lp, ep + 1;
      if op in {CCHR, CDOT, CXCL, NCCL, CCL} {
        var c := At(s, lp);
        PassesIsHas(prog, ep + 1, items[0].core, c);
        TakeChar(items[0], s, lp, Now());
        ok := Passes(prog, ep + 1, op, c);
        lp' := lp + 1;
        ep' := ep' + CoreLength(op);
      } else if op == CDOL {
        ok := lp == |s|;
      } else if op == CBRA {
        SlotByte(prog, ep, items[0].core);
        braslist[prog[ep + 1]] := lp;
        ep' := ep' + 1;
      } else if op == CKET {
        SlotByte(prog, ep, items[0].core);
        braelist[prog[ep + 1]] := lp;
        ep' := ep' + 1;
      } else {
        SlotByte(prog, ep, items[0].core);
        var bbeg := braslist[prog[ep + 1]];
        var ct := braelist[prog[ep + 1]] - bbeg;
        ep' := ep' + 1;
        assert Word(s, Now(), items[0].core.slot) == s[bbeg..bbeg + ct];
        TakeBack(items[0], s, lp, Now());
        ok := lp + ct <= |s| && s[bbeg..bbeg + ct] == s[lp..lp + ct];
        lp' := lp + ct;
      }
    }

    /** The opcodes with RNGE in them. */
    method Range(s: seq<byte>, lp: nat, prog: seq<byte>, ep: nat,
                 ghost items: seq<Item>, ghost begun: set<slot>, ghost closed: set<slot>)
      returns (v: Verdict)
      requires Poised(s, lp, prog, ep, items, begun, closed) && items != [] && items[0].ivs != []
      modifies this`loc2, this`low, this`size, braslist, braelist
      ensures Settled(v, Search(items, s, lp, old(Now())), items, old(Now()), Now(), old(loc2), loc2)
      decreases |prog| - ep, 0
    {
      HeadOf(prog, ep, items);
      OpcodeTells(items[0]);
      PassesIsHas(prog, ep + 1, items[0].core, 0);
      var op := prog[ep] - 3;
      ghost var caps := Now();
      var ok, curlp, past := ScanRange(s, lp, prog, ep + 1, op, items[0]);
      assert Now() == caps;
      if !ok {
        TooShort(items, s, lp, caps);
        return Absent;
      }
      v := Star(s, past, curlp, prog, ep + 3 + CoreLength(op), items, lp, begun, closed);
    }

    /** `CBACK | STAR`. */
    method StarredBack(s: seq<byte>, lp: nat, prog: seq<byte>, ep: nat,
                       ghost items: seq<Item>, ghost begun: set<slot>, ghost closed: set<slot>)
      returns (v: Verdict)
      requires Poised(s, lp, prog, ep, items, begun, closed) && items != [] && items[0].core.Back? && items[0].star
      modifies this`loc2, this`low, this`size, braslist, braelist
      ensures Settled(v, Search(items, s, lp, old(Now())), items, old(Now()), Now(), old(loc2), loc2)
      decreases |prog| - ep, 0
    {
      HeadOf(prog, ep, items);
      SlotByte(prog, ep, items[0].core);
      var bbeg := braslist[prog[ep + 1]];
      var ct := braelist[prog[ep + 1]] - bbeg;
      BackWord(items, s, lp, Now(), begun, closed);
      if ct == 0 { return Looping; }
      v := BackStar(s, lp, bbeg, ct, prog, ep + 2, items, begun, closed);
    }

    /** The one-character opcodes with STAR in them. */
    method Starred(s: seq<byte>, lp: nat, prog: seq<byte>, ep: nat,
                   ghost items: seq<Item>, ghost begun: set<slot>, ghost closed: set<slot>)
      returns (v: Verdict)
      requires Poised(s, lp, prog, ep, items, begun, closed) && items != [] && OneChar(items[0].core) && items[0].star
      modifies this`loc2, this`low, this`size, braslist, braelist
      ensures Settled(v, Search(items, s, lp, old(Now())), items, old(Now()), Now(), old(loc2), loc2)
      decreases |prog| - ep, 0
    {
      HeadOf(prog, ep, items);
      OpcodeTells(items[0]);
      PassesIsHas(prog, ep + 1, items[0].core, 0);
      var op := prog[ep] - 1;
      var past := Scan(s, lp, prog, ep + 1, op, items[0].core);
      v := Star(s, past, lp, prog, ep + 1 + CoreLength(op), items, lp, begun, closed);
    }

    /** `advance`: 1, 0 or no return, exactly as the search decides. */
    method Advance(s: seq<byte>, start: nat, prog: seq<byte>, from: nat,
                   ghost items: seq<Item>, ghost begun: set<slot>, ghost closed: set<slot>)
      returns (v: Verdict)
      requires Poised(s, start, prog, from, items, begun, closed)
      modifies this`loc2, this`low, this`size, braslist, braelist
      ensures Settled(v, Search(items, s, start, old(Now())), items, old(Now()), Now(), old(loc2), loc2)
      decreases |prog| - from, 1
    {
      var lp, ep := start, from;
      ghost var its := items;
      ghost var bg: set<slot>, cl: set<slot> := begun, closed;
      ghost var caps := Now();
      ghost var now := caps;
      ghost var goal := Search(items, s, start, caps);
      while prog[ep] != CCEOF
        invariant from <= ep < |prog| && now == Now() && loc2 == old(loc2)
        invariant Underway(items, s, goal, caps, its, lp, now, bg, cl)
        invariant Holds(prog, ep, its)
        decreases |prog| - ep
      {
        HeadOf(prog, ep, its);
        OpcodeTells(its[0]);
        var op := prog[ep];
        if op % 2 == 1 {
          if op in {OrRnge(CCHR), OrRnge(CDOT), OrRnge(CXCL), OrRnge(NCCL), OrRnge(CCL)} {
            v := Range(s, lp, prog, ep, its, bg, cl);
          } else if op == OrStar(CBACK) {
            v := StarredBack(s, lp, prog, ep, its, bg, cl);
          } else {
            v := Starred(s, lp, prog, ep, its, bg, cl);
          }
          UnderwayEnd(v, items, s, goal, caps, its, lp, now, bg, cl, Now(), old(loc2), loc2);
          return;
        }
        UnderwayNext(items, s, goal, caps, its, lp, now, bg, cl);
        var ok;
        ok, lp, ep := Single(s, lp, prog, ep, its, bg, cl);
        if !ok { return Absent; }
        bg, cl := Begun(its[0], bg), Closed(its[0], cl);
        now, its := Now(), its[1..];
      }
      loc2 := lp;
      v := Found;
    }

    /** `step` */
    method Step(s: seq<byte>, prog: seq<byte>, circf: bool, ghost items: seq<Item>) returns (v: Verdict)
      requires Ready() && IsText(s)
      requires Holds(prog, 0, items) && ItemsOk(items) && Guarded(items, {}, {})
      modifies this, braslist, braelist
      ensures circf ==> loc1 == 0 &&
                        Settled(v, Search(items, s, 0, old(Now())), items, old(Now()), Now(), old(loc2), loc2)
      ensures !circf ==> Located(v, items, s, old(Now()), Now(), old(loc1), loc1, old(loc2), loc2)
    {
      if circf {
        loc1 := 0;
        v := Advance(s, 0, prog, 0, items, {}, {});
        return;
      }
      if items != [] {
        HeadOf(prog, 0, items);
        OpcodeTells(items[0]);
      }
      ghost var caps := Now();
      ghost var now := caps;
      var p1 := 0;
      if prog[0] == CCHR {
        assert prog[1..2][0] == prog[1];
        var c := prog[1];
        while true
          invariant Seeking(items, s, caps, now, p1) && now == Now() && loc1 == old(loc1) && loc2 == old(loc2)
          decreases |s| - p1
        {
          if At(s, p1) == c {
            v := Advance(s, p1, prog, 0, items, {}, {});
            SeekingNext(v, items, s, caps, now, p1, Now(), loc1, old(loc2), loc2);
            now := Now();
            if v.Found? { loc1 := p1; }
            if !v.Absent? { return; }
          } else {
            FirstCharacter(items, s, p1, caps);
          }
          if p1 == |s| { return Absent; }
          p1 := p1 + 1;
        }
      }
      while true
        invariant Seeking(items, s, caps, now, p1) && now == Now() && loc1 == old(loc1) && loc2 == old(loc2)
        decreases |s| - p1
      {
        v := Advance(s, p1, prog, 0, items, {}, {});
        SeekingNext(v, items, s, caps, now, p1, Now(), loc1, old(loc2), loc2);
        now := Now();
        if v.Found? { loc1 := p1; }
        if !v.Absent? { return; }
        if p1 == |s| { return Absent; }
        p1 := p1 + 1;
      }
    }

    /** The loop at the label `star`: tries every end from `past - 1` down to `curlp`. */
    method Star(s: seq<byte>, past: nat, curlp: nat, prog: seq<byte>, ep: nat,
                ghost items: seq<Item>, ghost p: nat, ghost begun: set<slot>, ghost closed: set<slot>)
      returns (v: Verdict)
      requires Ready() && IsText(s) && p <= |s| && items != [] && OneChar(items[0].core)
      requires ItemsOk(items) && Holds(prog, ep, items[1..])
      requires Guarded(items[1..], begun, closed) && Behind(begun, closed, Now(), p)
      requires curlp == p + Least(items[0]) && past == p + MostChars(items[0], s, p) + 1 && curlp < past
      modifies this`loc2, this`low, this`size, braslist, braelist
      ensures Settled(v, Search(items, s, p, old(Now())), items, old(Now()), Now(), old(loc2), loc2)
      decreases |prog| - ep, 2
    {
      var lp := past;
      ghost var caps := Now();
      ghost var now := caps;
      ghost var goal := Search(items, s, p, caps);
      while true
        invariant curlp < lp && now == Now() && loc2 == old(loc2)
        invariant Trying(items, s, p, goal, caps, lp - 1 - p, now, begun, closed)
        decreases lp
      {
        lp := lp - 1;
        TryingFits(items, s, p, goal, caps, lp - p, now, begun, closed);
        v := Advance(s, lp, prog, ep, items[1..], begun, closed);
        TryingNext(v, items, s, p, goal, caps, lp - p, now, begun, closed, Now(), old(loc2), loc2);
        if !v.Absent? { return; }
        now := Now();
        if lp <= curlp { break; }
      }
      TryingEnd(items, s, p, goal, caps, lp - 1 - p, now, begun, closed, loc2);
    }

    /** The two loops of a starred back-reference to a non-empty word. */
    method BackStar(s: seq<byte>, curlp: nat, bbeg: nat, ct: nat, prog: seq<byte>, ep: nat,
                    ghost items: seq<Item>, ghost begun: set<slot>, ghost closed: set<slot>)
      returns (v: Verdict)
      requires Ready() && IsText(s) && curlp <= |s| && items != [] && items[0].core.Back? && items[0].star
      requires ItemsOk(items) && Holds(prog, ep, items[1..])
      requires Guarded(items[1..], begun, closed) && Behind(begun, closed, Now(), curlp)
      requires ct > 0 && bbeg + ct <= |s| && s[bbeg..bbeg + ct] == Word(s, Now(), items[0].core.slot)
      modifies this`loc2, this`low, this`size, braslist, braelist
      ensures Settled(v, Search(items, s, curlp, old(Now())), items, old(Now()), Now(), old(loc2), loc2)
      decreases |prog| - ep, 2
    {
      ghost var caps := Now();
      ghost var now := caps;
      ghost var goal := Search(items, s, curlp, caps);
      var lp, n := WordScan(s, curlp, bbeg, ct);
      ghost var k: int := n;
      while lp >= curlp
        invariant if k >= 0 then lp == curlp + Times(k, ct) else lp == curlp - ct && k == -1
        invariant now == Now() && loc2 == old(loc2)
        invariant Trying(items, s, curlp, goal, caps, k, now, begun, closed)
        decreases k
      {
        TryingFits(items, s, curlp, goal, caps, k, now, begun, closed);
        v := Advance(s, lp, prog, ep, items[1..], begun, closed);
        TryingNext(v, items, s, curlp, goal, caps, k, now, begun, closed, Now(), old(loc2), loc2);
        if !v.Absent? { return; }
        now := Now();
        lp := lp - ct;
        k := k - 1;
      }
      TryingEnd(items, s, curlp, goal, caps, k, now, begun, closed, loc2);
      v := Absent;
    }

    /** `while (ecmp(bbeg, lp, ct)) lp += ct;` */
    method WordScan(s: seq<byte>, curlp: nat, bbeg: nat, ct: nat) returns (lp: int, ghost k: nat)
      requires curlp <= |s| && ct > 0 && bbeg + ct <= |s|
      ensures k == WordRun(s[bbeg..bbeg + ct], s, curlp)
      ensures lp == curlp + Times(k, ct) <= |s|
    {
      var w := s[bbeg..bbeg + ct];
      lp, k := curlp, 0;
      while lp + ct <= |s| && w == s[lp..lp + ct]
        invariant k >= 0 && curlp <= lp <= |s| && lp == curlp + Times(k, ct)
        invariant WordRun(w, s, curlp) == k + WordRun(w, s, lp)
        decreases |s| - lp
      {
        lp := lp + ct;
        k := k + 1;
      }
    }
  }
}
