/** The pattern language of usr/src/head/regexp.h, defined by itself: how a pattern is written,
    in bytes, and what it matches; and that the items built from it match just that. */
module RegexPatterns {
  import opened Bytes
  import opened RegexProgram
  import opened Wrappers
  import opened RegexMatch
  import opened RegexText
  import opened RegexNumbers
  import opened RegexBrackets
  import opened RegexBuild

  // ----- intervals by their numbers -----

  /** What is written behind the first number of an interval: nothing, a comma, or a comma and
      the number `n`, behind `y` zeros. */
  datatype Bound = Just | OrMore | To(y: nat, n: nat)

  function TailOf(b: Bound): Tail {
    match b
    case Just => Exact
    case OrMore => AtLeast
    case To(y, n) => UpTo(Decimal(y, n))
  }

  /** The numbers an interval may have. */
  predicate Bounds(m: nat, b: Bound) { m < 255 && (b.To? ==> m <= b.n < 255) }

  function BoundText(b: Bound): seq<byte> {
    match b
    case Just => []
    case OrMore => [44]
    case To(y, n) => [44] + Decimal(y, n)
  }

  /** The text `\{m\}`, `\{m,\}` or `\{m,n\}`, with any number of zeros in front of the numbers. */
  function IntervalText(z: nat, m: nat, b: Bound): seq<byte> { [92, 123] + Decimal(z, m) + BoundText(b) + [92, 125] }

  lemma {:induction false} NumbersSpelled(z: nat, m: nat, b: Bound)
    ensures Spell(TInterval(Decimal(z, m), TailOf(b))) == IntervalText(z, m, b)
  {
    var ds, tail := Decimal(z, m), TailOf(b);
    assert SpellTail(tail) == BoundText(b);
  }

  /** An interval is refused if a number is 255 or more or if the second is the lesser; and
      else its numbers are stored, 255 for a missing one. */
  lemma {:induction false} NumbersMean(z: nat, m: nat, b: Bound)
    ensures Interval(Decimal(z, m), TailOf(b)) ==
            if Bounds(m, b) then Some((m, match b case Just => m case OrMore => 255 case To(_, n) => n)) else None
  {
    ValueDecimal(z, m);
    if b.To? { ValueDecimal(b.y, b.n); }
  }

  /** The counts a one-character item with a written interval may be taken: all from the lower
      bound to the length of the run, capped at the upper bound or, without one, at 20000
      above the lower. */
  lemma {:induction false} IntervalCounts(core: Core, z: nat, m: nat, b: Bound, s: seq<byte>, p: nat, caps: Caps,
                                          k: nat)
    requires OneChar(core) && CoreOk(core) && Bounds(m, b) && p <= |s|
    ensures var iv := Interval(Decimal(z, m), TailOf(b));
            && iv.Some?
            && var it := Item(core, false, [iv.value]);
               && ItemOk(it)
               && (CanTake(it, s, p, caps, k) <==>
                     m <= k <= Run(core, s, p)
                     && k <= match b case Just => m case OrMore => m + 20000 case To(_, n) => n)
  {
    NumbersMean(z, m, b);
    TakeRange(Item(core, false, [Interval(Decimal(z, m), TailOf(b)).value]), s, p, caps, k);
  }

  // ----- the language -----

  /** One character of a pattern, as it is written. */
  datatype One = Letter(c: byte) | Quoted(c: byte) | NewLine | Any | Class(neg: bool, es: seq<Elem>)

  /** How often it is to stand there. */
  datatype Reps = Once | Star | Counted(z: nat, m: nat, b: Bound)

  /** What a pattern is made of: characters, the two marks of a group, references to a group by
      its number, and the end of the subject. */
  datatype Piece = Repeat(one: One, reps: Reps) | Open | Close | Ref(n: number) | RefStar(n: number) | End

  /** The number of a group, as it is written. */
  type number = n: int | 1 <= n <= 9 witness 1

  function ElemsText(es: seq<Elem>): seq<byte> {
    if es == [] then []
    else
      (match es[0] case Single(c) => [c] case RangeTo(c) => [45, c] case FinalDash => [45]) + ElemsText(es[1..])
  }

  function OneText(o: One): seq<byte> {
    match o
    case Letter(c) => [c]
    case Quoted(c) => [92, c]
    case NewLine => [92, 110]
    case Any => [46]
    case Class(neg, es) => [91] + (if neg then [94] else []) + ElemsText(es) + [93]
  }

  function RepsText(r: Reps): seq<byte> {
    match r
    case Once => []
    case Star => [42]
    case Counted(z, m, b) => IntervalText(z, m, b)
  }

  function PieceText(u: Piece): seq<byte> {
    match u
    case Repeat(o, r) => OneText(o) + RepsText(r)
    case Open => [92, 40]
    case Close => [92, 41]
    case Ref(n) => [92, 48 + n]
    case RefStar(n) => [92, 48 + n, 42]
    case End => [36]
  }

  function PiecesText(us: seq<Piece>): seq<byte> {
    if us == [] then [] else PieceText(us[0]) + PiecesText(us[1..])
  }

  /** The character is one that is meant. */
  predicate Is(o: One, x: byte) {
    match o
    case Letter(c) => x == c
    case Quoted(c) => x == c
    case NewLine => x == 10
    case Any => x != 0
    case Class(neg, es) => x != 0 && Names(es, 0, x) != neg
  }

  predicate AllAre(o: One, s: seq<byte>, p: nat, k: nat) {
    p + k <= |s| && forall j :: p <= j < p + k ==> Is(o, s[j])
  }

  predicate Allowed(r: Reps, k: nat) {
    match r
    case Once => k == 1
    case Star => true
    case Counted(_, m, b) => m <= k <= match b case Just => m case OrMore => m + 20000 case To(_, n) => n
  }

  /** `w` stands in the subject at `p`. */
  predicate Stands(w: seq<byte>, s: seq<byte>, p: nat) { p + |w| <= |s| && s[p..p + |w|] == w }

  /** The groups on the way through a pattern: the numbers of the open ones, innermost last, how
      many there have been, where each begins, and the words of those that are closed. */
  datatype Groups = Groups(open: seq<slot>, n: nat, at: map<slot, nat>, words: map<slot, seq<byte>>)

  const NoGroups := Groups([], 0, map[], map[])

  function Begin(g: Groups, p: nat): Groups
    requires g.n < 9
  {
    Groups(g.open + [g.n], g.n + 1, g.at[g.n := p], g.words)
  }

  function Finish(g: Groups, s: seq<byte>, p: nat): Groups
    requires g.open != [] && p <= |s|
  {
    var top := |g.open| - 1;
    var i := g.open[top];
    var start := if i in g.at && g.at[i] <= p then g.at[i] else p;
    Groups(g.open[..top], g.n, g.at, g.words[i := s[start..p]])
  }

  /** The pattern matches the subject from `p` up to `end`. */
  ghost predicate Means(us: seq<Piece>, s: seq<byte>, p: nat, end: nat, g: Groups)
    decreases |us|, |s| - p
  {
    p <= |s| &&
    if us == [] then end == p
    else match us[0]
      case Repeat(o, r) => exists k: nat :: Allowed(r, k) && AllAre(o, s, p, k) && Means(us[1..], s, p + k, end, g)
      case Open => g.n < 9 && Means(us[1..], s, p, end, Begin(g, p))
      case Close => g.open != [] && Means(us[1..], s, p, end, Finish(g, s, p))
      case Ref(n) =>
        n - 1 in g.words &&
        var w := g.words[n - 1];
        Stands(w, s, p) && Means(us[1..], s, p + |w|, end, g)
      case RefStar(n) =>
        n - 1 in g.words && g.words[n - 1] != [] &&
        var w := g.words[n - 1];
        Means(us[1..], s, p, end, g) || (Stands(w, s, p) && Means(us, s, p + |w|, end, g))
      case End => p == |s| && Means(us[1..], s, p, end, g)
  }

  // ----- patterns that can be written -----

  predicate OneOk(o: One) {
    match o
    case Letter(c) => c !in {0, 10, 36, 42, 46, 91, 92}
    case Quoted(c) => c !in {0, 10, 40, 41, 110, 123} && !(49 <= c <= 57)
    case Class(neg, es) => ElemsValid(es, true) && (!neg ==> es[0] != Single(94))
    case _ => true
  }

  predicate RepsOk(r: Reps) { r.Counted? ==> Bounds(r.m, r.b) }

  /** A reference is to a group that is closed, and, which is how `compile` tests it, its number
      is at most the number of groups closed so far. */
  predicate RefOk(n: number, closed: set<slot>) { n - 1 in closed && n <= |closed| }

  /** At most nine groups, each closed after it was opened; and the end of the subject only at
      the end of the pattern. */
  predicate Sensible(us: seq<Piece>, open: seq<slot>, n: nat, closed: set<slot>)
    decreases |us|
  {
    if us == [] then open == []
    else match us[0]
      case Repeat(o, r) => OneOk(o) && RepsOk(r) && Sensible(us[1..], open, n, closed)
      case Open => n < 9 && Sensible(us[1..], open + [n], n + 1, closed)
      case Close =>
        open != [] && Sensible(us[1..], open[..|open| - 1], n, closed + {open[|open| - 1]})
      case Ref(k) => RefOk(k, closed) && Sensible(us[1..], open, n, closed)
      case RefStar(k) => RefOk(k, closed) && Sensible(us[1..], open, n, closed)
      case End => |us| == 1 && open == []
  }

  // ----- the items -----

  function CoreOf(o: One): Core {
    match o
    case Letter(c) => Chr(c)
    case Quoted(c) => Chr(c)
    case NewLine => Chr(10)
    case Any => Dot
    case Class(neg, es) => BracketCore(neg, es)
  }

  function IvOf(m: nat, b: Bound): (byte, byte)
    requires Bounds(m, b)
  {
    (m, match b case Just => m case OrMore => 255 case To(_, n) => n)
  }

  function RepeatItem(o: One, r: Reps): Item
    requires RepsOk(r)
  {
    Item(CoreOf(o), r.Star?, if r.Counted? then [IvOf(r.m, r.b)] else [])
  }

  function ItemsOf(us: seq<Piece>, open: seq<slot>, n: nat, closed: set<slot>): (items: seq<Item>)
    requires Sensible(us, open, n, closed)
    ensures |items| == |us|
    decreases |us|
  {
    if us == [] then []
    else match us[0]
      case Repeat(o, r) => [RepeatItem(o, r)] + ItemsOf(us[1..], open, n, closed)
      case Open => [Plain(Bra(n))] + ItemsOf(us[1..], open + [n], n + 1, closed)
      case Close =>
        var top := |open| - 1;
        [Plain(Ket(open[top]))] + ItemsOf(us[1..], open[..top], n, closed + {open[top]})
      case Ref(k) => [Plain(Back(k - 1))] + ItemsOf(us[1..], open, n, closed)
      case RefStar(k) => [Item(Back(k - 1), true, [])] + ItemsOf(us[1..], open, n, closed)
      case End => [Plain(Dol)]
  }

  lemma {:induction false} OneMeans(o: One, x: byte)
    requires OneOk(o)
    ensures OneChar(CoreOf(o)) && CoreOk(CoreOf(o)) && (Has(CoreOf(o), x) <==> Is(o, x))
  {
    if o.Class? { BracketMeans(o.neg, o.es, x); }
  }

  lemma {:induction false} AllMean(o: One, s: seq<byte>, p: nat, k: nat)
    requires OneOk(o)
    ensures OneChar(CoreOf(o)) && CoreOk(CoreOf(o)) && (AllHave(CoreOf(o), s, p, k) <==> AllAre(o, s, p, k))
  {
    OneMeans(o, 0);
    forall x: byte ensures Has(CoreOf(o), x) <==> Is(o, x) { OneMeans(o, x); }
  }

  lemma {:induction false} RepeatTakes(o: One, r: Reps, it: Item, s: seq<byte>, p: nat, caps: Caps, k: nat)
    requires OneOk(o) && RepsOk(r) && it == RepeatItem(o, r)
    ensures ItemOk(it) && (CanTake(it, s, p, caps, k) <==> Allowed(r, k) && AllAre(o, s, p, k))
    ensures After(it, s, p, caps, k) == p + k && Marked(it, p, caps) == caps
  {
    AllMean(o, s, p, k);
  }

  lemma {:induction false} SensibleOk(us: seq<Piece>, open: seq<slot>, n: nat, closed: set<slot>)
    requires Sensible(us, open, n, closed)
    ensures ItemsOk(ItemsOf(us, open, n, closed))
    decreases |us|
  {
    if us != [] {
      match us[0]
      case Repeat(o, r) =>
        RepeatTakes(o, r, RepeatItem(o, r), [], 0, Marks(seq(9, _ => 0), seq(9, _ => 0)), 0);
        SensibleOk(us[1..], open, n, closed);
      case Open => SensibleOk(us[1..], open + [n], n + 1, closed);
      case Close => SensibleOk(us[1..], open[..|open| - 1], n, closed + {open[|open| - 1]});
      case Ref(_) => SensibleOk(us[1..], open, n, closed);
      case RefStar(_) => SensibleOk(us[1..], open, n, closed);
      case End =>
    }
  }

  // ----- the items match what the pattern means -----

  /** Some choice of counts matches from `p` up to `end`. */
  ghost predicate MatchesTo(items: seq<Item>, s: seq<byte>, p: nat, caps: Caps, end: nat)
    requires ItemsOk(items)
  {
    exists ks: seq<nat> :: Accepts(items, s, p, caps, ks) && EndOf(items, s, p, caps, ks) == end
  }

  ghost predicate MatchesBehind(it: Item, rest: seq<Item>, s: seq<byte>, p: nat, caps: Caps, end: nat, k: nat)
    requires ItemOk(it) && ItemsOk(rest)
  {
    CanTake(it, s, p, caps, k) && MatchesTo(rest, s, After(it, s, p, caps, k), Marked(it, p, caps), end)
  }

  lemma {:induction false} MatchesCons(it: Item, rest: seq<Item>, items: seq<Item>, s: seq<byte>, p: nat, caps: Caps,
                                       end: nat)
    requires ItemOk(it) && ItemsOk(rest) && items == [it] + rest
    ensures ItemsOk(items)
    ensures MatchesTo(items, s, p, caps, end) <==> exists k: nat :: MatchesBehind(it, rest, s, p, caps, end, k)
  {
    assert items[1..] == rest;
    if MatchesTo(items, s, p, caps, end) {
      var ks: seq<nat> :| Accepts(items, s, p, caps, ks) && EndOf(items, s, p, caps, ks) == end;
      var k, tail := ks[0], ks[1..];
      var p', caps' := After(it, s, p, caps, k), Marked(it, p, caps);
      assert Accepts(rest, s, p', caps', tail) && EndOf(rest, s, p', caps', tail) == end;
      assert MatchesBehind(it, rest, s, p, caps, end, k);
    }
    if k: nat :| MatchesBehind(it, rest, s, p, caps, end, k) {
      var p', caps' := After(it, s, p, caps, k), Marked(it, p, caps);
      var ks: seq<nat> :| Accepts(rest, s, p', caps', ks) && EndOf(rest, s, p', caps', ks) == end;
      var all := [k] + ks;
      assert all[1..] == ks && Accepts(items, s, p, caps, all) && EndOf(items, s, p, caps, all) == end;
    }
  }

  /** The marks of the matcher are where the groups are. */
  ghost predicate Agrees(s: seq<byte>, p: nat, g: Groups, caps: Caps) {
    && p <= |s| && g.n <= 9
    && (forall i :: 0 <= i < |g.open| ==> g.open[i] < g.n)
    && (forall i :: 0 <= i < |g.open| ==> g.open[i] in g.at && caps.b[g.open[i]] == g.at[g.open[i]] <= p)
    && (forall i, j :: 0 <= i < j < |g.open| ==> g.open[i] != g.open[j])
    && (forall i: slot :: i in g.words ==> i < g.n && i !in g.open)
    && (forall i: slot :: i in g.words ==> 0 <= caps.b[i] <= caps.e[i] <= |s| && s[caps.b[i]..caps.e[i]] == g.words[i])
  }

  lemma {:induction false} AgreesOn(s: seq<byte>, p: nat, q: nat, g: Groups, caps: Caps)
    requires Agrees(s, p, g, caps) && p <= q <= |s|
    ensures Agrees(s, q, g, caps)
  {
  }

  lemma {:induction false} AgreesBegin(s: seq<byte>, p: nat, g: Groups, caps: Caps)
    requires Agrees(s, p, g, caps) && g.n < 9
    ensures Agrees(s, p, Begin(g, p), Marked(Plain(Bra(g.n)), p, caps))
  {
  }

  lemma {:induction false} AgreesFinish(s: seq<byte>, p: nat, g: Groups, caps: Caps, i: slot)
    requires Agrees(s, p, g, caps) && g.open != [] && i == g.open[|g.open| - 1]
    ensures Agrees(s, p, Finish(g, s, p), Marked(Plain(Ket(i)), p, caps))
    ensures Finish(g, s, p).words.Keys == g.words.Keys + {i}
  {
  }

  lemma {:induction false} AgreesWord(s: seq<byte>, p: nat, g: Groups, caps: Caps, i: slot)
    requires Agrees(s, p, g, caps) && i in g.words
    ensures Word(s, caps, i) == g.words[i]
  {
  }

  /** The items of the rest match what the rest means, wherever it starts. */
  ghost predicate RestMeans(rest: seq<Piece>, items: seq<Item>, s: seq<byte>, p: nat, caps: Caps, g: Groups, end: nat)
    requires ItemsOk(items)
  {
    forall q :: p <= q <= |s| ==> (MatchesTo(items, s, q, caps, end) <==> Means(rest, s, q, end, g))
  }

  ghost predicate RepeatThen(o: One, r: Reps, us: seq<Piece>, s: seq<byte>, p: nat, end: nat, g: Groups, k: nat) {
    Allowed(r, k) && AllAre(o, s, p, k) && Means(us, s, p + k, end, g)
  }

  lemma {:induction false} MeansRepeat(us: seq<Piece>, s: seq<byte>, p: nat, end: nat, g: Groups)
    requires us != [] && us[0].Repeat? && p <= |s|
    ensures Means(us, s, p, end, g) <==> exists k: nat :: RepeatThen(us[0].one, us[0].reps, us[1..], s, p, end, g, k)
  {
    var o, r, rest := us[0].one, us[0].reps, us[1..];
    if Means(us, s, p, end, g) {
      var k: nat :| Allowed(r, k) && AllAre(o, s, p, k) && Means(rest, s, p + k, end, g);
      assert RepeatThen(o, r, rest, s, p, end, g, k);
    }
    if k: nat :| RepeatThen(o, r, rest, s, p, end, g, k) {
      assert Allowed(r, k) && AllAre(o, s, p, k) && Means(rest, s, p + k, end, g);
    }
  }

  lemma {:induction false} RepeatBehind(o: One, r: Reps, us: seq<Piece>, it: Item, rest: seq<Item>, s: seq<byte>,
                                        p: nat, caps: Caps, g: Groups, end: nat, k: nat)
    requires OneOk(o) && RepsOk(r) && p <= |s| && it == RepeatItem(o, r) && ItemsOk(rest)
    requires RestMeans(us, rest, s, p, caps, g, end)
    ensures ItemOk(it)
    ensures MatchesBehind(it, rest, s, p, caps, end, k) <==> RepeatThen(o, r, us, s, p, end, g, k)
  {
    RepeatTakes(o, r, it, s, p, caps, k);
  }

  lemma {:induction false} RepeatMeans(us: seq<Piece>, it: Item, rest: seq<Item>, items: seq<Item>, s: seq<byte>,
                                       p: nat, caps: Caps, g: Groups, end: nat)
    requires us != [] && us[0].Repeat? && OneOk(us[0].one) && RepsOk(us[0].reps) && p <= |s|
    requires it == RepeatItem(us[0].one, us[0].reps) && ItemsOk(rest) && items == [it] + rest
    requires RestMeans(us[1..], rest, s, p, caps, g, end)
    ensures ItemsOk(items) && (MatchesTo(items, s, p, caps, end) <==> Means(us, s, p, end, g))
  {
    var o, r, tail := us[0].one, us[0].reps, us[1..];
    RepeatTakes(o, r, it, s, p, caps, 0);
    MatchesCons(it, rest, items, s, p, caps, end);
    MeansRepeat(us, s, p, end, g);
    forall k: nat
      ensures MatchesBehind(it, rest, s, p, caps, end, k) <==> RepeatThen(o, r, tail, s, p, end, g, k)
    {
      RepeatBehind(o, r, tail, it, rest, s, p, caps, g, end, k);
    }
  }

  /** An item that is passed in one way only. */
  lemma {:induction false} PassMeans(it: Item, rest: seq<Item>, items: seq<Item>, s: seq<byte>, p: nat, caps: Caps,
                                     end: nat, k: nat)
    requires ItemOk(it) && ItemsOk(rest) && items == [it] + rest
    requires forall j: nat :: CanTake(it, s, p, caps, j) ==> j == k
    ensures ItemsOk(items)
    ensures MatchesTo(items, s, p, caps, end) <==> MatchesBehind(it, rest, s, p, caps, end, k)
  {
    MatchesCons(it, rest, items, s, p, caps, end);
  }

  lemma {:induction false} MeansRef(us: seq<Piece>, w: seq<byte>, s: seq<byte>, p: nat, q: nat, end: nat, g: Groups)
    requires us != [] && us[0].Ref? && us[0].n - 1 in g.words && w == g.words[us[0].n - 1]
    requires p <= |s| && q == p + |w|
    ensures Means(us, s, p, end, g) <==> Stands(w, s, p) && Means(us[1..], s, q, end, g)
  {
  }

  lemma {:induction false} RefTakes(it: Item, w: seq<byte>, s: seq<byte>, p: nat, caps: Caps)
    requires it.core.Back? && it == Plain(it.core) && w == Word(s, caps, it.core.slot)
    ensures CanTake(it, s, p, caps, 1) <==> Stands(w, s, p)
    ensures forall j: nat :: CanTake(it, s, p, caps, j) ==> j == 1
    ensures After(it, s, p, caps, 1) == p + |w| && Marked(it, p, caps) == caps
  {
    assert Times(0, |w|) == 0 && Times(1, |w|) == |w|;
  }

  lemma {:induction false} RefMeans(us: seq<Piece>, it: Item, rest: seq<Item>, items: seq<Item>, s: seq<byte>,
                                    p: nat, caps: Caps, g: Groups, end: nat)
    requires us != [] && us[0].Ref? && us[0].n - 1 in g.words && Agrees(s, p, g, caps)
    requires it == Plain(Back(us[0].n - 1)) && ItemsOk(rest) && items == [it] + rest
    requires RestMeans(us[1..], rest, s, p, caps, g, end)
    ensures ItemsOk(items) && (MatchesTo(items, s, p, caps, end) <==> Means(us, s, p, end, g))
  {
    var w := g.words[us[0].n - 1];
    AgreesWord(s, p, g, caps, us[0].n - 1);
    RefTakes(it, w, s, p, caps);
    PassMeans(it, rest, items, s, p, caps, end, 1);
    MeansRef(us, w, s, p, p + |w|, end, g);
  }

  /** Copies of the word one by one, or all at once. */
  ghost predicate CopiesThen(us: seq<Piece>, w: seq<byte>, s: seq<byte>, p: nat, end: nat, g: Groups, k: nat) {
    Repeats(w, s, p, k) && Means(us, s, p + Times(k, |w|), end, g)
  }

  lemma {:induction false} CopiesNone(us: seq<Piece>, w: seq<byte>, s: seq<byte>, p: nat, end: nat, g: Groups)
    ensures CopiesThen(us, w, s, p, end, g, 0) <==> Means(us, s, p, end, g)
  {
  }

  lemma {:induction false} CopiesMore(us: seq<Piece>, w: seq<byte>, s: seq<byte>, p: nat, q: nat, end: nat, g: Groups,
                                      k: nat, m: nat)
    requires q == p + |w| && m == k + 1
    ensures CopiesThen(us, w, s, p, end, g, m) <==> Stands(w, s, p) && CopiesThen(us, w, s, q, end, g, k)
  {
    assert Times(m, |w|) == |w| + Times(k, |w|);
  }

  lemma {:induction false} MeansRefStar(us: seq<Piece>, w: seq<byte>, s: seq<byte>, p: nat, q: nat, end: nat, g: Groups)
    requires us != [] && us[0].RefStar? && us[0].n - 1 in g.words && w == g.words[us[0].n - 1] != []
    requires p <= |s| && q == p + |w|
    ensures Means(us, s, p, end, g) <==> Means(us[1..], s, p, end, g) || (Stands(w, s, p) && Means(us, s, q, end, g))
  {
  }

  lemma {:induction false} CopiesMean(us: seq<Piece>, w: seq<byte>, s: seq<byte>, p: nat, end: nat, g: Groups)
    requires us != [] && us[0].RefStar? && us[0].n - 1 in g.words && w == g.words[us[0].n - 1] != []
    requires p <= |s|
    ensures Means(us, s, p, end, g) <==> exists k: nat :: CopiesThen(us[1..], w, s, p, end, g, k)
    decreases |s| - p
  {
    var rest, q := us[1..], p + |w|;
    MeansRefStar(us, w, s, p, q, end, g);
    CopiesNone(rest, w, s, p, end, g);
    if Stands(w, s, p) { CopiesMean(us, w, s, q, end, g); }
    forall k: nat, m: nat | m == k + 1
      ensures CopiesThen(rest, w, s, p, end, g, m) <==> Stands(w, s, p) && CopiesThen(rest, w, s, q, end, g, k)
    {
      CopiesMore(rest, w, s, p, q, end, g, k, m);
    }
    if Means(us, s, p, end, g) && !Means(rest, s, p, end, g) {
      var k: nat :| CopiesThen(rest, w, s, q, end, g, k);
      assert CopiesThen(rest, w, s, p, end, g, k + 1);
    }
    if k: nat :| CopiesThen(rest, w, s, p, end, g, k) {
      if k > 0 { assert CopiesThen(rest, w, s, q, end, g, k - 1); }
    }
  }

  lemma {:induction false} CopiesBehind(us: seq<Piece>, w: seq<byte>, it: Item, rest: seq<Item>, s: seq<byte>,
                                        p: nat, caps: Caps, g: Groups, end: nat, k: nat)
    requires it.core.Back? && it.star && it.ivs == [] && w == Word(s, caps, it.core.slot) != [] && ItemsOk(rest)
    requires p <= |s| && RestMeans(us, rest, s, p, caps, g, end)
    ensures ItemOk(it) && (MatchesBehind(it, rest, s, p, caps, end, k) <==> CopiesThen(us, w, s, p, end, g, k))
  {
    if Repeats(w, s, p, k) { RepeatsFit(w, s, p, k); }
  }

  lemma {:induction false} StuckMeans(us: seq<Piece>, it: Item, rest: seq<Item>, items: seq<Item>, s: seq<byte>,
                                      p: nat, caps: Caps, g: Groups, end: nat)
    requires us != [] && us[0].RefStar? && us[0].n - 1 in g.words && g.words[us[0].n - 1] == []
    requires it == Item(Back(us[0].n - 1), true, []) && Word(s, caps, us[0].n - 1) == []
    requires ItemsOk(rest) && items == [it] + rest
    ensures ItemsOk(items) && !MatchesTo(items, s, p, caps, end) && !Means(us, s, p, end, g)
  {
    MatchesCons(it, rest, items, s, p, caps, end);
  }

  lemma {:induction false} RefStarMeans(us: seq<Piece>, it: Item, rest: seq<Item>, items: seq<Item>, s: seq<byte>,
                                        p: nat, caps: Caps, g: Groups, end: nat)
    requires us != [] && us[0].RefStar? && us[0].n - 1 in g.words && Agrees(s, p, g, caps)
    requires it == Item(Back(us[0].n - 1), true, []) && ItemsOk(rest) && items == [it] + rest
    requires RestMeans(us[1..], rest, s, p, caps, g, end)
    ensures ItemsOk(items) && (MatchesTo(items, s, p, caps, end) <==> Means(us, s, p, end, g))
  {
    var w, tail := g.words[us[0].n - 1], us[1..];
    AgreesWord(s, p, g, caps, us[0].n - 1);
    if w == [] {
      StuckMeans(us, it, rest, items, s, p, caps, g, end);
    } else {
      MatchesCons(it, rest, items, s, p, caps, end);
      CopiesMean(us, w, s, p, end, g);
      forall k: nat ensures MatchesBehind(it, rest, s, p, caps, end, k) <==> CopiesThen(tail, w, s, p, end, g, k) {
        CopiesBehind(tail, w, it, rest, s, p, caps, g, end, k);
      }
    }
  }

  /** The items of the pattern, and what is to be shown of them. */
  ghost predicate Faithful(us: seq<Piece>, items: seq<Item>, s: seq<byte>, p: nat, caps: Caps, g: Groups, end: nat) {
    ItemsOk(items) && (MatchesTo(items, s, p, caps, end) <==> Means(us, s, p, end, g))
  }

  /** The items of a pattern match from `p` to `end` exactly if the pattern does. */
  lemma {:induction false} ItemsMean(us: seq<Piece>, s: seq<byte>, p: nat, caps: Caps, g: Groups, end: nat)
    requires Sensible(us, g.open, g.n, g.words.Keys) && Agrees(s, p, g, caps)
    ensures Faithful(us, ItemsOf(us, g.open, g.n, g.words.Keys), s, p, caps, g, end)
    decreases |us|, 2
  {
    if us == [] {
      NothingMatches([], s, p, caps, end);
    } else {
      match us[0]
      case Repeat(_, _) => CharacterMeans(us, s, p, caps, g, end);
      case Open => OpenMeans(us, s, p, caps, g, end);
      case Close => CloseMeans(us, s, p, caps, g, end);
      case Ref(_) => ReferenceMeans(us, s, p, caps, g, end);
      case RefStar(_) => ReferenceMeans(us, s, p, caps, g, end);
      case End => EndMeans(us, s, p, caps, g, end);
    }
  }

  lemma {:induction false} CharacterMeans(us: seq<Piece>, s: seq<byte>, p: nat, caps: Caps, g: Groups, end: nat)
    requires us != [] && us[0].Repeat? && Sensible(us, g.open, g.n, g.words.Keys) && Agrees(s, p, g, caps)
    ensures Faithful(us, ItemsOf(us, g.open, g.n, g.words.Keys), s, p, caps, g, end)
    decreases |us|, 1
  {
    var items, rest := ItemsOf(us, g.open, g.n, g.words.Keys), ItemsOf(us[1..], g.open, g.n, g.words.Keys);
    RestItems(us[1..], rest, s, p, caps, g, end);
    RepeatMeans(us, RepeatItem(us[0].one, us[0].reps), rest, items, s, p, caps, g, end);
  }

  lemma {:induction false} ReferenceMeans(us: seq<Piece>, s: seq<byte>, p: nat, caps: Caps, g: Groups, end: nat)
    requires us != [] && (us[0].Ref? || us[0].RefStar?)
    requires Sensible(us, g.open, g.n, g.words.Keys) && Agrees(s, p, g, caps)
    ensures Faithful(us, ItemsOf(us, g.open, g.n, g.words.Keys), s, p, caps, g, end)
    decreases |us|, 1
  {
    var items, rest := ItemsOf(us, g.open, g.n, g.words.Keys), ItemsOf(us[1..], g.open, g.n, g.words.Keys);
    RestItems(us[1..], rest, s, p, caps, g, end);
    if us[0].Ref? {
      RefMeans(us, Plain(Back(us[0].n - 1)), rest, items, s, p, caps, g, end);
    } else {
      RefStarMeans(us, Item(Back(us[0].n - 1), true, []), rest, items, s, p, caps, g, end);
    }
  }

  /** A mark of a group is passed without a choice, and only sets the marks. */
  lemma {:induction false} MarkMeans(it: Item, rest: seq<Item>, items: seq<Item>, s: seq<byte>, p: nat, caps: Caps,
                                     end: nat)
    requires (it.core.Bra? || it.core.Ket?) && it == Plain(it.core) && ItemsOk(rest) && items == [it] + rest
    ensures ItemsOk(items)
    ensures MatchesTo(items, s, p, caps, end) <==> MatchesTo(rest, s, p, Marked(it, p, caps), end)
  {
    PassMeans(it, rest, items, s, p, caps, end, 0);
  }

  lemma {:induction false} MeansMark(us: seq<Piece>, s: seq<byte>, p: nat, end: nat, g: Groups)
    requires us != [] && p <= |s|
    ensures us[0].Open? && g.n < 9 ==> (Means(us, s, p, end, g) <==> Means(us[1..], s, p, end, Begin(g, p)))
    ensures us[0].Close? && g.open != [] ==> (Means(us, s, p, end, g) <==> Means(us[1..], s, p, end, Finish(g, s, p)))
  {
  }

  lemma {:induction false} OpenMeans(us: seq<Piece>, s: seq<byte>, p: nat, caps: Caps, g: Groups, end: nat)
    requires us != [] && us[0].Open? && Sensible(us, g.open, g.n, g.words.Keys) && Agrees(s, p, g, caps)
    ensures Faithful(us, ItemsOf(us, g.open, g.n, g.words.Keys), s, p, caps, g, end)
    decreases |us|, 1
  {
    AgreesBegin(s, p, g, caps);
    var g', it := Begin(g, p), Plain(Bra(g.n));
    ItemsMean(us[1..], s, p, Marked(it, p, caps), g', end);
    MeansMark(us, s, p, end, g);
    MarkMeans(it, ItemsOf(us[1..], g'.open, g'.n, g'.words.Keys), ItemsOf(us, g.open, g.n, g.words.Keys), s, p, caps,
              end);
  }

  lemma {:induction false} CloseMeans(us: seq<Piece>, s: seq<byte>, p: nat, caps: Caps, g: Groups, end: nat)
    requires us != [] && us[0].Close? && Sensible(us, g.open, g.n, g.words.Keys) && Agrees(s, p, g, caps)
    ensures Faithful(us, ItemsOf(us, g.open, g.n, g.words.Keys), s, p, caps, g, end)
    decreases |us|, 1
  {
    var i := g.open[|g.open| - 1];
    AgreesFinish(s, p, g, caps, i);
    var g', it := Finish(g, s, p), Plain(Ket(i));
    ItemsMean(us[1..], s, p, Marked(it, p, caps), g', end);
    MeansMark(us, s, p, end, g);
    MarkMeans(it, ItemsOf(us[1..], g'.open, g'.n, g'.words.Keys), ItemsOf(us, g.open, g.n, g.words.Keys), s, p, caps,
              end);
  }

  lemma {:induction false} EndMeans(us: seq<Piece>, s: seq<byte>, p: nat, caps: Caps, g: Groups, end: nat)
    requires us != [] && us[0].End? && Sensible(us, g.open, g.n, g.words.Keys) && p <= |s|
    ensures Faithful(us, ItemsOf(us, g.open, g.n, g.words.Keys), s, p, caps, g, end)
  {
    var none: seq<Item> := [];
    assert us[1..] == [];
    NothingMatches(none, s, p, caps, end);
    PassMeans(Plain(Dol), none, ItemsOf(us, g.open, g.n, g.words.Keys), s, p, caps, end, 0);
  }

  lemma {:induction false} RestItems(rest: seq<Piece>, items: seq<Item>, s: seq<byte>, p: nat, caps: Caps, g: Groups,
                                     end: nat)
    requires Sensible(rest, g.open, g.n, g.words.Keys) && Agrees(s, p, g, caps)
    requires items == ItemsOf(rest, g.open, g.n, g.words.Keys)
    ensures ItemsOk(items) && RestMeans(rest, items, s, p, caps, g, end)
    decreases |rest|, 3
  {
    SensibleOk(rest, g.open, g.n, g.words.Keys);
    forall q | p <= q <= |s| ensures MatchesTo(items, s, q, caps, end) <==> Means(rest, s, q, end, g) {
      AgreesOn(s, p, q, g, caps);
      ItemsMean(rest, s, q, caps, g, end);
    }
  }

  lemma {:induction false} NothingMatches(items: seq<Item>, s: seq<byte>, p: nat, caps: Caps, end: nat)
    requires items == []
    ensures MatchesTo(items, s, p, caps, end) <==> end == p
  {
    if end == p { assert Accepts(items, s, p, caps, []) && EndOf(items, s, p, caps, []) == end; }
  }
}
