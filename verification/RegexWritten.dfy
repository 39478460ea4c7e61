/** Patterns from their text to their matches: what `compile` of usr/src/head/regexp.h makes of a
    pattern as it is written matches what the pattern means. */
module RegexWritten {
  import opened Bytes
  import opened RegexProgram
  import opened Wrappers
  import opened RegexMatch
  import opened RegexCaptures
  import opened RegexText
  import opened RegexNumbers
  import opened RegexBrackets
  import opened RegexBuild
  import opened RegexPatterns
  import opened RegexSpill
  import opened RegexSound
  import opened RegexCompile
  import opened RegexAdvance
  import opened RegexWhole

  // ----- the tokens of a pattern -----

  function OneTok(o: One): Tok {
    match o
    case Letter(c) => TPlain(c)
    case Quoted(c) => TEscaped(c)
    case NewLine => TNewline
    case Any => TDot
    case Class(neg, es) => TBracket(neg, es)
  }

  function RepsToks(r: Reps): seq<Tok> {
    match r
    case Once => []
    case Star => [TStar]
    case Counted(z, m, b) => [TInterval(Decimal(z, m), TailOf(b))]
  }

  function Toks(u: Piece): seq<Tok> {
    match u
    case Repeat(o, r) => [OneTok(o)] + RepsToks(r)
    case Open => [TOpen]
    case Close => [TClose]
    case Ref(n) => [TBack(48 + n)]
    case RefStar(n) => [TBack(48 + n), TStar]
    case End => [TDollar]
  }

  function ToksOf(us: seq<Piece>): seq<Tok> { if us == [] then [] else Toks(us[0]) + ToksOf(us[1..]) }

  // ----- their spelling -----

  lemma {:induction false} SpellAppend(ts: seq<Tok>, us: seq<Tok>)
    ensures SpellAll(ts + us) == SpellAll(ts) + SpellAll(us)
  {
    if ts == [] {
      assert ts + us == us;
    } else {
      assert (ts + us)[1..] == ts[1..] + us;
      SpellAppend(ts[1..], us);
      Associative(Spell(ts[0]), SpellAll(ts[1..]), SpellAll(us));
    }
  }

  lemma {:induction false} SpellOne(t: Tok)
    ensures SpellAll([t]) == Spell(t)
  {
    assert [t][1..] == [];
  }

  lemma {:induction false} SpellTwo(t: Tok, u: Tok)
    ensures SpellAll([t, u]) == Spell(t) + Spell(u)
  {
    assert [t, u] == [t] + [u];
    SpellAppend([t], [u]);
    SpellOne(t);
    SpellOne(u);
  }

  lemma {:induction false} ElemsSpelled(es: seq<Elem>)
    ensures SpellElems(es) == ElemsText(es)
  {
    if es != [] { ElemsSpelled(es[1..]); }
  }

  lemma {:induction false} OneSpelled(o: One)
    ensures Spell(OneTok(o)) == OneText(o)
  {
    if o.Class? { ElemsSpelled(o.es); }
  }

  lemma {:induction false} PieceSpelled(u: Piece)
    ensures SpellAll(Toks(u)) == PieceText(u)
  {
    match u
    case Repeat(o, r) =>
      OneSpelled(o);
      match r {
        case Once => SpellOne(OneTok(o));
        case Star => SpellTwo(OneTok(o), TStar);
        case Counted(z, m, b) =>
          NumbersSpelled(z, m, b);
          SpellTwo(OneTok(o), TInterval(Decimal(z, m), TailOf(b)));
      }
    case Open => SpellOne(TOpen);
    case Close => SpellOne(TClose);
    case Ref(n) => SpellOne(TBack(48 + n));
    case RefStar(n) => SpellTwo(TBack(48 + n), TStar);
    case End => SpellOne(TDollar);
  }

  lemma {:induction false} PiecesSpelled(us: seq<Piece>)
    ensures SpellAll(ToksOf(us)) == PiecesText(us)
  {
    if us != [] {
      PieceSpelled(us[0]);
      PiecesSpelled(us[1..]);
      SpellAppend(Toks(us[0]), ToksOf(us[1..]));
    }
  }

  // ----- they are tokens -----

  /** No character of the pattern is the delimiter, and none of the special ones is. */
  predicate Delimited(us: seq<Piece>, eof: byte) {
    && eof !in {36, 42, 46, 91, 92, 94}
    && forall i :: 0 <= i < |us| && us[i].Repeat? && us[i].one.Letter? ==> us[i].one.c != eof
  }

  lemma {:induction false} OneValid(o: One, first: bool, last: bool, eof: byte)
    requires OneOk(o) && eof !in {36, 42, 46, 91, 92, 94} && (o.Letter? ==> o.c != eof)
    ensures TokFits(OneTok(o), first, last, eof)
  {
  }

  lemma {:induction false} RepsValid(r: Reps, t: Tok, last: bool, eof: byte)
    requires eof !in {36, 42, 46, 91, 92, 94} && r != Once && t == RepsToks(r)[0]
    ensures TokFits(t, false, last, eof)
  {
  }

  lemma {:induction false} PieceValid(u: Piece, rest: seq<Tok>, first: bool, eof: byte)
    requires eof !in {36, 42, 46, 91, 92, 94} && TokensValid(rest, false, eof) && (u.End? ==> rest == [])
    requires u.Repeat? ==> OneOk(u.one) && RepsOk(u.reps) && (u.one.Letter? ==> u.one.c != eof)
    ensures TokensValid(Toks(u) + rest, first, eof)
  {
    match u
    case Repeat(o, r) => RepeatValid(o, r, rest, Toks(u) + rest, first, eof);
    case Open => TokensValidCons(TOpen, rest, first, eof);
    case Close => TokensValidCons(TClose, rest, first, eof);
    case Ref(k) => TokensValidCons(TBack(48 + k), rest, first, eof);
    case RefStar(k) => PairValid(TBack(48 + k), TStar, rest, Toks(u) + rest, first, eof);
    case End => TokensValidCons(TDollar, rest, first, eof);
  }

  /** The groups behind the first piece of a pattern. */
  lemma {:induction false} SensibleTail(us: seq<Piece>, open: seq<slot>, n: nat, closed: set<slot>)
    returns (open': seq<slot>, n': nat, closed': set<slot>)
    requires us != [] && Sensible(us, open, n, closed)
    ensures Sensible(us[1..], open', n', closed') && (us[0].End? ==> us[1..] == [])
    ensures us[0].Repeat? ==> OneOk(us[0].one) && RepsOk(us[0].reps)
  {
    open', n', closed' := open, n, closed;
    match us[0]
    case Open => open', n' := open + [n], n + 1;
    case Close => open', closed' := open[..|open| - 1], closed + {open[|open| - 1]};
    case _ =>
  }

  lemma {:induction false} ToksValid(us: seq<Piece>, open: seq<slot>, n: nat, closed: set<slot>, first: bool, eof: byte)
    requires Sensible(us, open, n, closed) && Delimited(us, eof)
    ensures TokensValid(ToksOf(us), first, eof)
    decreases |us|
  {
    if us != [] {
      var open', n', closed' := SensibleTail(us, open, n, closed);
      ToksValid(us[1..], open', n', closed', false, eof);
      PieceValid(us[0], ToksOf(us[1..]), first, eof);
    }
  }

  lemma {:induction false} PairValid(t: Tok, t': Tok, rest: seq<Tok>, all: seq<Tok>, first: bool, eof: byte)
    requires TokensValid(rest, false, eof) && all == [t, t'] + rest
    requires TokFits(t, first, false, eof) && TokFits(t', false, rest == [], eof)
    ensures TokensValid(all, first, eof)
  {
    TokensValidCons(t', rest, false, eof);
    TokensValidCons(t, [t'] + rest, first, eof);
    assert all == [t] + ([t'] + rest);
  }

  lemma {:induction false} RepeatValid(o: One, r: Reps, rest: seq<Tok>, all: seq<Tok>, first: bool, eof: byte)
    requires OneOk(o) && eof !in {36, 42, 46, 91, 92, 94} && (o.Letter? ==> o.c != eof)
    requires TokensValid(rest, false, eof) && all == [OneTok(o)] + RepsToks(r) + rest
    ensures TokensValid(all, first, eof)
  {
    OneValid(o, first, rest == [] && r.Once?, eof);
    if r.Once? {
      assert all == [OneTok(o)] + rest;
      TokensValidCons(OneTok(o), rest, first, eof);
    } else {
      var t := RepsToks(r)[0];
      RepsValid(r, t, rest == [], eof);
      assert all == [OneTok(o), t] + rest;
      PairValid(OneTok(o), t, rest, all, first, eof);
    }
  }

  // ----- the items they build -----

  lemma {:induction false} AddAllAppend(b: Built, ts: seq<Tok>, us: seq<Tok>, endbuf: nat)
    ensures AddAll(b, ts + us, endbuf) ==
            match AddAll(b, ts, endbuf) case None => None case Some(b') => AddAll(b', us, endbuf)
    decreases |ts|
  {
    if ts == [] {
      assert ts + us == us;
    } else {
      assert (ts + us)[1..] == ts[1..] + us;
      if Room(b, ts[0], endbuf) && Add(b, ts[0]).Some? { AddAllAppend(Add(b, ts[0]).value, ts[1..], us, endbuf); }
    }
  }

  /** The tokens `ts` take `b` to `b'`, unless the buffer is too small; 35 bytes are enough. */
  predicate Builds(b: Built, ts: seq<Tok>, b': Built, endbuf: nat) {
    && (AddAll(b, ts, endbuf).Some? ==> AddAll(b, ts, endbuf).value == b')
    && (|Encode(b.items)| + 35 < endbuf ==> AddAll(b, ts, endbuf).Some?)
    && |Encode(b'.items)| <= |Encode(b.items)| + 35
  }

  lemma {:induction false} BuildsOne(b: Built, t: Tok, b': Built, endbuf: nat)
    requires Add(b, t) == Some(b') && |Encode(b'.items)| <= |Encode(b.items)| + 35
    ensures Builds(b, [t], b', endbuf)
  {
    assert [t][1..] == [];
  }

  lemma {:induction false} BuildsTwo(b: Built, t: Tok, b1: Built, t': Tok, b2: Built, endbuf: nat)
    requires Add(b, t) == Some(b1) && Add(b1, t') == Some(b2) && !t'.TBracket?
    requires |Encode(b1.items)| <= |Encode(b.items)| + 33 && |Encode(b2.items)| <= |Encode(b1.items)| + 2
    ensures Builds(b, [t, t'], b2, endbuf)
  {
    BuildsOne(b, t, b1, endbuf);
    BuildsOne(b1, t', b2, endbuf);
    AddAllAppend(b, [t], [t'], endbuf);
    assert [t] + [t'] == [t, t'];
  }

  lemma {:induction false} PushSize(b: Built, core: Core)
    ensures |Encode(Push(b, core).items)| == |Encode(b.items)| + 1 + |Payload(core)|
  {
    EncodeOne(b.items, Plain(core));
  }

  lemma {:induction false} OneAdds(b: Built, o: One)
    requires OneOk(o)
    ensures Add(b, OneTok(o)) == Some(Push(b, CoreOf(o))) && |Payload(CoreOf(o))| <= 32
  {
    if o.Class? { BracketMeans(o.neg, o.es, 0); }
  }

  lemma {:induction false} RepsSize(b: Built, core: Core, it: Item)
    requires it.core == core && |it.ivs| <= 1
    ensures |Encode(b.items + [it])| <= |Encode(Push(b, core).items)| + 2
  {
    EncodeOne(b.items, Plain(core));
    EncodeOne(b.items, it);
    if it.ivs != [] { assert it.ivs[1..] == []; }
  }

  lemma {:induction false} LastPushed(b: Built, b1: Built, core: Core, it: Item)
    requires b1 == Push(b, core)
    ensures b1.items != [] && Last(b1) == Plain(core) && SetLast(b1, it) == b.(items := b.items + [it])
  {
    assert b1.items[..|b1.items| - 1] == b.items;
  }

  lemma {:induction false} StarAdds(b: Built, core: Core, it: Item)
    requires (OneChar(core) || core.Back?) && it == Item(core, true, [])
    ensures Add(Push(b, core), TStar) == Some(b.(items := b.items + [it]))
  {
    LastPushed(b, Push(b, core), core, it);
  }

  lemma {:induction false} CountAdds(b: Built, core: Core, z: nat, m: nat, bound: Bound, it: Item)
    requires Bounds(m, bound) && it == Item(core, false, [IvOf(m, bound)])
    ensures Add(Push(b, core), TInterval(Decimal(z, m), TailOf(bound))) == Some(b.(items := b.items + [it]))
  {
    LastPushed(b, Push(b, core), core, it);
    NumbersMean(z, m, bound);
    assert [] + [IvOf(m, bound)] == [IvOf(m, bound)];
  }

  /** A star or an interval changes the last item. */
  lemma {:induction false} RepsAdd(b: Built, o: One, r: Reps, t: Tok, b': Built)
    requires OneOk(o) && RepsOk(r) && r != Once && t == RepsToks(r)[0]
    requires b' == b.(items := b.items + [RepeatItem(o, r)])
    ensures Add(Push(b, CoreOf(o)), t) == Some(b') && !t.TBracket?
    ensures |Encode(b'.items)| <= |Encode(Push(b, CoreOf(o)).items)| + 2
  {
    var it, core := RepeatItem(o, r), CoreOf(o);
    RepsSize(b, core, it);
    OneMeans(o, 0);
    if r.Star? { StarAdds(b, core, it); } else { CountAdds(b, core, r.z, r.m, r.b, it); }
  }

  lemma {:induction false} RepeatBuilds(b: Built, o: One, r: Reps, b': Built, endbuf: nat)
    requires OneOk(o) && RepsOk(r) && b' == b.(items := b.items + [RepeatItem(o, r)])
    ensures Builds(b, Toks(Repeat(o, r)), b', endbuf)
  {
    var b1 := Push(b, CoreOf(o));
    OneAdds(b, o);
    PushSize(b, CoreOf(o));
    OneMeans(o, 0);
    if r.Once? {
      BuildsOne(b, OneTok(o), b', endbuf);
    } else {
      var t := RepsToks(r)[0];
      RepsAdd(b, o, r, t, b');
      BuildsTwo(b, OneTok(o), b1, t, b', endbuf);
    }
  }

  lemma {:induction false} RefAdds(b: Built, n: number)
    requires n <= b.closed
    ensures Add(b, TBack(48 + n)) == Some(Push(b, Back(n - 1)))
  {
  }

  lemma {:induction false} RefBuilds(b: Built, n: number, b': Built, endbuf: nat)
    requires n <= b.closed && b' == b.(items := b.items + [Plain(Back(n - 1))])
    ensures Builds(b, [TBack(48 + n)], b', endbuf)
  {
    RefAdds(b, n);
    PushSize(b, Back(n - 1));
    BuildsOne(b, TBack(48 + n), b', endbuf);
  }

  lemma {:induction false} RefStarBuilds(b: Built, n: number, it: Item, b': Built, endbuf: nat)
    requires n <= b.closed && it == Item(Back(n - 1), true, []) && b' == b.(items := b.items + [it])
    ensures Builds(b, [TBack(48 + n), TStar], b', endbuf)
  {
    RefAdds(b, n);
    PushSize(b, it.core);
    StarAdds(b, it.core, it);
    RepsSize(b, it.core, it);
    BuildsTwo(b, TBack(48 + n), Push(b, it.core), TStar, b', endbuf);
  }

  /** The tokens of a whole pattern take `b` to `b'`, unless the buffer is too small. */
  predicate BuildsAll(b: Built, us: seq<Piece>, items: seq<Item>, endbuf: nat) {
    var r := AddAll(b, ToksOf(us), endbuf);
    && (r.Some? ==> r.value.items == b.items + items && r.value.stack == [])
    && (|Encode(b.items)| + 35 * |us| < endbuf ==> r.Some? && |Encode(r.value.items)| <= |Encode(b.items)| + 35 * |us|)
  }

  lemma {:induction false} BuildsMore(b: Built, us: seq<Piece>, it: Item, b': Built, rest: seq<Item>, endbuf: nat)
    requires us != [] && Builds(b, Toks(us[0]), b', endbuf) && b'.items == b.items + [it]
    requires BuildsAll(b', us[1..], rest, endbuf)
    ensures BuildsAll(b, us, [it] + rest, endbuf)
  {
    var r, more := AddAll(b, ToksOf(us), endbuf), AddAll(b', ToksOf(us[1..]), endbuf);
    FirstBuilt(b, us, b', endbuf, r, more);
    assert (b.items + [it]) + rest == b.items + ([it] + rest);
  }

  lemma {:induction false} FirstBuilt(b: Built, us: seq<Piece>, b': Built, endbuf: nat, r: Option<Built>,
                                      more: Option<Built>)
    requires us != [] && Builds(b, Toks(us[0]), b', endbuf)
    requires r == AddAll(b, ToksOf(us), endbuf) && more == AddAll(b', ToksOf(us[1..]), endbuf)
    ensures (r.Some? ==> r == more) && (|Encode(b.items)| + 35 < endbuf ==> r == more)
  {
    AddAllAppend(b, Toks(us[0]), ToksOf(us[1..]), endbuf);
  }

  /** The groups that are open are not closed, and no number is there twice. */
  predicate Scoped(open: seq<slot>, n: nat, closed: set<slot>) {
    && n <= 9
    && (forall i :: 0 <= i < |open| ==> open[i] < n && open[i] !in closed)
    && (forall i, j :: 0 <= i < j < |open| ==> open[i] != open[j])
    && (forall i :: i in closed ==> i < n)
  }

  lemma {:induction false} ToksBuild(us: seq<Piece>, b: Built, closed: set<slot>, endbuf: nat)
    requires Sensible(us, b.stack, b.nbra, closed) && Scoped(b.stack, b.nbra, closed) && b.closed == |closed|
    ensures BuildsAll(b, us, ItemsOf(us, b.stack, b.nbra, closed), endbuf)
    decreases |us|, 1
  {
    if us == [] {
      assert b.items + [] == b.items;
    } else {
      match us[0]
      case Repeat(_, _) => CharacterBuilds(us, b, closed, endbuf);
      case Open => OpenBuilds(us, b, closed, endbuf);
      case Close => CloseBuilds(us, b, closed, endbuf);
      case Ref(_) => ReferenceBuilds(us, b, closed, endbuf);
      case RefStar(_) => ReferenceBuilds(us, b, closed, endbuf);
      case End => EndBuilds(us, b, endbuf);
    }
  }

  lemma {:induction false} CharacterBuilds(us: seq<Piece>, b: Built, closed: set<slot>, endbuf: nat)
    requires us != [] && us[0].Repeat?
    requires Sensible(us, b.stack, b.nbra, closed) && Scoped(b.stack, b.nbra, closed) && b.closed == |closed|
    ensures BuildsAll(b, us, ItemsOf(us, b.stack, b.nbra, closed), endbuf)
    decreases |us|, 0
  {
    var o, r := us[0].one, us[0].reps;
    var it := RepeatItem(o, r);
    var b' := b.(items := b.items + [it]);
    RepeatBuilds(b, o, r, b', endbuf);
    ToksBuild(us[1..], b', closed, endbuf);
    BuildsMore(b, us, it, b', ItemsOf(us[1..], b.stack, b.nbra, closed), endbuf);
  }

  lemma {:induction false} ReferenceBuilds(us: seq<Piece>, b: Built, closed: set<slot>, endbuf: nat)
    requires us != [] && (us[0].Ref? || us[0].RefStar?)
    requires Sensible(us, b.stack, b.nbra, closed) && Scoped(b.stack, b.nbra, closed) && b.closed == |closed|
    ensures BuildsAll(b, us, ItemsOf(us, b.stack, b.nbra, closed), endbuf)
    decreases |us|, 0
  {
    var it := Item(Back(us[0].n - 1), us[0].RefStar?, []);
    var b' := b.(items := b.items + [it]);
    if us[0].Ref? { RefBuilds(b, us[0].n, b', endbuf); } else { RefStarBuilds(b, us[0].n, it, b', endbuf); }
    ToksBuild(us[1..], b', closed, endbuf);
    BuildsMore(b, us, it, b', ItemsOf(us[1..], b.stack, b.nbra, closed), endbuf);
  }

  lemma {:induction false} ScopedOpen(open: seq<slot>, n: nat, closed: set<slot>)
    requires Scoped(open, n, closed) && n < 9
    ensures Scoped(open + [n], n + 1, closed)
  {
  }

  lemma {:induction false} ScopedClose(open: seq<slot>, n: nat, closed: set<slot>, i: slot)
    requires Scoped(open, n, closed) && open != [] && i == open[|open| - 1]
    ensures Scoped(open[..|open| - 1], n, closed + {i}) && |closed + {i}| == |closed| + 1
  {
  }

  lemma {:induction false} OpenAdds(b: Built, b': Built, endbuf: nat)
    requires b.nbra < 9 && b' == Built(b.items + [Plain(Bra(b.nbra))], b.stack + [b.nbra], b.closed, b.nbra + 1)
    ensures Builds(b, [TOpen], b', endbuf)
  {
    PushSize(b, Bra(b.nbra));
    BuildsOne(b, TOpen, b', endbuf);
  }

  lemma {:induction false} CloseAdds(b: Built, b': Built, i: slot, endbuf: nat)
    requires b.stack != [] && i == b.stack[|b.stack| - 1]
    requires b' == Built(b.items + [Plain(Ket(i))], b.stack[..|b.stack| - 1], b.closed + 1, b.nbra)
    ensures Builds(b, [TClose], b', endbuf)
  {
    PushSize(b, Ket(i));
    BuildsOne(b, TClose, b', endbuf);
  }

  lemma {:induction false} OpenBuilds(us: seq<Piece>, b: Built, closed: set<slot>, endbuf: nat)
    requires us != [] && us[0].Open?
    requires Sensible(us, b.stack, b.nbra, closed) && Scoped(b.stack, b.nbra, closed) && b.closed == |closed|
    ensures BuildsAll(b, us, ItemsOf(us, b.stack, b.nbra, closed), endbuf)
    decreases |us|, 0
  {
    var it := Plain(Bra(b.nbra));
    var b' := Built(b.items + [it], b.stack + [b.nbra], b.closed, b.nbra + 1);
    OpenAdds(b, b', endbuf);
    ScopedOpen(b.stack, b.nbra, closed);
    ToksBuild(us[1..], b', closed, endbuf);
    BuildsMore(b, us, it, b', ItemsOf(us[1..], b'.stack, b'.nbra, closed), endbuf);
  }

  lemma {:induction false} CloseBuilds(us: seq<Piece>, b: Built, closed: set<slot>, endbuf: nat)
    requires us != [] && us[0].Close?
    requires Sensible(us, b.stack, b.nbra, closed) && Scoped(b.stack, b.nbra, closed) && b.closed == |closed|
    ensures BuildsAll(b, us, ItemsOf(us, b.stack, b.nbra, closed), endbuf)
    decreases |us|, 0
  {
    var i := b.stack[|b.stack| - 1];
    var it, closed' := Plain(Ket(i)), closed + {i};
    var b' := Built(b.items + [it], b.stack[..|b.stack| - 1], b.closed + 1, b.nbra);
    CloseAdds(b, b', i, endbuf);
    ScopedClose(b.stack, b.nbra, closed, i);
    ToksBuild(us[1..], b', closed', endbuf);
    BuildsMore(b, us, it, b', ItemsOf(us[1..], b'.stack, b'.nbra, closed'), endbuf);
  }

  lemma {:induction false} EndBuilds(us: seq<Piece>, b: Built, endbuf: nat)
    requires us == [End] && b.stack == []
    ensures BuildsAll(b, us, [Plain(Dol)], endbuf)
  {
    PushSize(b, Dol);
    BuildsOne(b, TDollar, Push(b, Dol), endbuf);
    assert us[1..] == [] && ToksOf(us) == [TDollar];
  }

  // ----- the whole pattern -----

  /** A pattern as it is written, its tokens being read as they are meant. */
  predicate Writable(caret: bool, us: seq<Piece>, eof: byte) {
    && Sensible(us, [], 0, {}) && Delimited(us, eof)
    && (caret || (us != [] && !(us[0].Repeat? && us[0].one == Letter(94))))
  }

  function WholeText(caret: bool, us: seq<Piece>): seq<byte> { (if caret then [94] else []) + PiecesText(us) }

  lemma {:induction false} WritableTokens(caret: bool, us: seq<Piece>, eof: byte)
    requires Writable(caret, us, eof)
    ensures TokensValid(ToksOf(us), true, eof) && AsMeant(caret, ToksOf(us), eof)
    ensures WholeText(caret, us) == PatternText(caret, ToksOf(us))
  {
    ToksValid(us, [], 0, {}, true, eof);
    PiecesSpelled(us);
  }

  lemma {:induction false} WritableBuilt(us: seq<Piece>, items: seq<Item>, endbuf: nat)
    requires Sensible(us, [], 0, {}) && items == ItemsOf(us, [], 0, {})
    ensures BuildsAll(Empty, us, items, endbuf) && ItemsOk(items)
  {
    ToksBuild(us, Empty, {}, endbuf);
    SensibleOk(us, [], 0, {});
  }

  /** The text of a pattern compiles to the program of its items, unless the buffer is too small;
      with 35 bytes for each piece of it, it is not. */
  lemma {:induction false} PatternCompiles(res: Compiled, text: seq<byte>, caret: bool, us: seq<Piece>, tail: seq<byte>,
                                           eof: byte, sed: bool, endbuf: nat, prog: seq<byte>, items: seq<Item>)
    requires Writable(caret, us, eof) && Ends(tail, eof, sed) && text == WholeText(caret, us) + tail
    requires items == ItemsOf(us, [], 0, {}) && Translates(res, text, eof, sed, endbuf, prog)
    ensures res.Program? ==> res.circf == caret && prog == Code(items)
    ensures 35 * |us| < endbuf ==> res.Program?
  {
    WritableTokens(caret, us, eof);
    WritableBuilt(us, items, endbuf);
    var ts := ToksOf(us);
    SpelledCompiles(res, text, caret, ts, tail, eof, sed, endbuf, prog);
    CompiledOrNot(res, text, caret, ts, tail, eof, sed, endbuf, prog);
    assert Empty.items + items == items;
  }

  lemma {:induction false} CompiledOrNot(res: Compiled, text: seq<byte>, caret: bool, ts: seq<Tok>, tail: seq<byte>,
                                         eof: byte, sed: bool, endbuf: nat, prog: seq<byte>)
    requires TokensValid(ts, true, eof) && Ends(tail, eof, sed) && text == PatternText(caret, ts) + tail
    requires AsMeant(caret, ts, eof) && Translates(res, text, eof, sed, endbuf, prog)
    ensures res.Program? <==> Complete(AddAll(Empty, ts, endbuf), endbuf).Some?
  {
    SpelledStart(caret, ts, tail, eof, sed);
    SpelledParses(caret, ts, tail, eof, sed, endbuf);
  }

  /** These items match from `p` up to `end` exactly if the pattern means so. */
  lemma {:induction false} PatternMeans(us: seq<Piece>, items: seq<Item>, s: seq<byte>, p: nat, caps: Caps, end: nat)
    requires Sensible(us, [], 0, {}) && items == ItemsOf(us, [], 0, {}) && p <= |s|
    ensures ItemsOk(items) && (MatchesTo(items, s, p, caps, end) <==> Means(us, s, p, end, NoGroups))
  {
    assert NoGroups.words.Keys == {};
    ItemsMean(us, s, p, caps, NoGroups, end);
  }

  // ----- it can be run -----

  lemma {:induction false} RefsAppend(ts: seq<Tok>, rest: seq<Tok>, open: seq<slot>, n: nat)
    requires forall i :: 0 <= i < |ts| ==> !ts[i].TOpen? && !ts[i].TClose?
    requires forall i :: 0 <= i < |ts| && ts[i].TBack? && 49 <= ts[i].digit < 58 ==> (ts[i].digit - 49) !in open
    requires RefsClosed(rest, open, n)
    ensures RefsClosed(ts + rest, open, n)
    decreases |ts|
  {
    if ts == [] {
      assert ts + rest == rest;
    } else {
      assert (ts + rest)[1..] == ts[1..] + rest;
      RefsAppend(ts[1..], rest, open, n);
    }
  }

  lemma {:induction false} RefsMarks(rest: seq<Tok>, open: seq<slot>, n: nat)
    ensures n < 9 && RefsClosed(rest, open + [n], n + 1) ==> RefsClosed([TOpen] + rest, open, n)
    ensures open != [] && RefsClosed(rest, open[..|open| - 1], n) ==> RefsClosed([TClose] + rest, open, n)
  {
    assert ([TOpen] + rest)[1..] == rest && ([TClose] + rest)[1..] == rest;
  }

  lemma {:induction false} RefsPiece(u: Piece, rest: seq<Tok>, open: seq<slot>, n: nat)
    requires RefsClosed(rest, open, n) && !u.Open? && !u.Close?
    requires u.Ref? || u.RefStar? ==> u.n - 1 !in open
    ensures RefsClosed(Toks(u) + rest, open, n)
  {
    RefsAppend(Toks(u), rest, open, n);
  }

  lemma {:induction false} ToksClosed(us: seq<Piece>, open: seq<slot>, n: nat, closed: set<slot>)
    requires Sensible(us, open, n, closed) && Scoped(open, n, closed)
    ensures RefsClosed(ToksOf(us), open, n)
    decreases |us|
  {
    if us != [] {
      var u, rest := us[0], ToksOf(us[1..]);
      RefsMarks(rest, open, n);
      if u.Open? {
        ToksClosed(us[1..], open + [n], n + 1, closed);
      } else if u.Close? {
        ToksClosed(us[1..], open[..|open| - 1], n, closed + {open[|open| - 1]});
      } else {
        ToksClosed(us[1..], open, n, closed);
        RefsPiece(u, rest, open, n);
      }
    }
  }

  lemma {:induction false} ToksPlaced(us: seq<Piece>, eof: byte)
    requires Sensible(us, [], 0, {}) && Delimited(us, eof)
    ensures IntervalsPlaced(ToksOf(us), Start)
  {
    var items, endbuf := ItemsOf(us, [], 0, {}), 35 * |us| + 1;
    WritableBuilt(us, items, endbuf);
    ToksValid(us, [], 0, {}, true, eof);
    assert Empty.items + items == items;
    IntervalsDecide(ToksOf(us), Empty, eof, endbuf);
  }

  /** Every pattern so written has what the matcher takes for granted. */
  lemma {:induction false} PatternRunnable(caret: bool, us: seq<Piece>, tail: seq<byte>, eof: byte, sed: bool)
    requires Writable(caret, us, eof) && Ends(tail, eof, sed)
    ensures Runnable(WholeText(caret, us) + tail, eof)
  {
    var ts, src := ToksOf(us), WholeText(caret, us) + tail + [0];
    WritableTokens(caret, us, eof);
    SpelledStart(caret, ts, tail, eof, sed);
    SpelledWritten(caret, ts, tail, eof, sed);
    OneReading(ts, src, Lead(src), true, eof);
    ToksPlaced(us, eof);
    ToksClosed(us, [], 0, {});
  }

  // ----- what is found -----

  ghost predicate MeansAt(us: seq<Piece>, s: seq<byte>, p: nat) {
    exists end: nat :: Means(us, s, p, end, NoGroups)
  }

  /** The pattern matches somewhere: anchored, at the start of the subject. */
  ghost predicate MeansSomewhere(caret: bool, us: seq<Piece>, s: seq<byte>) {
    exists q: nat :: MayStart(caret, s, q) && MeansAt(us, s, q)
  }

  lemma {:induction false} MatchesIsTo(items: seq<Item>, s: seq<byte>, p: nat, caps: Caps)
    requires ItemsOk(items)
    ensures Matches(items, s, p, caps) <==> exists end: nat :: MatchesTo(items, s, p, caps, end)
  {
    if ks: seq<nat> :| Accepts(items, s, p, caps, ks) {
      assert MatchesTo(items, s, p, caps, EndOf(items, s, p, caps, ks));
    }
  }

  lemma {:induction false} MatchesMeans(us: seq<Piece>, items: seq<Item>, s: seq<byte>, p: nat, caps: Caps)
    requires Sensible(us, [], 0, {}) && items == ItemsOf(us, [], 0, {}) && p <= |s|
    ensures ItemsOk(items) && (Matches(items, s, p, caps) <==> MeansAt(us, s, p))
  {
    SensibleOk(us, [], 0, {});
    MatchesIsTo(items, s, p, caps);
    if end: nat :| MatchesTo(items, s, p, caps, end) { PatternMeans(us, items, s, p, caps, end); }
    if end: nat :| Means(us, s, p, end, NoGroups) { PatternMeans(us, items, s, p, caps, end); }
  }

  lemma {:induction false} OccurringMeans(caret: bool, us: seq<Piece>, items: seq<Item>, s: seq<byte>, caps: Caps)
    requires Sensible(us, [], 0, {}) && items == ItemsOf(us, [], 0, {})
    ensures ItemsOk(items) && (Occurring(items, caret, s, caps) <==> MeansSomewhere(caret, us, s))
  {
    SensibleOk(us, [], 0, {});
    forall q: nat | MayStart(caret, s, q) ensures Matches(items, s, q, caps) <==> MeansAt(us, s, q) {
      MatchesMeans(us, items, s, q, caps);
    }
  }

  /** What `step` finds with the program of a pattern is the leftmost place where the pattern
      matches, and nothing if it matches nowhere. */
  lemma {:induction false} PatternFound(v: Verdict, caret: bool, us: seq<Piece>, items: seq<Item>, s: seq<byte>,
                                        caps: Caps, caps': Caps, loc1: int, loc2: int)
    requires Sensible(us, [], 0, {}) && items == ItemsOf(us, [], 0, {}) && ItemsOk(items)
    requires Leftmost(v, items, caret, s, caps, caps', loc1, loc2)
    ensures v.Found? <==> MeansSomewhere(caret, us, s)
    ensures v.Found? ==> 0 <= loc1 && 0 <= loc2 && Means(us, s, loc1, loc2, NoGroups)
    ensures v.Found? ==> forall q: nat :: MayStart(caret, s, q) && MeansAt(us, s, q) ==> loc1 <= q
  {
    OccurringMeans(caret, us, items, s, caps);
    if v.Found? {
      GreedyMeans(us, items, s, loc1, caps, loc2, caps');
      forall q: nat | MayStart(caret, s, q) && MeansAt(us, s, q) ensures loc1 <= q {
        MatchesMeans(us, items, s, q, caps);
      }
    }
  }

  lemma {:induction false} GreedyMeans(us: seq<Piece>, items: seq<Item>, s: seq<byte>, p: nat, caps: Caps, end: int,
                                       caps': Caps)
    requires Sensible(us, [], 0, {}) && items == ItemsOf(us, [], 0, {}) && ItemsOk(items) && p <= |s|
    requires Greedy(items, s, p, caps, end, caps')
    ensures 0 <= end && Means(us, s, p, end, NoGroups)
  {
    var ks: seq<nat> :| Accepts(items, s, p, caps, ks) && end == EndOf(items, s, p, caps, ks);
    assert MatchesTo(items, s, p, caps, end);
    PatternMeans(us, items, s, p, caps, end);
  }

  predicate NoStarredRef(us: seq<Piece>) { forall i :: 0 <= i < |us| ==> !us[i].RefStar? }

  lemma {:induction false} UnstarredSolid(items: seq<Item>, begun: set<slot>, grown: set<slot>, full: set<slot>)
    requires ItemsOk(items) && forall i :: 0 <= i < |items| ==> !(items[i].core.Back? && items[i].star)
    ensures Solid(items, begun, grown, full)
    decreases |items|
  {
    if items != [] {
      forall begun', grown', full' ensures Solid(items[1..], begun', grown', full') {
        UnstarredSolid(items[1..], begun', grown', full');
      }
    }
  }

  lemma {:induction false} UnstarredItems(us: seq<Piece>, open: seq<slot>, n: nat, closed: set<slot>)
    requires Sensible(us, open, n, closed) && NoStarredRef(us)
    ensures forall i :: 0 <= i < |us| ==>
              var it := ItemsOf(us, open, n, closed)[i]; !(it.core.Back? && it.star)
    decreases |us|
  {
    if us != [] {
      match us[0]
      case Repeat(o, _) =>
        OneMeans(o, 0);
        UnstarredItems(us[1..], open, n, closed);
      case Open => UnstarredItems(us[1..], open + [n], n + 1, closed);
      case Close => UnstarredItems(us[1..], open[..|open| - 1], n, closed + {open[|open| - 1]});
      case Ref(_) => UnstarredItems(us[1..], open, n, closed);
      case RefStar(_) =>
      case End =>
    }
  }

  /** A pattern without starred references never keeps the matcher from returning. */
  lemma {:induction false} UnstarredReturns(us: seq<Piece>)
    requires Sensible(us, [], 0, {}) && NoStarredRef(us)
    ensures var items := ItemsOf(us, [], 0, {}); ItemsOk(items) && Solid(items, {}, {}, {})
  {
    SensibleOk(us, [], 0, {});
    UnstarredItems(us, [], 0, {});
    UnstarredSolid(ItemsOf(us, [], 0, {}), {}, {}, {});
  }

  /** Compiling the text of a pattern and looking for it in a subject: the leftmost place where
      the pattern matches is found, or none if there is none; unless a starred reference to an
      empty group can be met. */
  method FindPattern(text: seq<byte>, ghost caret: bool, ghost us: seq<Piece>, ghost tail: seq<byte>,
                     buf: array<byte>, endbuf: nat, eof: byte, sed: bool, m: Matcher, s: seq<byte>)
    returns (res: Compiled, v: Verdict)
    requires Writable(caret, us, eof) && Ends(tail, eof, sed) && text == WholeText(caret, us) + tail && IsText(text)
    requires endbuf < buf.Length && m.Ready() && IsText(s) && {buf as object} !! {m, m.braslist, m.braelist}
    modifies buf, m, m.braslist, m.braelist
    ensures 35 * |us| < endbuf ==> res.Program?
    ensures ItemsOk(ItemsOf(us, [], 0, {}))
    ensures res.Program? && Solid(ItemsOf(us, [], 0, {}), {}, {}, {}) ==>
              && (v.Found? <==> MeansSomewhere(caret, us, s)) && !v.Looping?
              && (v.Found? ==>
                    && 0 <= m.loc1 && 0 <= m.loc2 && Means(us, s, m.loc1, m.loc2, NoGroups)
                    && forall q: nat :: MayStart(caret, s, q) && MeansAt(us, s, q) ==> m.loc1 <= q)
  {
    ghost var want := ItemsOf(us, [], 0, {});
    SensibleOk(us, [], 0, {});
    PatternRunnable(caret, us, tail, eof, sed);
    ghost var prog, ts, items;
    res, v, prog, ts, items := CompileAndStep(text, buf, endbuf, eof, sed, m, s);
    PatternCompiles(res, text, caret, us, tail, eof, sed, endbuf, prog, want);
    if res.Program? {
      DecodeCode(want);
      if Solid(want, {}, {}, {}) {
        PatternFound(v, caret, us, want, s, old(m.Now()), m.Now(), m.loc1, m.loc2);
      }
    }
  }
}
