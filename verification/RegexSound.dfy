/** Which patterns compile to a program the matcher can run: conditions on the text alone,
    each shown to be exact. */
module RegexSound {
  import opened Bytes
  import opened RegexProgram
  import opened Wrappers
  import opened RegexCaptures
  import opened RegexText
  import opened RegexBrackets
  import opened RegexBuild

  // ----- intervals -----

  /** What an interval or a star would apply to. */
  datatype Prev = Start | Mark | Char | Counted | Ref | Anchor

  function NextPrev(prev: Prev, t: Tok): Prev {
    match t
    case TStar => if prev.Start? || prev.Mark? then Char else prev
    case TInterval(_, _) => Counted
    case TOpen => Mark
    case TClose => Mark
    case TBack(_) => Ref
    case TDollar => Anchor
    case _ => Char
  }

  /** Every interval follows a one-character item, stars aside, and no other interval. */
  predicate IntervalsPlaced(ts: seq<Tok>, prev: Prev) {
    ts == [] ||
    ((ts[0].TInterval? ==> prev.Char?) && IntervalsPlaced(ts[1..], NextPrev(prev, ts[0])))
  }

  function PrevOf(b: Built): Prev {
    if b.items == [] then Start
    else if Last(b).ivs != [] then Counted
    else match Last(b).core
      case Bra(_) => Mark
      case Ket(_) => Mark
      case Back(_) => Ref
      case Dol => Anchor
      case _ => Char
  }

  lemma OkAppend(items: seq<Item>, it: Item)
    ensures ItemsOk(items + [it]) <==> ItemsOk(items) && ItemOk(it)
  {
    var all := items + [it];
    assert all[|items|] == it;
    assert forall j :: 0 <= j < |items| ==> all[j] == items[j];
  }

  lemma OkSetLast(b: Built, it: Item)
    requires b.items != []
    ensures ItemsOk(b.items) <==> ItemsOk(b.items[..|b.items| - 1]) && ItemOk(Last(b))
    ensures ItemsOk(SetLast(b, it).items) <==> ItemsOk(b.items[..|b.items| - 1]) && ItemOk(it)
  {
    var init := b.items[..|b.items| - 1];
    assert b.items == init + [Last(b)];
    OkAppend(init, Last(b));
    OkAppend(init, it);
  }

  lemma TokenCoreOk(t: Tok, first: bool, eof: byte)
    requires TokValid(t, first, eof) && t.TBracket?
    ensures CoreOk(BracketCore(t.neg, t.elems)) && OneChar(BracketCore(t.neg, t.elems))
  {
    BracketMeans(t.neg, t.elems, 0);
  }

  lemma PushOk(b: Built, core: Core)
    ensures ItemsOk(Push(b, core).items) <==> ItemsOk(b.items) && CoreOk(core)
    ensures Last(Push(b, core)) == Plain(core)
  {
    OkAppend(b.items, Plain(core));
  }

  /** The core a token appends, if it appends one. */
  function CoreFor(b: Built, t: Tok): Option<Core> {
    match t
    case TDot => Some(Dot)
    case TPlain(c) => Some(Chr(c))
    case TEscaped(c) => Some(Chr(c))
    case TNewline => Some(Chr(NL))
    case TStar => if StarIsPlain(b) then Some(Chr(STAR)) else None
    case TDollar => Some(Dol)
    case TBracket(neg, es) => Some(BracketCore(neg, es))
    case TOpen => if b.nbra < 9 then Some(Bra(b.nbra)) else None
    case TClose => if b.stack != [] then Some(Ket(b.stack[|b.stack| - 1])) else None
    case TInterval(_, _) => None
    case TBack(d) => if 49 <= d < 58 then Some(Back(d - 49)) else None
  }

  /** Adding a token appends one item, or changes the star or the intervals of the last. */
  lemma AddShape(b: Built, t: Tok)
    requires Add(b, t).Some?
    ensures var b' := Add(b, t).value;
            match CoreFor(b, t)
            case Some(core) => b'.items == Push(b, core).items
            case None => b.items != [] && Last(b').core == Last(b).core && b' == SetLast(b, Last(b'))
  {
  }

  lemma AddOk(b: Built, t: Tok, eof: byte)
    requires Add(b, t).Some? && TokValid(t, b.items == [], eof) && !PrevOf(b).Anchor?
    ensures var b' := Add(b, t).value;
            && (ItemsOk(b'.items) <==> ItemsOk(b.items) && (t.TInterval? ==> PrevOf(b).Char?))
            && PrevOf(b') == NextPrev(PrevOf(b), t)
  {
    var b' := Add(b, t).value;
    if t.TInterval? {
      OkSetLast(b, Last(b'));
    } else if t.TStar? && !StarIsPlain(b) {
      OkSetLast(b, Starred(Last(b)));
    } else {
      if t.TBracket? { TokenCoreOk(t, b.items == [], eof); }
      AddShape(b, t);
      PushOk(b, CoreFor(b, t).value);
    }
  }

  /** The items are acceptable to the matcher exactly when the intervals are well placed. */
  lemma {:induction false} IntervalsDecide(ts: seq<Tok>, b: Built, eof: byte, endbuf: nat)
    requires AddAll(b, ts, endbuf).Some? && TokensValid(ts, b.items == [], eof) && !PrevOf(b).Anchor?
    ensures ItemsOk(AddAll(b, ts, endbuf).value.items) <==> ItemsOk(b.items) && IntervalsPlaced(ts, PrevOf(b))
    decreases |ts|
  {
    if ts != [] {
      var t, rest := ts[0], ts[1..];
      assert ts == [t] + rest;
      TokensValidCons(t, rest, b.items == [], eof);
      var b' := Add(b, t).value;
      AddKeepsItems(b, t);
      AddOk(b, t, eof);
      if rest != [] { IntervalsDecide(rest, b', eof, endbuf); }
    }
  }

  // ----- back-references -----

  /** Every back-reference names a group that is not open at that point. */
  predicate RefsClosed(ts: seq<Tok>, stack: seq<slot>, nbra: nat)
    decreases |ts|
  {
    ts == [] ||
    match ts[0]
    case TOpen => nbra < 9 && RefsClosed(ts[1..], stack + [nbra], nbra + 1)
    case TClose => stack != [] && RefsClosed(ts[1..], stack[..|stack| - 1], nbra)
    case TBack(d) => (49 <= d < 58 ==> (d - 49) !in stack) && RefsClosed(ts[1..], stack, nbra)
    case _ => RefsClosed(ts[1..], stack, nbra)
  }

  /** What holds of the groups between two tokens, whatever the pattern. */
  ghost predicate Grouped(b: Built) {
    && b.nbra <= 9 && b.closed + |b.stack| == b.nbra
    && (forall i, j :: 0 <= i < j < |b.stack| ==> b.stack[i] < b.stack[j])
    && (forall i :: 0 <= i < |b.stack| ==> b.stack[i] < b.nbra)
    && (forall i: slot :: i in Bras(b.items) <==> i < b.nbra)
    && (forall i: slot :: i in Kets(b.items) <==> i < b.nbra && i !in b.stack)
  }

  lemma {:induction false} MarksAppend(items: seq<Item>, it: Item)
    ensures Bras(items + [it]) == Begun(it, Bras(items))
    ensures Kets(items + [it]) == Closed(it, Kets(items))
  {
    if items == [] {
      assert items + [it] == [it];
      assert [it][1..] == [];
    } else {
      assert (items + [it])[1..] == items[1..] + [it];
      MarksAppend(items[1..], it);
    }
  }

  predicate GuardedLast(it: Item, begun: set<slot>, closed: set<slot>) {
    match it.core
    case Bra(i) => i !in begun
    case Ket(i) => i in begun && i !in closed
    case Back(i) => i in closed
    case _ => true
  }

  lemma {:induction false} GuardedAppend(items: seq<Item>, it: Item, begun: set<slot>, closed: set<slot>)
    ensures Guarded(items + [it], begun, closed) <==>
            Guarded(items, begun, closed) && GuardedLast(it, begun + Bras(items), closed + Kets(items))
    decreases |items|
  {
    if items == [] {
      assert items + [it] == [it];
      assert [it][1..] == [];
      assert begun + {} == begun && closed + {} == closed;
    } else {
      var b', c' := Begun(items[0], begun), Closed(items[0], closed);
      assert (items + [it])[1..] == items[1..] + [it];
      GuardedAppend(items[1..], it, b', c');
      assert b' + Bras(items[1..]) == begun + Bras(items);
      assert c' + Kets(items[1..]) == closed + Kets(items);
    }
  }

  /** Stars and intervals on the last item do not touch the groups. */
  lemma SetLastGroups(b: Built, it: Item)
    requires b.items != [] && it.core == Last(b).core
    ensures var items := SetLast(b, it).items;
            && Bras(items) == Bras(b.items) && Kets(items) == Kets(b.items)
            && (Guarded(items, {}, {}) <==> Guarded(b.items, {}, {}))
  {
    var init := b.items[..|b.items| - 1];
    assert b.items == init + [Last(b)];
    MarksAppend(init, Last(b));
    MarksAppend(init, it);
    GuardedAppend(init, Last(b), {}, {});
    GuardedAppend(init, it, {}, {});
  }

  lemma PushGroups(b: Built, core: Core)
    ensures var items := Push(b, core).items;
            && Bras(items) == Begun(Plain(core), Bras(b.items))
            && Kets(items) == Closed(Plain(core), Kets(b.items))
            && (Guarded(items, {}, {}) <==>
                  Guarded(b.items, {}, {}) && GuardedLast(Plain(core), Bras(b.items), Kets(b.items)))
  {
    MarksAppend(b.items, Plain(core));
    GuardedAppend(b.items, Plain(core), {}, {});
    assert {} + Bras(b.items) == Bras(b.items) && {} + Kets(b.items) == Kets(b.items);
  }

  /** How the counters and the stack change. */
  lemma AddCounts(b: Built, t: Tok)
    requires Add(b, t).Some?
    ensures var b' := Add(b, t).value;
            match t
            case TOpen => b.nbra < 9 && b'.stack == b.stack + [b.nbra] && b'.nbra == b.nbra + 1 && b'.closed == b.closed
            case TClose => b.stack != [] && b'.stack == b.stack[..|b.stack| - 1] && b'.nbra == b.nbra
                && b'.closed == b.closed + 1
            case TBack(d) => 49 <= d < 58 && d - 49 < b.closed && b'.stack == b.stack && b'.nbra == b.nbra
                && b'.closed == b.closed
            case _ => b'.stack == b.stack && b'.nbra == b.nbra && b'.closed == b.closed
  {
  }

  lemma AddGroups(b: Built, t: Tok)
    requires Grouped(b) && Add(b, t).Some?
    ensures var b' := Add(b, t).value;
            && Grouped(b')
            && (Guarded(b'.items, {}, {}) <==>
                  Guarded(b.items, {}, {}) && (t.TBack? ==> (t.digit - 49) !in b.stack))
  {
    var b' := Add(b, t).value;
    AddShape(b, t);
    AddCounts(b, t);
    if CoreFor(b, t).None? {
      SetLastGroups(b, Last(b'));
    } else {
      PushGroups(b, CoreFor(b, t).value);
      if t.TOpen? { GroupsOpen(b, b'); } else if t.TClose? { GroupsClose(b, b'); }
    }
  }

  lemma GroupsOpen(b: Built, b': Built)
    requires Grouped(b) && b.nbra < 9 && b'.stack == b.stack + [b.nbra] && b'.nbra == b.nbra + 1
             && b'.closed == b.closed
    requires Bras(b'.items) == Bras(b.items) + {b.nbra} && Kets(b'.items) == Kets(b.items)
    ensures Grouped(b')
  {
  }

  lemma GroupsClose(b: Built, b': Built)
    requires Grouped(b) && b.stack != []
    requires b'.stack == b.stack[..|b.stack| - 1] && b'.nbra == b.nbra && b'.closed == b.closed + 1
    requires Bras(b'.items) == Bras(b.items) && Kets(b'.items) == Kets(b.items) + {b.stack[|b.stack| - 1]}
    ensures Grouped(b')
  {
    var top := b.stack[|b.stack| - 1];
    forall i: slot ensures i in b.stack <==> i in b'.stack || i == top {
      if i in b.stack {
        var j :| 0 <= j < |b.stack| && b.stack[j] == i;
        if j < |b.stack| - 1 { assert b'.stack[j] == i; }
      }
    }
    assert top !in b'.stack;
  }

  /** The program may be run with its captures intact exactly when every back-reference
      names a group closed before it. */
  lemma {:induction false} RefsDecide(ts: seq<Tok>, b: Built, endbuf: nat)
    requires Grouped(b) && AddAll(b, ts, endbuf).Some?
    ensures Guarded(AddAll(b, ts, endbuf).value.items, {}, {}) <==>
            Guarded(b.items, {}, {}) && RefsClosed(ts, b.stack, b.nbra)
    decreases |ts|
  {
    if ts != [] {
      AddGroups(b, ts[0]);
      var b' := RefsNext(ts, b, endbuf);
      RefsDecide(ts[1..], b', endbuf);
    }
  }

  lemma RefsNext(ts: seq<Tok>, b: Built, endbuf: nat) returns (b': Built)
    requires ts != [] && AddAll(b, ts, endbuf).Some?
    ensures Add(b, ts[0]) == Some(b') && AddAll(b', ts[1..], endbuf) == AddAll(b, ts, endbuf)
    ensures RefsClosed(ts, b.stack, b.nbra) <==>
            (ts[0].TBack? ==> (ts[0].digit - 49) !in b.stack) && RefsClosed(ts[1..], b'.stack, b'.nbra)
  {
    b' := Add(b, ts[0]).value;
    AddCounts(b, ts[0]);
  }

  /** The test `compile` makes on a back-reference, against what it is for: all references it
      lets through name closed groups exactly when no open group is numbered below the count
      of closed ones. */
  lemma ReferenceTest(b: Built)
    requires Grouped(b)
    ensures (forall d: byte :: 49 <= d < 58 && Add(b, TBack(d)).Some? ==> (d - 49) in Kets(b.items)) <==>
            b.stack == [] || b.stack[0] >= b.closed
  {
    if b.stack != [] && b.stack[0] < b.closed {
      var low: int := b.stack[0];
      var d: byte := low + 49;
      assert Add(b, TBack(d)).Some? && b.stack[0] in b.stack;
    }
  }

  /** Groups are opened only while none is open. */
  predicate Unnested(ts: seq<Tok>, inside: bool)
  {
    ts == [] ||
    match ts[0]
    case TOpen => !inside && Unnested(ts[1..], true)
    case TClose => Unnested(ts[1..], false)
    case _ => Unnested(ts[1..], inside)
  }

  /** Without nesting the test is enough. */
  lemma {:induction false} UnnestedRefsClosed(ts: seq<Tok>, b: Built, endbuf: nat)
    requires Grouped(b) && AddAll(b, ts, endbuf).Some? && Unnested(ts, b.stack != [])
    requires b.stack == [] || b.stack == [b.nbra - 1]
    ensures RefsClosed(ts, b.stack, b.nbra)
    decreases |ts|
  {
    if ts != [] {
      AddGroups(b, ts[0]);
      AddCounts(b, ts[0]);
      UnnestedRefsClosed(ts[1..], Add(b, ts[0]).value, endbuf);
    }
  }
}
