/** The pattern language that `compile` of usr/src/head/regexp.h reads: its tokens, how they
    are spelled, how text is cut into them, and the items they build. */
module RegexText {
  import opened Bytes
  import opened RegexProgram
  import opened Wrappers

  const NL: byte := 10
  const DOLLAR: byte := 36
  const OPEN: byte := 40
  const CLOSE: byte := 41
  const STAR: byte := 42
  const COMMA: byte := 44
  const DASH: byte := 45
  const DOT: byte := 46
  const LBRACKET: byte := 91
  const BACKSLASH: byte := 92
  const RBRACKET: byte := 93
  const CARET: byte := 94
  const LETTER_N: byte := 110
  const LBRACE: byte := 123
  const RBRACE: byte := 125

  predicate Digit(c: byte) { 48 <= c <= 57 }

  /** A piece of a bracket: a character, a range from the character before it, or a dash
      just before the closing bracket. */
  datatype Elem = Single(c: byte) | RangeTo(c: byte) | FinalDash

  datatype Tail = Exact | AtLeast | UpTo(ds: seq<byte>)

  datatype Tok =
    | TDot
    | TPlain(c: byte)
    | TEscaped(c: byte)
    | TNewline
    | TStar
    | TDollar
    | TBracket(neg: bool, elems: seq<Elem>)
    | TOpen
    | TClose
    | TInterval(ds: seq<byte>, tail: Tail)
    | TBack(digit: byte)

  // ----- spelling -----

  function SpellElem(e: Elem): seq<byte> {
    match e
    case Single(c) => [c]
    case RangeTo(c) => [DASH, c]
    case FinalDash => [DASH]
  }

  function SpellElems(es: seq<Elem>): seq<byte> {
    if es == [] then [] else SpellElem(es[0]) + SpellElems(es[1..])
  }

  function SpellTail(t: Tail): seq<byte> {
    match t
    case Exact => []
    case AtLeast => [COMMA]
    case UpTo(ds) => [COMMA] + ds
  }

  function Spell(t: Tok): seq<byte> {
    match t
    case TDot => [DOT]
    case TPlain(c) => [c]
    case TEscaped(c) => [BACKSLASH, c]
    case TNewline => [BACKSLASH, LETTER_N]
    case TStar => [STAR]
    case TDollar => [DOLLAR]
    case TBracket(neg, es) => [LBRACKET] + (if neg then [CARET] else []) + SpellElems(es) + [RBRACKET]
    case TOpen => [BACKSLASH, OPEN]
    case TClose => [BACKSLASH, CLOSE]
    case TInterval(ds, tail) => [BACKSLASH, LBRACE] + ds + SpellTail(tail) + [BACKSLASH, RBRACE]
    case TBack(d) => [BACKSLASH, d]
  }

  function SpellAll(ts: seq<Tok>): seq<byte> {
    if ts == [] then [] else Spell(ts[0]) + SpellAll(ts[1..])
  }

  function First(t: Tok): byte {
    match t
    case TDot => DOT
    case TPlain(c) => c
    case TStar => STAR
    case TDollar => DOLLAR
    case TBracket(_, _) => LBRACKET
    case _ => BACKSLASH
  }

  lemma SpellFirst(t: Tok)
    ensures Spell(t) != [] && Spell(t)[0] == First(t)
  {
  }

  // ----- which tokens there are -----

  /** `first`: this is the first piece, which may be anything but a dash operator. */
  predicate ElemsValid(es: seq<Elem>, first: bool) {
    && es != []
    && match es[0] {
         case Single(c) => c != 0 && c != NL && (!first ==> c != DASH)
         case RangeTo(c) => !first && c != 0 && c != RBRACKET
         case FinalDash => !first && |es| == 1
       }
    && (|es| > 1 ==>
          && ElemsValid(es[1..], false)
          && (es[1].Single? ==> es[1].c != RBRACKET))
  }

  predicate DigitsValid(ds: seq<byte>) { ds != [] && forall j :: 0 <= j < |ds| ==> Digit(ds[j]) }

  /** `first`: no item has been built yet, so that `\{` is an ordinary brace. */
  predicate TokValid(t: Tok, first: bool, eof: byte) {
    First(t) != eof && First(t) != NL &&
    match t
    case TPlain(c) => c !in {0, DOT, STAR, LBRACKET, BACKSLASH}
    case TEscaped(c) =>
      && c !in {0, NL, OPEN, CLOSE, LETTER_N} && !(49 <= c <= 57)
      && (c == LBRACE ==> first)
    case TBracket(neg, es) =>
      ElemsValid(es, true) && (!neg ==> es[0] != Single(CARET))
    case TInterval(ds, tail) =>
      !first && DigitsValid(ds) && (tail.UpTo? ==> DigitsValid(tail.ds))
    case TBack(d) => 49 <= d <= 57
    case _ => true
  }

  // ----- cutting text into tokens -----

  function LexElems(src: seq<byte>, p: nat, first: bool): Option<(seq<Elem>, nat)>
    decreases |src| - p, 0
  {
    if p >= |src| || src[p] == 0 || src[p] == NL then None
    else if src[p] == DASH && !first then
      if p + 1 >= |src| then None
      else if src[p + 1] == RBRACKET then Some(([FinalDash], p + 2))
      else LexMore(src, p + 2, RangeTo(src[p + 1]))
    else LexMore(src, p + 1, Single(src[p]))
  }

  function LexMore(src: seq<byte>, p: nat, e: Elem): Option<(seq<Elem>, nat)>
    decreases |src| - p, 1
  {
    if p >= |src| then None
    else if src[p] == RBRACKET then Some(([e], p + 1))
    else match LexElems(src, p, false)
      case None => None
      case Some((es, q)) => Some(([e] + es, q))
  }

  /** A run of digits up to, not including, a backslash or a comma. */
  function LexDigits(src: seq<byte>, p: nat): Option<(seq<byte>, nat)>
    decreases |src| - p
  {
    if p + 1 >= |src| || !Digit(src[p]) then None
    else if src[p + 1] == BACKSLASH || src[p + 1] == COMMA then Some(([src[p]], p + 1))
    else match LexDigits(src, p + 1)
      case None => None
      case Some((ds, q)) => Some(([src[p]] + ds, q))
  }

  /** What follows the first number of an interval. */
  function LexTail(src: seq<byte>, q: nat): Option<(Tail, nat)> {
    if q + 1 >= |src| then None
    else if src[q] == BACKSLASH then
      if src[q + 1] == RBRACE then Some((Exact, q + 2)) else None
    else if src[q] != COMMA then None
    else if src[q + 1] == BACKSLASH then
      if q + 2 < |src| && src[q + 2] == RBRACE then Some((AtLeast, q + 3)) else None
    else match LexDigits(src, q + 1)
      case None => None
      case Some((ds, r)) =>
        if r + 1 < |src| && src[r] == BACKSLASH && src[r + 1] == RBRACE then Some((UpTo(ds), r + 2)) else None
  }

  function LexInterval(src: seq<byte>, p: nat): Option<(Tok, nat)> {
    match LexDigits(src, p)
    case None => None
    case Some((ds, q)) =>
      match LexTail(src, q)
      case None => None
      case Some((tail, r)) => Some((TInterval(ds, tail), r))
  }

  function LexEscape(src: seq<byte>, p: nat, first: bool): Option<(Tok, nat)> {
    if p >= |src| || src[p] == NL then None
    else
      var c := src[p];
      if c == OPEN then Some((TOpen, p + 1))
      else if c == CLOSE then Some((TClose, p + 1))
      else if c == LBRACE && !first then LexInterval(src, p + 1)
      else if c == LETTER_N then Some((TNewline, p + 1))
      else if 49 <= c <= 57 then Some((TBack(c), p + 1))
      else Some((TEscaped(c), p + 1))
  }

  /** The token at `p`; the caller has seen that no terminator is there. */
  function Lex(src: seq<byte>, p: nat, first: bool, eof: byte): Option<(Tok, nat)>
    requires p < |src|
  {
    var c := src[p];
    if c == DOT then Some((TDot, p + 1))
    else if c == STAR then Some((TStar, p + 1))
    else if c == DOLLAR then
      if p + 1 >= |src| then None
      else Some((if src[p + 1] == eof || src[p + 1] == NL then TDollar else TPlain(c), p + 1))
    else if c == LBRACKET then
      var neg := p + 1 < |src| && src[p + 1] == CARET;
      match LexElems(src, if neg then p + 2 else p + 1, true)
      case None => None
      case Some((es, q)) => Some((TBracket(neg, es), q))
    else if c == BACKSLASH then LexEscape(src, p + 1, first)
    else Some((TPlain(c), p + 1))
  }

  lemma {:induction false} LexElemsAdvances(src: seq<byte>, p: nat, first: bool)
    ensures LexElems(src, p, first).Some? ==> p < LexElems(src, p, first).value.1
    decreases |src| - p, 0
  {
    if p < |src| {
      if p + 1 < |src| { LexMoreAdvances(src, p + 2, RangeTo(src[p + 1])); }
      LexMoreAdvances(src, p + 1, Single(src[p]));
    }
  }

  lemma {:induction false} LexMoreAdvances(src: seq<byte>, p: nat, e: Elem)
    ensures LexMore(src, p, e).Some? ==> p < LexMore(src, p, e).value.1
    decreases |src| - p, 1
  {
    if p < |src| { LexElemsAdvances(src, p, false); }
  }

  lemma {:induction false} LexDigitsAdvances(src: seq<byte>, p: nat)
    ensures LexDigits(src, p).Some? ==> p < LexDigits(src, p).value.1
    decreases |src| - p
  {
    if p + 1 < |src| { LexDigitsAdvances(src, p + 1); }
  }

  /** Every token takes up some text. */
  lemma LexAdvances(src: seq<byte>, p: nat, first: bool, eof: byte)
    requires p < |src|
    ensures Lex(src, p, first, eof).Some? ==> p < Lex(src, p, first, eof).value.1
  {
    LexElemsAdvances(src, p + 1, true);
    LexElemsAdvances(src, p + 2, true);
    LexDigitsAdvances(src, p + 2);
    if LexDigits(src, p + 2).Some? { LexDigitsAdvances(src, LexDigits(src, p + 2).value.1 + 1); }
  }

  // ----- spelling and cutting are inverse -----

  /** `w` lies in `src` at `p`. */
  predicate Occurs(w: seq<byte>, src: seq<byte>, p: nat) {
    if w == [] then p <= |src|
    else p < |src| && src[p] == w[0] && Occurs(w[1..], src, p + 1)
  }

  lemma {:induction false} OccursIsSlice(w: seq<byte>, src: seq<byte>, p: nat)
    ensures Occurs(w, src, p) <==> p + |w| <= |src| && src[p..p + |w|] == w
  {
    if w == [] {
    } else if p < |src| {
      OccursIsSlice(w[1..], src, p + 1);
      if p + |w| <= |src| {
        assert src[p..p + |w|] == [src[p]] + src[p + 1..p + 1 + |w[1..]|];
        assert w == [w[0]] + w[1..];
      }
    }
  }

  lemma {:induction false} OccursParts(u: seq<byte>, v: seq<byte>, src: seq<byte>, p: nat)
    ensures Occurs(u + v, src, p) <==> Occurs(u, src, p) && Occurs(v, src, p + |u|)
  {
    if u == [] {
      assert u + v == v;
      if v != [] { OccursFits(v, src, p); }
    } else {
      assert (u + v)[1..] == u[1..] + v;
      OccursParts(u[1..], v, src, p + 1);
    }
  }

  lemma {:induction false} OccursFits(w: seq<byte>, src: seq<byte>, p: nat)
    ensures Occurs(w, src, p) ==> p + |w| <= |src|
  {
    if w != [] { OccursFits(w[1..], src, p + 1); }
  }

  lemma OccursOne(c: byte, src: seq<byte>, p: nat)
    ensures Occurs([c], src, p) <==> p < |src| && src[p] == c
  {
    assert [c][1..] == [];
  }

  lemma OccursTwo(c: byte, d: byte, src: seq<byte>, p: nat)
    ensures Occurs([c, d], src, p) <==> p + 1 < |src| && src[p] == c && src[p + 1] == d
  {
    assert [c, d][1..] == [d];
    OccursOne(d, src, p + 1);
  }

  predicate NoNul(src: seq<byte>) { forall j :: 0 <= j < |src| - 1 ==> src[j] != 0 }

  lemma {:induction false} LexElemsSound(src: seq<byte>, p: nat, first: bool)
    requires NoNul(src) && LexElems(src, p, first).Some? && LexElems(src, p, first).value.1 <= |src|
    ensures var (es, q) := LexElems(src, p, first).value;
            && ElemsValid(es, first) && (!first && es[0].Single? ==> es[0].c == src[p])
            && q == p + |SpellElems(es)| + 1 && Occurs(SpellElems(es) + [RBRACKET], src, p)
    decreases |src| - p, 0
  {
    if src[p] == DASH && !first {
      if src[p + 1] == RBRACKET {
        assert SpellElems([FinalDash]) == [DASH];
        OccursTwo(DASH, RBRACKET, src, p);
      } else {
        OccursTwo(DASH, src[p + 1], src, p);
        LexMoreSound(src, p, p + 2, RangeTo(src[p + 1]), first);
      }
    } else {
      OccursOne(src[p], src, p);
      LexMoreSound(src, p, p + 1, Single(src[p]), first);
    }
  }

  lemma {:induction false} LexMoreSound(src: seq<byte>, p: nat, p': nat, e: Elem, first: bool)
    requires NoNul(src) && LexMore(src, p', e).Some? && LexMore(src, p', e).value.1 <= |src|
    requires p' == p + |SpellElem(e)| && Occurs(SpellElem(e), src, p)
    requires e.Single? ==> e.c != 0 && e.c != NL && (!first ==> e.c != DASH)
    requires e.RangeTo? ==> !first && e.c != RBRACKET && e.c == src[p + 1]
    requires !e.FinalDash?
    ensures var (es, q) := LexMore(src, p', e).value;
            && es[0] == e && ElemsValid(es, first)
            && q == p + |SpellElems(es)| + 1 && Occurs(SpellElems(es) + [RBRACKET], src, p)
    decreases |src| - p', 1
  {
    if src[p'] == RBRACKET {
      assert SpellElems([e]) == SpellElem(e);
      OccursOne(RBRACKET, src, p');
      OccursParts(SpellElem(e), [RBRACKET], src, p);
    } else {
      LexElemsSound(src, p', false);
      var es := LexElems(src, p', false).value.0;
      assert ([e] + es)[1..] == es;
      assert SpellElems([e] + es) == SpellElem(e) + SpellElems(es);
      Associative(SpellElem(e), SpellElems(es), [RBRACKET]);
      OccursParts(SpellElem(e), SpellElems(es) + [RBRACKET], src, p);
    }
  }

  /** The first piece of a bracket, with what is cut from the text behind it. */
  lemma {:induction false} LexElemFirst(src: seq<byte>, p: nat, first: bool, e: Elem, rest: seq<Elem>)
    requires ElemsValid([e] + rest, first) && (!first && e.Single? ==> e.c != RBRACKET)
    requires Occurs(SpellElem(e), src, p)
    ensures !e.FinalDash? ==> LexElems(src, p, first) == LexMore(src, p + |SpellElem(e)|, e)
    ensures e.FinalDash? && p + 1 < |src| && src[p + 1] == RBRACKET ==> LexElems(src, p, first) == Some(([e], p + 2))
  {
    if e.RangeTo? { OccursTwo(DASH, e.c, src, p); } else { OccursOne(SpellElem(e)[0], src, p); }
  }

  lemma {:induction false} ElemsSpelled(src: seq<byte>, p: nat, es: seq<Elem>) returns (n: nat)
    requires es != [] && Occurs(SpellElems(es) + [RBRACKET], src, p)
    ensures n == |SpellElem(es[0])| && Occurs(SpellElem(es[0]), src, p)
    ensures Occurs(SpellElems(es[1..]) + [RBRACKET], src, p + n) && |SpellElems(es)| == n + |SpellElems(es[1..])|
  {
    var w := SpellElem(es[0]);
    n := |w|;
    Associative(w, SpellElems(es[1..]), [RBRACKET]);
    OccursParts(w, SpellElems(es[1..]) + [RBRACKET], src, p);
  }

  lemma {:induction false} LexElemLast(src: seq<byte>, p: nat, first: bool, e: Elem)
    requires ElemsValid([e], first) && (!first && e.Single? ==> e.c != RBRACKET)
    requires Occurs(SpellElem(e), src, p) && p + |SpellElem(e)| < |src| && src[p + |SpellElem(e)|] == RBRACKET
    ensures LexElems(src, p, first) == Some(([e], p + |SpellElem(e)| + 1))
  {
    assert [e] + [] == [e];
    LexElemFirst(src, p, first, e, []);
  }

  lemma {:induction false} LexElemMore(src: seq<byte>, p: nat, first: bool, e: Elem, rest: seq<Elem>, p': nat, q: nat)
    requires ElemsValid([e] + rest, first) && rest != [] && (!first && e.Single? ==> e.c != RBRACKET)
    requires Occurs(SpellElem(e), src, p) && p' == p + |SpellElem(e)| && p' < |src| && src[p'] != RBRACKET
    requires LexElems(src, p', false) == Some((rest, q))
    ensures LexElems(src, p, first) == Some(([e] + rest, q))
  {
    assert ([e] + rest)[1..] == rest;
    LexElemFirst(src, p, first, e, rest);
  }

  lemma {:induction false} LexElemsComplete(src: seq<byte>, p: nat, first: bool, es: seq<Elem>)
    requires ElemsValid(es, first) && Occurs(SpellElems(es) + [RBRACKET], src, p)
    requires !first && es[0].Single? ==> es[0].c != RBRACKET
    ensures LexElems(src, p, first) == Some((es, p + |SpellElems(es)| + 1))
    decreases |es|
  {
    var n := ElemsSpelled(src, p, es);
    var e, rest := es[0], es[1..];
    assert es == [e] + rest;
    if rest == [] {
      assert es == [e];
      assert SpellElems(rest) + [RBRACKET] == [RBRACKET];
      OccursOne(RBRACKET, src, p + n);
      LexElemLast(src, p, first, e);
    } else {
      LexElemsComplete(src, p + n, false, rest);
      NextElem(src, p + n, rest);
      LexElemMore(src, p, first, e, rest, p + n, p + n + |SpellElems(rest)| + 1);
    }
  }

  /** A piece after the first does not look like the closing bracket. */
  lemma NextElem(src: seq<byte>, p: nat, es: seq<Elem>)
    requires ElemsValid(es, false) && Occurs(SpellElems(es) + [RBRACKET], src, p)
    requires es[0].Single? ==> es[0].c != RBRACKET
    ensures p < |src| && src[p] != RBRACKET
  {
    var w := SpellElem(es[0]);
    Associative(w, SpellElems(es[1..]), [RBRACKET]);
    OccursParts(w, SpellElems(es[1..]) + [RBRACKET], src, p);
  }

  lemma {:induction false} LexDigitsSound(src: seq<byte>, p: nat)
    requires LexDigits(src, p).Some?
    ensures var (ds, q) := LexDigits(src, p).value;
            && DigitsValid(ds) && q == p + |ds| && Occurs(ds, src, p)
            && q < |src| && src[q] in {BACKSLASH, COMMA}
    decreases |src| - p
  {
    if !(src[p + 1] == BACKSLASH || src[p + 1] == COMMA) {
      LexDigitsSound(src, p + 1);
      OccursOne(src[p], src, p);
      OccursParts([src[p]], LexDigits(src, p + 1).value.0, src, p);
    }
  }

  lemma {:induction false} LexDigitsComplete(src: seq<byte>, p: nat, ds: seq<byte>)
    requires DigitsValid(ds) && Occurs(ds, src, p)
    requires p + |ds| < |src| && src[p + |ds|] in {BACKSLASH, COMMA}
    ensures LexDigits(src, p) == Some((ds, p + |ds|))
    decreases |ds|
  {
    if |ds| == 1 {
      assert ds == [ds[0]];
    } else {
      LexDigitsComplete(src, p + 1, ds[1..]);
      assert [ds[0]] + ds[1..] == ds;
    }
  }

  predicate Stops(c: byte, eof: byte) { c == eof || c == NL }

  /** What the character after a dollar must be. */
  predicate Followed(t: Tok, c: byte, eof: byte) {
    && (t.TDollar? ==> Stops(c, eof))
    && (t == TPlain(DOLLAR) ==> !Stops(c, eof))
  }

  /** Whatever token is cut from the text is spelled by the text cut. */
  lemma LexSound(src: seq<byte>, p: nat, first: bool, eof: byte)
    requires NoNul(src) && p < |src| && !Stops(src[p], eof)
    requires Lex(src, p, first, eof).Some? && Lex(src, p, first, eof).value.1 < |src|
    ensures var (t, q) := Lex(src, p, first, eof).value;
            && TokValid(t, first, eof) && Followed(t, src[q], eof)
            && q == p + |Spell(t)| && Occurs(Spell(t), src, p)
  {
    var c := src[p];
    if c == LBRACKET {
      LexBracketSound(src, p, first, eof);
    } else if c == BACKSLASH {
      LexIsEscape(src, p, first, eof);
      var t, w := LexEscapeSound(src, p, first, eof);
    } else {
      OccursOne(c, src, p);
    }
  }

  lemma LexBracketSound(src: seq<byte>, p: nat, first: bool, eof: byte)
    requires NoNul(src) && p < |src| && !Stops(src[p], eof) && src[p] == LBRACKET
    requires Lex(src, p, first, eof).Some? && Lex(src, p, first, eof).value.1 < |src|
    ensures var (t, q) := Lex(src, p, first, eof).value;
            && t.TBracket? && TokValid(t, first, eof)
            && q == p + |Spell(t)| && Occurs(Spell(t), src, p)
  {
    var neg := p + 1 < |src| && src[p + 1] == CARET;
    var p' := if neg then p + 2 else p + 1;
    LexElemsSound(src, p', true);
    var (es, q) := LexElems(src, p', true).value;
    assert Lex(src, p, first, eof).value == (TBracket(neg, es), q);
    BracketOccurs(src, p, neg, es);
    assert es[0] == Single(src[p']);
  }

  lemma {:induction false} LexIsEscape(src: seq<byte>, p: nat, first: bool, eof: byte)
    requires p < |src| && src[p] == BACKSLASH
    ensures Lex(src, p, first, eof) == LexEscape(src, p + 1, first)
  {
  }

  lemma {:induction false} EscapeIsInterval(src: seq<byte>, p: nat)
    requires p < |src| && src[p] == LBRACE
    ensures LexEscape(src, p, false) == LexInterval(src, p + 1)
  {
  }

  lemma {:induction false} BraceSound(src: seq<byte>, p: nat, eof: byte)
    returns (ds: seq<byte>, tail: Tail, w: seq<byte>)
    requires p + 1 < |src| && src[p] == BACKSLASH && src[p + 1] == LBRACE && !Stops(BACKSLASH, eof)
    requires LexInterval(src, p + 2).Some?
    ensures LexInterval(src, p + 2) == Some((TInterval(ds, tail), p + |w|)) && w == Spell(TInterval(ds, tail))
    ensures TokValid(TInterval(ds, tail), false, eof) && Occurs(w, src, p)
  {
    ds, tail := LexIntervalSound(src, p + 2);
    w := CountSpelled(src, p, ds, tail, eof);
  }

  lemma {:induction false} PairSound(src: seq<byte>, p: nat, first: bool, eof: byte) returns (t: Tok, w: seq<byte>)
    requires NoNul(src) && p < |src| && !Stops(src[p], eof) && src[p] == BACKSLASH
    requires p + 1 < |src| && !(src[p + 1] == LBRACE && !first)
    requires LexEscape(src, p + 1, first).Some? && LexEscape(src, p + 1, first).value.1 < |src|
    ensures LexEscape(src, p + 1, first) == Some((t, p + |w|)) && w == Spell(t) && !t.TDollar? && !t.TPlain?
    ensures TokValid(t, first, eof) && Occurs(w, src, p)
  {
    var d := src[p + 1];
    t := LexEscape(src, p + 1, first).value.0;
    w := [BACKSLASH, d];
    OccursTwo(BACKSLASH, d, src, p);
  }

  lemma {:induction false} LexEscapeSound(src: seq<byte>, p: nat, first: bool, eof: byte) returns (t: Tok, w: seq<byte>)
    requires NoNul(src) && p < |src| && !Stops(src[p], eof) && src[p] == BACKSLASH
    requires LexEscape(src, p + 1, first).Some? && LexEscape(src, p + 1, first).value.1 < |src|
    ensures LexEscape(src, p + 1, first) == Some((t, p + |w|)) && w == Spell(t) && !t.TDollar? && !t.TPlain?
    ensures TokValid(t, first, eof) && Occurs(w, src, p)
  {
    if src[p + 1] == LBRACE && !first {
      EscapeIsInterval(src, p + 1);
      var ds, tail;
      ds, tail, w := BraceSound(src, p, eof);
      t := TInterval(ds, tail);
    } else {
      t, w := PairSound(src, p, first, eof);
    }
  }

  lemma {:induction false} CountSpelled(src: seq<byte>, p: nat, ds: seq<byte>, tail: Tail, eof: byte)
    returns (w: seq<byte>)
    requires p + 1 < |src| && src[p] == BACKSLASH && src[p + 1] == LBRACE && !Stops(BACKSLASH, eof)
    requires DigitsValid(ds) && (tail.UpTo? ==> DigitsValid(tail.ds))
    requires Occurs(ds, src, p + 2) && TailAt(tail, src, p + 2 + |ds|)
    ensures w == Spell(TInterval(ds, tail)) && TokValid(TInterval(ds, tail), false, eof) && Occurs(w, src, p)
    ensures |w| == 4 + |ds| + |SpellTail(tail)|
  {
    w := Spell(TInterval(ds, tail));
    IntervalOccurs(src, p, ds, tail);
  }

  lemma BracketOccurs(src: seq<byte>, p: nat, neg: bool, es: seq<Elem>)
    ensures var p' := if neg then p + 2 else p + 1;
            && |Spell(TBracket(neg, es))| == p' - p + |SpellElems(es)| + 1
            && (Occurs(Spell(TBracket(neg, es)), src, p) <==>
                  p < |src| && src[p] == LBRACKET && (neg ==> p + 1 < |src| && src[p + 1] == CARET) &&
                  Occurs(SpellElems(es) + [RBRACKET], src, p'))
  {
    var head := [LBRACKET] + (if neg then [CARET] else []);
    assert Spell(TBracket(neg, es)) == head + (SpellElems(es) + [RBRACKET]);
    OccursParts(head, SpellElems(es) + [RBRACKET], src, p);
    if neg {
      assert head == [LBRACKET, CARET];
      OccursTwo(LBRACKET, CARET, src, p);
    } else {
      assert head == [LBRACKET];
      OccursOne(LBRACKET, src, p);
    }
  }

  /** The end of an interval, from the character after its first number. */
  predicate TailAt(tail: Tail, src: seq<byte>, q: nat) {
    match tail
    case Exact => q + 1 < |src| && src[q] == BACKSLASH && src[q + 1] == RBRACE
    case AtLeast => q + 2 < |src| && src[q] == COMMA && src[q + 1] == BACKSLASH && src[q + 2] == RBRACE
    case UpTo(ds) =>
      var r := q + 1 + |ds|;
      r + 1 < |src| && src[q] == COMMA && Occurs(ds, src, q + 1) && src[r] == BACKSLASH && src[r + 1] == RBRACE
  }

  lemma TailOccurs(tail: Tail, src: seq<byte>, q: nat)
    ensures Occurs(SpellTail(tail) + [BACKSLASH, RBRACE], src, q) <==> TailAt(tail, src, q)
  {
    var w := [BACKSLASH, RBRACE];
    OccursParts(SpellTail(tail), w, src, q);
    OccursTwo(BACKSLASH, RBRACE, src, q + |SpellTail(tail)|);
    OccursOne(COMMA, src, q);
    if tail.UpTo? { OccursParts([COMMA], tail.ds, src, q); }
  }

  lemma IntervalSpelled(ds: seq<byte>, tail: Tail)
    ensures Spell(TInterval(ds, tail)) == [BACKSLASH, LBRACE] + (ds + (SpellTail(tail) + [BACKSLASH, RBRACE]))
  {
  }

  lemma IntervalOccurs(src: seq<byte>, p: nat, ds: seq<byte>, tail: Tail)
    ensures |Spell(TInterval(ds, tail))| == 4 + |ds| + |SpellTail(tail)|
    ensures Occurs(Spell(TInterval(ds, tail)), src, p) <==>
              && p + 1 < |src| && src[p] == BACKSLASH && src[p + 1] == LBRACE
              && Occurs(ds, src, p + 2) && TailAt(tail, src, p + 2 + |ds|)
  {
    var u, w := [BACKSLASH, LBRACE], SpellTail(tail) + [BACKSLASH, RBRACE];
    IntervalSpelled(ds, tail);
    OccursParts(u, ds + w, src, p);
    OccursParts(ds, w, src, p + 2);
    OccursTwo(BACKSLASH, LBRACE, src, p);
    TailOccurs(tail, src, p + 2 + |ds|);
  }

  lemma LexTailSound(src: seq<byte>, q: nat)
    requires LexTail(src, q).Some?
    ensures var (tail, r) := LexTail(src, q).value;
            && (tail.UpTo? ==> DigitsValid(tail.ds))
            && r == q + |SpellTail(tail)| + 2 && TailAt(tail, src, q)
  {
    if src[q] == COMMA && src[q + 1] != BACKSLASH { LexDigitsSound(src, q + 1); }
  }

  lemma {:induction false} LexTailComplete(src: seq<byte>, q: nat, tail: Tail)
    requires tail.UpTo? ==> DigitsValid(tail.ds)
    requires TailAt(tail, src, q)
    ensures LexTail(src, q) == Some((tail, q + |SpellTail(tail)| + 2))
  {
    if tail.UpTo? {
      LexDigitsComplete(src, q + 1, tail.ds);
    }
  }

  lemma {:induction false} LexIntervalSound(src: seq<byte>, p: nat) returns (ds: seq<byte>, tail: Tail)
    requires LexInterval(src, p).Some?
    ensures LexInterval(src, p) == Some((TInterval(ds, tail), p + |ds| + |SpellTail(tail)| + 2))
    ensures DigitsValid(ds) && (tail.UpTo? ==> DigitsValid(tail.ds))
    ensures Occurs(ds, src, p) && TailAt(tail, src, p + |ds|)
  {
    LexDigitsSound(src, p);
    LexTailSound(src, LexDigits(src, p).value.1);
    ds, tail := LexDigits(src, p).value.0, LexTail(src, LexDigits(src, p).value.1).value.0;
  }

  lemma {:induction false} LexIntervalIs(src: seq<byte>, p: nat, ds: seq<byte>, q: nat, tail: Tail, r: nat)
    requires LexDigits(src, p) == Some((ds, q)) && LexTail(src, q) == Some((tail, r))
    ensures LexInterval(src, p) == Some((TInterval(ds, tail), r))
  {
  }

  lemma {:induction false} LexIntervalComplete(src: seq<byte>, p: nat, ds: seq<byte>, tail: Tail)
    requires DigitsValid(ds) && (tail.UpTo? ==> DigitsValid(tail.ds))
    requires Occurs(ds, src, p) && TailAt(tail, src, p + |ds|)
    ensures LexInterval(src, p) == Some((TInterval(ds, tail), p + |ds| + |SpellTail(tail)| + 2))
  {
    var q := p + |ds|;
    LexDigitsComplete(src, p, ds);
    LexTailComplete(src, q, tail);
    LexIntervalIs(src, p, ds, q, tail, q + |SpellTail(tail)| + 2);
  }

  lemma {:induction false} LexCountComplete(src: seq<byte>, p: nat, ds: seq<byte>, tail: Tail, eof: byte)
    requires p + 1 < |src| && src[p] == BACKSLASH && src[p + 1] == LBRACE
    requires DigitsValid(ds) && (tail.UpTo? ==> DigitsValid(tail.ds))
    requires Occurs(ds, src, p + 2) && TailAt(tail, src, p + 2 + |ds|)
    ensures Lex(src, p, false, eof) == Some((TInterval(ds, tail), p + (4 + |ds| + |SpellTail(tail)|)))
  {
    LexIntervalComplete(src, p + 2, ds, tail);
  }

  lemma {:induction false} LexSpelledCount(src: seq<byte>, p: nat, ds: seq<byte>, tail: Tail, eof: byte, w: seq<byte>)
    requires DigitsValid(ds) && (tail.UpTo? ==> DigitsValid(tail.ds))
    requires w == Spell(TInterval(ds, tail)) && Occurs(w, src, p)
    ensures p < |src| && src[p] == BACKSLASH && Lex(src, p, false, eof) == Some((TInterval(ds, tail), p + |w|))
  {
    IntervalOccurs(src, p, ds, tail);
    LexCountComplete(src, p, ds, tail, eof);
  }

  lemma {:induction false} LexOneComplete(src: seq<byte>, p: nat, t: Tok, first: bool, eof: byte)
    requires TokValid(t, first, eof) && !t.TBracket? && !t.TInterval? && |Spell(t)| == 1 && Occurs(Spell(t), src, p)
    requires p + 1 < |src| && Followed(t, src[p + 1], eof)
    ensures Lex(src, p, first, eof) == Some((t, p + 1)) && src[p] == First(t)
  {
    OccursOne(Spell(t)[0], src, p);
  }

  lemma {:induction false} LexTwoComplete(src: seq<byte>, p: nat, t: Tok, first: bool, eof: byte)
    requires TokValid(t, first, eof) && !t.TBracket? && !t.TInterval? && |Spell(t)| == 2 && Occurs(Spell(t), src, p)
    ensures p < |src| && Lex(src, p, first, eof) == Some((t, p + 2)) && src[p] == BACKSLASH
  {
    OccursTwo(BACKSLASH, Spell(t)[1], src, p);
  }

  /** A token that is spelled out in the text is the token cut from it. */
  lemma {:induction false} LexComplete(src: seq<byte>, p: nat, t: Tok, first: bool, eof: byte)
    requires TokValid(t, first, eof) && Occurs(Spell(t), src, p)
    requires p + |Spell(t)| < |src| && Followed(t, src[p + |Spell(t)|], eof)
    ensures Lex(src, p, first, eof) == Some((t, p + |Spell(t)|))
    ensures !Stops(src[p], eof)
  {
    if t.TBracket? {
      LexBracketComplete(src, p, t.neg, t.elems, first, eof);
    } else if t.TInterval? {
      LexSpelledCount(src, p, t.ds, t.tail, eof, Spell(t));
    } else if |Spell(t)| == 1 {
      LexOneComplete(src, p, t, first, eof);
    } else {
      LexTwoComplete(src, p, t, first, eof);
    }
  }

  lemma {:induction false} LexBracketComplete(src: seq<byte>, p: nat, neg: bool, es: seq<Elem>, first: bool, eof: byte)
    requires TokValid(TBracket(neg, es), first, eof) && Occurs(Spell(TBracket(neg, es)), src, p)
    ensures Lex(src, p, first, eof) == Some((TBracket(neg, es), p + |Spell(TBracket(neg, es))|))
    ensures !Stops(src[p], eof)
  {
    BracketOccurs(src, p, neg, es);
    var p' := if neg then p + 2 else p + 1;
    LexElemsComplete(src, p', true, es);
    var rest := SpellElems(es[1..]) + [RBRACKET];
    Associative([es[0].c], SpellElems(es[1..]), [RBRACKET]);
    OccursParts([es[0].c], rest, src, p');
    OccursOne(es[0].c, src, p');
  }
}
