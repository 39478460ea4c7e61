/** From tokens to items: what `compile` of usr/src/head/regexp.h builds from a pattern, for
    every pattern text, and when the result is a program the matcher can run. */
module RegexBuild {
  import opened Bytes
  import opened RegexProgram
  import opened Wrappers
  import opened RegexText
  import opened RegexNumbers
  import opened RegexBrackets

  /** The state of the compiler between two tokens: the items so far, the groups still open
      (outermost first), how many are closed, how many were opened. */
  datatype Built = Built(items: seq<Item>, stack: seq<slot>, closed: nat, nbra: nat)

  const Empty := Built([], [], 0, 0)

  function Push(b: Built, core: Core): Built { b.(items := b.items + [Plain(core)]) }

  function Last(b: Built): Item
    requires b.items != []
  {
    b.items[|b.items| - 1]
  }

  function SetLast(b: Built, it: Item): Built
    requires b.items != []
  {
    b.(items := b.items[..|b.items| - 1] + [it])
  }

  /** The two bytes an interval is stored as; 255 stands for no upper bound. */
  function Interval(ds: seq<byte>, tail: Tail): Option<(byte, byte)> {
    var lo := Value(ds);
    if lo >= 255 then None
    else match tail
      case Exact => Some((lo, lo))
      case AtLeast => Some((lo, 255))
      case UpTo(ds') => var hi := Value(ds'); if hi >= 255 || hi < lo then None else Some((lo, hi))
  }

  /** A star stands for itself at the start of the pattern and behind a group mark. */
  predicate StarIsPlain(b: Built) {
    b.items == [] || ((Last(b).core.Bra? || Last(b).core.Ket?) && Last(b).ivs == [])
  }

  function Starred(it: Item): Item { if it.ivs == [] then it.(star := true) else it }

  function Add(b: Built, t: Tok): Option<Built> {
    match t
    case TDot => Some(Push(b, Dot))
    case TPlain(c) => Some(Push(b, Chr(c)))
    case TEscaped(c) => Some(Push(b, Chr(c)))
    case TNewline => Some(Push(b, Chr(NL)))
    case TStar => Some(if StarIsPlain(b) then Push(b, Chr(STAR)) else SetLast(b, Starred(Last(b))))
    case TDollar => Some(Push(b, Dol))
    case TBracket(neg, es) => Some(Push(b, BracketCore(neg, es)))
    case TOpen =>
      if b.nbra >= 9 then None
      else Some(Push(b, Bra(b.nbra)).(stack := b.stack + [b.nbra], nbra := b.nbra + 1))
    case TClose =>
      if b.stack == [] then None
      else
        var top := |b.stack| - 1;
        Some(Push(b, Ket(b.stack[top])).(stack := b.stack[..top], closed := b.closed + 1))
    case TInterval(ds, tail) =>
      if b.items == [] || Interval(ds, tail).None? then None
      else Some(SetLast(b, Last(b).(star := false, ivs := Last(b).ivs + [Interval(ds, tail).value])))
    case TBack(d) =>
      if d < 49 || d - 49 >= b.closed || d - 49 >= 9 then None else Some(Push(b, Back(d - 49)))
  }

  /** The checks against the end of the buffer. */
  predicate Room(b: Built, t: Tok, endbuf: nat) {
    var ep := |Encode(b.items)|;
    && ep < endbuf
    && (t.TBracket? ==> ep + 17 < endbuf && (NeedsWide(t.elems) ==> ep + 33 < endbuf))
  }

  /** All tokens, left to right, from the state `b`. */
  function AddAll(b: Built, ts: seq<Tok>, endbuf: nat): Option<Built>
    decreases |ts|
  {
    if ts == [] then Some(b)
    else if !Room(b, ts[0], endbuf) then None
    else match Add(b, ts[0])
      case None => None
      case Some(b') => AddAll(b', ts[1..], endbuf)
  }

  /** What `compile` does to the text from `p` on. */
  function Parse(src: seq<byte>, p: nat, b: Built, eof: byte, sed: bool, endbuf: nat): Option<Built>
    decreases |src| - p
  {
    if |Encode(b.items)| >= endbuf || p >= |src| then None
    else if Stops(src[p], eof) then
      if b.stack == [] && (src[p] == eof || !sed) then Some(b) else None
    else
      LexAdvances(src, p, b.items == [], eof);
      match Lex(src, p, b.items == [], eof)
      case None => None
      case Some((t, q)) =>
        if !Room(b, t, endbuf) then None
        else match Add(b, t)
          case None => None
          case Some(b') => Parse(src, q, b', eof, sed, endbuf)
  }

  // ----- every text, and only it, is the spelling of its tokens -----

  /** A token that can stand where it does: a dollar that is an anchor stands last. */
  predicate TokFits(t: Tok, first: bool, last: bool, eof: byte) {
    TokValid(t, first, eof) && (t.TDollar? ==> last) && (t == TPlain(DOLLAR) ==> !last)
  }

  predicate TokensValid(ts: seq<Tok>, first: bool, eof: byte) {
    forall i :: 0 <= i < |ts| ==> TokFits(ts[i], first && i == 0, i == |ts| - 1, eof)
  }

  /** `ts`, spelled out at `p` and followed by a terminator. */
  predicate Written(ts: seq<Tok>, src: seq<byte>, p: nat, eof: byte)
    decreases |ts|
  {
    if ts == [] then p < |src| && Stops(src[p], eof)
    else Occurs(Spell(ts[0]), src, p) && Written(ts[1..], src, p + |Spell(ts[0])|, eof)
  }

  function EndAt(ts: seq<Tok>, p: nat): nat
    decreases |ts|
  {
    if ts == [] then p else EndAt(ts[1..], p + |Spell(ts[0])|)
  }

  lemma Glue(w: seq<byte>, r: seq<byte>, src: seq<byte>, p: nat, rest: bool, end: nat, eof: byte)
    requires end == p + |w| + |r|
    requires rest <==> Occurs(r, src, p + |w|) && end < |src| && Stops(src[end], eof)
    ensures Occurs(w, src, p) && rest <==> Occurs(w + r, src, p) && end < |src| && Stops(src[end], eof)
  {
    OccursParts(w, r, src, p);
  }

  lemma {:induction false} WrittenIsText(ts: seq<Tok>, src: seq<byte>, p: nat, eof: byte)
    ensures EndAt(ts, p) == p + |SpellAll(ts)|
    ensures Written(ts, src, p, eof) <==>
            Occurs(SpellAll(ts), src, p) && EndAt(ts, p) < |src| && Stops(src[EndAt(ts, p)], eof)
    decreases |ts|
  {
    if ts != [] {
      var w, r := Spell(ts[0]), SpellAll(ts[1..]);
      WrittenIsText(ts[1..], src, p + |w|, eof);
      WrittenFirst(ts, src, p, eof, w, r, Written(ts[1..], src, p + |w|, eof), EndAt(ts[1..], p + |w|));
    }
  }

  lemma {:induction false} WrittenFirst(ts: seq<Tok>, src: seq<byte>, p: nat, eof: byte, w: seq<byte>, r: seq<byte>,
                                        rest: bool, end: nat)
    requires ts != [] && w == Spell(ts[0]) && r == SpellAll(ts[1..]) && end == p + |w| + |r|
    requires rest == Written(ts[1..], src, p + |w|, eof) && end == EndAt(ts[1..], p + |w|)
    requires rest <==> Occurs(r, src, p + |w|) && end < |src| && Stops(src[end], eof)
    ensures EndAt(ts, p) == p + |SpellAll(ts)|
    ensures Written(ts, src, p, eof) <==>
            Occurs(SpellAll(ts), src, p) && EndAt(ts, p) < |src| && Stops(src[EndAt(ts, p)], eof)
  {
    Glue(w, r, src, p, rest, end, eof);
    assert SpellAll(ts) == w + r && EndAt(ts, p) == end;
    assert Written(ts, src, p, eof) == (Occurs(w, src, p) && rest);
  }

  lemma {:induction false} WrittenFits(ts: seq<Tok>, src: seq<byte>, p: nat, eof: byte)
    requires Written(ts, src, p, eof)
    ensures p < |src|
    decreases |ts|
  {
    if ts != [] { WrittenFits(ts[1..], src, p + |Spell(ts[0])|, eof); }
  }

  lemma AddKeepsItems(b: Built, t: Tok)
    requires Add(b, t).Some?
    ensures Add(b, t).value.items != []
  {
  }

  lemma WrittenFollowed(ts: seq<Tok>, src: seq<byte>, p: nat, first: bool, eof: byte)
    requires ts != [] && Written(ts, src, p, eof) && TokValid(ts[0], first, eof)
    ensures p < |src| && !Stops(src[p], eof)
  {
    SpellFirst(ts[0]);
  }

  /** What comes after a token tells the two uses of a dollar apart. */
  lemma HeadFollowed(t: Tok, rest: seq<Tok>, src: seq<byte>, q: nat, first: bool, eof: byte)
    requires Written(rest, src, q, eof) && TokensValid(rest, false, eof)
    ensures q < |src| && (Stops(src[q], eof) <==> rest == [])
    ensures TokFits(t, first, rest == [], eof) <==> TokValid(t, first, eof) && Followed(t, src[q], eof)
  {
    if rest != [] { WrittenFollowed(rest, src, q, false, eof); }
  }

  lemma TokensValidCons(t: Tok, rest: seq<Tok>, first: bool, eof: byte)
    ensures TokensValid([t] + rest, first, eof) <==> TokFits(t, first, rest == [], eof) && TokensValid(rest, false, eof)
  {
    var ts := [t] + rest;
    if TokFits(t, first, rest == [], eof) && TokensValid(rest, false, eof) {
      forall i | 0 <= i < |ts| ensures TokFits(ts[i], first && i == 0, i == |ts| - 1, eof) {
        if i > 0 { assert ts[i] == rest[i - 1]; }
      }
    }
    if TokensValid(ts, first, eof) {
      forall i | 0 <= i < |rest| ensures TokFits(rest[i], false, i == |rest| - 1, eof) {
        assert rest[i] == ts[i + 1];
      }
      assert TokFits(ts[0], first, rest == [], eof);
    }
  }

  lemma LexWritten(ts: seq<Tok>, src: seq<byte>, p: nat, first: bool, eof: byte)
    requires ts != [] && TokensValid(ts, first, eof) && Written(ts, src, p, eof)
    ensures p < |src| && !Stops(src[p], eof)
    ensures Lex(src, p, first, eof) == Some((ts[0], p + |Spell(ts[0])|))
    ensures |Spell(ts[0])| > 0 && Written(ts[1..], src, p + |Spell(ts[0])|, eof) && TokensValid(ts[1..], false, eof)
  {
    var t, rest := ts[0], ts[1..];
    assert ts == [t] + rest;
    TokensValidCons(t, rest, first, eof);
    HeadFollowed(t, rest, src, p + |Spell(t)|, first, eof);
    LexComplete(src, p, t, first, eof);
  }

  lemma ParseStep(src: seq<byte>, p: nat, b: Built, eof: byte, sed: bool, endbuf: nat, t: Tok, q: nat)
    requires p < |src| && !Stops(src[p], eof) && Lex(src, p, b.items == [], eof) == Some((t, q))
    ensures p < q
    ensures Parse(src, p, b, eof, sed, endbuf) ==
            if Room(b, t, endbuf) && Add(b, t).Some? then Parse(src, q, Add(b, t).value, eof, sed, endbuf) else None
  {
    LexAdvances(src, p, b.items == [], eof);
  }

  /** At the terminator every group must be closed and there must be room for the end mark. */
  function Complete(o: Option<Built>, endbuf: nat): Option<Built> {
    if o.Some? && o.value.stack == [] && |Encode(o.value.items)| < endbuf then o else None
  }

  /** Compiling a spelled-out pattern gives exactly the items of its tokens. */
  lemma {:induction false} ParseWritten(ts: seq<Tok>, src: seq<byte>, p: nat, b: Built, eof: byte, sed: bool,
          endbuf: nat)
    requires TokensValid(ts, b.items == [], eof) && Written(ts, src, p, eof)
    requires EndAt(ts, p) < |src| && (src[EndAt(ts, p)] == eof || !sed)
    ensures Parse(src, p, b, eof, sed, endbuf) == Complete(AddAll(b, ts, endbuf), endbuf)
    decreases |ts|
  {
    if ts != [] {
      var t := ts[0];
      var q := p + |Spell(t)|;
      LexWritten(ts, src, p, b.items == [], eof);
      ParseStep(src, p, b, eof, sed, endbuf, t, q);
      if Room(b, t, endbuf) && Add(b, t).Some? {
        AddKeepsItems(b, t);
        ParseWritten(ts[1..], src, q, Add(b, t).value, eof, sed, endbuf);
      }
    }
  }

  /** Whatever text compiles is a spelled-out pattern. */
  lemma {:induction false} ParseReads(src: seq<byte>, p: nat, b: Built, eof: byte, sed: bool, endbuf: nat)
    returns (ts: seq<Tok>)
    requires NoNul(src) && Parse(src, p, b, eof, sed, endbuf).Some?
    ensures TokensValid(ts, b.items == [], eof) && Written(ts, src, p, eof)
    ensures AddAll(b, ts, endbuf) == Parse(src, p, b, eof, sed, endbuf)
    decreases |src| - p
  {
    if Stops(src[p], eof) {
      ts := [];
    } else {
      var (t, q) := Lex(src, p, b.items == [], eof).value;
      ParseStep(src, p, b, eof, sed, endbuf, t, q);
      AddKeepsItems(b, t);
      var rest := ParseReads(src, q, Add(b, t).value, eof, sed, endbuf);
      ts := [t] + rest;
      assert ts[1..] == rest;
      WrittenFits(rest, src, q, eof);
      ReadBack(t, rest, src, p, q, b.items == [], eof);
    }
  }

  lemma ReadBack(t: Tok, rest: seq<Tok>, src: seq<byte>, p: nat, q: nat, first: bool, eof: byte)
    requires NoNul(src) && p < |src| && !Stops(src[p], eof) && Lex(src, p, first, eof) == Some((t, q)) && q < |src|
    requires TokensValid(rest, false, eof) && Written(rest, src, q, eof)
    ensures TokensValid([t] + rest, first, eof) && Written([t] + rest, src, p, eof)
  {
    LexSound(src, p, first, eof);
    WrittenCons(t, rest, src, p, q, first, eof);
  }

  lemma WrittenCons(t: Tok, rest: seq<Tok>, src: seq<byte>, p: nat, q: nat, first: bool, eof: byte)
    requires TokValid(t, first, eof) && q < |src| && Followed(t, src[q], eof)
    requires q == p + |Spell(t)| && Occurs(Spell(t), src, p)
    requires TokensValid(rest, false, eof) && Written(rest, src, q, eof)
    ensures TokensValid([t] + rest, first, eof) && Written([t] + rest, src, p, eof)
  {
    HeadFollowed(t, rest, src, q, first, eof);
    TokensValidCons(t, rest, first, eof);
    WrittenOne(t, rest, src, p, q, eof);
  }

  lemma WrittenOne(t: Tok, rest: seq<Tok>, src: seq<byte>, p: nat, q: nat, eof: byte)
    requires q == p + |Spell(t)| && Occurs(Spell(t), src, p) && Written(rest, src, q, eof)
    ensures Written([t] + rest, src, p, eof)
  {
    assert ([t] + rest)[1..] == rest;
  }
}
