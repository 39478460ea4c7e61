/** `compile` of usr/src/head/regexp.h: for every text, the program it leaves in the buffer is
    the program of the items that the tokens of the text build.

    The source reads the pattern with the caller's GETC, PEEKC and UNGETC; here the pattern is
    a C string `text`, so that reading at its end gives the terminator 0 and reading past
    that fails.  All error exits are the one result `Error`. */
module RegexCompile {
  import opened Bytes
  import opened RegexProgram
  import opened Wrappers
  import opened RegexMatch
  import opened RegexText
  import opened RegexBrackets
  import opened RegexBuild
  import opened RegexEmit
  import opened RegexSpill

  datatype Compiled = Program(len: nat, circf: bool, nbra: nat) | Reuse | Error

  // ----- the bytes written so far stand for items -----

  /** No star on a group mark, and none beside an interval. */
  predicate Canonical(it: Item) {
    it.star ==> it.ivs == [] && !it.core.Bra? && !it.core.Ket?
  }

  /** `out` is the program of `items` so far, and `lastep` the start of its last item. */
  ghost predicate Laid(items: seq<Item>, out: seq<byte>, lastep: int) {
    && out == Encode(items)
    && (forall j :: 0 <= j < |items| ==> Canonical(items[j]))
    && lastep == if items == [] then -1 else |Encode(items[..|items| - 1])|
  }

  /** The compiler's registers and output stand for the state `b`. */
  ghost predicate Current(r: Regs, b: Built, out: seq<byte>) {
    && Laid(b.items, out, r.lastep) && r.ep == |out|
    && r.bracket == b.stack && r.closed == b.closed && r.nbra == b.nbra
    && b.closed + |b.stack| == b.nbra <= 9
  }

  lemma LaidPush(items: seq<Item>, out: seq<byte>, lastep: int, core: Core)
    requires Laid(items, out, lastep)
    ensures Laid(items + [Plain(core)], out + ([BaseOp(core)] + Payload(core)), |out|)
  {
    EncodeOne(items, Plain(core));
    var all := items + [Plain(core)];
    assert all[..|all| - 1] == items;
    assert EncodeItem(Plain(core)) == [BaseOp(core)] + Payload(core);
  }

  /** The last item lies at the end of the program. */
  lemma LaidLast(items: seq<Item>, out: seq<byte>, lastep: int)
    requires Laid(items, out, lastep) && items != []
    ensures 0 <= lastep < |out|
    ensures out == out[..lastep] + EncodeItem(items[|items| - 1]) && out[..lastep] == Encode(items[..|items| - 1])
    ensures out[lastep] == Opcode(items[|items| - 1])
  {
    var init, it := items[..|items| - 1], items[|items| - 1];
    assert items == init + [it];
    EncodeOne(init, it);
  }

  lemma LaidReplace(items: seq<Item>, out: seq<byte>, lastep: int, it: Item, out': seq<byte>)
    requires Laid(items, out, lastep) && items != [] && Canonical(it) && 0 <= lastep < |out|
    requires out' == out[..lastep] + EncodeItem(it)
    ensures Laid(items[..|items| - 1] + [it], out', lastep)
  {
    LaidLast(items, out, lastep);
    var init := items[..|items| - 1];
    EncodeOne(init, it);
    assert (init + [it])[..|init|] == init;
  }

  predicate IsMark(core: Core) { core.Bra? || core.Ket? }

  lemma OrValues(base: byte, k: nat)
    requires base % 4 == 0 && k in {0, 1, 3} && base + k < 256
    ensures OrStar(base + k) == base + (if k == 3 then 3 else 1)
    ensures OrRnge(base + k) == base + 3
  {
    var q := base / 4;
    assert base == 4 * q && (base + k) % 4 == k;
  }

  /** The test for a group mark sees one exactly where a star is an ordinary character. */
  lemma OpcodeOfMark(it: Item)
    requires Canonical(it)
    ensures Opcode(it) in {CBRA, CKET} <==> IsMark(it.core) && it.ivs == []
  {
  }

  function Counted(it: Item, iv: (byte, byte)): Item { it.(star := false, ivs := it.ivs + [iv]) }

  lemma OpcodeWithMore(it: Item, iv: (byte, byte))
    requires Canonical(it)
    ensures !(IsMark(it.core) && it.ivs == []) ==> OrStar(Opcode(it)) == Opcode(Starred(it))
    ensures OrRnge(Opcode(it)) == Opcode(Counted(it, iv))
  {
    if !it.core.Bra? {
      OrValues(BaseOp(it.core), if it.ivs != [] then 3 else if it.star then 1 else 0);
    }
  }

  lemma UpdateHead(pre: seq<byte>, code: seq<byte>, x: byte, more: seq<byte>)
    requires code != []
    ensures (pre + code)[|pre| := x] + more == pre + (code[0 := x] + more)
  {
  }

  lemma StarredCode(it: Item)
    requires Canonical(it) && !(IsMark(it.core) && it.ivs == [])
    ensures EncodeItem(it) != [] && EncodeItem(Starred(it)) == EncodeItem(it)[0 := OrStar(Opcode(it))]
  {
    OpcodeWithMore(it, (0, 0));
  }

  lemma CountedCode(it: Item, iv: (byte, byte))
    requires Canonical(it)
    ensures EncodeItem(it) != [] &&
            EncodeItem(Counted(it, iv)) == EncodeItem(it)[0 := OrRnge(Opcode(it))] + [iv.0, iv.1]
  {
    OpcodeWithMore(it, iv);
    IntervalBytesAppend(it.ivs, iv);
    Associative([OrRnge(Opcode(it))] + Payload(it.core), IntervalBytes(it.ivs), [iv.0, iv.1]);
  }

  /** `*lastep |= STAR` */
  lemma LaidStar(items: seq<Item>, out: seq<byte>, lastep: int)
    requires Laid(items, out, lastep) && items != [] && 0 <= lastep < |out|
    requires out[lastep] != CBRA && out[lastep] != CKET
    ensures Laid(items[..|items| - 1] + [Starred(items[|items| - 1])], out[lastep := OrStar(out[lastep])], lastep)
  {
    LaidLast(items, out, lastep);
    var it := items[|items| - 1];
    OpcodeOfMark(it);
    StarredCode(it);
    var out' := out[lastep := OrStar(out[lastep])];
    UpdateHead(out[..lastep], EncodeItem(it), OrStar(out[lastep]), []);
    assert out' + [] == out' && EncodeItem(Starred(it)) + [] == EncodeItem(Starred(it));
    LaidReplace(items, out, lastep, Starred(it), out');
  }

  /** `*lastep |= RNGE` and the two bytes behind the item. */
  lemma LaidInterval(items: seq<Item>, out: seq<byte>, lastep: int, iv: (byte, byte))
    requires Laid(items, out, lastep) && items != [] && 0 <= lastep < |out|
    ensures Laid(items[..|items| - 1] + [Counted(items[|items| - 1], iv)],
                 out[lastep := OrRnge(out[lastep])] + [iv.0, iv.1], lastep)
  {
    LaidLast(items, out, lastep);
    var it := items[|items| - 1];
    CountedCode(it, iv);
    UpdateHead(out[..lastep], EncodeItem(it), OrRnge(out[lastep]), [iv.0, iv.1]);
    LaidReplace(items, out, lastep, Counted(it, iv), out[lastep := OrRnge(out[lastep])] + [iv.0, iv.1]);
  }

  // ----- one token -----

  /** What was done to the bytes is what the token does to the items. */
  ghost predicate Refines(src: seq<byte>, p: nat, b: Built, endbuf: nat, eof: byte, step: Option<(Regs, seq<byte>)>)
    requires p < |src|
  {
    match NextBuilt(src, p, b, endbuf, eof)
    case None => step.None?
    case Some((b', q)) => step.Some? && step.value.0.pos == q && Current(step.value.0, b', step.value.1)
  }

  /** A token that appends one item. */
  lemma PushMeans(src: seq<byte>, r: Regs, b: Built, endbuf: nat, eof: byte, out: seq<byte>,
                  t: Tok, core: Core, r': Regs, out': seq<byte>)
    requires r.pos < |src| && Current(r, b, out) && Room(b, t, endbuf)
    requires Lex(src, r.pos, b.items == [], eof) == Some((t, r'.pos))
    requires Add(b, t) == Some(Push(b, core).(stack := r'.bracket, closed := r'.closed, nbra := r'.nbra))
    requires r'.closed + |r'.bracket| == r'.nbra <= 9 && r'.lastep == r.ep && r'.ep == |out'|
    requires out' == out + ([BaseOp(core)] + Payload(core))
    ensures Refines(src, r.pos, b, endbuf, eof, Some((r', out')))
  {
    LaidPush(b.items, out, r.lastep, core);
  }

  lemma {:induction false} MarkMeans(src: seq<byte>, r: Regs, b: Built, endbuf: nat, eof: byte, out: seq<byte>)
    requires r.pos + 1 < |src| && src[r.pos] == BACKSLASH && src[r.pos + 1] in {OPEN, CLOSE}
    requires Current(r, b, out) && |out| < endbuf
    ensures Refines(src, r.pos, b, endbuf, eof, MarkStep(src, r, out))
  {
    var t := if src[r.pos + 1] == OPEN then TOpen else TClose;
    assert Lex(src, r.pos, b.items == [], eof) == Some((t, r.pos + 2));
    var step := MarkStep(src, r, out);
    if step.Some? {
      var core := if t.TOpen? then Bra(r.nbra) else Ket(r.bracket[|r.bracket| - 1]);
      PushMeans(src, r, b, endbuf, eof, out, t, core, step.value.0, step.value.1);
    }
  }

  lemma {:induction false} IntervalMeans(src: seq<byte>, r: Regs, b: Built, endbuf: nat, eof: byte, out: seq<byte>)
    requires r.pos + 1 < |src| && src[r.pos] == BACKSLASH && src[r.pos + 1] == LBRACE && b.items != []
    requires Current(r, b, out) && |out| < endbuf && 0 <= r.lastep < |out|
    ensures Refines(src, r.pos, b, endbuf, eof, IntervalStep(src, r, out))
  {
    var o := LexInterval(src, r.pos + 2);
    assert Lex(src, r.pos, false, eof) == o;
    if o.Some? && Interval(o.value.0.ds, o.value.0.tail).Some? {
      IntervalPut(src, r, b, endbuf, eof, out, o.value.0, o.value.1, Interval(o.value.0.ds, o.value.0.tail).value);
    }
  }

  lemma IntervalPut(src: seq<byte>, r: Regs, b: Built, endbuf: nat, eof: byte, out: seq<byte>,
                    t: Tok, q: nat, iv: (byte, byte))
    requires r.pos < |src| && b.items != [] && Current(r, b, out) && |out| < endbuf && 0 <= r.lastep < |out|
    requires Lex(src, r.pos, false, eof) == Some((t, q)) && t.TInterval? && Interval(t.ds, t.tail) == Some(iv)
    ensures Refines(src, r.pos, b, endbuf, eof,
                    Some((r.(pos := q, ep := r.ep + 2), out[r.lastep := OrRnge(out[r.lastep])] + [iv.0, iv.1])))
  {
    LaidInterval(b.items, out, r.lastep, iv);
    assert Add(b, t) == Some(SetLast(b, Counted(Last(b), iv)));
  }

  lemma EscapeMeans(src: seq<byte>, r: Regs, b: Built, endbuf: nat, eof: byte, out: seq<byte>)
    requires r.pos < |src| && src[r.pos] == BACKSLASH
    requires Current(r, b, out) && |out| < endbuf && Sound(r, out)
    ensures Refines(src, r.pos, b, endbuf, eof, EscapeStep(src, r, out))
  {
    if r.pos + 1 < |src| && src[r.pos + 1] != NL {
      var c := src[r.pos + 1];
      if c == OPEN || c == CLOSE {
        MarkMeans(src, r, b, endbuf, eof, out);
      } else if c == LBRACE && r.lastep != -1 {
        IntervalMeans(src, r, b, endbuf, eof, out);
      } else {
        EscapedMeans(src, r, b, endbuf, eof, out);
      }
    }
  }

  lemma EscapedMeans(src: seq<byte>, r: Regs, b: Built, endbuf: nat, eof: byte, out: seq<byte>)
    requires r.pos + 1 < |src| && src[r.pos] == BACKSLASH && src[r.pos + 1] !in {OPEN, CLOSE, NL}
    requires src[r.pos + 1] == LBRACE ==> r.lastep == -1
    requires Current(r, b, out) && |out| < endbuf && Sound(r, out)
    ensures Refines(src, r.pos, b, endbuf, eof, EscapeStep(src, r, out))
  {
    var c := src[r.pos + 1];
    var t := if 49 <= c <= 57 then TBack(c) else if c == LETTER_N then TNewline else TEscaped(c);
    assert Lex(src, r.pos, b.items == [], eof) == Some((t, r.pos + 2));
    var step := EscapeStep(src, r, out);
    if step.Some? {
      var core := if 49 <= c <= 57 then Back(c - 49) else Chr(if c == LETTER_N then NL else c);
      PushMeans(src, r, b, endbuf, eof, out, t, core, step.value.0, step.value.1);
    }
  }

  lemma LexBracket(src: seq<byte>, p: nat, first: bool, eof: byte)
    requires p < |src| && src[p] == LBRACKET
    ensures var neg := p + 1 < |src| && src[p + 1] == CARET;
            Lex(src, p, first, eof) ==
            match LexElems(src, if neg then p + 2 else p + 1, true)
            case None => None
            case Some((es, q)) => Some((TBracket(neg, es), q))
  {
  }

  lemma AddBracket(b: Built, neg: bool, es: seq<Elem>)
    ensures Add(b, TBracket(neg, es)) == Some(Push(b, BracketCore(neg, es)))
    ensures BracketCore(neg, es).Bracket? && Payload(BracketCore(neg, es)) == BracketCore(neg, es).bits
  {
  }

  lemma BracketMeansItem(src: seq<byte>, r: Regs, b: Built, endbuf: nat, eof: byte, out: seq<byte>)
    requires r.pos < |src| && src[r.pos] == LBRACKET
    requires Current(r, b, out) && |out| < endbuf
    ensures Refines(src, r.pos, b, endbuf, eof, BracketStep(src, r, out, endbuf))
  {
    var neg := r.pos + 1 < |src| && src[r.pos + 1] == CARET;
    var lexed := LexElems(src, if neg then r.pos + 2 else r.pos + 1, true);
    LexBracket(src, r.pos, b.items == [], eof);
    if lexed.Some? { BracketPushed(src, r, b, endbuf, eof, out, neg, lexed.value.0, lexed.value.1); }
  }

  lemma BracketPushed(src: seq<byte>, r: Regs, b: Built, endbuf: nat, eof: byte, out: seq<byte>, neg: bool,
          es: seq<Elem>, q: nat)
    requires r.pos < |src| && src[r.pos] == LBRACKET && neg == (r.pos + 1 < |src| && src[r.pos + 1] == CARET)
    requires LexElems(src, if neg then r.pos + 2 else r.pos + 1, true) == Some((es, q))
    requires Lex(src, r.pos, b.items == [], eof) == Some((TBracket(neg, es), q))
    requires Current(r, b, out) && |out| < endbuf
    ensures Refines(src, r.pos, b, endbuf, eof, BracketStep(src, r, out, endbuf))
  {
    AddBracket(b, neg, es);
    var step := BracketStep(src, r, out, endbuf);
    if step.Some? {
      PushMeans(src, r, b, endbuf, eof, out, TBracket(neg, es), BracketCore(neg, es), step.value.0, step.value.1);
    }
  }

  lemma StarMeans(src: seq<byte>, r: Regs, b: Built, endbuf: nat, eof: byte, out: seq<byte>)
    requires r.pos < |src| && src[r.pos] == STAR
    requires Current(r, b, out) && |out| < endbuf && Sound(r, out)
    ensures Refines(src, r.pos, b, endbuf, eof, TokenStep(src, r, out, endbuf, eof))
  {
    if StarIsPlain(b) { StarIsChar(src, r, b, endbuf, eof, out); } else { StarRepeats(src, r, b, endbuf, eof, out); }
  }

  lemma StarIsChar(src: seq<byte>, r: Regs, b: Built, endbuf: nat, eof: byte, out: seq<byte>)
    requires r.pos < |src| && src[r.pos] == STAR && StarIsPlain(b)
    requires Current(r, b, out) && |out| < endbuf && Sound(r, out)
    ensures Refines(src, r.pos, b, endbuf, eof, TokenStep(src, r, out, endbuf, eof))
  {
    StarWhere(r, b, out);
    CharPushed(src, r, b, endbuf, eof, out, TStar, STAR);
    assert TokenStep(src, r, out, endbuf, eof) == Pair(r, out, r.pos + 1, CCHR, STAR);
  }

  /** A token of one character that stands for itself. */
  lemma CharPushed(src: seq<byte>, r: Regs, b: Built, endbuf: nat, eof: byte, out: seq<byte>, t: Tok, c: byte)
    requires r.pos < |src| && Current(r, b, out) && Room(b, t, endbuf)
    requires Lex(src, r.pos, b.items == [], eof) == Some((t, r.pos + 1)) && Add(b, t) == Some(Push(b, Chr(c)))
    ensures Refines(src, r.pos, b, endbuf, eof, Pair(r, out, r.pos + 1, CCHR, c))
  {
    assert [CCHR] + [c] == [CCHR, c];
    PushMeans(src, r, b, endbuf, eof, out, t, Chr(c), r.(pos := r.pos + 1, ep := r.ep + 2, lastep := r.ep),
        out + [CCHR, c]);
  }

  /** The compiler sees from the last opcode whether a star is an ordinary character. */
  lemma StarWhere(r: Regs, b: Built, out: seq<byte>)
    requires Current(r, b, out) && Sound(r, out)
    ensures StarIsPlain(b) <==> r.lastep == -1 || out[r.lastep] == CBRA || out[r.lastep] == CKET
  {
    if b.items != [] {
      LaidLast(b.items, out, r.lastep);
      OpcodeOfMark(Last(b));
    }
  }

  lemma StarRepeats(src: seq<byte>, r: Regs, b: Built, endbuf: nat, eof: byte, out: seq<byte>)
    requires r.pos < |src| && src[r.pos] == STAR && !StarIsPlain(b)
    requires Current(r, b, out) && |out| < endbuf && Sound(r, out)
    ensures Refines(src, r.pos, b, endbuf, eof, TokenStep(src, r, out, endbuf, eof))
  {
    StarWhere(r, b, out);
    LaidStar(b.items, out, r.lastep);
    assert Lex(src, r.pos, b.items == [], eof) == Some((TStar, r.pos + 1));
  }

  lemma {:induction false} PlainMeans(src: seq<byte>, r: Regs, b: Built, endbuf: nat, eof: byte, out: seq<byte>)
    requires r.pos < |src| && src[r.pos] !in {STAR, LBRACKET, BACKSLASH}
    requires Current(r, b, out) && |out| < endbuf && Sound(r, out)
    ensures Refines(src, r.pos, b, endbuf, eof, TokenStep(src, r, out, endbuf, eof))
  {
    var c := src[r.pos];
    if c != DOLLAR || r.pos + 1 < |src| {
      var anchor := c == DOLLAR && Stops(src[r.pos + 1], eof);
      var t := if c == DOT then TDot else if anchor then TDollar else TPlain(c);
      var core := if c == DOT then Dot else if anchor then Dol else Chr(c);
      assert Lex(src, r.pos, b.items == [], eof) == Some((t, r.pos + 1));
      var step := TokenStep(src, r, out, endbuf, eof).value;
      PushMeans(src, r, b, endbuf, eof, out, t, core, step.0, step.1);
    }
  }

  /** One turn of the loop does to the bytes what one token does to the items. */
  lemma TokenMeans(src: seq<byte>, r: Regs, b: Built, endbuf: nat, eof: byte, out: seq<byte>)
    requires r.pos < |src| && Current(r, b, out) && |out| < endbuf && Sound(r, out)
    ensures Refines(src, r.pos, b, endbuf, eof, TokenStep(src, r, out, endbuf, eof))
  {
    var c := src[r.pos];
    if c == STAR {
      StarMeans(src, r, b, endbuf, eof, out);
    } else if c == LBRACKET {
      BracketMeansItem(src, r, b, endbuf, eof, out);
    } else if c == BACKSLASH {
      EscapeMeans(src, r, b, endbuf, eof, out);
    } else {
      PlainMeans(src, r, b, endbuf, eof, out);
    }
  }

  // ----- the whole pattern -----

  lemma ParseNext(src: seq<byte>, p: nat, b: Built, eof: byte, sed: bool, endbuf: nat)
    requires p < |src| && !Stops(src[p], eof) && |Encode(b.items)| < endbuf
    ensures NextBuilt(src, p, b, endbuf, eof).Some? ==> p < NextBuilt(src, p, b, endbuf, eof).value.1
    ensures Parse(src, p, b, eof, sed, endbuf) ==
            match NextBuilt(src, p, b, endbuf, eof)
            case None => None
            case Some((b', q)) => Parse(src, q, b', eof, sed, endbuf)
  {
    LexAdvances(src, p, b.items == [], eof);
  }

  /** The result of compiling the text, as the tokens decide it; a text without any makes none. */
  ghost predicate Translates(res: Compiled, text: seq<byte>, eof: byte, sed: bool, endbuf: nat, prog: seq<byte>) {
    var src := text + [0];
    if Stops(src[0], eof) then !res.Program?
    else
      var circf := src[0] == CARET;
      match Parse(src, if circf then 1 else 0, Empty, eof, sed, endbuf)
      case None => res.Error?
      case Some(b) => res == Program(|prog|, circf, b.nbra) && prog == Code(b.items) && |prog| <= endbuf
  }

  /** What a turn of the loop stores behind the buffer is what the text says. */
  lemma SpillMeans(src: seq<byte>, r: Regs, b: Built, endbuf: nat, eof: byte, out: seq<byte>)
    requires r.pos < |src| && Current(r, b, out) && Sound(r, out)
    ensures TurnSpill(src, r, out, endbuf, eof) ==
            if Brim(b, endbuf) then SecondAt(src, r.pos, b, eof) else None
  {
    StarWhere(r, b, out);
  }

  /** So far `now` was stored behind the buffer; in the end it will be `goal`. */
  predicate Spilling(src: seq<byte>, p: nat, b: Built, eof: byte, endbuf: nat, now: Option<byte>, goal: Option<byte>) {
    if now.Some? then now == goal && |Encode(b.items)| >= endbuf
    else SpillFrom(src, p, b, eof, endbuf) == goal
  }

  lemma SpillingNext(src: seq<byte>, p: nat, b: Built, eof: byte, endbuf: nat, goal: Option<byte>, now: Option<byte>)
    requires p < |src| && !Stops(src[p], eof) && |Encode(b.items)| < endbuf
    requires Spilling(src, p, b, eof, endbuf, None, goal)
    requires now == if Brim(b, endbuf) then SecondAt(src, p, b, eof) else None
    ensures match NextBuilt(src, p, b, endbuf, eof)
            case None => now == goal
            case Some((b', q)) => Spilling(src, q, b', eof, endbuf, now, goal)
  {
    if now.Some? && NextBuilt(src, p, b, endbuf, eof).Some? { SecondGrows(src, p, b, eof, endbuf); }
  }

  /** Between two turns of the loop: what is left of the text leads to `goal`, and `spilt` of
      the final `spill` is stored already. */
  ghost predicate Midway(src: seq<byte>, r: Regs, b: Built, out: seq<byte>, eof: byte, sed: bool, endbuf: nat,
                         goal: Option<Built>, spilt: Option<byte>, spill: Option<byte>)
  {
    && Current(r, b, out) && Sound(r, out)
    && goal == Parse(src, r.pos, b, eof, sed, endbuf)
    && Spilling(src, r.pos, b, eof, endbuf, spilt, spill)
  }

  lemma MidwayNext(src: seq<byte>, r: Regs, b: Built, out: seq<byte>, eof: byte, sed: bool, endbuf: nat,
                   goal: Option<Built>, spilt: Option<byte>, spill: Option<byte>) returns (b': Built)
    requires Midway(src, r, b, out, eof, sed, endbuf, goal, spilt, spill)
    requires r.ep < endbuf && r.pos < |src| && !Stops(src[r.pos], eof)
    ensures var now, step := TurnSpill(src, r, out, endbuf, eof), TokenStep(src, r, out, endbuf, eof);
            && spilt == None
            && (step.None? ==> goal == None && now == spill)
            && (step.Some? ==>
                  && Midway(src, step.value.0, b', step.value.1, eof, sed, endbuf, goal, now, spill)
                  && r.pos < step.value.0.pos)
  {
    TokenMeans(src, r, b, endbuf, eof, out);
    ParseNext(src, r.pos, b, eof, sed, endbuf);
    SpillMeans(src, r, b, endbuf, eof, out);
    SpillingNext(src, r.pos, b, eof, endbuf, spill, TurnSpill(src, r, out, endbuf, eof));
    var next := NextBuilt(src, r.pos, b, endbuf, eof);
    b' := if next.Some? then next.value.0 else b;
    var step := TokenStep(src, r, out, endbuf, eof);
    if step.Some? { CurrentIsSound(step.value.0, b', step.value.1); }
  }

  /** Where the loop ends. */
  lemma MidwayEnd(src: seq<byte>, r: Regs, b: Built, out: seq<byte>, eof: byte, sed: bool, endbuf: nat,
                  goal: Option<Built>, spilt: Option<byte>, spill: Option<byte>)
    requires Midway(src, r, b, out, eof, sed, endbuf, goal, spilt, spill)
    requires r.ep >= endbuf || r.pos >= |src| || Stops(src[r.pos], eof)
    ensures spilt == spill
    ensures r.ep >= endbuf || r.pos >= |src| ==> goal == None
    ensures r.ep < endbuf && r.pos < |src| ==>
              goal == if r.bracket == [] && (src[r.pos] == eof || !sed) then Some(b) else None
    ensures out == Encode(b.items) && r.nbra == b.nbra
  {
  }

  /** The loop of `compile`, behind a caret if there is one. */
  method CompileLoop(src: seq<byte>, start: nat, buf: array<byte>, endbuf: nat, eof: byte, sed: bool)
    returns (ok: bool, len: nat, nbra: nat)
    requires NoNul(src) && endbuf < buf.Length
    modifies buf
    ensures Wrote(buf, endbuf, SpillFrom(src, start, Empty, eof, endbuf))
    ensures match Parse(src, start, Empty, eof, sed, endbuf)
            case None => !ok
            case Some(b) => ok && len <= endbuf && nbra == b.nbra && buf[..len] == Code(b.items)
  {
    var r := Regs(start, 0, -1, [], 0, 0);
    ghost var b, out: seq<byte>, spilt: Option<byte> := Empty, [], None;
    ghost var goal, spill := Parse(src, start, b, eof, sed, endbuf), SpillFrom(src, start, b, eof, endbuf);
    while true
      invariant r.ep <= buf.Length && out == buf[..r.ep] && Wrote(buf, endbuf, spilt)
      invariant Midway(src, r, b, out, eof, sed, endbuf, goal, spilt, spill)
      decreases |src| - r.pos
    {
      if r.ep >= endbuf || r.pos >= |src| || Stops(src[r.pos], eof) {
        MidwayEnd(src, r, b, out, eof, sed, endbuf, goal, spilt, spill);
        break;
      }
      ghost var b' := MidwayNext(src, r, b, out, eof, sed, endbuf, goal, spilt, spill);
      spilt := TurnSpill(src, r, out, endbuf, eof);
      ok, r := CompileToken(src, r, buf, endbuf, eof);
      if !ok { return false, 0, 0; }
      b, out := b', buf[..r.ep];
    }
    if r.ep >= endbuf || r.pos >= |src| || (src[r.pos] != eof && sed) { return false, 0, 0; }
    buf[r.ep] := CCEOF;
    assert buf[..r.ep + 1] == out + [CCEOF];
    return r.bracket == [], r.ep + 1, r.nbra;
  }

  /** `compile`.  The caller's buffer is the first `endbuf` bytes of `buf`, which goes on with
      whatever lies behind it: what is written there is `Spill` and no more. */
  method Compile(text: seq<byte>, buf: array<byte>, endbuf: nat, eof: byte, sed: bool) returns (res: Compiled)
    requires IsText(text) && endbuf < buf.Length
    modifies buf
    ensures res.Program? ==> res.len <= buf.Length
    ensures Translates(res, text, eof, sed, endbuf, if res.Program? then buf[..res.len] else [])
    ensures Stops((text + [0])[0], eof) ==> res == (if old(buf[0]) == 0 && !sed then Error else Reuse)
    ensures res.Reuse? ==> Stops((text + [0])[0], eof) && buf[..] == old(buf[..])
    ensures Wrote(buf, endbuf, Spill(text, eof, endbuf))
    ensures !res.Error? ==> buf[endbuf..] == old(buf[endbuf..])
  {
    var src := text + [0];
    if Stops(src[0], eof) {
      if buf[0] == 0 && !sed { return Error; }
      return Reuse;
    }
    var circf := src[0] == CARET;
    var start := if circf then 1 else 0;
    var ok, len, nbra := CompileLoop(src, start, buf, endbuf, eof, sed);
    if !ok { return Error; }
    if Spill(text, eof, endbuf).Some? { SpillFails(src, start, Empty, eof, sed, endbuf); }
    res := Program(len, circf, nbra);
  }

  lemma CurrentIsSound(r: Regs, b: Built, out: seq<byte>)
    requires Current(r, b, out)
    ensures Sound(r, out)
  {
    if b.items != [] { LaidLast(b.items, out, r.lastep); }
  }
}
