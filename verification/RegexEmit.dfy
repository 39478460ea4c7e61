/** The code generation of `compile` in usr/src/head/regexp.h: what each turn of its loop
    writes into the caller's buffer, in place, and what it leaves in its locals. */
module RegexEmit {
  import opened Bytes
  import opened RegexProgram
  import opened Wrappers
  import opened RegexText
  import opened RegexNumbers
  import opened RegexBrackets
  import opened RegexBuild
  import opened RegexSpill

  // ----- what is left alone -----

  /** Only bytes from `lo` up to `hi` were written. */
  twostate predicate Within(buf: array<byte>, lo: int, hi: int)
    reads buf
  {
    forall j :: 0 <= j < buf.Length && (j < lo || hi <= j) ==> buf[j] == old(buf[j])
  }

  /** Nothing behind `at` was written, and `at` itself only if `x` says so. */
  twostate predicate Wrote(buf: array<byte>, at: nat, new x: Option<byte>)
    reads buf
  {
    && at < buf.Length && buf[at] == (if x.Some? then x.value else old(buf[at]))
    && forall j :: at < j < buf.Length ==> buf[j] == old(buf[j])
  }

  // ----- intervals -----

  /** Pieces `xs` already read, then whatever the rest gives. */
  function Joined<T>(xs: seq<T>, o: Option<(seq<T>, nat)>): Option<(seq<T>, nat)> {
    match o
    case None => None
    case Some((more, q)) => Some((xs + more, q))
  }

  lemma JoinedNothing<T>(o: Option<(seq<T>, nat)>)
    ensures Joined([], o) == o
  {
    if o.Some? { assert [] + o.value.0 == o.value.0; }
  }

  lemma JoinedMore<T>(xs: seq<T>, x: T, o: Option<(seq<T>, nat)>)
    ensures Joined(xs, Joined([x], o)) == Joined(xs + [x], o)
  {
    if o.Some? { assert xs + ([x] + o.value.0) == (xs + [x]) + o.value.0; }
  }

  /** The `do` loop behind the label `nlim`: the number that is written there in decimal. */
  method ReadNumber(src: seq<byte>, start: nat) returns (ok: bool, i: nat, pos: nat)
    ensures ok <==> LexDigits(src, start).Some?
    ensures ok ==> i == Value(LexDigits(src, start).value.0) && pos == LexDigits(src, start).value.1
    ensures ok ==> Spells(LexDigits(src, start).value.0, i)
    ensures ok ==> pos < |src| && (src[pos] == BACKSLASH || src[pos] == COMMA)
  {
    i, pos := 0, start;
    ghost var ds := [];
    ghost var goal := LexDigits(src, start);
    JoinedNothing(goal);
    while true
      invariant start <= pos && i == Value(ds)
      invariant goal == Joined(ds, LexDigits(src, pos))
      decreases |src| - pos
    {
      if pos >= |src| || !Digit(src[pos]) { return false, i, pos; }
      var c := src[pos];
      i := 10 * i + (c - 48);
      assert (ds + [c])[..|ds|] == ds;
      pos := pos + 1;
      if pos >= |src| { return false, i, pos; }
      if src[pos] == BACKSLASH || src[pos] == COMMA {
        LexDigitsSound(src, start);
        SpellsValue(goal.value.0, i);
        return true, i, pos;
      }
      JoinedMore(ds, c, LexDigits(src, pos));
      ds := ds + [c];
    }
  }

  /** The jump to that label: only the value counts. */
  method ReadValue(src: seq<byte>, start: nat) returns (ok: bool, i: nat, pos: nat)
    ensures ok <==> LexDigits(src, start).Some?
    ensures ok ==> i == Value(LexDigits(src, start).value.0) && pos == LexDigits(src, start).value.1
    ensures ok ==> pos < |src| && (src[pos] == BACKSLASH || src[pos] == COMMA)
  {
    ok, i, pos := ReadNumber(src, start);
  }

  /** The interval behind `\{`: its two bytes at `ep`. */
  method CompileInterval(src: seq<byte>, start: nat, buf: array<byte>, ep: nat) returns (ok: bool, pos: nat)
    requires ep + 2 <= buf.Length
    modifies buf
    ensures ok <==> LexInterval(src, start).Some? &&
                    var t := LexInterval(src, start).value.0; t.TInterval? && Interval(t.ds, t.tail).Some?
    ensures ok ==> var (t, q) := LexInterval(src, start).value;
                   pos == q && buf[ep] == Interval(t.ds, t.tail).value.0
                       && buf[ep + 1] == Interval(t.ds, t.tail).value.1
    ensures Within(buf, ep, ep + 2) && Wrote(buf, ep + 1, IntervalSecond(src, start))
  {
    var i;
    ok, i, pos := ReadValue(src, start);
    if !ok { return; }
    ghost var q := pos;
    if i >= 255 { return false, pos; }
    buf[ep] := i;
    var cflg := src[pos] == COMMA;
    pos := pos + 1;
    if cflg {
      if pos >= |src| { return false, pos; }
      if src[pos] == BACKSLASH {
        buf[ep + 1] := 255;
        pos := pos + 1;
      } else {
        var n;
        ok, n, pos := ReadValue(src, pos);
        if !ok { return; }
        if n >= 255 { return false, pos; }
        buf[ep + 1] := n;
        if src[pos] == COMMA { return false, pos; }
        pos := pos + 1;
      }
    }
    if pos >= |src| || src[pos] != RBRACE { return false, pos; }
    pos := pos + 1;
    if !cflg {
      buf[ep + 1] := buf[ep];
    } else if buf[ep + 1] < buf[ep] {
      return false, pos;
    }
    ok := true;
  }

  // ----- brackets -----

  function LastChar(es: seq<Elem>): byte
  {
    if es == [] || es[|es| - 1].FinalDash? then 0 else es[|es| - 1].c
  }

  predicate NoFinalDash(es: seq<Elem>) { forall j :: 0 <= j < |es| ==> !es[j].FinalDash? }

  lemma {:induction false} PlaceElemsAppend(bits: Bitmap, es: seq<Elem>, e: Elem, lc: byte)
    requires NoFinalDash(es)
    ensures PlaceElems(bits, es + [e], lc) ==
            PlaceElem(PlaceElems(bits, es, lc), e, if es == [] then lc else LastChar(es))
    decreases |es|
  {
    if es == [] {
      assert es + [e] == [e];
      assert [e][1..] == [];
    } else {
      assert (es + [e])[1..] == es[1..] + [e];
      PlaceElemsAppend(PlaceElem(bits, es[0], lc), es[1..], e, es[0].c);
    }
  }

  lemma {:induction false} NeedsWideAppend(es: seq<Elem>, more: seq<Elem>)
    ensures NeedsWide(es + more) <==> NeedsWide(es) || NeedsWide(more)
  {
    if es == [] {
      assert es + more == more;
    } else {
      assert (es + more)[1..] == es[1..] + more;
      NeedsWideAppend(es[1..], more);
    }
  }

  function MapSize(wide: bool): nat { if wide then 32 else 16 }

  /** The bytes from `ep` on hold the bitmap: 16 of them, and the other 16 once it is wide. */
  ghost predicate Mapped(buf: array<byte>, ep: nat, wide: bool, bits: Bitmap)
    reads buf
  {
    && ep + 16 <= buf.Length && (wide ==> ep + 32 <= buf.Length)
    && (forall j :: 0 <= j < 16 ==> buf[ep + j] == bits[j])
    && (wide ==> forall j :: 16 <= j < 32 ==> buf[ep + j] == bits[j])
    && (!wide ==> forall j :: 16 <= j < 32 ==> bits[j] == 0)
  }

  /** `PLACE(c)` into the buffer. */
  method PlaceInto(buf: array<byte>, ep: nat, c: byte, wide: bool, ghost bits: Bitmap)
    requires Mapped(buf, ep, wide, bits) && (c >= 128 ==> wide)
    modifies buf
    ensures Mapped(buf, ep, wide, PlaceChar(bits, c)) && Within(buf, ep, ep + MapSize(wide))
  {
    buf[ep + c / 8] := Place(buf[ep + c / 8], c % 8);
  }

  /** The first character outside ASCII makes the bitmap 32 bytes long. */
  method Widen(buf: array<byte>, ep: nat, endbuf: nat, ghost bits: Bitmap) returns (ok: bool)
    requires Mapped(buf, ep, false, bits) && 0 < ep && endbuf < buf.Length
    modifies buf
    ensures ok <==> ep + 32 < endbuf
    ensures ok ==> Mapped(buf, ep, true, bits) && buf[ep - 1] == CXCL
    ensures Within(buf, ep - 1, endbuf)
  {
    if ep + 32 >= endbuf { return false; }
    buf[ep - 1] := CXCL;
    var i := 16;
    while i < 32
      invariant 16 <= i <= 32 && buf[ep - 1] == CXCL
      invariant forall j :: 16 <= j < i ==> buf[ep + j] == bits[j]
      invariant forall j :: 0 <= j < 16 ==> buf[ep + j] == bits[j]
      invariant Within(buf, ep - 1, ep + 32)
    {
      buf[ep + i] := 0;
      i := i + 1;
    }
    ok := true;
  }

  /** `while (lc < c) { PLACE(lc); lc++; }` */
  method PlaceRangeInto(buf: array<byte>, ep: nat, from: byte, c: byte, wide: bool, ghost bits: Bitmap)
    requires Mapped(buf, ep, wide, bits) && (c >= 128 ==> wide)
    modifies buf
    ensures Mapped(buf, ep, wide, PlaceRange(bits, from, c)) && Within(buf, ep, ep + MapSize(wide))
  {
    var lc: byte := from;
    ghost var now := bits;
    while lc < c
      invariant Mapped(buf, ep, wide, now) && PlaceRange(now, lc, c) == PlaceRange(bits, from, c)
      invariant Within(buf, ep, ep + MapSize(wide))
      decreases c - lc
    {
      PlaceInto(buf, ep, lc, wide, now);
      now := PlaceChar(now, lc);
      lc := lc + 1;
    }
  }

  /** The opcode and map of an unfinished bracket lie at `ep`, behind the bytes `before`. */
  ghost predicate Drawn(buf: array<byte>, ep: nat, wide: bool, bits: Bitmap, before: seq<byte>)
    reads buf
  {
    && 0 < ep && Mapped(buf, ep, wide, bits) && buf[ep - 1] == (if wide then CXCL else CCL)
    && buf[..ep - 1] == before
  }

  /** The code behind the bracket loop: negation and the final opcode. */
  method FinishInto(buf: array<byte>, ep: nat, neg: bool, wide: bool, ghost bits: Bitmap, ghost before: seq<byte>)
    requires Drawn(buf, ep, wide, bits, before)
    modifies buf
    ensures var core := FinishBracket(neg, wide, bits);
            && ep + |core.bits| <= buf.Length && buf[ep - 1] == BaseOp(core)
            && buf[ep..ep + |core.bits|] == core.bits
    ensures buf[..ep - 1] == before && Within(buf, ep - 1, ep + MapSize(wide))
  {
    if neg {
      if wide {
        var cclcnt := 0;
        ghost var flipped := FlipAll(bits);
        while cclcnt < 32
          invariant 0 <= cclcnt <= 32 && buf[ep - 1] == CXCL
          invariant forall j :: 0 <= j < cclcnt ==> buf[ep + j] == flipped[j]
          invariant forall j :: cclcnt <= j < 32 ==> buf[ep + j] == bits[j]
          invariant Within(buf, ep - 1, ep + 32)
        {
          buf[ep + cclcnt] := Flip(buf[ep + cclcnt]);
          cclcnt := cclcnt + 1;
        }
        buf[ep] := ClearLow(buf[ep]);
      } else {
        buf[ep - 1] := NCCL;
        buf[ep] := Place(buf[ep], 0);
      }
    }
    ghost var core := FinishBracket(neg, wide, bits);
    assert forall j :: 0 <= j < |core.bits| ==> buf[ep + j] == core.bits[j];
  }

  /** The loop over the pieces of a bracket has read `es` and stands at `pos`. */
  ghost predicate Bracketing(src: seq<byte>, goal: Option<(seq<Elem>, nat)>, es: seq<Elem>, pos: nat,
                             lc: byte, wide: bool, bits: Bitmap)
  {
    && NoFinalDash(es) && lc == LastChar(es) && (es != [] ==> lc != 0)
    && wide == NeedsWide(es) && bits == PlaceElems(Zeros(32), es, 0)
    && goal == Joined(es, LexElems(src, pos, es == []))
  }

  /** The loop ends with the pieces `es`. */
  ghost predicate Bracketed(goal: Option<(seq<Elem>, nat)>, pos: nat, wide: bool, bits: Bitmap) {
    && goal.Some? && pos == goal.value.1
    && wide == NeedsWide(goal.value.0) && bits == PlaceElems(Zeros(32), goal.value.0, 0)
  }

  lemma BracketingNext(src: seq<byte>, goal: Option<(seq<Elem>, nat)>, es: seq<Elem>, pos: nat,
                       lc: byte, wide: bool, bits: Bitmap, e: Elem, next: nat)
    requires NoNul(src) && Bracketing(src, goal, es, pos, lc, wide, bits)
    requires pos < next && !e.FinalDash? && LexElems(src, pos, es == []) == LexMore(src, next, e)
    requires next > 0 && next - 1 < |src| && e.c == src[next - 1]
    ensures next >= |src| ==> goal.None?
    ensures next < |src| && src[next] == RBRACKET ==>
              Bracketed(goal, next + 1, wide || e.c >= 128, PlaceElem(bits, e, lc))
    ensures next < |src| && src[next] != RBRACKET ==>
              Bracketing(src, goal, es + [e], next, e.c, wide || e.c >= 128, PlaceElem(bits, e, lc))
    ensures e.c >= 128 && goal.Some? ==> NeedsWide(goal.value.0)
  {
    NeedsWideAppend(es, [e]);
    PlaceElemsAppend(Zeros(32), es, e, 0);
    assert [e][1..] == [];
    if next < |src| {
      if src[next] != RBRACKET {
        JoinedMore(es, e, LexElems(src, next, false));
        assert (es + [e])[|es|] == e;
      }
    }
    if goal.Some? {
      var more := LexMore(src, next, e).value.0;
      NeedsWideAppend(es, more);
    }
  }

  lemma BracketingDash(src: seq<byte>, goal: Option<(seq<Elem>, nat)>, es: seq<Elem>, pos: nat,
                       lc: byte, wide: bool, bits: Bitmap)
    requires Bracketing(src, goal, es, pos, lc, wide, bits) && lc != 0
    requires pos + 1 < |src| && src[pos] == DASH && src[pos + 1] == RBRACKET
    ensures Bracketed(goal, pos + 2, wide, PlaceChar(bits, DASH))
  {
    PlaceElemsAppend(Zeros(32), es, FinalDash, 0);
    NeedsWideAppend(es, [FinalDash]);
    assert [FinalDash][1..] == [];
  }

  /** What the loop reads next: nothing it accepts, a dash before the end, or one piece more. */
  datatype Piece = NoPiece | LoneDash | OnePiece(e: Elem, next: nat)

  function ReadPiece(src: seq<byte>, pos: nat, lc: byte): Piece {
    if pos >= |src| || src[pos] == 0 || src[pos] == NL then NoPiece
    else if src[pos] == DASH && lc != 0 then
      if pos + 1 >= |src| then NoPiece
      else if src[pos + 1] == RBRACKET then LoneDash
      else OnePiece(RangeTo(src[pos + 1]), pos + 2)
    else OnePiece(Single(src[pos]), pos + 1)
  }

  lemma PieceRead(src: seq<byte>, goal: Option<(seq<Elem>, nat)>, es: seq<Elem>, pos: nat,
                  lc: byte, wide: bool, bits: Bitmap)
    requires NoNul(src) && Bracketing(src, goal, es, pos, lc, wide, bits)
    ensures match ReadPiece(src, pos, lc)
            case NoPiece => goal.None?
            case LoneDash => Bracketed(goal, pos + 2, wide, PlaceChar(bits, DASH))
            case OnePiece(e, next) =>
              && pos < next <= |src| && !e.FinalDash? && e.c == src[next - 1]
              && LexElems(src, pos, es == []) == LexMore(src, next, e)
  {
    if ReadPiece(src, pos, lc).LoneDash? { BracketingDash(src, goal, es, pos, lc, wide, bits); }
  }

  /** One piece of a bracket, ending in the character `c`. */
  method PlacePiece(buf: array<byte>, ep: nat, endbuf: nat, e: Elem, lc: byte, was: bool,
                    ghost bits: Bitmap, ghost before: seq<byte>)
    returns (ok: bool, wide: bool)
    requires ep + MapSize(was) <= endbuf < buf.Length && !e.FinalDash? && Drawn(buf, ep, was, bits, before)
    modifies buf
    ensures ok <==> (e.c >= 128 && !was ==> ep + 32 < endbuf)
    ensures ok ==> wide == (was || e.c >= 128)
    ensures ok ==> Drawn(buf, ep, wide, PlaceElem(bits, e, lc), before) && ep + MapSize(wide) <= endbuf
    ensures Within(buf, ep - 1, endbuf)
  {
    ok, wide := true, was;
    if e.c >= 128 && !was {
      ok := Widen(buf, ep, endbuf, bits);
      if !ok { return; }
      wide := true;
    }
    ghost var now := bits;
    if e.RangeTo? {
      PlaceRangeInto(buf, ep, lc, e.c, wide, bits);
      now := PlaceRange(bits, lc, e.c);
    }
    PlaceInto(buf, ep, e.c, wide, now);
  }

  /** The `do` loop of the case `[`, from its first character on. */
  method CompilePieces(src: seq<byte>, start: nat, buf: array<byte>, ep: nat, endbuf: nat)
    returns (ok: bool, pos: nat, wide: bool, ghost bits: Bitmap)
    requires NoNul(src) && 0 < ep && ep + 16 <= endbuf < buf.Length && Drawn(buf, ep, false, Zeros(32), buf[..ep - 1])
    modifies buf
    ensures var lexed := LexElems(src, start, true);
            && (ok <==> lexed.Some? && (NeedsWide(lexed.value.0) ==> ep + 32 < endbuf))
            && (ok ==> Bracketed(lexed, pos, wide, bits))
    ensures Within(buf, ep - 1, endbuf)
    ensures ok ==> Drawn(buf, ep, wide, bits, old(buf[..ep - 1])) && ep + MapSize(wide) <= endbuf
  {
    ghost var goal := LexElems(src, start, true);
    JoinedNothing(goal);
    ghost var es: seq<Elem> := [];
    ghost var before := buf[..ep - 1];
    pos, wide, bits := start, false, Zeros(32);
    var lc: byte := 0;
    while true
      invariant Bracketing(src, goal, es, pos, lc, wide, bits)
      invariant Drawn(buf, ep, wide, bits, before) && (wide ==> ep + 32 < endbuf)
      invariant Within(buf, ep - 1, endbuf)
      decreases |src| - pos
    {
      var piece := ReadPiece(src, pos, lc);
      PieceRead(src, goal, es, pos, lc, wide, bits);
      if piece.NoPiece? { return false, pos, wide, bits; }
      if piece.LoneDash? {
        PlaceInto(buf, ep, DASH, wide, bits);
        return true, pos + 2, wide, PlaceChar(bits, DASH);
      }
      var e, next := piece.e, piece.next;
      BracketingNext(src, goal, es, pos, lc, wide, bits, e, next);
      ok, wide := PlacePiece(buf, ep, endbuf, e, lc, wide, bits, before);
      if !ok { return; }
      bits, es, lc, pos := PlaceElem(bits, e, lc), es + [e], e.c, next;
      if pos >= |src| { return false, pos, wide, bits; }
      if src[pos] == RBRACKET { return true, pos + 1, wide, bits; }
    }
  }

  /** The opcode and an empty map of 16 bytes. */
  method OpenBracket(buf: array<byte>, ep: nat)
    requires ep + 17 < buf.Length
    modifies buf
    ensures Drawn(buf, ep + 1, false, Zeros(32), old(buf[..ep])) && Within(buf, ep, ep + 17)
  {
    buf[ep] := CCL;
    var i := 0;
    while i < 16
      invariant 0 <= i <= 16 && buf[ep] == CCL && Within(buf, ep, ep + 17)
      invariant forall j :: ep + 1 <= j < ep + 1 + i ==> buf[j] == 0
    {
      buf[ep + 1 + i] := 0;
      i := i + 1;
    }
  }

  /** The case `[`: the opcode at `ep` and the bitmap behind it. */
  method CompileBracket(src: seq<byte>, start: nat, buf: array<byte>, ep: nat, endbuf: nat)
    returns (ok: bool, pos: nat, ep': nat)
    requires NoNul(src) && ep + 17 < endbuf < buf.Length
    modifies buf
    ensures var neg := start < |src| && src[start] == CARET;
            var lexed := LexElems(src, if neg then start + 1 else start, true);
            && (ok <==> lexed.Some? && (NeedsWide(lexed.value.0) ==> ep + 33 < endbuf))
            && (ok ==> var core := BracketCore(neg, lexed.value.0);
                       && pos == lexed.value.1 && ep' == ep + 1 + |core.bits| <= endbuf
                       && buf[ep] == BaseOp(core) && buf[ep + 1..ep'] == core.bits)
    ensures Within(buf, ep, endbuf)
  {
    pos, ep' := start, ep + 1;
    OpenBracket(buf, ep);
    if pos >= |src| { return false, pos, ep'; }
    var neg := src[pos] == CARET;
    if neg { pos := pos + 1; }
    var wide;
    ghost var bits;
    ok, pos, wide, bits := CompilePieces(src, pos, buf, ep + 1, endbuf);
    if !ok { return; }
    FinishInto(buf, ep + 1, neg, wide, bits, buf[..ep]);
    ep' := ep' + (if wide then 32 else 16);
  }

  // ----- one token -----

  /** The locals of `compile`; `lastep` is where the last item starts, or -1. */
  datatype Regs = Regs(pos: nat, ep: nat, lastep: int, bracket: seq<slot>, closed: nat, nbra: nat)

  predicate Sound(r: Regs, out: seq<byte>) { r.ep == |out| && -1 <= r.lastep < |out| }

  /** Two more bytes: an opcode and its argument. */
  function Pair(r: Regs, out: seq<byte>, pos: nat, op: byte, arg: byte): Option<(Regs, seq<byte>)> {
    Some((r.(pos := pos, ep := r.ep + 2, lastep := r.ep), out + [op, arg]))
  }

  function MarkStep(src: seq<byte>, r: Regs, out: seq<byte>): Option<(Regs, seq<byte>)>
    requires r.pos + 1 < |src|
  {
    if src[r.pos + 1] == OPEN then
      if r.nbra >= NBRA then None
      else Pair(r.(bracket := r.bracket + [r.nbra], nbra := r.nbra + 1), out, r.pos + 2, CBRA, r.nbra)
    else if r.bracket == [] then None
    else
      var top := |r.bracket| - 1;
      Pair(r.(bracket := r.bracket[..top], closed := r.closed + 1), out, r.pos + 2, CKET, r.bracket[top])
  }

  function IntervalStep(src: seq<byte>, r: Regs, out: seq<byte>): Option<(Regs, seq<byte>)>
    requires 0 <= r.lastep < |out|
  {
    match LexInterval(src, r.pos + 2)
    case None => None
    case Some((t, q)) =>
      if !t.TInterval? || Interval(t.ds, t.tail).None? then None
      else
        var iv := Interval(t.ds, t.tail).value;
        Some((r.(pos := q, ep := r.ep + 2), out[r.lastep := OrRnge(out[r.lastep])] + [iv.0, iv.1]))
  }

  function EscapeStep(src: seq<byte>, r: Regs, out: seq<byte>): Option<(Regs, seq<byte>)>
    requires Sound(r, out)
  {
    if r.pos + 1 >= |src| || src[r.pos + 1] == NL then None
    else
      var c := src[r.pos + 1];
      if c == OPEN || c == CLOSE then MarkStep(src, r, out)
      else if c == LBRACE && r.lastep != -1 then IntervalStep(src, r, out)
      else if 49 <= c <= 57 then
        if c - 49 >= r.closed then None else Pair(r, out, r.pos + 2, CBACK, c - 49)
      else Pair(r, out, r.pos + 2, CCHR, if c == LETTER_N then NL else c)
  }

  function BracketStep(src: seq<byte>, r: Regs, out: seq<byte>, endbuf: nat): Option<(Regs, seq<byte>)> {
    var neg := r.pos + 1 < |src| && src[r.pos + 1] == CARET;
    match LexElems(src, if neg then r.pos + 2 else r.pos + 1, true)
    case None => None
    case Some((es, q)) =>
      if r.ep + 17 >= endbuf || (NeedsWide(es) && r.ep + 33 >= endbuf) then None
      else
        var core := BracketCore(neg, es);
        Some((r.(pos := q, ep := r.ep + 1 + |core.bits|, lastep := r.ep), out + ([BaseOp(core)] + core.bits)))
  }

  /** What one turn of the loop does when no terminator stands at `r.pos`. */
  function TokenStep(src: seq<byte>, r: Regs, out: seq<byte>, endbuf: nat, eof: byte): Option<(Regs, seq<byte>)>
    requires r.pos < |src| && Sound(r, out)
  {
    var c, next := src[r.pos], r.pos + 1;
    if c == DOT then Some((r.(pos := next, ep := r.ep + 1, lastep := r.ep), out + [CDOT]))
    else if c == STAR then
      if AtMark(r, out) then Pair(r, out, next, CCHR, STAR)
      else Some((r.(pos := next), out[r.lastep := OrStar(out[r.lastep])]))
    else if c == DOLLAR then
      if next >= |src| then None
      else if Stops(src[next], eof) then Some((r.(pos := next, ep := r.ep + 1, lastep := r.ep), out + [CDOL]))
      else Pair(r, out, next, CCHR, c)
    else if c == LBRACKET then BracketStep(src, r, out, endbuf)
    else if c == BACKSLASH then EscapeStep(src, r, out)
    else Pair(r, out, next, CCHR, c)
  }

  /** A star at this point stands for itself. */
  predicate AtMark(r: Regs, out: seq<byte>)
    requires Sound(r, out)
  {
    r.lastep == -1 || out[r.lastep] == CBRA || out[r.lastep] == CKET
  }

  /** What the turn stores at `endbuf`. */
  function TurnSpill(src: seq<byte>, r: Regs, out: seq<byte>, endbuf: nat, eof: byte): Option<byte>
    requires r.pos < |src| && Sound(r, out)
  {
    if r.ep + 1 != endbuf then None
    else Second(src, r.pos, eof, AtMark(r, out), r.lastep == -1, r.bracket, r.closed, r.nbra)
  }

  /** The method did what the step function says. */
  ghost predicate Did(step: Option<(Regs, seq<byte>)>, ok: bool, r': Regs, buf: array<byte>)
    reads buf
  {
    && ok == step.Some?
    && (ok ==> r' == step.value.0 && r'.ep <= buf.Length && buf[..r'.ep] == step.value.1)
  }

  method PutPair(buf: array<byte>, r: Regs, pos: nat, op: byte, arg: byte) returns (r': Regs)
    requires r.ep + 2 <= buf.Length
    modifies buf
    ensures Did(Pair(r, old(buf[..r.ep]), pos, op, arg), true, r', buf) && Wrote(buf, r.ep + 1, Some(arg))
  {
    buf[r.ep] := op;
    buf[r.ep + 1] := arg;
    r' := r.(pos := pos, ep := r.ep + 2, lastep := r.ep);
  }

  method PutOne(buf: array<byte>, r: Regs, pos: nat, op: byte) returns (r': Regs)
    requires r.ep < buf.Length
    modifies buf
    ensures r' == r.(pos := pos, ep := r.ep + 1, lastep := r.ep) && buf[..r.ep + 1] == old(buf[..r.ep]) + [op]
    ensures Within(buf, r.ep, r.ep + 1)
  {
    buf[r.ep] := op;
    r' := r.(pos := pos, ep := r.ep + 1, lastep := r.ep);
  }

  method CompileMark(src: seq<byte>, r: Regs, buf: array<byte>) returns (ok: bool, r': Regs)
    requires r.pos + 1 < |src| && src[r.pos + 1] in {OPEN, CLOSE} && r.ep + 2 <= buf.Length
    modifies buf
    ensures Did(MarkStep(src, r, old(buf[..r.ep])), ok, r', buf)
    ensures Wrote(buf, r.ep + 1, EscapeSecond(src, r.pos, r.lastep == -1, r.bracket, r.closed, r.nbra))
  {
    ok, r' := false, r;
    if src[r.pos + 1] == OPEN {
      if r.nbra >= NBRA { return; }
      r' := PutPair(buf, r.(bracket := r.bracket + [r.nbra], nbra := r.nbra + 1), r.pos + 2, CBRA, r.nbra);
    } else {
      if r.bracket == [] { return; }
      var top := |r.bracket| - 1;
      r' := PutPair(buf, r.(bracket := r.bracket[..top], closed := r.closed + 1), r.pos + 2, CKET, r.bracket[top]);
    }
    ok := true;
  }

  /** `*lastep |= RNGE` and the two bytes. */
  method PutInterval(src: seq<byte>, r: Regs, buf: array<byte>) returns (ok: bool, r': Regs)
    requires 0 <= r.lastep < r.ep && r.ep + 2 <= buf.Length
    modifies buf
    ensures Did(IntervalStep(src, r, old(buf[..r.ep])), ok, r', buf)
    ensures Wrote(buf, r.ep + 1, IntervalSecond(src, r.pos + 2))
  {
    ghost var out := buf[..r.ep];
    buf[r.lastep] := OrRnge(buf[r.lastep]);
    ghost var out' := out[r.lastep := OrRnge(out[r.lastep])];
    assert buf[..r.ep] == out';
    var pos;
    ok, pos := CompileInterval(src, r.pos + 2, buf, r.ep);
    r' := r.(pos := pos, ep := r.ep + 2);
    assert buf[..r.ep] == out';
    assert buf[..r.ep + 2] == buf[..r.ep] + [buf[r.ep], buf[r.ep + 1]];
  }

  /** The case of a backslash at `r.pos`. */
  method CompileEscape(src: seq<byte>, r: Regs, buf: array<byte>) returns (ok: bool, r': Regs)
    requires r.ep + 2 <= buf.Length && -1 <= r.lastep < r.ep
    modifies buf
    ensures Did(EscapeStep(src, r, old(buf[..r.ep])), ok, r', buf)
    ensures Wrote(buf, r.ep + 1, EscapeSecond(src, r.pos, r.lastep == -1, r.bracket, r.closed, r.nbra))
  {
    ok, r' := false, r;
    if r.pos + 1 >= |src| || src[r.pos + 1] == NL { return; }
    var c := src[r.pos + 1];
    if c == OPEN || c == CLOSE {
      ok, r' := CompileMark(src, r, buf);
    } else if c == LBRACE && r.lastep != -1 {
      ok, r' := PutInterval(src, r, buf);
    } else if 49 <= c <= 57 {
      if c - 49 >= r.closed { return; }
      r' := PutPair(buf, r, r.pos + 2, CBACK, c - 49);
      ok := true;
    } else {
      r' := PutPair(buf, r, r.pos + 2, CCHR, if c == LETTER_N then NL else c);
      ok := true;
    }
  }

  /** The `switch` on the character at `r.pos`. */
  method CompileToken(src: seq<byte>, r: Regs, buf: array<byte>, endbuf: nat, eof: byte) returns (ok: bool, r': Regs)
    requires NoNul(src) && r.pos < |src| && -1 <= r.lastep < r.ep < endbuf < buf.Length
    modifies buf
    ensures Did(TokenStep(src, r, old(buf[..r.ep]), endbuf, eof), ok, r', buf)
    ensures Wrote(buf, endbuf, TurnSpill(src, r, old(buf[..r.ep]), endbuf, eof))
  {
    var c, next := src[r.pos], r.pos + 1;
    ok, r' := true, r;
    if c == DOT {
      r' := PutOne(buf, r, next, CDOT);
    } else if c == STAR {
      if r.lastep == -1 || buf[r.lastep] == CBRA || buf[r.lastep] == CKET {
        r' := PutPair(buf, r, next, CCHR, STAR);
      } else {
        buf[r.lastep] := OrStar(buf[r.lastep]);
        r' := r.(pos := next);
      }
    } else if c == DOLLAR {
      if next >= |src| { return false, r'; }
      if Stops(src[next], eof) {
        r' := PutOne(buf, r, next, CDOL);
      } else {
        r' := PutPair(buf, r, next, CCHR, c);
      }
    } else if c == LBRACKET {
      ok, r' := PutBracket(src, r, buf, endbuf);
    } else if c == BACKSLASH {
      ok, r' := CompileEscape(src, r, buf);
    } else {
      r' := PutPair(buf, r, next, CCHR, c);
    }
  }

  method PutBracket(src: seq<byte>, r: Regs, buf: array<byte>, endbuf: nat) returns (ok: bool, r': Regs)
    requires NoNul(src) && r.pos < |src| && r.ep < endbuf < buf.Length
    modifies buf
    ensures Did(BracketStep(src, r, old(buf[..r.ep]), endbuf), ok, r', buf) && Within(buf, r.ep, endbuf)
  {
    ok, r' := false, r;
    if r.ep + 17 >= endbuf { return; }
    ghost var out := buf[..r.ep];
    var pos, ep;
    ok, pos, ep := CompileBracket(src, r.pos + 1, buf, r.ep, endbuf);
    r' := r.(pos := pos, ep := ep, lastep := r.ep);
    if ok { BytesBehind(buf, out, r.ep, ep); }
  }

  lemma BytesBehind(buf: array<byte>, out: seq<byte>, at: nat, end: nat)
    requires at < end <= buf.Length && |out| == at && forall j :: 0 <= j < at ==> buf[j] == out[j]
    ensures buf[..end] == out + ([buf[at]] + buf[at + 1..end])
  {
  }
}
