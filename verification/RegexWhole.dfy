/** Compiler and matcher of usr/src/head/regexp.h together: from pattern text to the strings
    found, and the patterns for which that fails. */
module RegexWhole {
  import opened Bytes
  import opened RegexProgram
  import opened Wrappers
  import opened RegexMatch
  import opened RegexCaptures
  import opened RegexAdvance
  import opened RegexText
  import opened RegexNumbers
  import opened RegexBuild
  import opened RegexSound
  import opened RegexSpill
  import opened RegexHang
  import opened RegexCompile

  /** The text of a pattern: its tokens, behind a caret if it is anchored. */
  function PatternText(caret: bool, ts: seq<Tok>): seq<byte> {
    (if caret then [CARET] else []) + SpellAll(ts)
  }

  /** What may follow the tokens: the delimiter, or a newline where that ends a pattern too. */
  predicate Ends(tail: seq<byte>, eof: byte, sed: bool) {
    var c := (tail + [0])[0];
    c == eof || (c == NL && !sed)
  }

  /** The first character is read as it was meant: a caret only as an anchor, and not as the
      delimiter; and a text without any tokens stands for the pattern compiled before. */
  predicate AsMeant(caret: bool, ts: seq<Tok>, eof: byte) {
    if caret then eof != CARET else ts != [] && ts[0] != TPlain(CARET)
  }

  /** `prog` is the program of the tokens. */
  predicate Yields(res: Compiled, caret: bool, ts: seq<Tok>, endbuf: nat, prog: seq<byte>) {
    match AddAll(Empty, ts, endbuf)
    case None => false
    case Some(b) => res == Program(|prog|, caret, b.nbra) && prog == Code(b.items)
  }

  /** Where the tokens of a spelled-out pattern start. */
  lemma {:induction false} SpelledStart(caret: bool, ts: seq<Tok>, tail: seq<byte>, eof: byte, sed: bool)
    requires TokensValid(ts, true, eof) && Ends(tail, eof, sed)
    ensures var src := PatternText(caret, ts) + tail + [0];
            && (Stops(src[0], eof) <==> if caret then eof == CARET else ts == [])
            && (caret || (ts != [] && ts[0] == TPlain(CARET)) ==> src[0] == CARET)
            && (AsMeant(caret, ts, eof) ==> (src[0] == CARET <==> caret))
  {
    if !caret && ts != [] {
      SpellFirst(ts[0]);
      assert TokFits(ts[0], true, |ts| == 1, eof);
    }
  }

  /** Where a part of a text stands, and what comes behind it. */
  lemma {:induction false} PartPlaces(a: seq<byte>, w: seq<byte>, tail: seq<byte>, src: seq<byte>, p: nat, end: nat)
    requires src == (a + w) + tail + [0] && p == |a| && end == p + |w|
    ensures end < |src| && src[p..end] == w && src[end] == (tail + [0])[0]
  {
  }

  lemma {:induction false} SpelledWritten(caret: bool, ts: seq<Tok>, tail: seq<byte>, eof: byte, sed: bool)
    requires Ends(tail, eof, sed)
    ensures Written(ts, PatternText(caret, ts) + tail + [0], if caret then 1 else 0, eof)
  {
    var src := PatternText(caret, ts) + tail + [0];
    var p: nat := if caret then 1 else 0;
    PartPlaces(if caret then [CARET] else [], SpellAll(ts), tail, src, p, p + |SpellAll(ts)|);
    WrittenIsText(ts, src, p, eof);
    OccursIsSlice(SpellAll(ts), src, p);
  }

  lemma {:induction false} SpelledParses(caret: bool, ts: seq<Tok>, tail: seq<byte>, eof: byte, sed: bool, endbuf: nat)
    requires TokensValid(ts, true, eof) && Ends(tail, eof, sed)
    ensures Parse(PatternText(caret, ts) + tail + [0], if caret then 1 else 0, Empty, eof, sed, endbuf) ==
            Complete(AddAll(Empty, ts, endbuf), endbuf)
  {
    var src := PatternText(caret, ts) + tail + [0];
    var p: nat := if caret then 1 else 0;
    PartPlaces(if caret then [CARET] else [], SpellAll(ts), tail, src, p, p + |SpellAll(ts)|);
    WrittenIsText(ts, src, p, eof);
    OccursIsSlice(SpellAll(ts), src, p);
    ParseWritten(ts, src, p, Empty, eof, sed, endbuf);
  }

  /** The spelling of a token list compiles to the program of its items exactly when that
      fits and the first character is read as it was meant. */
  lemma {:induction false} SpelledCompiles(res: Compiled, text: seq<byte>, caret: bool, ts: seq<Tok>, tail: seq<byte>,
                                           eof: byte, sed: bool, endbuf: nat, prog: seq<byte>)
    requires TokensValid(ts, true, eof) && Ends(tail, eof, sed) && text == PatternText(caret, ts) + tail
    requires Translates(res, text, eof, sed, endbuf, prog)
    ensures Yields(res, caret, ts, endbuf, prog) <==>
            Complete(AddAll(Empty, ts, endbuf), endbuf).Some? && AsMeant(caret, ts, eof)
  {
    SpelledStart(caret, ts, tail, eof, sed);
    SpelledParses(caret, ts, tail, eof, sed, endbuf);
  }

  /** The same for a text that holds nothing else and starts with something else than a caret. */
  lemma {:induction false} PlainCompiles(res: Compiled, ts: seq<Tok>, text: seq<byte>, sed: bool, endbuf: nat,
                                         prog: seq<byte>, b: Built)
    requires TokensValid(ts, true, 0) && ts != [] && ts[0] != TPlain(CARET) && text == SpellAll(ts)
    requires AddAll(Empty, ts, endbuf) == Some(b) && b.stack == [] && |Encode(b.items)| < endbuf
    requires Translates(res, text, 0, sed, endbuf, prog)
    ensures res == Program(|Encode(b.items)| + 1, false, b.nbra) && prog == Code(b.items)
  {
    WholeText(ts, text);
    SpelledCompiles(res, text, false, ts, [], 0, sed, endbuf, prog);
    YieldsMeans(res, ts, endbuf, prog, b);
  }

  lemma {:induction false} WholeText(ts: seq<Tok>, text: seq<byte>)
    requires text == SpellAll(ts)
    ensures text == PatternText(false, ts) + []
  {
  }

  lemma {:induction false} YieldsMeans(res: Compiled, ts: seq<Tok>, endbuf: nat, prog: seq<byte>, b: Built)
    requires AddAll(Empty, ts, endbuf) == Some(b) && Yields(res, false, ts, endbuf, prog)
    ensures res == Program(|Encode(b.items)| + 1, false, b.nbra) && prog == Code(b.items)
  {
  }

  /** A caret that was meant as a character: the text compiles to the anchor alone. */
  lemma CaretIsAnchor(res: Compiled, sed: bool, endbuf: nat, prog: seq<byte>)
    requires endbuf > 0 && Translates(res, PatternText(false, [TPlain(CARET)]), 0, sed, endbuf, prog)
    ensures TokensValid([TPlain(CARET)], true, 0)
    ensures res == Program(1, true, 0) && prog == [CCEOF] && !Yields(res, false, [TPlain(CARET)], endbuf, prog)
  {
    assert SpellAll([TPlain(CARET)]) == [CARET] by { assert [TPlain(CARET)][1..] == []; }
    assert PatternText(false, [TPlain(CARET)]) + [0] == [CARET, 0];
  }

  /** No tokens at all: no program is made, and the one compiled before stands. */
  lemma NothingCompiles(res: Compiled, sed: bool, endbuf: nat, prog: seq<byte>)
    requires Translates(res, PatternText(false, []), 0, sed, endbuf, prog)
    ensures TokensValid([], true, 0) && !res.Program? && !Yields(res, false, [], endbuf, prog)
  {
  }

  // ----- a dollar that is an anchor stands last -----

  predicate Unanchored(items: seq<Item>) { forall j :: 0 <= j < |items| ==> !items[j].core.Dol? }

  lemma AddAnchors(b: Built, t: Tok)
    requires Unanchored(b.items) && Add(b, t).Some?
    ensures if t.TDollar? then AnchorLast(Add(b, t).value.items) else Unanchored(Add(b, t).value.items)
  {
  }

  lemma {:induction false} AnchorsLast(ts: seq<Tok>, b: Built, first: bool, eof: byte, endbuf: nat)
    requires TokensValid(ts, first, eof) && Unanchored(b.items) && AddAll(b, ts, endbuf).Some?
    ensures AnchorLast(AddAll(b, ts, endbuf).value.items)
    decreases |ts|
  {
    if ts != [] {
      assert ts == [ts[0]] + ts[1..];
      TokensValidCons(ts[0], ts[1..], first, eof);
      AddAnchors(b, ts[0]);
      if !ts[0].TDollar? { AnchorsLast(ts[1..], Add(b, ts[0]).value, false, eof, endbuf); }
    }
  }

  // ----- from text to matches -----

  /** Any text that compiles is the spelling of tokens; its program decodes to their items,
      and can be run exactly when its intervals are well placed and its back-references name
      closed groups. */
  lemma {:induction false} CompiledRuns(res: Compiled, text: seq<byte>, eof: byte, sed: bool, endbuf: nat,
                                        prog: seq<byte>)
    returns (ts: seq<Tok>, items: seq<Item>)
    requires IsText(text) && res.Program? && Translates(res, text, eof, sed, endbuf, prog)
    ensures TokensValid(ts, true, eof) && Written(ts, text + [0], Lead(text + [0]), eof)
    ensures Yields(res, res.circf, ts, endbuf, prog) && items == AddAll(Empty, ts, endbuf).value.items
    ensures Holds(prog, 0, items) && AnchorLast(items)
    ensures ItemsOk(items) <==> IntervalsPlaced(ts, Start)
    ensures ItemsOk(items) ==> Decode(prog) == Some(items)
    ensures Guarded(items, {}, {}) <==> RefsClosed(ts, [], 0)
  {
    var src := text + [0];
    var p := if res.circf then 1 else 0;
    ts := ParseReads(src, p, Empty, eof, sed, endbuf);
    items := AddAll(Empty, ts, endbuf).value.items;
    IntervalsDecide(ts, Empty, eof, endbuf);
    RefsDecide(ts, Empty, endbuf);
    AnchorsLast(ts, Empty, true, eof, endbuf);
    if ItemsOk(items) { DecodeCode(items); }
    assert prog[0..] == prog;
  }

  /** The tokens the text from `p` on is cut into, up to a terminator or to what is no token. */
  function Cut(src: seq<byte>, p: nat, first: bool, eof: byte): seq<Tok>
    decreases |src| - p
  {
    if p >= |src| || Stops(src[p], eof) then []
    else
      LexAdvances(src, p, first, eof);
      match Lex(src, p, first, eof)
      case None => []
      case Some((t, q)) => [t] + Cut(src, q, false, eof)
  }

  lemma {:induction false} CutStep(src: seq<byte>, p: nat, first: bool, eof: byte, t: Tok, q: nat)
    requires p < |src| && !Stops(src[p], eof) && Lex(src, p, first, eof) == Some((t, q))
    ensures Cut(src, p, first, eof) == [t] + Cut(src, q, false, eof)
  {
    LexAdvances(src, p, first, eof);
  }

  lemma {:induction false} TailValid(t: Tok, rest: seq<Tok>, first: bool, eof: byte)
    requires TokensValid([t] + rest, first, eof)
    ensures TokensValid(rest, false, eof)
  {
    TokensValidCons(t, rest, first, eof);
  }

  lemma {:induction false} HeadLexed(ts: seq<Tok>, src: seq<byte>, p: nat, first: bool, eof: byte)
    requires ts != [] && TokensValid(ts, first, eof) && Written(ts, src, p, eof)
    ensures p < |src| && !Stops(src[p], eof) && Lex(src, p, first, eof) == Some((ts[0], p + |Spell(ts[0])|))
  {
    LexWritten(ts, src, p, first, eof);
  }

  lemma {:induction false} ReadingHead(ts: seq<Tok>, src: seq<byte>, p: nat, first: bool, eof: byte)
    returns (t: Tok, rest: seq<Tok>, q: nat)
    requires ts != [] && TokensValid(ts, first, eof) && Written(ts, src, p, eof)
    ensures ts == [t] + rest && p < |src| && !Stops(src[p], eof) && Lex(src, p, first, eof) == Some((t, q))
    ensures Written(rest, src, q, eof)
  {
    HeadLexed(ts, src, p, first, eof);
    t, rest, q := ts[0], ts[1..], p + |Spell(ts[0])|;
  }

  /** A text has no other reading: whatever tokens it spells are these. */
  lemma {:induction false} OneReading(ts: seq<Tok>, src: seq<byte>, p: nat, first: bool, eof: byte)
    requires TokensValid(ts, first, eof) && Written(ts, src, p, eof)
    ensures ts == Cut(src, p, first, eof)
    decreases |ts|
  {
    if ts != [] {
      var t, rest, q := ReadingHead(ts, src, p, first, eof);
      TailValid(t, rest, first, eof);
      OneReading(rest, src, q, false, eof);
      CutStep(src, p, first, eof, t, q);
    }
  }

  /** As the text is read, its intervals are well placed and its references name closed groups:
      what the matcher takes for granted. */
  predicate Runnable(text: seq<byte>, eof: byte) {
    var src := text + [0];
    var ts := Cut(src, Lead(src), true, eof);
    IntervalsPlaced(ts, Start) && RefsClosed(ts, [], 0)
  }

  /** The places where a match may start. */
  predicate MayStart(circf: bool, s: seq<byte>, q: nat) { q <= |s| && (circf ==> q == 0) }

  ghost predicate Occurring(items: seq<Item>, circf: bool, s: seq<byte>, caps: Caps)
    requires ItemsOk(items)
  {
    exists q: nat :: MayStart(circf, s, q) && Matches(items, s, q, caps)
  }

  /** The match that greedy choice from left to right gives at `p`, its end and its captures. */
  ghost predicate Greedy(items: seq<Item>, s: seq<byte>, p: nat, caps: Caps, end: int, caps': Caps)
    requires ItemsOk(items)
  {
    exists ks: seq<nat> ::
      && Accepts(items, s, p, caps, ks) && Foremost(items, s, p, caps, ks)
      && end == EndOf(items, s, p, caps, ks) && caps' == CapsOf(items, s, p, caps, ks)
  }

  lemma AcceptIsGreedy(items: seq<Item>, s: seq<byte>, p: nat, caps: Caps)
    requires ItemsOk(items) && p <= |s| && Search(items, s, p, caps).Accept?
    ensures var o := Search(items, s, p, caps); Greedy(items, s, p, caps, o.end, o.caps)
  {
    SearchSound(items, s, p, caps);
    var o := Search(items, s, p, caps);
    forall ks | Event(items, s, p, caps, ks) ensures NotAfter(o.ks, ks) { SearchGreatest(items, s, p, caps, ks); }
    assert Foremost(items, s, p, caps, o.ks);
  }

  /** The leftmost match in the subject, and there the greedy one, or none. */
  ghost predicate Leftmost(v: Verdict, items: seq<Item>, circf: bool, s: seq<byte>, caps: Caps, caps': Caps,
                           loc1: int, loc2: int)
    requires ItemsOk(items)
  {
    && !v.Looping?
    && (v.Found? <==> Occurring(items, circf, s, caps))
    && (v.Found? ==>
          && 0 <= loc1 <= |s| && MayStart(circf, s, loc1) && Greedy(items, s, loc1, caps, loc2, caps')
          && forall q: nat :: MayStart(circf, s, q) && Matches(items, s, q, caps) ==> loc1 <= q)
  }

  lemma AnchoredLeftmost(v: Verdict, items: seq<Item>, s: seq<byte>, caps: Caps, caps': Caps, loc2: int, loc2': int)
    requires ItemsOk(items) && Guarded(items, {}, {}) && Solid(items, {}, {}, {})
    requires Settled(v, Search(items, s, 0, caps), items, caps, caps', loc2, loc2')
    ensures Leftmost(v, items, true, s, caps, caps', 0, loc2')
  {
    SolidDecides(items, s, 0, caps);
    if v.Found? { AcceptIsGreedy(items, s, 0, caps); }
    assert MayStart(true, s, 0);
  }

  lemma FreeLeftmost(v: Verdict, items: seq<Item>, s: seq<byte>, caps: Caps, caps': Caps,
                     loc1: int, loc1': int, loc2: int, loc2': int)
    requires ItemsOk(items) && Guarded(items, {}, {}) && Solid(items, {}, {}, {})
    requires Located(v, items, s, caps, caps', loc1, loc1', loc2, loc2')
    ensures Leftmost(v, items, false, s, caps, caps', loc1', loc2')
  {
    StepDecides(v, items, s, caps, caps', loc1, loc1', loc2, loc2');
    assert forall q: nat :: MayStart(false, s, q) <==> q <= |s|;
    if v.Found? { AcceptIsGreedy(items, s, loc1', caps); }
  }

  /** `step` on a program that is known to be runnable. */
  method Look(m: Matcher, s: seq<byte>, prog: seq<byte>, circf: bool, ghost items: seq<Item>) returns (v: Verdict)
    requires m.Ready() && IsText(s) && Holds(prog, 0, items) && ItemsOk(items) && Guarded(items, {}, {})
    modifies m, m.braslist, m.braelist
    ensures Solid(items, {}, {}, {}) ==> Leftmost(v, items, circf, s, old(m.Now()), m.Now(), m.loc1, m.loc2)
  {
    v := m.Step(s, prog, circf, items);
    if Solid(items, {}, {}, {}) {
      if circf {
        AnchoredLeftmost(v, items, s, old(m.Now()), m.Now(), old(m.loc2), m.loc2);
      } else {
        FreeLeftmost(v, items, s, old(m.Now()), m.Now(), old(m.loc1), m.loc1, old(m.loc2), m.loc2);
      }
    }
  }

  /** `prog` is the program of the tokens `ts` that `text` spells, and it decodes to `items`. */
  ghost predicate Read(res: Compiled, text: seq<byte>, eof: byte, endbuf: nat, prog: seq<byte>,
                       ts: seq<Tok>, items: seq<Item>)
    requires res.Program?
  {
    && TokensValid(ts, true, eof) && Written(ts, text + [0], Lead(text + [0]), eof)
    && Yields(res, res.circf, ts, endbuf, prog)
    && ItemsOk(items) && Decode(prog) == Some(items) && Guarded(items, {}, {})
    && (AlwaysReturns(items) <==> Solid(items, {}, {}, {}))
  }

  lemma RunnableRead(res: Compiled, text: seq<byte>, eof: byte, sed: bool, endbuf: nat, prog: seq<byte>)
    returns (ts: seq<Tok>, items: seq<Item>)
    requires IsText(text) && res.Program? && Translates(res, text, eof, sed, endbuf, prog) && Runnable(text, eof)
    ensures Read(res, text, eof, endbuf, prog, ts, items) && Holds(prog, 0, items)
  {
    ts, items := CompiledRuns(res, text, eof, sed, endbuf, prog);
    OneReading(ts, text + [0], Lead(text + [0]), true, eof);
    ReturnsIffSolid(items);
  }

  /** What a program such as grep does with a pattern: compile the text, then look for it in
      a subject.  The bytes of the program decode to the items of the text's tokens, and the
      leftmost match of those items is found if there is one. */
  method CompileAndStep(text: seq<byte>, buf: array<byte>, endbuf: nat, eof: byte, sed: bool,
                        m: Matcher, s: seq<byte>)
    returns (res: Compiled, v: Verdict, ghost prog: seq<byte>, ghost ts: seq<Tok>, ghost items: seq<Item>)
    requires IsText(text) && endbuf < buf.Length && m.Ready() && IsText(s) && Runnable(text, eof)
    requires {buf as object} !! {m, m.braslist, m.braelist}
    modifies buf, m, m.braslist, m.braelist
    ensures Translates(res, text, eof, sed, endbuf, prog)
    ensures res.Program? ==> res.len <= buf.Length && buf[..res.len] == prog
    ensures res.Program? ==> Read(res, text, eof, endbuf, prog, ts, items)
    ensures res.Program? && AlwaysReturns(items) ==>
              Leftmost(v, items, res.circf, s, old(m.Now()), m.Now(), m.loc1, m.loc2)
  {
    v, prog, ts, items := Absent, [], [], [];
    res := Compile(text, buf, endbuf, eof, sed);
    if !res.Program? { return; }
    var code := buf[..res.len];
    ts, items := RunnableRead(res, text, eof, sed, endbuf, code);
    v := Look(m, s, code, res.circf, items);
    prog := code;
  }

  // ----- a reference to a group that is still open -----

  /** Tokens that each append one item append their items in order. */
  lemma {:induction false} AddAllChain(b: Built, ts: seq<Tok>, t: Tok, b1: Built, b2: Built, endbuf: nat)
    requires AddAll(b, ts, endbuf) == Some(b1) && Room(b1, t, endbuf) && Add(b1, t) == Some(b2)
    ensures AddAll(b, ts + [t], endbuf) == Some(b2)
    decreases |ts|
  {
    if ts == [] {
      assert ts + [t] == [t] && [t][1..] == [];
    } else {
      assert (ts + [t])[1..] == ts[1..] + [t];
      AddAllChain(Add(b, ts[0]).value, ts[1..], t, b1, b2, endbuf);
    }
  }

  /** One more token whose item takes two bytes. */
  lemma {:induction false} ChainPair(ts: seq<Tok>, t: Tok, b1: Built, core: Core, endbuf: nat) returns (b2: Built)
    requires AddAll(Empty, ts, endbuf) == Some(b1) && Add(b1, t).Some? && !t.TBracket?
    requires Add(b1, t).value.items == b1.items + [Plain(core)] && |Payload(core)| == 1 && |Encode(b1.items)| < endbuf
    ensures b2 == Add(b1, t).value && AddAll(Empty, ts + [t], endbuf) == Some(b2)
    ensures |Encode(b2.items)| == |Encode(b1.items)| + 2
  {
    b2 := Add(b1, t).value;
    EncodeOne(b1.items, Plain(core));
    AddAllChain(Empty, ts, t, b1, b2, endbuf);
  }

  /** The items of `\(\(a\)\1\)`. */
  const Nested: seq<Item> :=
    [Plain(Bra(0)), Plain(Bra(1)), Plain(Chr(97)), Plain(Ket(1)), Plain(Back(0)), Plain(Ket(0))]

  lemma NestedUnguarded()
    ensures ItemsOk(Nested) && !Guarded(Nested, {}, {})
  {
    var i1, i2, i3, i4 := Nested[1..], Nested[2..], Nested[3..], Nested[4..];
    assert i1[1..] == i2 && i2[1..] == i3 && i3[1..] == i4;
    assert !Guarded(i4, {0, 1}, {1});
    assert {} + {1} == {1};
    assert !Guarded(i3, {0, 1}, {});
    assert !Guarded(i2, {0, 1}, {});
    assert {0} + {1} == {0, 1};
    assert !Guarded(i1, {0}, {});
    assert {} + {0} == {0};
  }

  function NestedTokens(): seq<Tok> { [TOpen] + [TOpen] + [TPlain(97)] + [TClose] + [TBack(49)] + [TClose] }

  /** `\(\(a\)\1\)` */
  const NestedText: seq<byte> := [92, 40, 92, 40, 97, 92, 41, 92, 49, 92, 41]

  lemma SpellMore(t: Tok, rest: seq<Tok>, w: seq<byte>, first: bool)
    requires TokensValid(rest, false, 0) && SpellAll(rest) == w && TokFits(t, first, rest == [], 0)
    ensures TokensValid([t] + rest, first, 0) && SpellAll([t] + rest) == Spell(t) + w
  {
    assert ([t] + rest)[1..] == rest;
    TokensValidCons(t, rest, first, 0);
  }

  lemma {:induction false} NestedSpelled()
    ensures TokensValid(NestedTokens(), true, 0) && SpellAll(NestedTokens()) == NestedText
  {
    var rest := ClosedAgain();
    SpellMore(TPlain(97), rest, [92, 41, 92, 49, 92, 41], false);
    var a := [TPlain(97)] + rest;
    SpellMore(TOpen, a, [97, 92, 41, 92, 49, 92, 41], false);
    SpellMore(TOpen, [TOpen] + a, [92, 40, 97, 92, 41, 92, 49, 92, 41], true);
    assert NestedTokens() == [TOpen] + ([TOpen] + a);
  }

  /** `\)\1\)` */
  lemma {:induction false} ClosedAgain() returns (ts: seq<Tok>)
    ensures ts == [TClose, TBack(49), TClose] && TokensValid(ts, false, 0) && SpellAll(ts) == [92, 41, 92, 49, 92, 41]
  {
    var none: seq<Tok> := [];
    SpellMore(TClose, none, [], false);
    SpellMore(TBack(49), [TClose] + none, [92, 41], false);
    SpellMore(TClose, [TBack(49)] + ([TClose] + none), [92, 49, 92, 41], false);
    ts := [TClose] + ([TBack(49)] + ([TClose] + none));
  }

  lemma {:induction false} NestedBuilt(endbuf: nat) returns (b: Built)
    requires endbuf > 12
    ensures AddAll(Empty, NestedTokens(), endbuf) == Some(b) && b.items == Nested && b.stack == [] && b.nbra == 2
    ensures |Encode(b.items)| == 12
  {
    assert [] + [TOpen] == [TOpen];
    var b1 := ChainPair([], TOpen, Empty, Bra(0), endbuf);
    var b2 := ChainPair([TOpen], TOpen, b1, Bra(1), endbuf);
    assert b2.stack == [0, 1] && b2.items == [Plain(Bra(0)), Plain(Bra(1))];
    var b3 := ChainPair([TOpen] + [TOpen], TPlain(97), b2, Chr(97), endbuf);
    b := NestedRest([TOpen] + [TOpen] + [TPlain(97)], b3, endbuf);
  }

  lemma {:induction false} NestedRest(ts: seq<Tok>, b3: Built, endbuf: nat) returns (b: Built)
    requires b3.items == [Plain(Bra(0)), Plain(Bra(1)), Plain(Chr(97))] && b3.stack == [0, 1] && b3.closed == 0
    requires endbuf > 12 && AddAll(Empty, ts, endbuf) == Some(b3) && |Encode(b3.items)| == 6 && b3.nbra == 2
    ensures AddAll(Empty, ts + [TClose] + [TBack(49)] + [TClose], endbuf) == Some(b)
    ensures b.items == Nested && b.stack == [] && b.nbra == 2 && |Encode(b.items)| == 12
  {
    var b4 := ChainPair(ts, TClose, b3, Ket(1), endbuf);
    assert b4.stack == [0] && b4.closed == 1;
    var b5 := ChainPair(ts + [TClose], TBack(49), b4, Back(0), endbuf);
    b := ChainPair(ts + [TClose] + [TBack(49)], TClose, b5, Ket(0), endbuf);
    assert b.items == b3.items + [Plain(Ket(1))] + [Plain(Back(0))] + [Plain(Ket(0))];
  }

  /** The text `\(\(a\)\1\)` compiles, though its reference names the outer group, which is
      open where the reference stands. */
  lemma NestedReference(res: Compiled, sed: bool, endbuf: nat, prog: seq<byte>)
    requires endbuf > 12 && Translates(res, NestedText, 0, sed, endbuf, prog)
    ensures res == Program(13, false, 2) && prog == Code(Nested)
    ensures ItemsOk(Nested) && !Guarded(Nested, {}, {})
  {
    NestedUnguarded();
    NestedSpelled();
    var b := NestedBuilt(endbuf);
    PlainCompiles(res, NestedTokens(), NestedText, sed, endbuf, prog, b);
  }

  /** The marks as they are where the reference of `Nested` stands, on the subject `a`. */
  function AtReference(caps: Caps): Caps {
    Marked(Nested[3], 1, Marked(Nested[1], 0, Marked(Nested[0], 0, caps)))
  }

  lemma {:induction false} NestedReaches(s: seq<byte>, caps: Caps, rest: seq<Item>)
    requires s == [97] && rest == Nested[4..]
    ensures ItemsOk(Nested) && ItemsOk(rest)
    ensures Search(Nested, s, 0, caps).Accept? <==> Search(rest, s, 1, AtReference(caps)).Accept?
    ensures Search(Nested, s, 0, caps).Reject? <==> Search(rest, s, 1, AtReference(caps)).Reject?
  {
    NestedUnguarded();
    var i1, i2, i3 := Nested[1..], Nested[2..], Nested[3..];
    assert i1[1..] == i2 && i2[1..] == i3 && i3[1..] == rest;
    var c1 := Marked(Nested[0], 0, caps);
    var c2 := Marked(i1[0], 0, c1);
    Forced(Nested, s, 0, caps);
    Forced(i1, s, 0, c1);
    Forced(i2, s, 0, c2);
    Forced(i3, s, 1, c2);
  }

  /** Such a reference reads what an earlier call left behind: whether the pattern matches the
      subject `a` depends on it. */
  lemma {:induction false} NestedReadsStale(s: seq<byte>, caps: Caps)
    requires s == [97]
    ensures ItemsOk(Nested)
    ensures caps.e[0] == 0 ==> Search(Nested, s, 0, caps).Accept?
    ensures caps.e[0] == 1 ==> Search(Nested, s, 0, caps).Reject?
  {
    var rest := Nested[4..];
    var last := rest[1..];
    assert last == [Plain(Ket(0))] && last[1..] == [];
    NestedReaches(s, caps, rest);
    var c := AtReference(caps);
    assert c.b[0] == 0 && c.e[0] == caps.e[0];
    Forced(rest, s, 1, c);
    if caps.e[0] == 0 {
      assert Word(s, c, 0) == [] && CanTake(rest[0], s, 1, c, 1);
      Forced(last, s, 1, c);
    } else if caps.e[0] == 1 {
      assert |Word(s, c, 0)| == 1;
    }
  }

  // ----- an interval on a group -----

  /** The items of `\(a\)\{2\}`. */
  const Misplaced: seq<Item> := [Plain(Bra(0)), Plain(Chr(97)), Item(Ket(0), false, [(2, 2)])]

  function MisplacedTokens(): seq<Tok> { [TOpen] + [TPlain(97)] + [TClose] + [TInterval([50], Exact)] }

  /** `\(a\)\{2\}` */
  const MisplacedText: seq<byte> := [92, 40, 97, 92, 41, 92, 123, 50, 92, 125]

  lemma {:induction false} MisplacedSpelled()
    ensures TokensValid(MisplacedTokens(), true, 0) && SpellAll(MisplacedTokens()) == MisplacedText
  {
    var none: seq<Tok>, iv := [], TInterval([50], Exact);
    SpellMore(iv, none, [], false);
    SpellMore(TClose, [iv] + none, [92, 123, 50, 92, 125], false);
    var a := [TClose] + ([iv] + none);
    SpellMore(TPlain(97), a, [92, 41, 92, 123, 50, 92, 125], false);
    SpellMore(TOpen, [TPlain(97)] + a, [97, 92, 41, 92, 123, 50, 92, 125], true);
    assert MisplacedTokens() == [TOpen] + ([TPlain(97)] + a);
  }

  /** One more token that puts the interval `iv` on the last item. */
  lemma {:induction false} ChainInterval(ts: seq<Tok>, t: Tok, b1: Built, iv: (byte, byte), endbuf: nat)
    returns (b2: Built)
    requires AddAll(Empty, ts, endbuf) == Some(b1) && |Encode(b1.items)| < endbuf && b1.items != []
    requires t.TInterval? && Interval(t.ds, t.tail) == Some(iv)
    ensures b2 == SetLast(b1, Last(b1).(star := false, ivs := Last(b1).ivs + [iv]))
    ensures AddAll(Empty, ts + [t], endbuf) == Some(b2) && |Encode(b2.items)| == |Encode(b1.items)| + 2
  {
    b2 := Add(b1, t).value;
    IntervalGrows(b1, iv);
    AddAllChain(Empty, ts, t, b1, b2, endbuf);
  }

  lemma {:induction false} MisplacedBuilt(endbuf: nat) returns (b: Built)
    requires endbuf > 8
    ensures AddAll(Empty, MisplacedTokens(), endbuf) == Some(b) && b.items == Misplaced && b.stack == [] && b.nbra == 1
    ensures |Encode(b.items)| == 8
  {
    var front, ket := [Plain(Bra(0)), Plain(Chr(97))], Plain(Ket(0));
    var b3 := GroupBuilt(endbuf, front, ket);
    IntervalPushed(b3, front, ket, (2, 2));
    b := ChainInterval([TOpen] + [TPlain(97)] + [TClose], TInterval([50], Exact), b3, (2, 2), endbuf);
  }

  lemma {:induction false} GroupBuilt(endbuf: nat, front: seq<Item>, ket: Item) returns (b3: Built)
    requires endbuf > 8 && front == [Plain(Bra(0)), Plain(Chr(97))] && ket == Plain(Ket(0))
    ensures AddAll(Empty, [TOpen] + [TPlain(97)] + [TClose], endbuf) == Some(b3) && b3.items == front + [ket]
    ensures b3.stack == [] && b3.nbra == 1 && |Encode(b3.items)| == 6
  {
    assert [] + [TOpen] == [TOpen];
    var b1 := ChainPair([], TOpen, Empty, Bra(0), endbuf);
    assert b1.stack == [0] && b1.items == [Plain(Bra(0))];
    var b2 := ChainPair([TOpen], TPlain(97), b1, Chr(97), endbuf);
    assert b2.items == front;
    ClosePushed(b2, ket);
    b3 := ChainPair([TOpen] + [TPlain(97)], TClose, b2, Ket(0), endbuf);
  }

  lemma {:induction false} ClosePushed(b: Built, ket: Item)
    requires b.stack == [0] && ket == Plain(Ket(0))
    ensures Add(b, TClose) == Some(Built(b.items + [ket], [], b.closed + 1, b.nbra)) && |Payload(ket.core)| == 1
  {
  }

  lemma {:induction false} IntervalPushed(b: Built, front: seq<Item>, it: Item, iv: (byte, byte))
    requires b.items == front + [it] && it.ivs == []
    ensures Last(b) == it && Interval([50], Exact) == Some((2, 2))
    ensures SetLast(b, it.(star := false, ivs := it.ivs + [iv])).items == front + [it.(star := false, ivs := [iv])]
  {
    assert Value([50]) == 2 by { assert [50][..0] == []; }
    assert b.items[..|b.items| - 1] == front && [] + [iv] == [iv];
  }

  /** The text `\(a\)\{2\}` compiles, though `advance` has no case for its last item. */
  lemma MisplacedInterval(res: Compiled, sed: bool, endbuf: nat, prog: seq<byte>)
    requires endbuf > 8 && Translates(res, MisplacedText, 0, sed, endbuf, prog)
    ensures res == Program(9, false, 1) && prog == Code(Misplaced) && !ItemsOk(Misplaced)
  {
    MisplacedSpelled();
    var b := MisplacedBuilt(endbuf);
    PlainCompiles(res, MisplacedTokens(), MisplacedText, sed, endbuf, prog, b);
    assert !ItemOk(Misplaced[2]);
  }

  // ----- a starred reference to an empty capture -----

  /** The items of `\(a*\)\1*`. */
  const Spinning: seq<Item> :=
    [Plain(Bra(0)), Item(Chr(97), true, []), Plain(Ket(0)), Item(Back(0), true, [])]

  lemma StarredNeedsFull(items: seq<Item>, begun: set<slot>, grown: set<slot>, full: set<slot>)
    requires ItemsOk(items) && items != [] && items[0].core.Back? && items[0].star && items[0].core.slot !in full
    ensures !Solid(items, begun, grown, full)
  {
  }

  lemma SpinningChecks()
    ensures ItemsOk(Spinning) && Guarded(Spinning, {}, {}) && !Solid(Spinning, {}, {}, {})
  {
    var i1, i2, i3 := Spinning[1..], Spinning[2..], Spinning[3..];
    assert i1[1..] == i2 && i2[1..] == i3 && i3[1..] == [];
    var none: set<slot>, one: set<slot> := {}, {0};
    assert none + one == one && none - one == none;
    assert i1[0] == Item(Chr(97), true, []) && i2[0] == Plain(Ket(0)) && i3[0] == Item(Back(0), true, []);
    StarredNeedsFull(i3, one, none, none);
    assert Guarded(i3, one, one);
    assert Guarded(i2, one, none) && !Solid(i2, one, none, none);
    assert Guarded(i1, one, none) && !Solid(i1, one, none, none);
  }

  lemma {:induction false} StarSize(b: Built)
    requires b.items != [] && Last(b).ivs == []
    ensures |Encode(SetLast(b, Last(b).(star := true)).items)| == |Encode(b.items)|
  {
    var init, it := b.items[..|b.items| - 1], Last(b);
    assert b.items == init + [it];
    EncodeOne(init, it);
    EncodeOne(init, it.(star := true));
  }

  /** One more token that stars the last item. */
  lemma {:induction false} ChainStar(ts: seq<Tok>, b1: Built, endbuf: nat) returns (b2: Built)
    requires AddAll(Empty, ts, endbuf) == Some(b1) && |Encode(b1.items)| < endbuf
    requires !StarIsPlain(b1) && Last(b1).ivs == []
    ensures b2 == SetLast(b1, Last(b1).(star := true)) && AddAll(Empty, ts + [TStar], endbuf) == Some(b2)
    ensures |Encode(b2.items)| == |Encode(b1.items)|
  {
    b2 := Add(b1, TStar).value;
    StarSize(b1);
    AddAllChain(Empty, ts, TStar, b1, b2, endbuf);
  }

  function SpinningTokens(): seq<Tok> { [TOpen] + [TPlain(97)] + [TStar] + [TClose] + [TBack(49)] + [TStar] }

  /** `\(a*\)\1*` */
  const SpinningText: seq<byte> := [92, 40, 97, 42, 92, 41, 92, 49, 42]

  lemma {:induction false} SpinningSpelled()
    ensures TokensValid(SpinningTokens(), true, 0) && SpellAll(SpinningTokens()) == SpinningText
  {
    var rest := ClosedStarred();
    SpellMore(TStar, rest, [92, 41, 92, 49, 42], false);
    var a := [TStar] + rest;
    SpellMore(TPlain(97), a, [42, 92, 41, 92, 49, 42], false);
    SpellMore(TOpen, [TPlain(97)] + a, [97, 42, 92, 41, 92, 49, 42], true);
    assert SpinningTokens() == [TOpen] + ([TPlain(97)] + a);
  }

  /** `\)\1*` */
  lemma {:induction false} ClosedStarred() returns (ts: seq<Tok>)
    ensures ts == [TClose, TBack(49), TStar] && TokensValid(ts, false, 0) && SpellAll(ts) == [92, 41, 92, 49, 42]
  {
    var none: seq<Tok> := [];
    SpellMore(TStar, none, [], false);
    SpellMore(TBack(49), [TStar] + none, [42], false);
    SpellMore(TClose, [TBack(49)] + ([TStar] + none), [92, 49, 42], false);
    ts := [TClose] + ([TBack(49)] + ([TStar] + none));
  }

  lemma {:induction false} SpinningBuilt(endbuf: nat) returns (b: Built)
    requires endbuf > 8
    ensures AddAll(Empty, SpinningTokens(), endbuf) == Some(b) && b.items == Spinning && b.stack == [] && b.nbra == 1
    ensures |Encode(b.items)| == 8
  {
    assert [] + [TOpen] == [TOpen];
    var b1 := ChainPair([], TOpen, Empty, Bra(0), endbuf);
    assert b1.stack == [0] && b1.items == [Plain(Bra(0))];
    var b2 := ChainPair([TOpen], TPlain(97), b1, Chr(97), endbuf);
    var b3 := ChainStar([TOpen] + [TPlain(97)], b2, endbuf);
    assert b3.items == [Plain(Bra(0)), Item(Chr(97), true, [])];
    b := SpinningRest([TOpen] + [TPlain(97)] + [TStar], b3, endbuf);
  }

  lemma {:induction false} SpinningRest(ts: seq<Tok>, b3: Built, endbuf: nat) returns (b: Built)
    requires b3.items == [Plain(Bra(0)), Item(Chr(97), true, [])] && b3.stack == [0] && b3.closed == 0 && b3.nbra == 1
    requires endbuf > 8 && AddAll(Empty, ts, endbuf) == Some(b3) && |Encode(b3.items)| == 4
    ensures AddAll(Empty, ts + [TClose] + [TBack(49)] + [TStar], endbuf) == Some(b)
    ensures b.items == Spinning && b.stack == [] && b.nbra == 1 && |Encode(b.items)| == 8
  {
    var b4 := ChainPair(ts, TClose, b3, Ket(0), endbuf);
    var back := Plain(Back(0));
    b := SpinningEnd(ts + [TClose], b4, endbuf, back);
    assert b.items == b3.items + [Plain(Ket(0))] + [back.(star := true)];
  }

  lemma {:induction false} SpinningEnd(ts: seq<Tok>, b4: Built, endbuf: nat, back: Item) returns (b: Built)
    requires b4.closed == 1 && b4.stack == [] && b4.nbra == 1 && back == Plain(Back(0))
    requires endbuf > 8 && AddAll(Empty, ts, endbuf) == Some(b4) && |Encode(b4.items)| == 6
    ensures AddAll(Empty, ts + [TBack(49)] + [TStar], endbuf) == Some(b)
    ensures b.items == b4.items + [back.(star := true)] && b.stack == [] && b.nbra == 1 && |Encode(b.items)| == 8
  {
    BackPushed(b4, back);
    var b5 := ChainPair(ts, TBack(49), b4, back.core, endbuf);
    StarPushed(b4, b5, back);
    b := ChainStar(ts + [TBack(49)], b5, endbuf);
  }

  lemma {:induction false} BackPushed(b4: Built, back: Item)
    requires b4.closed == 1 && back == Plain(Back(0))
    ensures Add(b4, TBack(49)) == Some(Push(b4, back.core)) && |Payload(back.core)| == 1
  {
  }

  lemma {:induction false} StarPushed(b4: Built, b5: Built, back: Item)
    requires b5.items == b4.items + [back] && back.core.Back?
    ensures !StarIsPlain(b5) && Last(b5) == back
    ensures SetLast(b5, back.(star := true)).items == b4.items + [back.(star := true)]
  {
  }

  /** The text `\(a*\)\1*` compiles to a program that can be run, but does not pass the check. */
  lemma SpinningCompiles(res: Compiled, sed: bool, endbuf: nat, prog: seq<byte>)
    requires endbuf > 8 && Translates(res, SpinningText, 0, sed, endbuf, prog)
    ensures res == Program(9, false, 1) && prog == Code(Spinning)
    ensures ItemsOk(Spinning) && Guarded(Spinning, {}, {}) && !Solid(Spinning, {}, {}, {})
  {
    SpinningChecks();
    SpinningSpelled();
    var b := SpinningBuilt(endbuf);
    PlainCompiles(res, SpinningTokens(), SpinningText, sed, endbuf, prog, b);
  }

  /** Of that text: the matcher never returns from exactly the places where the letter does not
      stand. */
  lemma EmptyCaptureLoops(res: Compiled, sed: bool, endbuf: nat, prog: seq<byte>, s: seq<byte>, p: nat, caps: Caps)
    requires endbuf > 8 && Translates(res, SpinningText, 0, sed, endbuf, prog) && p <= |s|
    ensures res.Program? && Holds(prog, 0, Spinning) && ItemsOk(Spinning)
    ensures Search(Spinning, s, p, caps).Hang? <==> p == |s| || s[p] != 97
  {
    SpinningCompiles(res, sed, endbuf, prog);
    assert prog[0..] == prog;
    if p == |s| || s[p] != 97 { SpinningLoops(s, p, caps); } else { SpinningMatches(s, p, caps); }
  }

  lemma SpinningLoops(s: seq<byte>, p: nat, caps: Caps)
    requires p <= |s| && (p < |s| ==> s[p] != 97)
    ensures ItemsOk(Spinning) && Search(Spinning, s, p, caps).Hang?
  {
    SpinningChecks();
    var i1, i2, i3 := Spinning[1..], Spinning[2..], Spinning[3..];
    assert i1[1..] == i2 && i2[1..] == i3 && i3[1..] == [];
    var c1 := Marked(Spinning[0], p, caps);
    var c3 := Marked(i2[0], p, c1);
    assert Stuck(i3[0], s, c3);
    assert Search(i3, s, p, c3) == Hang([]);
    Forced(i2, s, p, c1);
    assert Search(i2, s, p, c1).Hang?;
    assert Most(i1[0], s, p, c1) == 0;
    assert Try(i1, s, p, c1, 0).Hang?;
    Forced(Spinning, s, p, caps);
  }

  lemma SpinningMatches(s: seq<byte>, p: nat, caps: Caps)
    requires p < |s| && s[p] == 97
    ensures ItemsOk(Spinning) && Search(Spinning, s, p, caps).Accept?
  {
    SpinningChecks();
    var i1, i2, i3 := Spinning[1..], Spinning[2..], Spinning[3..];
    assert i1[1..] == i2 && i2[1..] == i3 && i3[1..] == [];
    var c1 := Marked(Spinning[0], p, caps);
    var k := Run(i1[0].core, s, p);
    var q := p + k;
    var c3 := Marked(i2[0], q, c1);
    var w := Word(s, c3, 0);
    assert k > 0 && w == s[p..q] && |w| == k;
    assert !Stuck(i3[0], s, c3);
    var n := WordRun(w, s, q);
    TakeRange(i3[0], s, q, c3, n);
    assert Search([], s, After(i3[0], s, q, c3, n), c3).Accept?;
    assert Try(i3, s, q, c3, n).Accept?;
    Forced(i2, s, q, c1);
    TakeRange(i1[0], s, p, c1, k);
    assert Try(i1, s, p, c1, k).Accept?;
    Forced(Spinning, s, p, caps);
  }
}
