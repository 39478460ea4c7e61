/** The one byte that `compile` of usr/src/head/regexp.h stores behind the buffer it was given.

    The check at the head of its loop leaves room for one byte, and most items have two: an
    item that starts on the last byte of the buffer puts its second byte at `endbuf`. */
module RegexSpill {
  import opened Bytes
  import opened RegexProgram
  import opened Wrappers
  import opened RegexText
  import opened RegexNumbers
  import opened RegexBuild

  /** The second byte of an interval.  It is stored before what follows it is looked at, so
      that a malformed interval may store one too. */
  function IntervalSecond(src: seq<byte>, p: nat): Option<byte> {
    match LexDigits(src, p)
    case None => None
    case Some((ds, q)) =>
      if Value(ds) >= 255 || q + 1 >= |src| then None
      else if src[q] == BACKSLASH then if src[q + 1] == RBRACE then Some(Value(ds)) else None
      else if src[q + 1] == BACKSLASH then Some(255)
      else match LexDigits(src, q + 1)
        case None => None
        case Some((ds', _)) => if Value(ds') >= 255 then None else Some(Value(ds'))
  }

  /** The second byte stored for the backslash at `p`; `first`: there is no item yet. */
  function EscapeSecond(src: seq<byte>, p: nat, first: bool, stack: seq<slot>, closed: nat, nbra: nat): Option<byte> {
    if p + 1 >= |src| || src[p + 1] == NL then None
    else
      var c := src[p + 1];
      if c == OPEN then if nbra >= 9 then None else Some(nbra)
      else if c == CLOSE then if stack == [] then None else Some(stack[|stack| - 1])
      else if c == LBRACE && !first then IntervalSecond(src, p + 2)
      else if 49 <= c <= 57 then if c - 49 >= closed then None else Some(c - 49)
      else Some(if c == LETTER_N then NL else c)
  }

  /** The second byte that the token at `p` stores, if it stores two and no bitmap;
      `plain`: a star would stand for itself. */
  function Second(src: seq<byte>, p: nat, eof: byte, plain: bool, first: bool, stack: seq<slot>,
                  closed: nat, nbra: nat): Option<byte>
    requires p < |src|
  {
    var c := src[p];
    if c == DOT || c == LBRACKET then None
    else if c == STAR then if plain then Some(c) else None
    else if c == DOLLAR then if p + 1 < |src| && !Stops(src[p + 1], eof) then Some(c) else None
    else if c == BACKSLASH then EscapeSecond(src, p, first, stack, closed, nbra)
    else Some(c)
  }

  function SecondAt(src: seq<byte>, p: nat, b: Built, eof: byte): Option<byte>
    requires p < |src|
  {
    Second(src, p, eof, StarIsPlain(b), b.items == [], b.stack, b.closed, b.nbra)
  }

  /** One token of text: the new state and where the text goes on. */
  function NextBuilt(src: seq<byte>, p: nat, b: Built, endbuf: nat, eof: byte): Option<(Built, nat)>
    requires p < |src|
  {
    match Lex(src, p, b.items == [], eof)
    case None => None
    case Some((t, q)) => if Room(b, t, endbuf) && Add(b, t).Some? then Some((Add(b, t).value, q)) else None
  }

  /** The state is one byte short of the end of the buffer. */
  predicate Brim(b: Built, endbuf: nat) { |Encode(b.items)| + 1 == endbuf }

  /** What the text from `p` on stores at `endbuf`. */
  function SpillFrom(src: seq<byte>, p: nat, b: Built, eof: byte, endbuf: nat): Option<byte>
    decreases |src| - p
  {
    if |Encode(b.items)| >= endbuf || p >= |src| || Stops(src[p], eof) then None
    else if Brim(b, endbuf) && SecondAt(src, p, b, eof).Some? then SecondAt(src, p, b, eof)
    else
      LexAdvances(src, p, b.items == [], eof);
      match NextBuilt(src, p, b, endbuf, eof)
      case None => None
      case Some((b', q)) => SpillFrom(src, q, b', eof, endbuf)
  }

  /** Where the tokens start: behind a caret, which makes the pattern an anchored one. */
  function Lead(src: seq<byte>): nat { if src != [] && src[0] == CARET then 1 else 0 }

  /** What `compile` of `text` stores at `endbuf`. */
  function Spill(text: seq<byte>, eof: byte, endbuf: nat): Option<byte> {
    var src := text + [0];
    if Stops(src[0], eof) then None else SpillFrom(src, Lead(src), Empty, eof, endbuf)
  }

  // ----- a spill is always an error -----

  lemma PushGrows(b: Built, core: Core, more: nat)
    requires |Payload(core)| == more
    ensures |Encode(Push(b, core).items)| == |Encode(b.items)| + 1 + more
  {
    EncodeOne(b.items, Plain(core));
  }

  lemma IntervalGrows(b: Built, iv: (byte, byte))
    requires b.items != []
    ensures |Encode(SetLast(b, Last(b).(star := false, ivs := Last(b).ivs + [iv])).items)| == |Encode(b.items)| + 2
  {
    var init, it := b.items[..|b.items| - 1], Last(b);
    assert b.items == init + [it];
    EncodeOne(init, it);
    EncodeOne(init, it.(star := false, ivs := it.ivs + [iv]));
    IntervalBytesAppend(it.ivs, iv);
  }

  lemma SecondGrows(src: seq<byte>, p: nat, b: Built, eof: byte, endbuf: nat)
    requires p < |src| && SecondAt(src, p, b, eof).Some? && NextBuilt(src, p, b, endbuf, eof).Some?
    ensures |Encode(NextBuilt(src, p, b, endbuf, eof).value.0.items)| == |Encode(b.items)| + 2
  {
    var t := Lex(src, p, b.items == [], eof).value.0;
    if t.TInterval? {
      IntervalGrows(b, Interval(t.ds, t.tail).value);
    } else {
      SecondPushes(src, p, b, eof, t);
      PairGrows(b, t);
    }
  }

  lemma SecondPushes(src: seq<byte>, p: nat, b: Built, eof: byte, t: Tok)
    requires p < |src| && SecondAt(src, p, b, eof).Some?
    requires Lex(src, p, b.items == [], eof).Some? && t == Lex(src, p, b.items == [], eof).value.0
    ensures !t.TDot? && !t.TDollar? && !t.TBracket? && (t.TStar? ==> StarIsPlain(b))
  {
  }

  lemma PairGrows(b: Built, t: Tok)
    requires !t.TDot? && !t.TDollar? && !t.TBracket? && !t.TInterval? && (t.TStar? ==> StarIsPlain(b))
    requires Add(b, t).Some?
    ensures |Encode(Add(b, t).value.items)| == |Encode(b.items)| + 2
  {
    var b' := Add(b, t).value;
    var core := b'.items[|b.items|].core;
    assert b'.items == Push(b, core).items;
    PushGrows(b, core, 1);
  }

  lemma {:induction false} SpillFails(src: seq<byte>, p: nat, b: Built, eof: byte, sed: bool, endbuf: nat)
    requires SpillFrom(src, p, b, eof, endbuf).Some?
    ensures Parse(src, p, b, eof, sed, endbuf).None?
    decreases |src| - p
  {
    LexAdvances(src, p, b.items == [], eof);
    var next := NextBuilt(src, p, b, endbuf, eof);
    if next.Some? {
      if Brim(b, endbuf) && SecondAt(src, p, b, eof).Some? {
        SecondGrows(src, p, b, eof, endbuf);
      } else {
        SpillFails(src, next.value.1, next.value.0, eof, sed, endbuf);
      }
    }
  }

  // ----- when there is one -----

  /** Cutting the text at `p` into tokens gives `ts` and comes to `q`. */
  predicate Reads(src: seq<byte>, p: nat, first: bool, eof: byte, ts: seq<Tok>, q: nat)
    decreases |ts|
  {
    if ts == [] then p == q
    else
      && p < |src| && !Stops(src[p], eof)
      && match Lex(src, p, first, eof)
         case None => false
         case Some((t, p')) => t == ts[0] && Reads(src, p', false, eof, ts[1..], q)
  }

  /** After the tokens `ts`, read up to `q`, one byte is left, and what comes next has two. */
  ghost predicate Overruns(src: seq<byte>, p: nat, b: Built, eof: byte, endbuf: nat, ts: seq<Tok>, q: nat) {
    && Reads(src, p, b.items == [], eof, ts, q) && q < |src| && !Stops(src[q], eof)
    && AddAll(b, ts, endbuf).Some?
    && Brim(AddAll(b, ts, endbuf).value, endbuf)
    && SecondAt(src, q, AddAll(b, ts, endbuf).value, eof).Some?
  }

  lemma {:induction false} SpillHasPrefix(src: seq<byte>, p: nat, b: Built, eof: byte, endbuf: nat)
    returns (ts: seq<Tok>, q: nat)
    requires SpillFrom(src, p, b, eof, endbuf).Some?
    ensures Overruns(src, p, b, eof, endbuf, ts, q)
    ensures SpillFrom(src, p, b, eof, endbuf) == SecondAt(src, q, AddAll(b, ts, endbuf).value, eof)
    decreases |src| - p
  {
    if Brim(b, endbuf) && SecondAt(src, p, b, eof).Some? {
      ts, q := [], p;
    } else {
      LexAdvances(src, p, b.items == [], eof);
      var t := Lex(src, p, b.items == [], eof).value.0;
      var (b', p') := NextBuilt(src, p, b, endbuf, eof).value;
      AddKeepsItems(b, t);
      var rest;
      rest, q := SpillHasPrefix(src, p', b', eof, endbuf);
      ts := [t] + rest;
      assert ts[1..] == rest;
    }
  }

  lemma {:induction false} PrefixSpills(src: seq<byte>, p: nat, b: Built, eof: byte, endbuf: nat,
                                        ts: seq<Tok>, q: nat)
    requires Overruns(src, p, b, eof, endbuf, ts, q)
    ensures SpillFrom(src, p, b, eof, endbuf).Some?
    decreases |ts|
  {
    if ts != [] && !(Brim(b, endbuf) && SecondAt(src, p, b, eof).Some?) {
      LexAdvances(src, p, b.items == [], eof);
      var (b', p') := NextBuilt(src, p, b, endbuf, eof).value;
      AddKeepsItems(b, ts[0]);
      PrefixSpills(src, p', b', eof, endbuf, ts[1..], q);
    }
  }

  /** `compile` writes the byte at `endbuf` exactly when the text is not empty, some first part
      of its tokens fills the buffer up to its last byte, and what comes next stores two. */
  lemma SpillsIff(text: seq<byte>, eof: byte, endbuf: nat)
    ensures var src := text + [0];
            Spill(text, eof, endbuf).Some? <==>
            !Stops(src[0], eof) &&
            exists ts, q :: Overruns(src, Lead(src), Empty, eof, endbuf, ts, q)
  {
    var src := text + [0];
    var p := Lead(src);
    if Spill(text, eof, endbuf).Some? {
      var ts, q := SpillHasPrefix(src, p, Empty, eof, endbuf);
    }
    if ts, q :| Overruns(src, p, Empty, eof, endbuf, ts, q) {
      PrefixSpills(src, p, Empty, eof, endbuf, ts, q);
    }
  }

  /** The pattern of one letter, with a buffer of one byte: the letter is stored behind it. */
  lemma LetterSpills(c: byte, eof: byte)
    requires c !in {0, eof, NL, DOT, STAR, DOLLAR, LBRACKET, BACKSLASH, CARET}
    ensures Spill([c], eof, 1) == Some(c)
  {
    assert ([c] + [0])[0] == c;
    assert Encode(Empty.items) == [];
  }
}
