/** Brackets: the set of characters a bracket names, the bitmap `compile` builds for it, and
    why the three encodings all match exactly that set. */
module RegexBrackets {
  import opened Bytes
  import opened RegexProgram
  import opened RegexMatch
  import opened RegexText

  /** `n` zero bytes. */
  function Zeros(n: nat): (r: seq<byte>)
    ensures |r| == n && forall i :: 0 <= i < n ==> r[i] == 0
  {
    if n == 0 then [] else Zeros(n - 1) + [0]
  }

  type Bitmap = b: seq<byte> | |b| == 32 witness Zeros(32)

  /** Character `x` is named by the pieces `es`; `prev` is the character a leading range
      starts from.  A reversed range names its two ends only. */
  predicate Names(es: seq<Elem>, prev: byte, x: byte) {
    if es == [] then false
    else match es[0]
      case Single(c) => x == c || Names(es[1..], c, x)
      case RangeTo(c) => prev <= x < c || x == c || Names(es[1..], c, x)
      case FinalDash => x == DASH
  }

  /** Some character outside ASCII is read, which makes the bitmap 32 bytes wide. */
  predicate NeedsWide(es: seq<Elem>) {
    es != [] && ((!es[0].FinalDash? && es[0].c >= 128) || NeedsWide(es[1..]))
  }

  /** `PLACE(c)` */
  function PlaceChar(bits: Bitmap, c: byte): (r: Bitmap)
    ensures forall x: byte :: BitAt(r, x) <==> x == c || BitAt(bits, x)
  {
    bits[c / 8 := Place(bits[c / 8], c % 8)]
  }

  /** `while (lc < c) { PLACE(lc); lc++; }` */
  function PlaceRange(bits: Bitmap, lc: byte, c: byte): (r: Bitmap)
    ensures forall x: byte :: BitAt(r, x) <==> lc <= x < c || BitAt(bits, x)
    decreases c - lc
  {
    if lc < c then PlaceRange(PlaceChar(bits, lc), lc + 1, c) else bits
  }

  function PlaceElem(bits: Bitmap, e: Elem, lc: byte): Bitmap {
    match e
    case Single(c) => PlaceChar(bits, c)
    case RangeTo(c) => PlaceChar(PlaceRange(bits, lc, c), c)
    case FinalDash => PlaceChar(bits, DASH)
  }

  function PlaceElems(bits: Bitmap, es: seq<Elem>, lc: byte): Bitmap
    decreases |es|
  {
    if es == [] then bits
    else if es[0].FinalDash? then PlaceElem(bits, es[0], lc)
    else PlaceElems(PlaceElem(bits, es[0], lc), es[1..], es[0].c)
  }

  lemma {:induction false} PlaceElemsNames(bits: Bitmap, es: seq<Elem>, lc: byte, x: byte)
    ensures BitAt(PlaceElems(bits, es, lc), x) <==> Names(es, lc, x) || BitAt(bits, x)
    decreases |es|
  {
    if es != [] && !es[0].FinalDash? {
      PlaceElemsNames(PlaceElem(bits, es[0], lc), es[1..], es[0].c, x);
    }
  }

  function FlipAll(bits: seq<byte>): (r: seq<byte>)
    ensures |r| == |bits| && forall i :: 0 <= i < |bits| ==> r[i] == Flip(bits[i])
  {
    if bits == [] then [] else [Flip(bits[0])] + FlipAll(bits[1..])
  }

  /** What the code after the bracket loop makes of the bitmap. */
  function FinishBracket(neg: bool, wide: bool, bits: Bitmap): Core {
    if !neg then Bracket(if wide then Wide else Narrow, if wide then bits else bits[..16])
    else if wide then
      var f := FlipAll(bits);
      Bracket(Wide, f[0 := ClearLow(f[0])])
    else Bracket(NarrowNot, bits[..16][0 := Place(bits[0], 0)])
  }

  function BracketCore(neg: bool, es: seq<Elem>): Core {
    FinishBracket(neg, NeedsWide(es), PlaceElems(Zeros(32), es, 0))
  }

  lemma {:induction false} NamesBounds(es: seq<Elem>, first: bool, prev: byte, x: byte)
    requires ElemsValid(es, first) && (!first ==> prev != 0) && Names(es, prev, x)
    ensures x != 0
    ensures !NeedsWide(es) ==> x < 128
  {
    if !es[0].FinalDash? && Names(es[1..], es[0].c, x) {
      NamesBounds(es[1..], false, es[0].c, x);
    }
  }

  lemma FinishMeans(neg: bool, wide: bool, bits: Bitmap, c: byte)
    requires !BitAt(bits, 0) && (!wide ==> forall x: byte :: x >= 128 ==> !BitAt(bits, x))
    ensures CoreOk(FinishBracket(neg, wide, bits))
    ensures Has(FinishBracket(neg, wide, bits), c) <==> c != 0 && BitAt(bits, c) != neg
  {
    if neg && wide {
      var f := FlipAll(bits);
      var g := f[0 := ClearLow(f[0])];
      assert c / 8 == 0 ==> (BitAt(g, c) <==> c % 8 != 0 && BitAt(f, c));
    } else if neg {
      var g := bits[..16][0 := Place(bits[0], 0)];
      assert c < 8 ==> (BitAt(g, c) <==> c == 0 || BitAt(bits, c));
      assert 8 <= c < 128 ==> (BitAt(g, c) <==> BitAt(bits, c));
    }
  }

  /** However it is stored, a bracket matches exactly the characters it names, or all others
      if it starts with a caret, and never the terminator. */
  lemma BracketMeans(neg: bool, es: seq<Elem>, c: byte)
    requires ElemsValid(es, true)
    ensures CoreOk(BracketCore(neg, es))
    ensures Has(BracketCore(neg, es), c) <==> c != 0 && Names(es, 0, c) != neg
  {
    var bits := PlaceElems(Zeros(32), es, 0);
    forall x: byte
      ensures BitAt(bits, x) <==> Names(es, 0, x)
      ensures BitAt(bits, x) ==> x != 0 && (!NeedsWide(es) ==> x < 128)
    {
      PlaceElemsNames(Zeros(32), es, 0, x);
      ZeroBits(x % 8);
      if Names(es, 0, x) { NamesBounds(es, true, 0, x); }
    }
    FinishMeans(neg, NeedsWide(es), bits, c);
  }
}
