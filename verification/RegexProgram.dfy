/** The byte programs of usr/src/head/regexp.h: what a compiled pattern is made of, and
    how it is laid out in memory.

    A pattern is a flat list of items.  Groups do not nest an item list: they are a pair
    of marks, `Bra` and `Ket`, that record the current position when they are passed. */
module RegexProgram {
  import opened Bytes
  import opened Wrappers

  const NBRA := 9
  type slot = i: int | 0 <= i < 9

  const CBRA: byte := 2
  const CCHR: byte := 4
  const CDOT: byte := 8
  const CCL: byte := 12
  const CXCL: byte := 16
  const CDOL: byte := 20
  const CCEOF: byte := 22
  const CKET: byte := 24
  const CBACK: byte := 36
  const NCCL: byte := 40

  /** `op | STAR` and `op | RNGE`, where STAR is 01 and RNGE is 03. */
  function OrStar(op: byte): byte { op - op % 2 + 1 }
  function OrRnge(op: byte): byte { op - op % 4 + 3 }

  /** The two arithmetic forms are the bitwise ones. */
  lemma OrIsBitwise(op: byte)
    ensures OrStar(op) == Place(op, 0)
    ensures OrRnge(op) == Place(Place(op, 0), 1)
  {
    var once, half := OrBit(op, 0), op / 2;
    assert once == 2 * half + 1 && once / 2 == half;
    assert OrBit(half, 0) == half - half % 2 + 1;
    assert OrBit(once, 1) == 2 * OrBit(half, 0) + 1;
    assert op == 4 * (op / 4) + op % 4;
  }

  /** The three encodings of a bracket: 16 bytes, 16 bytes negated, 32 bytes. */
  datatype Kind = Narrow | NarrowNot | Wide

  datatype Core =
    | Chr(c: byte)
    | Dot
    | Bracket(kind: Kind, bits: seq<byte>)
    | Bra(slot: slot)
    | Ket(slot: slot)
    | Back(slot: slot)
    | Dol

  /** One item as the compiler leaves it: the STAR bit, and the two-byte intervals that
      were appended behind it (each also or-ing RNGE, which absorbs STAR, into the opcode). */
  datatype Item = Item(core: Core, star: bool, ivs: seq<(byte, byte)>)

  function Plain(core: Core): Item { Item(core, false, []) }

  predicate OneChar(core: Core) { core.Chr? || core.Dot? || core.Bracket? }

  // ----- layout -----

  function BaseOp(core: Core): byte {
    match core
    case Chr(_) => CCHR
    case Dot => CDOT
    case Bracket(Narrow, _) => CCL
    case Bracket(NarrowNot, _) => NCCL
    case Bracket(Wide, _) => CXCL
    case Bra(_) => CBRA
    case Ket(_) => CKET
    case Back(_) => CBACK
    case Dol => CDOL
  }

  function Opcode(it: Item): byte {
    if it.ivs != [] then if it.core.Bra? then CBRA + 1 else BaseOp(it.core) + 3
    else if it.star then BaseOp(it.core) + 1
    else BaseOp(it.core)
  }

  /** The opcode is the base opcode with STAR, or with RNGE, or-ed in. */
  lemma OpcodeIsOr(it: Item)
    ensures Opcode(it) == if it.ivs != [] then OrRnge(BaseOp(it.core))
                          else if it.star then OrStar(BaseOp(it.core)) else BaseOp(it.core)
  {
  }

  function Payload(core: Core): seq<byte> {
    match core
    case Chr(c) => [c]
    case Bracket(_, bits) => bits
    case Bra(i) => [i]
    case Ket(i) => [i]
    case Back(i) => [i]
    case Dot => []
    case Dol => []
  }

  function IntervalBytes(ivs: seq<(byte, byte)>): seq<byte> {
    if ivs == [] then [] else [ivs[0].0, ivs[0].1] + IntervalBytes(ivs[1..])
  }

  function EncodeItem(it: Item): seq<byte> {
    [Opcode(it)] + Payload(it.core) + IntervalBytes(it.ivs)
  }

  function Encode(items: seq<Item>): seq<byte> {
    if items == [] then [] else EncodeItem(items[0]) + Encode(items[1..])
  }

  /** A whole program, as `compile` returns it. */
  function Code(items: seq<Item>): seq<byte> { Encode(items) + [CCEOF] }

  lemma {:induction false} EncodeAppend(items: seq<Item>, more: seq<Item>)
    ensures Encode(items + more) == Encode(items) + Encode(more)
  {
    if items == [] {
      assert items + more == more;
    } else {
      EncodeAppend(items[1..], more);
      assert (items + more)[1..] == items[1..] + more;
      Associative(EncodeItem(items[0]), Encode(items[1..]), Encode(more));
    }
  }

  lemma Associative<T>(a: seq<T>, b: seq<T>, c: seq<T>)
    ensures (a + b) + c == a + (b + c)
  {
  }

  lemma EncodeOne(items: seq<Item>, it: Item)
    ensures Encode(items + [it]) == Encode(items) + EncodeItem(it)
  {
    EncodeAppend(items, [it]);
    assert [it][1..] == [];
    assert Encode([it]) == EncodeItem(it) + Encode([]);
  }

  lemma CodeSplit(items: seq<Item>)
    requires items != []
    ensures var head, tail := EncodeItem(items[0]), Code(items[1..]);
            Code(items) == head + tail && |head| <= |Code(items)| && Code(items)[|head|..] == tail
  {
    Associative(EncodeItem(items[0]), Encode(items[1..]), [CCEOF]);
  }

  lemma {:induction false} IntervalBytesAppend(ivs: seq<(byte, byte)>, iv: (byte, byte))
    ensures IntervalBytes(ivs + [iv]) == IntervalBytes(ivs) + [iv.0, iv.1]
  {
    if ivs == [] {
      assert IntervalBytes([iv]) == [iv.0, iv.1] + IntervalBytes([iv][1..]);
    } else {
      IntervalBytesAppend(ivs[1..], iv);
      assert (ivs + [iv])[1..] == ivs[1..] + [iv];
    }
  }

  // ----- which items the matcher has a case for -----

  predicate BitAt(bits: seq<byte>, c: byte)
    requires c / 8 < |bits|
  {
    Bit(bits[c / 8], c % 8)
  }

  /** A stored bracket has the right length and does not match the terminator. */
  predicate CoreOk(core: Core) {
    match core
    case Chr(c) => c != 0
    case Bracket(kind, bits) =>
      && |bits| == (if kind.Wide? then 32 else 16)
      && (kind.NarrowNot? <==> BitAt(bits, 0))
    case _ => true
  }

  /** An interval sits on a one-character item and there is only one of it; a star sits on
      a one-character item or a back-reference. */
  predicate ItemOk(it: Item) {
    && CoreOk(it.core)
    && (it.star ==> (OneChar(it.core) || it.core.Back?) && it.ivs == [])
    && (it.ivs != [] ==> OneChar(it.core) && |it.ivs| == 1 && it.ivs[0].0 <= it.ivs[0].1 && it.ivs[0].0 != 255)
  }

  predicate ItemsOk(items: seq<Item>) {
    forall j :: 0 <= j < |items| ==> ItemOk(items[j])
  }

  // ----- reading a program back -----

  function CoreLength(op: byte): nat {
    if op in {CCHR, CBRA, CKET, CBACK} then 1
    else if op in {CCL, NCCL} then 16
    else if op == CXCL then 32
    else 0
  }

  function DecodeCore(op: byte, payload: seq<byte>): Option<Core>
    requires |payload| == CoreLength(op)
  {
    if op == CCHR then Some(Chr(payload[0]))
    else if op == CDOT then Some(Dot)
    else if op == CCL then Some(Bracket(Narrow, payload))
    else if op == NCCL then Some(Bracket(NarrowNot, payload))
    else if op == CXCL then Some(Bracket(Wide, payload))
    else if op == CDOL then Some(Dol)
    else if op in {CBRA, CKET, CBACK} && payload[0] < 9 then
      Some(if op == CBRA then Bra(payload[0]) else if op == CKET then Ket(payload[0]) else Back(payload[0]))
    else None
  }

  /** Reads one item; `None` if the bytes are not the code of an acceptable item. */
  function DecodeItem(code: seq<byte>): Option<Item>
    requires code != []
  {
    var op := code[0];
    var base := op - op % 4;
    var n := CoreLength(base);
    var m := if op % 4 == 3 then 2 else 0;
    if op == CBRA then
      if |code| < 2 || code[1] >= 9 then None else Some(Plain(Bra(code[1])))
    else if |code| < 1 + n + m || op % 4 == 2 then None
    else match DecodeCore(base, code[1..1 + n])
      case None => None
      case Some(core) =>
        Some(Item(core, op % 4 == 1, if m == 2 then [(code[1 + n], code[2 + n])] else []))
  }

  function Decode(code: seq<byte>): Option<seq<Item>>
  {
    if code == [] then None
    else if code[0] == CCEOF then Some([])
    else match DecodeItem(code)
      case None => None
      case Some(it) =>
        if |EncodeItem(it)| > |code| then None
        else match Decode(code[|EncodeItem(it)|..])
          case None => None
          case Some(rest) => Some([it] + rest)
  }

  lemma OpcodeTells(it: Item)
    requires ItemOk(it)
    ensures var op := Opcode(it);
            && op != CCEOF
            && (it.core.Bra? <==> op == CBRA)
            && (!it.core.Bra? ==> op - op % 4 == BaseOp(it.core))
            && (op % 4 == 3 <==> it.ivs != []) && (op % 4 == 1 <==> it.star)
            && (op % 2 == 1 <==> it.ivs != [] || it.star)
            && (it.ivs != [] <==> op in {OrRnge(CCHR), OrRnge(CDOT), OrRnge(CXCL), OrRnge(NCCL), OrRnge(CCL)})
            && (it.ivs != [] ==> op == BaseOp(it.core) + 3)
            && (it.star && it.core.Back? <==> op == OrStar(CBACK))
            && (it.star ==> op == BaseOp(it.core) + 1)
            && (it.ivs == [] && !it.star ==> op == BaseOp(it.core))
  {
  }

  lemma DecodeCoreOk(core: Core)
    requires CoreOk(core)
    ensures CoreLength(BaseOp(core)) == |Payload(core)|
    ensures DecodeCore(BaseOp(core), Payload(core)) == Some(core)
  {
  }

  lemma ItemLayout(it: Item)
    requires ItemOk(it)
    ensures var code, n := EncodeItem(it), |Payload(it.core)|;
            && |code| == 1 + n + 2 * |it.ivs|
            && code[0] == Opcode(it)
            && code[1..1 + n] == Payload(it.core)
            && (it.ivs != [] ==> code[1 + n] == it.ivs[0].0 && code[2 + n] == it.ivs[0].1)
  {
    if it.ivs != [] {
      assert it.ivs == [it.ivs[0]];
      assert IntervalBytes(it.ivs) == [it.ivs[0].0, it.ivs[0].1] + IntervalBytes(it.ivs[1..]);
    }
  }

  lemma DecodeOneItem(it: Item, rest: seq<byte>)
    requires ItemOk(it)
    ensures EncodeItem(it) + rest != []
    ensures (EncodeItem(it) + rest)[0] != CCEOF
    ensures DecodeItem(EncodeItem(it) + rest) == Some(it)
  {
    OpcodeTells(it);
    DecodeCoreOk(it.core);
    ItemLayout(it);
    var head := EncodeItem(it);
    var code := head + rest;
    var n := |Payload(it.core)|;
    assert code[1..1 + n] == head[1..1 + n];
    if it.core.Bra? {
      assert code[1] == head[1..2][0];
    } else if it.ivs != [] {
      assert it.ivs == [it.ivs[0]];
    }
  }

  /** No two item lists share a program: STAR and RNGE or-ed into the opcodes never make
      two items collide. */
  lemma {:induction false} DecodeCode(items: seq<Item>)
    requires ItemsOk(items)
    ensures Decode(Code(items)) == Some(items)
  {
    var code := Code(items);
    if items != [] {
      var it := items[0];
      DecodeCode(items[1..]);
      CodeSplit(items);
      DecodeOneItem(it, Code(items[1..]));
      assert [it] + items[1..] == items;
    }
  }
}
