/** Total accounting records, `struct tacct` of usr/src/cmd/acct/acctdef.h, with exact
    numbers, and the order in which usr/src/cmd/acct/acctmerg.c merges them. */
module AcctRecords {

  datatype Sums = Sums(
    cpu0: real, cpu1: real, kcore0: real, kcore1: real, con0: real, con1: real, du: real,
    pc: int, sc: int, dc: int, fee: int)

  const ZERO := Sums(0.0, 0.0, 0.0, 0.0, 0.0, 0.0, 0.0, 0, 0, 0, 0)

  /** `tacctadd` */
  function Plus(a: Sums, b: Sums): Sums {
    Sums(a.cpu0 + b.cpu0, a.cpu1 + b.cpu1, a.kcore0 + b.kcore0, a.kcore1 + b.kcore1, a.con0 + b.con0, a.con1 + b.con1,
         a.du + b.du, a.pc + b.pc, a.sc + b.sc, a.dc + b.dc, a.fee + b.fee)
  }

  /** The amounts one by one. */
  datatype Field = Cpu0 | Cpu1 | Kcore0 | Kcore1 | Con0 | Con1 | Du | Pc | Sc | Dc | Fee

  function Of(f: Field, a: Sums): real {
    match f
    case Cpu0 => a.cpu0
    case Cpu1 => a.cpu1
    case Kcore0 => a.kcore0
    case Kcore1 => a.kcore1
    case Con0 => a.con0
    case Con1 => a.con1
    case Du => a.du
    case Pc => a.pc as real
    case Sc => a.sc as real
    case Dc => a.dc as real
    case Fee => a.fee as real
  }

  lemma PlusAdds(f: Field, a: Sums, b: Sums)
    ensures Of(f, Plus(a, b)) == Of(f, a) + Of(f, b)
  {
  }

  lemma OfZero(f: Field)
    ensures Of(f, ZERO) == 0.0
  {
  }

  lemma PlusZero(a: Sums)
    ensures Plus(ZERO, a) == a
  {
  }

  /** A login name as the characters before its terminator. */
  type Name = seq<int>

  datatype Rec = Rec(uid: int, name: Name, amt: Sums)

  /** `strncmp(a, b, NSZ) < 0` */
  predicate NameLess(a: Name, b: Name) {
    b != [] && (a == [] || a[0] < b[0] || (a[0] == b[0] && NameLess(a[1..], b[1..])))
  }

  lemma {:induction false} NameTotal(a: Name, b: Name)
    ensures NameLess(a, b) || NameLess(b, a) <==> a != b
    ensures !(NameLess(a, b) && NameLess(b, a))
  {
    if a != [] && b != [] {
      NameTotal(a[1..], b[1..]);
      assert a == [a[0]] + a[1..] && b == [b[0]] + b[1..];
    }
  }

  lemma {:induction false} NameTransitive(a: Name, b: Name, c: Name)
    requires NameLess(a, b) && NameLess(b, c)
    ensures NameLess(a, c)
  {
    if a != [] && a[0] == b[0] && b[0] == c[0] { NameTransitive(a[1..], b[1..], c[1..]); }
  }

  /** The order of records, and when two are summed: by user and name, or with `uidsum` by
      user alone. */
  predicate Less(uidsum: bool, a: Rec, b: Rec) {
    a.uid < b.uid || (a.uid == b.uid && !uidsum && NameLess(a.name, b.name))
  }

  predicate Same(uidsum: bool, a: Rec, b: Rec) { a.uid == b.uid && (uidsum || a.name == b.name) }

  lemma LessTotal(uidsum: bool, a: Rec, b: Rec)
    ensures Less(uidsum, a, b) || Less(uidsum, b, a) <==> !Same(uidsum, a, b)
    ensures !(Less(uidsum, a, b) && Less(uidsum, b, a))
  {
    NameTotal(a.name, b.name);
  }

  lemma LessTransitive(uidsum: bool, a: Rec, b: Rec, c: Rec)
    requires !Less(uidsum, b, a) && !Less(uidsum, c, b)
    ensures !Less(uidsum, c, a)
    ensures Less(uidsum, a, b) || Less(uidsum, b, c) ==> Less(uidsum, a, c)
  {
    NameTotal(a.name, b.name);
    NameTotal(b.name, c.name);
    NameTotal(a.name, c.name);
    if NameLess(a.name, b.name) && NameLess(b.name, c.name) { NameTransitive(a.name, b.name, c.name); }
    if NameLess(c.name, a.name) && NameLess(a.name, b.name) { NameTransitive(c.name, a.name, b.name); }
    if NameLess(b.name, c.name) && NameLess(c.name, a.name) { NameTransitive(b.name, c.name, a.name); }
  }

  // ----- the order on the numbers -----

  /** The names agree up to some character; there `a` ends, or has the lower character. */
  predicate Before(a: Name, b: Name) {
    exists k :: 0 <= k < |b| && k <= |a| && a[..k] == b[..k] && (k < |a| ==> a[k] < b[k])
  }

  lemma {:induction false} NameLessMeans(a: Name, b: Name)
    ensures NameLess(a, b) <==> Before(a, b)
  {
    if a != [] && Before(a, b) { BeforeHead(a, b); }
    if b != [] {
      if a == [] || a[0] < b[0] {
        assert a[..0] == b[..0];
      } else if a[0] == b[0] {
        NameLessMeans(a[1..], b[1..]);
        BeforeTail(a, b);
      }
    }
  }

  lemma {:induction false} BeforeHead(a: Name, b: Name)
    requires a != [] && Before(a, b)
    ensures a[0] <= b[0]
  {
    var k :| 0 <= k < |b| && k <= |a| && a[..k] == b[..k] && (k < |a| ==> a[k] < b[k]);
    if k > 0 { assert a[..k][0] == b[..k][0]; }
  }

  lemma {:induction false} BeforeTail(a: Name, b: Name)
    requires a != [] && b != [] && a[0] == b[0]
    ensures Before(a, b) <==> Before(a[1..], b[1..])
  {
    var c, d := a[1..], b[1..];
    if k :| 0 <= k < |b| && k <= |a| && a[..k] == b[..k] && (k < |a| ==> a[k] < b[k]) {
      assert k > 0 && c[..k - 1] == a[..k][1..] == d[..k - 1];
    }
    if k :| 0 <= k < |d| && k <= |c| && c[..k] == d[..k] && (k < |c| ==> c[k] < d[k]) {
      assert a[..k + 1] == [a[0]] + c[..k] == b[..k + 1];
    }
  }

  /** `a` has the lower number, or the same number and the earlier name; with `uidsum` only
      the number counts. */
  predicate Precedes(uidsum: bool, a: Rec, b: Rec) {
    a.uid <= b.uid && if uidsum then a.uid < b.uid else a.uid == b.uid ==> Before(a.name, b.name)
  }

  /** The same, or `a` and `b` have one number and one name. */
  predicate NotAfter(uidsum: bool, a: Rec, b: Rec) {
    a.uid <= b.uid && (!uidsum && a.uid == b.uid ==> a.name == b.name || Before(a.name, b.name))
  }

  lemma {:induction false} LessMeans(uidsum: bool, a: Rec, b: Rec)
    ensures Less(uidsum, a, b) <==> Precedes(uidsum, a, b)
    ensures !Less(uidsum, b, a) <==> NotAfter(uidsum, a, b)
  {
    NameLessMeans(a.name, b.name);
    NameTotal(a.name, b.name);
  }
}
