/** usr/src/cmd/acct/acctcon.c as a state machine over the records of a login log: lines with
    their current session, and a table of connect time by user. */
module AcctCon {
  import opened AcctRecords
  import opened Utmp

  /** `struct utmp` */
  datatype Wtmp = Wtmp(kind: Kind, line: Name, name: Name, time: int)

  /** `struct tbuf`: a line, who is on it (no name: nobody), and since when. */
  datatype Line = Line(tline: Name, tname: Name, ttime: int, tlsess: int, tlon: int, tloff: int, ttotal: int)

  /** `struct ctab`: the sums of a user. */
  datatype Ctab = Ctab(uid: int, name: Name, con0: int, con1: int, sess: int)

  /** A session charged to a user, on the line with the given index. */
  datatype Session = Session(line: int, name: Name, uid: int, start: int, dur: int)

  /** The user a name stands for, and how much of a time span is prime time; the rest of it
      is not. */
  datatype Site = Site(uidOf: Name -> int, prime: (int, int) -> int)

  /** The lines and the users, with the sessions charged so far and the number of logins
      without a name; `exitcode` tells of a record older than its line. */
  datatype Books = Books(lines: seq<Line>, table: seq<Ctab>, log: seq<Session>, blank: int, exitcode: int)

  datatype State = State(books: Books, datetime: int, lastime: int, ndates: int)

  const INITIAL := State(Books([], [], [], 0, 0), 0, 0, 0)

  // ----- steps -----

  /** The place of a user in the table, or its length. */
  function Find(table: seq<Ctab>, uid: int): (i: nat)
    ensures i <= |table| && (i < |table| ==> table[i].uid == uid) && (forall j :: 0 <= j < i ==> table[j].uid != uid)
  {
    if table == [] || table[0].uid == uid then 0 else 1 + Find(table[1..], uid)
  }

  /** `enter` */
  function Enter(table: seq<Ctab>, c: Ctab): (r: seq<Ctab>)
    ensures |table| <= |r| <= |table| + 1
  {
    var i := Find(table, c.uid);
    if i == |table| then table + [c]
    else table[i := table[i].(con0 := table[i].con0 + c.con0, con1 := table[i].con1 + c.con1,
        sess := table[i].sess + c.sess)]
  }

  function Charge(site: Site, table: seq<Ctab>, name: Name, start: int, dur: int): seq<Ctab> {
    var prime := site.prime(start, dur);
    Enter(table, Ctab(site.uidOf(name), name, prime, dur - prime, 1))
  }

  function Fresh(tline: Name): Line { Line(tline, [], 0, 0, 0, 0, 0) }

  /** `iline` */
  function Index(lines: seq<Line>, tline: Name): (i: nat)
    ensures i <= |lines| && (i < |lines| ==> lines[i].tline == tline)
            && (forall j :: 0 <= j < i ==> lines[j].tline != tline)
  {
    if lines == [] || lines[0].tline == tline then 0 else 1 + Index(lines[1..], tline)
  }

  function WithLine(lines: seq<Line>, tline: Name): (r: seq<Line>)
    ensures |lines| <= |r| && Index(lines, tline) < |r|
  {
    if Index(lines, tline) == |lines| then lines + [Fresh(tline)] else lines
  }

  /** A record of this kind ends the session on the line. */
  predicate Ends(l: Line, kind: Kind) { l.tname != [] && (kind.UserProcess? || kind.DeadProcess?) }

  /** The line after a record that adds `dur` to its time. */
  function Updated(l: Line, dur: int, kind: Kind, name: Name, time: int): Line {
    match kind
    case UserProcess =>
      Line(l.tline, name, time, l.tlsess + 1, l.tlon + if l.tname == [] then 1 else 0, l.tloff, l.ttotal + dur)
    case DeadProcess => Line(l.tline, [], time, l.tlsess, l.tlon, l.tloff + 1, l.ttotal + dur)
    case _ => l.(ttime := time)
  }

  /** `update` on line `i`; a record older than the line only sets its time. */
  function Update(site: Site, b: Books, i: nat, kind: Kind, name: Name, time: int): (r: Books)
    requires i < |b.lines|
    ensures |r.lines| == |b.lines|
  {
    var l := b.lines[i];
    var dur := time - l.ttime;
    if dur < 0 then Books(b.lines[i := l.(ttime := time)], b.table, b.log, b.blank, 1)
    else if Ends(l, kind) then
      Books(b.lines[i := Updated(l, dur, kind, name, time)],
            Charge(site, b.table, l.tname, l.ttime, dur),
            b.log + [Session(i, l.tname, site.uidOf(l.tname), l.ttime, dur)],
            b.blank + Blank(kind, name), b.exitcode)
    else Books(b.lines[i := Updated(l, 0, kind, name, time)], b.table, b.log, b.blank + Blank(kind, name), b.exitcode)
  }

  function Blank(kind: Kind, name: Name): int { if kind.UserProcess? && name == [] then 1 else 0 }

  /** `upall` on the lines from `i` on */
  function UpAll(site: Site, b: Books, i: nat, time: int): (r: Books)
    requires i <= |b.lines|
    ensures |r.lines| == |b.lines|
    decreases |b.lines| - i
  {
    if i == |b.lines| then b else UpAll(site, Update(site, b, i, DeadProcess, [], time), i + 1, time)
  }

  function Shift(lines: seq<Line>, d: int): (r: seq<Line>)
    ensures |r| == |lines| && forall i :: 0 <= i < |r| ==> r[i] == lines[i].(ttime := lines[i].ttime + d)
  {
    if lines == [] then [] else [lines[0].(ttime := lines[0].ttime + d)] + Shift(lines[1..], d)
  }

  /** A record of a process on a line. */
  function OnLine(site: Site, b: Books, r: Wtmp): Books {
    Update(site, b.(lines := WithLine(b.lines, r.line)), Index(b.lines, r.line), r.kind, r.name, r.time)
  }

  /** `loop` */
  function Step(site: Site, s: State, r: Wtmp): State {
    if r.line == [] then s
    else
      match r.kind
      case OldTime => s.(datetime := r.time)
      case NewTime =>
        if s.datetime == 0 then s
        else State(s.books.(lines := Shift(s.books.lines, r.time - s.datetime)), 0, s.lastime, s.ndates + 1)
      case BootTime => s.(books := UpAll(site, s.books, 0, r.time), lastime := r.time)
      case Accounting | RunLevel => s.(lastime := r.time)
      case UserProcess | LoginProcess | InitProcess | DeadProcess => s.(books := OnLine(site, s.books, r))
      case EmptyRec => s
  }

  function Run(site: Site, s: State, rs: seq<Wtmp>): State
    decreases |rs|
  {
    if rs == [] then s else Run(site, Step(site, s, rs[0]), rs[1..])
  }

  // ----- sums -----

  function LineSum(lines: seq<Line>): int { if lines == [] then 0 else lines[0].ttotal + LineSum(lines[1..]) }

  function SeenSum(lines: seq<Line>): int { if lines == [] then 0 else lines[0].tlsess + SeenSum(lines[1..]) }

  function OpenSum(lines: seq<Line>): int {
    if lines == [] then 0 else (if lines[0].tname != [] then 1 else 0) + OpenSum(lines[1..])
  }

  function ConSum(table: seq<Ctab>): int {
    if table == [] then 0 else table[0].con0 + table[0].con1 + ConSum(table[1..])
  }

  function SessSum(table: seq<Ctab>): int { if table == [] then 0 else table[0].sess + SessSum(table[1..]) }

  lemma {:induction false} LineUpdate(lines: seq<Line>, i: nat, l: Line)
    requires i < |lines|
    ensures LineSum(lines[i := l]) == LineSum(lines) - lines[i].ttotal + l.ttotal
    ensures SeenSum(lines[i := l]) == SeenSum(lines) - lines[i].tlsess + l.tlsess
    ensures OpenSum(lines[i := l]) ==
            OpenSum(lines) - (if lines[i].tname != [] then 1 else 0) + (if l.tname != [] then 1 else 0)
  {
    if i == 0 {
      assert lines[i := l][1..] == lines[1..];
    } else {
      assert lines[i := l][1..] == lines[1..][i - 1 := l];
      LineUpdate(lines[1..], i - 1, l);
    }
  }

  lemma {:induction false} LineAppend(lines: seq<Line>, l: Line)
    ensures LineSum(lines + [l]) == LineSum(lines) + l.ttotal && SeenSum(lines + [l]) == SeenSum(lines) + l.tlsess
    ensures OpenSum(lines + [l]) == OpenSum(lines) + if l.tname != [] then 1 else 0
  {
    if lines != [] {
      assert (lines + [l])[1..] == lines[1..] + [l];
      LineAppend(lines[1..], l);
    }
  }

  lemma {:induction false} LineShift(lines: seq<Line>, d: int)
    ensures LineSum(Shift(lines, d)) == LineSum(lines) && SeenSum(Shift(lines, d)) == SeenSum(lines)
            && OpenSum(Shift(lines, d)) == OpenSum(lines)
  {
    if lines != [] {
      assert Shift(lines, d)[1..] == Shift(lines[1..], d);
      LineShift(lines[1..], d);
    }
  }

  lemma {:induction false} TableUpdate(table: seq<Ctab>, i: nat, c: Ctab)
    requires i < |table|
    ensures ConSum(table[i := c]) == ConSum(table) - table[i].con0 - table[i].con1 + c.con0 + c.con1
    ensures SessSum(table[i := c]) == SessSum(table) - table[i].sess + c.sess
  {
    if i == 0 {
      assert table[i := c][1..] == table[1..];
    } else {
      assert table[i := c][1..] == table[1..][i - 1 := c];
      TableUpdate(table[1..], i - 1, c);
    }
  }

  lemma {:induction false} TableAppend(table: seq<Ctab>, c: Ctab)
    ensures ConSum(table + [c]) == ConSum(table) + c.con0 + c.con1 && SessSum(table + [c]) == SessSum(table) + c.sess
  {
    if table != [] {
      assert (table + [c])[1..] == table[1..] + [c];
      TableAppend(table[1..], c);
    }
  }

  lemma EnterAdds(table: seq<Ctab>, c: Ctab)
    ensures ConSum(Enter(table, c)) == ConSum(table) + c.con0 + c.con1
            && SessSum(Enter(table, c)) == SessSum(table) + c.sess
  {
    var i := Find(table, c.uid);
    if i == |table| {
      TableAppend(table, c);
    } else {
      TableUpdate(table, i, table[i].(con0 := table[i].con0 + c.con0, con1 := table[i].con1 + c.con1,
          sess := table[i].sess + c.sess));
    }
  }

  // ----- conservation -----

  /** The connect time of all users is that of all lines; the sessions seen are those charged,
      those open and those without a name. */
  predicate Balanced(b: Books) {
    && ConSum(b.table) == LineSum(b.lines)
    && SeenSum(b.lines) == SessSum(b.table) + OpenSum(b.lines) + b.blank
    && SessSum(b.table) == |b.log|
  }

  lemma ChargeAdds(site: Site, table: seq<Ctab>, name: Name, start: int, dur: int)
    ensures ConSum(Charge(site, table, name, start, dur)) == ConSum(table) + dur
    ensures SessSum(Charge(site, table, name, start, dur)) == SessSum(table) + 1
  {
    var prime := site.prime(start, dur);
    EnterAdds(table, Ctab(site.uidOf(name), name, prime, dur - prime, 1));
  }

  lemma UpdateBalance(site: Site, b: Books, i: nat, kind: Kind, name: Name, time: int)
    requires i < |b.lines| && Balanced(b)
    ensures Balanced(Update(site, b, i, kind, name, time))
  {
    var l, r := b.lines[i], Update(site, b, i, kind, name, time);
    LineUpdate(b.lines, i, r.lines[i]);
    ChargeAdds(site, b.table, l.tname, l.ttime, time - l.ttime);
  }

  lemma {:induction false} UpAllBalance(site: Site, b: Books, i: nat, time: int)
    requires i <= |b.lines| && Balanced(b)
    ensures Balanced(UpAll(site, b, i, time))
    decreases |b.lines| - i
  {
    if i < |b.lines| {
      UpdateBalance(site, b, i, DeadProcess, [], time);
      UpAllBalance(site, Update(site, b, i, DeadProcess, [], time), i + 1, time);
    }
  }

  lemma OnLineBalance(site: Site, b: Books, r: Wtmp)
    requires Balanced(b)
    ensures Balanced(OnLine(site, b, r))
  {
    LineAppend(b.lines, Fresh(r.line));
    UpdateBalance(site, b.(lines := WithLine(b.lines, r.line)), Index(b.lines, r.line), r.kind, r.name, r.time);
  }

  lemma StepBalance(site: Site, s: State, r: Wtmp)
    requires Balanced(s.books)
    ensures Balanced(Step(site, s, r).books)
  {
    LineShift(s.books.lines, r.time - s.datetime);
    UpAllBalance(site, s.books, 0, r.time);
    OnLineBalance(site, s.books, r);
  }

  /** Every run keeps the balance, whatever the log. */
  lemma {:induction false} RunBalance(site: Site, s: State, rs: seq<Wtmp>)
    requires Balanced(s.books)
    ensures Balanced(Run(site, s, rs).books)
    decreases |rs|
  {
    if rs != [] {
      StepBalance(site, s, rs[0]);
      RunBalance(site, Step(site, s, rs[0]), rs[1..]);
    }
  }
}
