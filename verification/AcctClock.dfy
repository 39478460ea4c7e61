/** Changes of the clock in usr/src/cmd/acct/acctcon.c: setting it shifts the sessions that
    are open, so that no duration depends on it. */
module AcctClock {
  import opened AcctRecords
  import opened AcctCon
  import opened Utmp

  /** A record as it would have been written with the clock ahead by `d`. */
  function Later(r: Wtmp, d: int): Wtmp { r.(time := r.time + d) }

  function AllLater(rs: seq<Wtmp>, d: int): (q: seq<Wtmp>)
    ensures |q| == |rs| && forall i :: 0 <= i < |rs| ==> q[i] == Later(rs[i], d)
  {
    if rs == [] then [] else [Later(rs[0], d)] + AllLater(rs[1..], d)
  }

  /** The same user with the same connect time, however it divides into prime time and not. */
  predicate SameUser(a: Ctab, b: Ctab) {
    a.uid == b.uid && a.name == b.name && a.con0 + a.con1 == b.con0 + b.con1 && a.sess == b.sess
  }

  predicate SameTable(a: seq<Ctab>, b: seq<Ctab>) { |a| == |b| && forall i :: 0 <= i < |a| ==> SameUser(a[i], b[i]) }

  predicate LaterLine(d: int, a: Line, b: Line) { b == a.(ttime := a.ttime + d) }

  predicate LaterLines(d: int, a: seq<Line>, b: seq<Line>) {
    |a| == |b| && forall i :: 0 <= i < |a| ==> LaterLine(d, a[i], b[i])
  }

  /** The same sessions of the same length. */
  predicate SameSession(a: Session, b: Session) { b == a.(start := b.start) }

  predicate SameLog(a: seq<Session>, b: seq<Session>) {
    |a| == |b| && forall i :: 0 <= i < |a| ==> SameSession(a[i], b[i])
  }

  /** `b` is `a` with the clock ahead by `d`. */
  predicate Ahead(d: int, a: Books, b: Books) {
    && LaterLines(d, a.lines, b.lines) && SameTable(a.table, b.table) && SameLog(a.log, b.log)
    && a.blank == b.blank && a.exitcode == b.exitcode
  }

  predicate AllAhead(d: int, a: State, b: State) {
    && Ahead(d, a.books, b.books) && b.datetime == (if a.datetime == 0 then 0 else a.datetime + d)
    && (a.datetime != 0 ==> b.datetime != 0)
  }

  lemma {:induction false} SameFind(a: seq<Ctab>, b: seq<Ctab>, uid: int)
    requires SameTable(a, b)
    ensures Find(a, uid) == Find(b, uid)
  {
    if a != [] && a[0].uid != uid {
      assert SameUser(a[0], b[0]) && SameTable(a[1..], b[1..]);
      SameFind(a[1..], b[1..], uid);
    } else if a != [] {
      assert SameUser(a[0], b[0]);
    }
  }

  lemma {:induction false} LaterIndex(d: int, a: seq<Line>, b: seq<Line>, tline: Name)
    requires LaterLines(d, a, b)
    ensures Index(a, tline) == Index(b, tline)
  {
    if a != [] && a[0].tline != tline {
      assert LaterLine(d, a[0], b[0]) && LaterLines(d, a[1..], b[1..]);
      LaterIndex(d, a[1..], b[1..], tline);
    } else if a != [] {
      assert LaterLine(d, a[0], b[0]);
    }
  }

  lemma SameCharge(site: Site, a: seq<Ctab>, b: seq<Ctab>, name: Name, start: int, start': int, dur: int)
    requires SameTable(a, b)
    ensures SameTable(Charge(site, a, name, start, dur), Charge(site, b, name, start', dur))
  {
    SameFind(a, b, site.uidOf(name));
    var i := Find(a, site.uidOf(name));
    if i < |a| { assert SameUser(a[i], b[i]); }
  }

  lemma LaterUpdateLines(d: int, a: seq<Line>, b: seq<Line>, i: nat, l: Line, l': Line)
    requires LaterLines(d, a, b) && i < |a| && LaterLine(d, l, l')
    ensures LaterLines(d, a[i := l], b[i := l'])
  {
  }

  /** The line is replaced in both, and nothing else changes but whether a record was refused. */
  lemma {:induction false} AheadSet(d: int, a: Books, b: Books, i: nat, l: Line, l': Line, blank: int, code: int,
                                    a': Books, b': Books)
    requires Ahead(d, a, b) && i < |a.lines| && LaterLine(d, l, l')
    requires a' == Books(a.lines[i := l], a.table, a.log, blank, code)
    requires b' == Books(b.lines[i := l'], b.table, b.log, blank, code)
    ensures Ahead(d, a', b')
  {
    LaterUpdateLines(d, a.lines, b.lines, i, l, l');
  }

  /** A session is charged in both. */
  lemma {:induction false} AheadCharge(site: Site, d: int, a: Books, b: Books, x: Session, y: Session,
                                       a': Books, b': Books)
    requires Ahead(d, a, b) && SameSession(x, y) && x.uid == site.uidOf(x.name)
    requires a' == a.(table := Charge(site, a.table, x.name, x.start, x.dur), log := a.log + [x])
    requires b' == b.(table := Charge(site, b.table, y.name, y.start, y.dur), log := b.log + [y])
    ensures Ahead(d, a', b')
  {
    SameCharge(site, a.table, b.table, x.name, x.start, y.start, x.dur);
  }

  /** A record that ends a session. */
  lemma {:induction false} AheadEnds(site: Site, d: int, a: Books, b: Books, i: nat, kind: Kind, name: Name, time: int,
                                     a': Books, b': Books)
    requires Ahead(d, a, b) && i < |a.lines| && a.lines[i].ttime <= time && Ends(a.lines[i], kind)
    requires a' == Update(site, a, i, kind, name, time) && b' == Update(site, b, i, kind, name, time + d)
    ensures Ahead(d, a', b')
  {
    var l, l' := a.lines[i], b.lines[i];
    assert LaterLine(d, l, l');
    var dur, blank := time - l.ttime, a.blank + Blank(kind, name);
    var x, y := Session(i, l.tname, site.uidOf(l.tname), l.ttime, dur),
                Session(i, l'.tname, site.uidOf(l'.tname), l'.ttime, dur);
    var u, u' := Updated(l, dur, kind, name, time), Updated(l', dur, kind, name, time + d);
    var a1, b1 := Books(a.lines[i := u], a.table, a.log, blank, a.exitcode),
                  Books(b.lines[i := u'], b.table, b.log, blank, a.exitcode);
    AheadSet(d, a, b, i, u, u', blank, a.exitcode, a1, b1);
    AheadCharge(site, d, a1, b1, x, y, a', b');
  }

  lemma {:induction false} AheadUpdate(site: Site, d: int, a: Books, b: Books, i: nat, kind: Kind, name: Name,
                                       time: int, a': Books, b': Books)
    requires Ahead(d, a, b) && i < |a.lines|
    requires a' == Update(site, a, i, kind, name, time) && b' == Update(site, b, i, kind, name, time + d)
    ensures Ahead(d, a', b')
  {
    var l, l' := a.lines[i], b.lines[i];
    assert LaterLine(d, l, l');
    var blank := a.blank + Blank(kind, name);
    if time < l.ttime {
      AheadSet(d, a, b, i, l.(ttime := time), l'.(ttime := time + d), a.blank, 1, a', b');
    } else if Ends(l, kind) {
      AheadEnds(site, d, a, b, i, kind, name, time, a', b');
    } else {
      AheadSet(d, a, b, i, Updated(l, 0, kind, name, time), Updated(l', 0, kind, name, time + d), blank, a.exitcode,
               a', b');
    }
  }

  /** A line that is new is updated at once. */
  lemma {:induction false} AheadNewLine(site: Site, d: int, a: Books, b: Books, tline: Name, kind: Kind, name: Name,
                                        time: int)
    requires Ahead(d, a, b) && time >= 0 && time + d >= 0
    ensures var a1, b1 := a.(lines := a.lines + [Fresh(tline)]), b.(lines := b.lines + [Fresh(tline)]);
            Ahead(d, Update(site, a1, |a.lines|, kind, name, time), Update(site, b1, |b.lines|, kind, name, time + d))
  {
    var n, l := |a.lines|, Fresh(tline);
    var u, u' := Updated(l, 0, kind, name, time), Updated(l, 0, kind, name, time + d);
    assert (a.lines + [l])[n := u] == a.lines + [u] && (b.lines + [l])[n := u'] == b.lines + [u'];
    assert LaterLine(d, u, u');
  }

  lemma {:induction false} NewLine(site: Site, b: Books, r: Wtmp, n: nat)
    requires n == |b.lines| == Index(b.lines, r.line)
    ensures OnLine(site, b, r) == Update(site, b.(lines := b.lines + [Fresh(r.line)]), n, r.kind, r.name, r.time)
  {
  }

  lemma {:induction false} AheadWithLine(d: int, a: Books, b: Books, tline: Name)
    requires Ahead(d, a, b) && Index(a.lines, tline) < |a.lines| && Index(b.lines, tline) < |b.lines|
    ensures Ahead(d, a.(lines := WithLine(a.lines, tline)), b.(lines := WithLine(b.lines, tline)))
  {
  }

  lemma {:induction false} AheadUnknownLine(site: Site, d: int, a: Books, b: Books, r: Wtmp, r': Wtmp, n: nat)
    requires Ahead(d, a, b) && Positive(r, d) && r' == Later(r, d)
    requires n == |a.lines| == |b.lines| == Index(a.lines, r.line) == Index(b.lines, r.line)
    ensures Ahead(d, OnLine(site, a, r), OnLine(site, b, r'))
  {
    AheadNewLine(site, d, a, b, r.line, r.kind, r.name, r.time);
    NewLine(site, a, r, n);
    NewLine(site, b, r', n);
  }

  lemma {:induction false} AheadOnLine(site: Site, d: int, a: Books, b: Books, r: Wtmp)
    requires Ahead(d, a, b) && Positive(r, d)
    ensures Ahead(d, OnLine(site, a, r), OnLine(site, b, Later(r, d)))
  {
    LaterIndex(d, a.lines, b.lines, r.line);
    var i := Index(a.lines, r.line);
    if i < |a.lines| {
      AheadWithLine(d, a, b, r.line);
      AheadUpdate(site, d, a.(lines := WithLine(a.lines, r.line)), b.(lines := WithLine(b.lines, r.line)), i,
                  r.kind, r.name, r.time, OnLine(site, a, r), OnLine(site, b, Later(r, d)));
    } else {
      AheadUnknownLine(site, d, a, b, r, Later(r, d), i);
    }
  }

  lemma {:induction false} AheadUpAll(site: Site, d: int, a: Books, b: Books, i: nat, time: int)
    requires Ahead(d, a, b) && i <= |a.lines|
    ensures Ahead(d, UpAll(site, a, i, time), UpAll(site, b, i, time + d))
    decreases |a.lines| - i
  {
    if i < |a.lines| {
      var a', b' := Update(site, a, i, DeadProcess, [], time), Update(site, b, i, DeadProcess, [], time + d);
      AheadUpdate(site, d, a, b, i, DeadProcess, [], time, a', b');
      AheadUpAll(site, d, a', b', i + 1, time);
    }
  }

  /** A time not before the epoch, whichever way the clock is read; the time of a change is
      not the epoch itself, which stands for no change. */
  predicate Positive(r: Wtmp, d: int) {
    r.time >= 0 && r.time + d >= 0 && (r.kind.OldTime? ==> r.time != 0 && r.time + d != 0)
  }

  lemma {:induction false} AheadStep(site: Site, d: int, a: State, b: State, r: Wtmp)
    requires AllAhead(d, a, b) && Positive(r, d)
    ensures AllAhead(d, Step(site, a, r), Step(site, b, Later(r, d)))
  {
    if r.kind.BootTime? {
      AheadUpAll(site, d, a.books, b.books, 0, r.time);
    } else if !r.kind.NewTime? {
      AheadOnLine(site, d, a.books, b.books, r);
    }
  }

  lemma {:induction false} AheadRun(site: Site, d: int, a: State, b: State, rs: seq<Wtmp>)
    requires AllAhead(d, a, b) && forall i :: 0 <= i < |rs| ==> Positive(rs[i], d)
    ensures AllAhead(d, Run(site, a, rs), Run(site, b, AllLater(rs, d)))
    decreases |rs|
  {
    if rs != [] {
      assert Positive(rs[0], d);
      AheadStep(site, d, a, b, rs[0]);
      assert AllLater(rs, d)[1..] == AllLater(rs[1..], d);
      AheadRun(site, d, Step(site, a, rs[0]), Step(site, b, Later(rs[0], d)), rs[1..]);
    }
  }

  /** Setting the clock from `t` to `t + d`, with all that follows recorded by the new clock,
      changes no session, no line and no user's total. */
  lemma ClockChange(site: Site, s: State, before: Wtmp, after: Wtmp, d: int, rs: seq<Wtmp>)
    requires before.kind.OldTime? && after.kind.NewTime? && before.line != [] && after.line != []
    requires s.datetime == 0 && before.time != 0 && after.time == before.time + d
    requires forall i :: 0 <= i < |rs| ==> Positive(rs[i], d)
    ensures AllAhead(d, Run(site, s, rs), Run(site, s, [before, after] + AllLater(rs, d)))
  {
    var q := AllLater(rs, d);
    var all := [before, after] + q;
    var s1 := Step(site, s, before);
    var s2 := Step(site, s1, after);
    assert all[1..][0] == after && all[1..][1..] == q;
    assert Run(site, s, all) == Run(site, s1, all[1..]) == Run(site, s2, q);
    assert AllAhead(d, s, s2);
    AheadRun(site, d, s, s2, rs);
  }

  /** A change from the epoch is no change: the new time has no effect on the lines. */
  lemma EpochIgnored(site: Site, s: State, before: Wtmp, after: Wtmp)
    requires before.kind.OldTime? && after.kind.NewTime? && before.line != [] && after.line != [] && before.time == 0
    ensures Run(site, s, [before, after]).books == s.books
  {
    var s1 := Step(site, s, before);
    assert [before, after][1..] == [after] && [after][1..] == [];
    assert Run(site, s1, [after]) == Run(site, Step(site, s1, after), []);
  }

  /** A change from `before` to a time later by `d` moves the books to the new clock exactly if
      its old time is not the epoch, or there is nothing to move. */
  lemma {:induction false} ChangeMovesIff(site: Site, s: State, before: Wtmp, after: Wtmp, d: int)
    requires before.kind.OldTime? && after.kind.NewTime? && before.line != [] && after.line != []
    requires s.datetime == 0 && after.time == before.time + d
    ensures Ahead(d, s.books, Run(site, s, [before, after]).books) <==>
            before.time != 0 || d == 0 || s.books.lines == []
  {
    var s1 := Step(site, s, before);
    var s2 := Step(site, s1, after);
    assert [before, after][1..] == [after] && [after][1..] == [];
    assert Run(site, s1, [after]) == Run(site, s2, []) == s2;
    var a, b := s.books.lines, s2.books.lines;
    if a != [] && before.time == 0 && d != 0 { assert !LaterLine(d, a[0], b[0]); }
  }
}
