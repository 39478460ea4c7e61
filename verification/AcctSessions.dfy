/** The sessions charged by usr/src/cmd/acct/acctcon.c: the totals of every line and every
    user are the sums over them, and without changes of the clock they do not overlap. */
module AcctSessions {
  import opened AcctRecords
  import opened AcctCon
  import opened Utmp

  // ----- totals -----

  function LineTime(log: seq<Session>, i: int): int {
    if log == [] then 0 else LineTime(log[..|log| - 1], i) + if log[|log| - 1].line == i then log[|log| - 1].dur else 0
  }

  function UserTime(log: seq<Session>, uid: int): int {
    if log == [] then 0
    else UserTime(log[..|log| - 1], uid) + if log[|log| - 1].uid == uid then log[|log| - 1].dur else 0
  }

  function UserCount(log: seq<Session>, uid: int): int {
    if log == [] then 0 else UserCount(log[..|log| - 1], uid) + if log[|log| - 1].uid == uid then 1 else 0
  }

  /** How much of a user's sessions is prime time. */
  function UserPrime(site: Site, log: seq<Session>, uid: int): int {
    if log == [] then 0
    else
      var x := log[|log| - 1];
      UserPrime(site, log[..|log| - 1], uid) + if x.uid == uid then site.prime(x.start, x.dur) else 0
  }

  lemma PrimeMore(site: Site, log: seq<Session>, x: Session, uid: int)
    ensures UserPrime(site, log + [x], uid) == UserPrime(site, log, uid) +
            if x.uid == uid then site.prime(x.start, x.dur) else 0
  {
    assert (log + [x])[..|log|] == log;
  }

  lemma LogMore(log: seq<Session>, x: Session, i: int)
    ensures LineTime(log + [x], i) == LineTime(log, i) + if x.line == i then x.dur else 0
    ensures UserTime(log + [x], i) == UserTime(log, i) + if x.uid == i then x.dur else 0
    ensures UserCount(log + [x], i) == UserCount(log, i) + if x.uid == i then 1 else 0
  {
    assert (log + [x])[..|log|] == log;
  }

  lemma {:induction false} LineUnused(log: seq<Session>, i: int)
    requires forall k :: 0 <= k < |log| ==> log[k].line != i
    ensures LineTime(log, i) == 0
  {
    if log != [] { LineUnused(log[..|log| - 1], i); }
  }

  lemma {:induction false} UserUnused(site: Site, log: seq<Session>, uid: int)
    requires forall k :: 0 <= k < |log| ==> log[k].uid != uid
    ensures UserTime(log, uid) == 0 && UserCount(log, uid) == 0 && UserPrime(site, log, uid) == 0
  {
    if log != [] { UserUnused(site, log[..|log| - 1], uid); }
  }

  /** A user's entry has the prime time of that user's sessions in its first sum, the rest of
      their time in its second, and their number. */
  predicate EntryExact(site: Site, log: seq<Session>, c: Ctab) {
    && c.con0 == UserPrime(site, log, c.uid)
    && c.con0 + c.con1 == UserTime(log, c.uid)
    && c.sess == UserCount(log, c.uid)
  }

  predicate TableExact(site: Site, table: seq<Ctab>, log: seq<Session>) {
    && (forall i, j :: 0 <= i < j < |table| ==> table[i].uid != table[j].uid)
    && (forall j :: 0 <= j < |table| ==> EntryExact(site, log, table[j]))
    && (forall k :: 0 <= k < |log| ==> Find(table, log[k].uid) < |table|)
  }

  predicate LinesExact(lines: seq<Line>, log: seq<Session>) {
    && (forall k :: 0 <= k < |log| ==> 0 <= log[k].line < |lines|)
    && (forall i :: 0 <= i < |lines| ==> lines[i].ttotal == LineTime(log, i))
  }

  predicate Exact(site: Site, b: Books) { TableExact(site, b.table, b.log) && LinesExact(b.lines, b.log) }

  lemma {:induction false} FindMeans(table: seq<Ctab>, uid: int)
    ensures Find(table, uid) < |table| <==> exists j :: 0 <= j < |table| && table[j].uid == uid
  {
  }

  lemma ChargeExact(site: Site, table: seq<Ctab>, log: seq<Session>, i: int, name: Name, start: int, dur: int)
    requires TableExact(site, table, log)
    ensures TableExact(site, Charge(site, table, name, start, dur),
        log + [Session(i, name, site.uidOf(name), start, dur)])
  {
    var x := Session(i, name, site.uidOf(name), start, dur);
    var log', table' := log + [x], Charge(site, table, name, start, dur);
    var f := Find(table, x.uid);
    if f == |table| {
      forall k | 0 <= k < |log| ensures log[k].uid != x.uid { FindMeans(table, log[k].uid); }
      UserUnused(site, log, x.uid);
    }
    forall j | 0 <= j < |table'| ensures EntryExact(site, log', table'[j]) {
      LogMore(log, x, table'[j].uid);
      PrimeMore(site, log, x, table'[j].uid);
      if j < |table| {
        assert EntryExact(site, log, table[j]) && (j != f && f < |table| ==> table[j].uid != table[f].uid);
      }
    }
    forall k | 0 <= k < |log'| ensures Find(table', log'[k].uid) < |table'| {
      var u := log'[k].uid;
      FindMeans(table, u);
      if k < |log| {
        var j :| 0 <= j < |table| && table[j].uid == u;
        assert table'[j].uid == u;
      } else {
        assert table'[f].uid == u;
      }
      FindMeans(table', u);
    }
  }

  lemma LinesExactMore(lines: seq<Line>, log: seq<Session>, x: Session, l: Line)
    requires LinesExact(lines, log) && 0 <= x.line < |lines| && l.ttotal == lines[x.line].ttotal + x.dur
    ensures LinesExact(lines[x.line := l], log + [x])
  {
    forall i | 0 <= i < |lines| ensures lines[x.line := l][i].ttotal == LineTime(log + [x], i) { LogMore(log, x, i); }
  }

  lemma LinesExactSame(lines: seq<Line>, log: seq<Session>, i: nat, l: Line)
    requires LinesExact(lines, log) && i < |lines| && l.ttotal == lines[i].ttotal
    ensures LinesExact(lines[i := l], log)
  {
  }

  lemma UpdateExact(site: Site, b: Books, i: nat, kind: Kind, name: Name, time: int)
    requires i < |b.lines| && Exact(site, b)
    ensures Exact(site, Update(site, b, i, kind, name, time))
  {
    var l := b.lines[i];
    var dur := time - l.ttime;
    if dur < 0 {
      LinesExactSame(b.lines, b.log, i, l.(ttime := time));
    } else if Ends(l, kind) {
      ChargeExact(site, b.table, b.log, i, l.tname, l.ttime, dur);
      LinesExactMore(b.lines, b.log, Session(i, l.tname, site.uidOf(l.tname), l.ttime, dur),
          Updated(l, dur, kind, name, time));
    } else {
      LinesExactSame(b.lines, b.log, i, Updated(l, 0, kind, name, time));
    }
  }

  lemma {:induction false} UpAllExact(site: Site, b: Books, i: nat, time: int)
    requires i <= |b.lines| && Exact(site, b)
    ensures Exact(site, UpAll(site, b, i, time))
    decreases |b.lines| - i
  {
    if i < |b.lines| {
      UpdateExact(site, b, i, DeadProcess, [], time);
      UpAllExact(site, Update(site, b, i, DeadProcess, [], time), i + 1, time);
    }
  }

  lemma OnLineExact(site: Site, b: Books, r: Wtmp)
    requires Exact(site, b)
    ensures Exact(site, OnLine(site, b, r))
  {
    LineUnused(b.log, |b.lines|);
    UpdateExact(site, b.(lines := WithLine(b.lines, r.line)), Index(b.lines, r.line), r.kind, r.name, r.time);
  }

  lemma StepExact(site: Site, s: State, r: Wtmp)
    requires Exact(site, s.books)
    ensures Exact(site, Step(site, s, r).books)
  {
    UpAllExact(site, s.books, 0, r.time);
    OnLineExact(site, s.books, r);
  }

  /** Whatever the log, every line's total is the time of the sessions on it, and every user
      has one entry with the prime time, the other time and the number of that user's sessions. */
  lemma {:induction false} RunExact(site: Site, s: State, rs: seq<Wtmp>)
    requires Exact(site, s.books)
    ensures Exact(site, Run(site, s, rs).books)
    decreases |rs|
  {
    if rs != [] {
      StepExact(site, s, rs[0]);
      RunExact(site, Step(site, s, rs[0]), rs[1..]);
    }
  }

  // ----- sessions without a name -----

  predicate Named(r: Wtmp) { r.kind.UserProcess? ==> r.name != [] }

  lemma {:induction false} UpAllBlank(site: Site, b: Books, i: nat, time: int)
    requires i <= |b.lines|
    ensures UpAll(site, b, i, time).blank == b.blank
    decreases |b.lines| - i
  {
    if i < |b.lines| { UpAllBlank(site, Update(site, b, i, DeadProcess, [], time), i + 1, time); }
  }

  lemma {:induction false} RunNamed(site: Site, s: State, rs: seq<Wtmp>)
    requires forall i :: 0 <= i < |rs| ==> Named(rs[i])
    ensures Run(site, s, rs).books.blank == s.books.blank
    decreases |rs|
  {
    if rs != [] {
      UpAllBlank(site, s.books, 0, rs[0].time);
      assert Named(rs[0]);
      assert Step(site, s, rs[0]).books.blank == s.books.blank;
      RunNamed(site, Step(site, s, rs[0]), rs[1..]);
    }
  }

  predicate Conserved(b: Books) {
    ConSum(b.table) == LineSum(b.lines) && SeenSum(b.lines) == SessSum(b.table) + OpenSum(b.lines)
  }

  /** From the start, if every login has a name: connect time and sessions are conserved. */
  lemma RunConserves(site: Site, s: State, rs: seq<Wtmp>) returns (end: State)
    requires s == INITIAL && forall i :: 0 <= i < |rs| ==> Named(rs[i])
    ensures end == Run(site, s, rs) && Conserved(end.books)
  {
    end := RunBalanced(site, s, rs);
    RunNamed(site, s, rs);
  }

  lemma RunBalanced(site: Site, s: State, rs: seq<Wtmp>) returns (end: State)
    requires s == INITIAL
    ensures end == Run(site, s, rs) && Balanced(end.books)
  {
    end := Run(site, s, rs);
    RunBalance(site, s, rs);
  }

  // ----- sessions in time -----

  function Finish(x: Session): int { x.start + x.dur }

  /** The line stands at a time up to `now`; a session on it began at `from` or later, and what
      it was charged fits in the time since. */
  predicate LineInTime(l: Line, from: int, now: int) {
    && l.ttime <= now && (l.tname != [] ==> from <= l.ttime)
    && 0 <= l.ttotal && (l.ttotal != 0 ==> l.ttotal <= l.ttime - from)
  }

  /** A charged session lies before the time of its line. */
  predicate SessionInTime(x: Session, lines: seq<Line>, from: int) {
    0 <= x.line < |lines| && x.dur >= 0 && from <= x.start && Finish(x) <= lines[x.line].ttime
  }

  /** Sessions on the same line that come later begin later. */
  predicate NoOverlap(log: seq<Session>, k: int)
    requires 0 <= k < |log|
  {
    forall m :: k < m < |log| && log[m].line == log[k].line ==> Finish(log[k]) <= log[m].start
  }

  predicate InTime(b: Books, from: int, now: int) {
    && (forall i :: 0 <= i < |b.lines| ==> LineInTime(b.lines[i], from, now))
    && (forall k :: 0 <= k < |b.log| ==> SessionInTime(b.log[k], b.lines, from) && NoOverlap(b.log, k))
  }

  lemma UpdateInTime(site: Site, b: Books, i: nat, kind: Kind, name: Name, from: int, now: int, time: int)
    requires i < |b.lines| && InTime(b, from, now) && from <= time && now <= time
    ensures InTime(Update(site, b, i, kind, name, time), from, time)
    ensures Update(site, b, i, kind, name, time).exitcode == b.exitcode
  {
    var l, r := b.lines[i], Update(site, b, i, kind, name, time);
    assert LineInTime(l, from, now);
    forall j | 0 <= j < |r.lines| ensures LineInTime(r.lines[j], from, time) {
      assert LineInTime(b.lines[j], from, now);
    }
    forall k | 0 <= k < |r.log| ensures SessionInTime(r.log[k], r.lines, from) && NoOverlap(r.log, k) {
      if k < |b.log| { assert SessionInTime(b.log[k], b.lines, from) && NoOverlap(b.log, k); }
    }
  }

  lemma {:induction false} UpAllInTime(site: Site, b: Books, i: nat, from: int, time: int)
    requires i <= |b.lines| && InTime(b, from, time) && from <= time
    ensures InTime(UpAll(site, b, i, time), from, time) && UpAll(site, b, i, time).exitcode == b.exitcode
    decreases |b.lines| - i
  {
    if i < |b.lines| {
      UpdateInTime(site, b, i, DeadProcess, [], from, time, time);
      UpAllInTime(site, Update(site, b, i, DeadProcess, [], time), i + 1, from, time);
    }
  }

  lemma Wait(b: Books, from: int, now: int, time: int)
    requires InTime(b, from, now) && now <= time
    ensures InTime(b, from, time)
  {
    forall j | 0 <= j < |b.lines| ensures LineInTime(b.lines[j], from, time) {
      assert LineInTime(b.lines[j], from, now);
    }
  }

  lemma OnLineInTime(site: Site, b: Books, r: Wtmp, from: int, now: int)
    requires InTime(b, from, now) && from <= r.time && now <= r.time && 0 <= now
    ensures InTime(OnLine(site, b, r), from, r.time) && OnLine(site, b, r).exitcode == b.exitcode
  {
    var b1 := b.(lines := WithLine(b.lines, r.line));
    assert InTime(b1, from, now) by {
      forall j | 0 <= j < |b1.lines| ensures LineInTime(b1.lines[j], from, now) {
        if j < |b.lines| { assert LineInTime(b.lines[j], from, now); }
      }
      forall k | 0 <= k < |b.log| ensures SessionInTime(b.log[k], b1.lines, from) {
        assert SessionInTime(b.log[k], b.lines, from);
      }
    }
    UpdateInTime(site, b1, Index(b.lines, r.line), r.kind, r.name, from, now, r.time);
  }

  /** The log runs forward from `now`, and the clock is never set. */
  predicate Forward(rs: seq<Wtmp>, now: int) {
    rs == [] || (now <= rs[0].time && !rs[0].kind.NewTime? && Forward(rs[1..], rs[0].time))
  }

  function LastTime(rs: seq<Wtmp>, now: int): int { if rs == [] then now else LastTime(rs[1..], rs[0].time) }

  lemma StepInTime(site: Site, s: State, r: Wtmp, from: int, now: int)
    requires InTime(s.books, from, now) && from <= r.time && 0 <= now <= r.time && !r.kind.NewTime?
    ensures InTime(Step(site, s, r).books, from, r.time) && Step(site, s, r).books.exitcode == s.books.exitcode
  {
    Wait(s.books, from, now, r.time);
    UpAllInTime(site, s.books, 0, from, r.time);
    OnLineInTime(site, s.books, r, from, now);
  }

  lemma {:induction false} RunInTime(site: Site, s: State, rs: seq<Wtmp>, from: int, now: int)
    requires InTime(s.books, from, now) && Forward(rs, now) && 0 <= from <= now
    ensures InTime(Run(site, s, rs).books, from, LastTime(rs, now))
            && Run(site, s, rs).books.exitcode == s.books.exitcode
    decreases |rs|
  {
    if rs != [] {
      StepInTime(site, s, rs[0], from, now);
      RunInTime(site, Step(site, s, rs[0]), rs[1..], from, rs[0].time);
    }
  }

  /** On a log that runs forward without changes of the clock, no record is refused, the
      sessions on a line do not overlap, and a line is charged no more than the time the log
      covers. */
  lemma SessionsFit(site: Site, rs: seq<Wtmp>, i: nat)
    requires rs != [] && 0 <= rs[0].time && Forward(rs, rs[0].time)
    requires i < |Run(site, INITIAL, rs).books.lines|
    ensures var b := Run(site, INITIAL, rs).books;
            && b.exitcode == 0 && 0 <= b.lines[i].ttotal <= LastTime(rs, rs[0].time) - rs[0].time
            && forall k, m :: 0 <= k < m < |b.log| && b.log[k].line == b.log[m].line ==>
                Finish(b.log[k]) <= b.log[m].start
  {
    var from := rs[0].time;
    RunInTime(site, INITIAL, rs, from, from);
    var b := Run(site, INITIAL, rs).books;
    assert LineInTime(b.lines[i], from, LastTime(rs, from));
    LastIsLate(rs, from);
    forall k, m | 0 <= k < m < |b.log| && b.log[k].line == b.log[m].line ensures Finish(b.log[k]) <= b.log[m].start {
      assert NoOverlap(b.log, k);
    }
  }

  lemma {:induction false} LastIsLate(rs: seq<Wtmp>, now: int)
    requires Forward(rs, now)
    ensures now <= LastTime(rs, now)
  {
    if rs != [] { LastIsLate(rs[1..], rs[0].time); }
  }
}
