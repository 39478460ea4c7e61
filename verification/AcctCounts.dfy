/** The counts of usr/src/cmd/acct/acctcon.c against the log: how often each line was logged in
    to and off, and whether any record was refused. */
module AcctCounts {
  import opened AcctRecords
  import opened AcctCon
  import opened AcctLog
  import opened AcctBoot
  import opened Utmp

  // ----- counts of the log -----

  /** A record behind the log `pre` that is not older than the line. */
  predicate Current(pre: seq<Wtmp>, r: Wtmp, line: Name) { Standing(pre, line) <= r.time }

  /** A login on the line that is taken. */
  predicate LoginOn(pre: seq<Wtmp>, r: Wtmp, line: Name) {
    r.line != [] && r.line == line && r.kind.UserProcess? && Current(pre, r, line)
  }

  /** A logoff that is taken, or a boot once the line has been heard of. */
  predicate LogoffOn(pre: seq<Wtmp>, r: Wtmp, line: Name) {
    && r.line != [] && Current(pre, r, line)
    && ((r.line == line && r.kind.DeadProcess?) || (r.kind.BootTime? && Since(pre, line).Some?))
  }

  function Logins(rs: seq<Wtmp>, line: Name): nat {
    if rs == [] then 0
    else var pre := rs[..|rs| - 1]; Logins(pre, line) + if LoginOn(pre, rs[|rs| - 1], line) then 1 else 0
  }

  /** The logins on the line while nobody is on it. */
  function Arrivals(rs: seq<Wtmp>, line: Name): nat {
    if rs == [] then 0
    else
      var pre := rs[..|rs| - 1];
      Arrivals(pre, line) + if LoginOn(pre, rs[|rs| - 1], line) && Occupant(pre, line) == [] then 1 else 0
  }

  function Logoffs(rs: seq<Wtmp>, line: Name): nat {
    if rs == [] then 0
    else var pre := rs[..|rs| - 1]; Logoffs(pre, line) + if LogoffOn(pre, rs[|rs| - 1], line) then 1 else 0
  }

  /** What a record adds to the counts of a line. */
  function Added(pre: seq<Wtmp>, r: Wtmp, line: Name): (int, int, int) {
    (if LoginOn(pre, r, line) then 1 else 0,
     if LoginOn(pre, r, line) && Occupant(pre, line) == [] then 1 else 0,
     if LogoffOn(pre, r, line) then 1 else 0)
  }

  lemma {:induction false} CountsMore(rs: seq<Wtmp>, r: Wtmp, line: Name)
    ensures Logins(rs + [r], line) == Logins(rs, line) + Added(rs, r, line).0
    ensures Arrivals(rs + [r], line) == Arrivals(rs, line) + Added(rs, r, line).1
    ensures Logoffs(rs + [r], line) == Logoffs(rs, line) + Added(rs, r, line).2
  {
    assert (rs + [r])[..|rs|] == rs;
  }

  // ----- counts of the books -----

  /** `tlsess`, `tlon` and `tloff` of the line. */
  function CountsOf(lines: seq<Line>, line: Name): (int, int, int) {
    var i := Index(lines, line);
    if i < |lines| then (lines[i].tlsess, lines[i].tlon, lines[i].tloff) else (0, 0, 0)
  }

  predicate Plus(a: (int, int, int), b: (int, int, int), d: (int, int, int)) {
    a.0 == b.0 + d.0 && a.1 == b.1 + d.1 && a.2 == b.2 + d.2
  }

  lemma {:induction false} UpAllCounts(site: Site, b: Books, i: nat, time: int)
    requires i <= |b.lines|
    ensures var lines := UpAll(site, b, i, time).lines;
            && (forall j :: 0 <= j < i ==> lines[j] == b.lines[j])
            && (forall j :: i <= j < |b.lines| ==>
                lines[j].tlsess == b.lines[j].tlsess && lines[j].tlon == b.lines[j].tlon
                && lines[j].tloff == b.lines[j].tloff + if b.lines[j].ttime <= time then 1 else 0)
    decreases |b.lines| - i
  {
    if i < |b.lines| {
      var b' := Update(site, b, i, DeadProcess, [], time);
      UpAllCounts(site, b', i + 1, time);
      assert UpAll(site, b, i, time).lines[i] == b'.lines[i];
    }
  }

  lemma {:induction false} BootCounts(site: Site, b: Books, rs: seq<Wtmp>, r: Wtmp, line: Name)
    requires r.line != [] && r.kind.BootTime? && Since(rs, line) == TimeOf(b.lines, line)
    ensures Plus(CountsOf(UpAll(site, b, 0, r.time).lines, line), CountsOf(b.lines, line), Added(rs, r, line))
  {
    UpAllTimes(site, b, 0, r.time);
    UpAllCounts(site, b, 0, r.time);
    SameIndex(b.lines, UpAll(site, b, 0, r.time).lines, line);
  }

  lemma {:induction false} WithLineCounts(lines: seq<Line>, name: Name, line: Name)
    ensures CountsOf(WithLine(lines, name), line) == CountsOf(lines, line)
  {
    NewIndex(lines, Fresh(name), line);
  }

  /** The counts of the line of a record. */
  lemma {:induction false} UpdateCounts(site: Site, b: Books, i: nat, rs: seq<Wtmp>, r: Wtmp)
    requires i < |b.lines| && r.line != [] && OfProcess(r.kind)
    requires b.lines[i].ttime == Standing(rs, r.line) && b.lines[i].tname == Occupant(rs, r.line)
    ensures var l, l' := b.lines[i], Update(site, b, i, r.kind, r.name, r.time).lines[i];
            Plus((l'.tlsess, l'.tlon, l'.tloff), (l.tlsess, l.tlon, l.tloff), Added(rs, r, r.line))
  {
  }

  lemma {:induction false} OtherCounts(with: seq<Line>, after: seq<Line>, k: nat, rs: seq<Wtmp>, r: Wtmp, line: Name)
    requires SameNames(with, after) && k < |with| && with[k].tline == r.line != line && OfProcess(r.kind)
    requires forall j :: 0 <= j < |after| && j != k ==> after[j] == with[j]
    ensures Plus(CountsOf(after, line), CountsOf(with, line), Added(rs, r, line))
  {
    SameIndex(with, after, line);
  }

  lemma {:induction false} OnLineCounts(site: Site, b: Books, rs: seq<Wtmp>, r: Wtmp, line: Name)
    requires r.line != [] && OfProcess(r.kind)
    requires Since(rs, line) == TimeOf(b.lines, line) && Occupant(rs, line) == NameOf(b.lines, line)
    ensures Plus(CountsOf(OnLine(site, b, r).lines, line), CountsOf(b.lines, line), Added(rs, r, line))
  {
    var b1, k := b.(lines := WithLine(b.lines, r.line)), Index(b.lines, r.line);
    var after := OnLine(site, b, r).lines;
    UpdateTimes(site, b1, k, r.kind, r.name, r.time);
    WithLineCounts(b.lines, r.line, line);
    if line != r.line {
      OtherCounts(b1.lines, after, k, rs, r, line);
    } else {
      WithLineTimes(b.lines, r.line, line);
      SameIndex(b1.lines, after, line);
      UpdateCounts(site, b1, k, rs, r);
    }
  }

  lemma {:induction false} ShiftCounts(lines: seq<Line>, d: int, line: Name)
    ensures CountsOf(Shift(lines, d), line) == CountsOf(lines, line)
  {
    SameIndex(lines, Shift(lines, d), line);
  }

  lemma {:induction false} AddedNothing(pre: seq<Wtmp>, r: Wtmp, line: Name)
    requires r.line == [] || !(OfProcess(r.kind) || r.kind.BootTime?)
    ensures Added(pre, r, line) == (0, 0, 0)
  {
  }

  lemma {:induction false} StillCounts(before: seq<Line>, after: seq<Line>, d: int, rs: seq<Wtmp>, r: Wtmp, line: Name)
    requires r.line == [] || !(OfProcess(r.kind) || r.kind.BootTime?)
    requires after == before || after == Shift(before, d)
    ensures Plus(CountsOf(after, line), CountsOf(before, line), Added(rs, r, line))
  {
    AddedNothing(rs, r, line);
    ShiftCounts(before, d, line);
  }

  lemma {:induction false} ProcessCounts(site: Site, b: Books, rs: seq<Wtmp>, r: Wtmp, line: Name, after: seq<Line>,
                                         d: (int, int, int))
    requires r.line != [] && OfProcess(r.kind) && after == OnLine(site, b, r).lines && d == Added(rs, r, line)
    requires Since(rs, line) == TimeOf(b.lines, line) && Occupant(rs, line) == NameOf(b.lines, line)
    ensures Plus(CountsOf(after, line), CountsOf(b.lines, line), d)
  {
    OnLineCounts(site, b, rs, r, line);
  }

  lemma {:induction false} EveryCounts(site: Site, b: Books, rs: seq<Wtmp>, r: Wtmp, line: Name, after: seq<Line>,
                                       d: (int, int, int))
    requires r.line != [] && r.kind.BootTime? && after == UpAll(site, b, 0, r.time).lines && d == Added(rs, r, line)
    requires Since(rs, line) == TimeOf(b.lines, line)
    ensures Plus(CountsOf(after, line), CountsOf(b.lines, line), d)
  {
    BootCounts(site, b, rs, r, line);
  }

  lemma {:induction false} NoneCounts(before: seq<Line>, after: seq<Line>, e: int, rs: seq<Wtmp>, r: Wtmp, line: Name,
                                      d: (int, int, int))
    requires r.line == [] || !(OfProcess(r.kind) || r.kind.BootTime?)
    requires (after == before || after == Shift(before, e)) && d == Added(rs, r, line)
    ensures Plus(CountsOf(after, line), CountsOf(before, line), d)
  {
    StillCounts(before, after, e, rs, r, line);
  }

  lemma {:induction false} LinesCounts(site: Site, b: Books, datetime: int, rs: seq<Wtmp>, r: Wtmp, line: Name,
                                       after: seq<Line>, d: (int, int, int))
    requires Since(rs, line) == TimeOf(b.lines, line) && Occupant(rs, line) == NameOf(b.lines, line)
    requires r.line != [] && OfProcess(r.kind) ==> after == OnLine(site, b, r).lines
    requires r.line != [] && r.kind.BootTime? ==> after == UpAll(site, b, 0, r.time).lines
    requires r.line == [] || !(OfProcess(r.kind) || r.kind.BootTime?) ==>
               after == b.lines || after == Shift(b.lines, r.time - datetime)
    requires d == Added(rs, r, line)
    ensures Plus(CountsOf(after, line), CountsOf(b.lines, line), d)
  {
    if r.line == [] || !(OfProcess(r.kind) || r.kind.BootTime?) {
      NoneCounts(b.lines, after, r.time - datetime, rs, r, line, d);
    } else if r.kind.BootTime? {
      EveryCounts(site, b, rs, r, line, after, d);
    } else {
      ProcessCounts(site, b, rs, r, line, after, d);
    }
  }

  lemma {:induction false} StepCounts(site: Site, s: State, rs: seq<Wtmp>, r: Wtmp, line: Name, after: seq<Line>,
                                      d: (int, int, int))
    requires after == Step(site, s, r).books.lines && d == Added(rs, r, line)
    requires Since(rs, line) == TimeOf(s.books.lines, line) && Occupant(rs, line) == NameOf(s.books.lines, line)
    ensures Plus(CountsOf(after, line), CountsOf(s.books.lines, line), d)
  {
    StepLines(site, s, r);
    LinesCounts(site, s.books, s.datetime, rs, r, line, after, d);
  }

  lemma {:induction false} CountsNext(before: (int, int, int), after: (int, int, int), d: (int, int, int),
                                      rs: seq<Wtmp>, r: Wtmp, line: Name)
    requires before == (Logins(rs, line), Arrivals(rs, line), Logoffs(rs, line))
    requires d == Added(rs, r, line) && Plus(after, before, d)
    ensures after == (Logins(rs + [r], line), Arrivals(rs + [r], line), Logoffs(rs + [r], line))
  {
    CountsMore(rs, r, line);
  }

  lemma {:induction false} RunMoreCounts(site: Site, s: State, rs: seq<Wtmp>, r: Wtmp, line: Name)
    requires Tracks(s, rs)
    requires CountsOf(s.books.lines, line) == (Logins(rs, line), Arrivals(rs, line), Logoffs(rs, line))
    ensures CountsOf(Step(site, s, r).books.lines, line) ==
            (Logins(rs + [r], line), Arrivals(rs + [r], line), Logoffs(rs + [r], line))
  {
    var after, d := Step(site, s, r).books.lines, Added(rs, r, line);
    assert Since(rs, line) == TimeOf(s.books.lines, line) && Occupant(rs, line) == NameOf(s.books.lines, line);
    StepCounts(site, s, rs, r, line, after, d);
    CountsNext(CountsOf(s.books.lines, line), CountsOf(after, line), d, rs, r, line);
  }

  /** Whatever the log: the counts of every line are the numbers of its logins, of those on the
      line when nobody was on it, and of its logoffs and boots; the refused ones left out. */
  lemma {:induction false} RunCounts(site: Site, rs: seq<Wtmp>, line: Name)
    ensures CountsOf(Run(site, INITIAL, rs).books.lines, line) ==
            (Logins(rs, line), Arrivals(rs, line), Logoffs(rs, line))
    decreases |rs|
  {
    if rs != [] {
      var init, r := rs[..|rs| - 1], rs[|rs| - 1];
      assert rs == init + [r];
      RunCounts(site, init, line);
      RunMore(site, INITIAL, init, r);
      RunTracks(site, init);
      RunMoreCounts(site, Run(site, INITIAL, init), init, r, line);
    }
  }

  // ----- the exit code -----

  /** A record older than a line it is about. */
  predicate RefusedOn(pre: seq<Wtmp>, r: Wtmp, line: Name) {
    && r.line != [] && r.time < Standing(pre, line)
    && ((OfProcess(r.kind) && r.line == line) || (r.kind.BootTime? && Since(pre, line).Some?))
  }

  ghost predicate Refused(pre: seq<Wtmp>, r: Wtmp) { exists line: Name :: RefusedOn(pre, r, line) }

  ghost predicate NoneRefused(rs: seq<Wtmp>) { forall i :: 0 <= i < |rs| ==> !Refused(rs[..i], rs[i]) }

  lemma {:induction false} UpAllCode(site: Site, b: Books, i: nat, time: int)
    requires i <= |b.lines|
    ensures UpAll(site, b, i, time).exitcode ==
            if exists j :: i <= j < |b.lines| && time < b.lines[j].ttime then 1 else b.exitcode
    decreases |b.lines| - i
  {
    if i < |b.lines| {
      var b' := Update(site, b, i, DeadProcess, [], time);
      UpAllCode(site, b', i + 1, time);
      assert forall j :: i < j < |b.lines| ==> b'.lines[j] == b.lines[j];
    }
  }

  lemma {:induction false} BootCode(site: Site, b: Books, rs: seq<Wtmp>, r: Wtmp)
    requires r.line != [] && r.kind.BootTime? && forall line: Name :: Since(rs, line) == TimeOf(b.lines, line)
    requires Distinct(b.lines)
    ensures UpAll(site, b, 0, r.time).exitcode == if Refused(rs, r) then 1 else b.exitcode
  {
    UpAllCode(site, b, 0, r.time);
    if line: Name :| RefusedOn(rs, r, line) {
      assert Since(rs, line) == TimeOf(b.lines, line);
      assert r.time < b.lines[Index(b.lines, line)].ttime;
    }
    if j :| 0 <= j < |b.lines| && r.time < b.lines[j].ttime {
      var line := b.lines[j].tline;
      DistinctIndex(b.lines, j);
      assert Since(rs, line) == TimeOf(b.lines, line);
      assert RefusedOn(rs, r, line);
    }
  }

  lemma {:induction false} OnLineCode(site: Site, b: Books, rs: seq<Wtmp>, r: Wtmp)
    requires r.line != [] && OfProcess(r.kind) && Since(rs, r.line) == TimeOf(b.lines, r.line)
    ensures OnLine(site, b, r).exitcode == if Refused(rs, r) then 1 else b.exitcode
  {
    assert Refused(rs, r) <==> RefusedOn(rs, r, r.line);
  }

  lemma {:induction false} StepCode(site: Site, s: State, rs: seq<Wtmp>, r: Wtmp)
    requires Tracks(s, rs) && Distinct(s.books.lines)
    ensures Step(site, s, r).books.exitcode == if Refused(rs, r) then 1 else s.books.exitcode
  {
    if r.line != [] && OfProcess(r.kind) {
      OnLineCode(site, s.books, rs, r);
    } else if r.line != [] && r.kind.BootTime? {
      BootCode(site, s.books, rs, r);
    }
  }

  /** The exit code is 0 exactly if no record was older than a line it is about, and else 1. */
  lemma {:induction false} RunCode(site: Site, rs: seq<Wtmp>)
    ensures Run(site, INITIAL, rs).books.exitcode == if NoneRefused(rs) then 0 else 1
    decreases |rs|
  {
    if rs != [] {
      var init, r := rs[..|rs| - 1], rs[|rs| - 1];
      assert rs == init + [r];
      RunCode(site, init);
      RunMore(site, INITIAL, init, r);
      RunTracks(site, init);
      RunDistinct(site, INITIAL, init);
      StepCode(site, Run(site, INITIAL, init), init, r);
      forall i | 0 <= i < |init| ensures rs[..i] == init[..i] && rs[i] == init[i] { }
    }
  }
}
