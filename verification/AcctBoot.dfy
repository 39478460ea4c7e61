/** What a boot charges in usr/src/cmd/acct/acctcon.c: the session on every line that has one
    and is not ahead of the boot, once, and nothing else. */
module AcctBoot {
  import opened AcctRecords
  import opened AcctCon
  import opened AcctLog
  import opened Utmp

  // ----- over the lines -----

  /** The session on line `i`, if it ends at `time`. */
  function SessionAt(site: Site, lines: seq<Line>, i: nat, time: int): Session
    requires i < |lines|
  {
    var l := lines[i];
    Session(i, l.tname, site.uidOf(l.tname), l.ttime, time - l.ttime)
  }

  /** Somebody is on the line, and not from later than `time`. */
  predicate Taken(l: Line, time: int) { l.tname != [] && l.ttime <= time }

  /** The sessions that end at `time` on the lines from `i` on. */
  function EndedFrom(site: Site, lines: seq<Line>, i: nat, time: int): seq<Session>
    requires i <= |lines|
    decreases |lines| - i
  {
    if i == |lines| then []
    else (if Taken(lines[i], time) then [SessionAt(site, lines, i, time)] else []) + EndedFrom(site, lines, i + 1, time)
  }

  lemma {:induction false} EndedSame(site: Site, a: seq<Line>, b: seq<Line>, i: nat, time: int)
    requires i <= |a| == |b| && forall j :: i <= j < |a| ==> a[j] == b[j]
    ensures EndedFrom(site, a, i, time) == EndedFrom(site, b, i, time)
    decreases |a| - i
  {
    if i < |a| { EndedSame(site, a, b, i + 1, time); }
  }

  lemma {:induction false} DeadLog(site: Site, b: Books, i: nat, time: int)
    requires i < |b.lines|
    ensures var b' := Update(site, b, i, DeadProcess, [], time);
            && b'.log == b.log + (if Taken(b.lines[i], time) then [SessionAt(site, b.lines, i, time)] else [])
            && forall j :: i < j < |b.lines| ==> b'.lines[j] == b.lines[j]
  {
  }

  lemma {:induction false} UpAllLog(site: Site, b: Books, i: nat, time: int)
    requires i <= |b.lines|
    ensures UpAll(site, b, i, time).log == b.log + EndedFrom(site, b.lines, i, time)
    decreases |b.lines| - i
  {
    if i == |b.lines| {
      assert b.log + [] == b.log;
    } else {
      var b' := Update(site, b, i, DeadProcess, [], time);
      DeadLog(site, b, i, time);
      UpAllLog(site, b', i + 1, time);
      EndedSame(site, b.lines, b'.lines, i + 1, time);
    }
  }

  /** Each of them is the session of a line, and the lines are in order: no line has two. */
  predicate OfLines(site: Site, lines: seq<Line>, i: nat, time: int, es: seq<Session>) {
    && (forall k :: 0 <= k < |es| ==> i <= es[k].line < |lines|)
    && (forall k :: 0 <= k < |es| ==> Taken(lines[es[k].line], time))
    && (forall k :: 0 <= k < |es| ==> es[k] == SessionAt(site, lines, es[k].line, time))
    && (forall j, k :: 0 <= j < k < |es| ==> es[j].line < es[k].line)
  }

  lemma {:induction false} OfLinesMore(site: Site, lines: seq<Line>, i: nat, time: int, es: seq<Session>)
    requires i < |lines| && Taken(lines[i], time) && OfLines(site, lines, i + 1, time, es)
    ensures OfLines(site, lines, i, time, [SessionAt(site, lines, i, time)] + es)
  {
  }

  lemma {:induction false} EndedEach(site: Site, lines: seq<Line>, i: nat, time: int)
    requires i <= |lines|
    ensures OfLines(site, lines, i, time, EndedFrom(site, lines, i, time))
    decreases |lines| - i
  {
    if i < |lines| {
      EndedEach(site, lines, i + 1, time);
      if Taken(lines[i], time) {
        OfLinesMore(site, lines, i, time, EndedFrom(site, lines, i + 1, time));
      } else {
        assert EndedFrom(site, lines, i, time) == EndedFrom(site, lines, i + 1, time);
      }
    }
  }

  /** No line is left out. */
  lemma {:induction false} EndedAll(site: Site, lines: seq<Line>, i: nat, time: int, j: nat) returns (k: nat)
    requires i <= j < |lines| && Taken(lines[j], time)
    ensures var es := EndedFrom(site, lines, i, time);
            k < |es| && es[k] == SessionAt(site, lines, j, time)
    decreases j - i
  {
    if i == j {
      k := 0;
    } else {
      k := EndedAll(site, lines, i + 1, time, j);
      if Taken(lines[i], time) { k := k + 1; }
    }
  }

  // ----- every line has one place -----

  predicate Distinct(lines: seq<Line>) {
    forall i, j :: 0 <= i < j < |lines| ==> lines[i].tline != lines[j].tline
  }

  lemma {:induction false} UpdateDistinct(site: Site, b: Books, i: nat, kind: Kind, name: Name, time: int)
    requires i < |b.lines| && Distinct(b.lines)
    ensures Distinct(Update(site, b, i, kind, name, time).lines)
  {
    UpdateTimes(site, b, i, kind, name, time);
  }

  lemma {:induction false} StepDistinct(site: Site, s: State, r: Wtmp)
    requires Distinct(s.books.lines)
    ensures Distinct(Step(site, s, r).books.lines)
  {
    StepLines(site, s, r);
    UpAllTimes(site, s.books, 0, r.time);
    var with := WithLine(s.books.lines, r.line);
    UpdateDistinct(site, s.books.(lines := with), Index(s.books.lines, r.line), r.kind, r.name, r.time);
  }

  lemma {:induction false} RunDistinct(site: Site, s: State, rs: seq<Wtmp>)
    requires Distinct(s.books.lines)
    ensures Distinct(Run(site, s, rs).books.lines)
    decreases |rs|
  {
    if rs != [] {
      StepDistinct(site, s, rs[0]);
      RunDistinct(site, Step(site, s, rs[0]), rs[1..]);
    }
  }

  lemma {:induction false} DistinctIndex(lines: seq<Line>, i: nat)
    requires i < |lines| && Distinct(lines)
    ensures Index(lines, lines[i].tline) == i
  {
    assert Index(lines, lines[i].tline) <= i;
  }

  // ----- over the log -----

  /** Somebody is on the line behind the log, and not from later than `time`. */
  predicate Occupied(rs: seq<Wtmp>, line: Name, time: int) {
    Occupant(rs, line) != [] && Standing(rs, line) <= time
  }

  /** The session of whoever is on the line behind the log, if it ends at `time`. */
  function SessionOn(site: Site, rs: seq<Wtmp>, line: Name, time: int): Session {
    var who, start := Occupant(rs, line), Standing(rs, line);
    Session(Index(Run(site, INITIAL, rs).books.lines, line), who, site.uidOf(who), start, time - start)
  }

  /** `ended` has one session for every line on which somebody is, and no other. */
  ghost predicate EndsEach(site: Site, rs: seq<Wtmp>, time: int, ended: seq<Session>) {
    && (forall line: Name :: Occupied(rs, line, time) ==> SessionOn(site, rs, line, time) in ended)
    && (forall x :: x in ended ==>
          exists line: Name :: Occupied(rs, line, time) && x == SessionOn(site, rs, line, time))
    && (forall j, k :: 0 <= j < k < |ended| ==> ended[j].line < ended[k].line)
  }

  /** A line of the books and the line of the log. */
  lemma {:induction false} TakenIsOccupied(site: Site, rs: seq<Wtmp>, lines: seq<Line>, i: nat, time: int)
    requires lines == Run(site, INITIAL, rs).books.lines && i < |lines|
    ensures Taken(lines[i], time) <==> Occupied(rs, lines[i].tline, time)
    ensures SessionAt(site, lines, i, time) == SessionOn(site, rs, lines[i].tline, time)
  {
    RunDistinct(site, INITIAL, rs);
    DistinctIndex(lines, i);
    RunTracks(site, rs);
    var line := lines[i].tline;
    assert Since(rs, line) == TimeOf(lines, line) && Occupant(rs, line) == NameOf(lines, line);
  }

  lemma {:induction false} OccupiedHasLine(site: Site, rs: seq<Wtmp>, lines: seq<Line>, line: Name, time: int)
    requires lines == Run(site, INITIAL, rs).books.lines && Occupied(rs, line, time)
    ensures Index(lines, line) < |lines|
  {
    RunTracks(site, rs);
    assert Occupant(rs, line) == NameOf(lines, line);
  }

  lemma {:induction false} EndedIsEach(site: Site, rs: seq<Wtmp>, lines: seq<Line>, time: int)
    requires lines == Run(site, INITIAL, rs).books.lines
    ensures EndsEach(site, rs, time, EndedFrom(site, lines, 0, time))
  {
    var ended := EndedFrom(site, lines, 0, time);
    EndedEach(site, lines, 0, time);
    forall line: Name | Occupied(rs, line, time) ensures SessionOn(site, rs, line, time) in ended {
      OccupiedHasLine(site, rs, lines, line, time);
      var i := Index(lines, line);
      TakenIsOccupied(site, rs, lines, i, time);
      var k := EndedAll(site, lines, 0, time, i);
    }
    forall x | x in ended
      ensures exists line: Name :: Occupied(rs, line, time) && x == SessionOn(site, rs, line, time)
    {
      TakenIsOccupied(site, rs, lines, x.line, time);
      assert Occupied(rs, lines[x.line].tline, time);
    }
  }

  /** A boot charges, behind what is charged already, exactly one session for every line on
      which somebody is and which does not stand later than the boot: from the time since when
      the line stands up to the boot. */
  lemma {:induction false} BootCharges(site: Site, rs: seq<Wtmp>, r: Wtmp) returns (ended: seq<Session>)
    requires r.line != [] && r.kind.BootTime?
    ensures Run(site, INITIAL, rs + [r]).books.log == Run(site, INITIAL, rs).books.log + ended
    ensures EndsEach(site, rs, r.time, ended)
  {
    var b := Run(site, INITIAL, rs).books;
    RunMore(site, INITIAL, rs, r);
    UpAllLog(site, b, 0, r.time);
    ended := EndedFrom(site, b.lines, 0, r.time);
    EndedIsEach(site, rs, b.lines, r.time);
  }

  /** A record charges nothing unless it ends a session: on its own line, or at a boot. */
  lemma {:induction false} OthersChargeNothing(site: Site, rs: seq<Wtmp>, r: Wtmp)
    requires r.line == [] || !(r.kind.BootTime? || r.kind.UserProcess? || r.kind.DeadProcess?)
    ensures Run(site, INITIAL, rs + [r]).books.log == Run(site, INITIAL, rs).books.log
  {
    RunMore(site, INITIAL, rs, r);
  }
}
