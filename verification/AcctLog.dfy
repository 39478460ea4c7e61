/** What the log alone tells about a run of usr/src/cmd/acct/acctcon.c: since when each line
    stands as it does, which records are refused as too old, and so when sessions are
    conserved and from when they are charged. */
module AcctLog {
  import opened AcctRecords
  import opened AcctCon
  import opened AcctSessions
  import opened Utmp
  import opened Wrappers

  // ----- the log up to some point -----

  /** The old time of a change of the clock that is not complete yet, or 0. */
  function Pending(rs: seq<Wtmp>): int {
    if rs == [] then 0
    else
      var r, before := rs[|rs| - 1], Pending(rs[..|rs| - 1]);
      if r.line == [] then before else if r.kind.OldTime? then r.time else if r.kind.NewTime? then 0 else before
  }

  predicate OfProcess(kind: Kind) {
    kind.UserProcess? || kind.LoginProcess? || kind.InitProcess? || kind.DeadProcess?
  }

  /** The time a record leaves on a line that stood at `since`. */
  function Moved(since: Option<int>, pending: int, r: Wtmp, line: Name): Option<int> {
    if r.line == [] then since
    else if OfProcess(r.kind) then if r.line == line then Some(r.time) else since
    else if since.None? then None
    else if r.kind.BootTime? then Some(r.time)
    else if r.kind.NewTime? && pending != 0 then Some(since.value + (r.time - pending))
    else since
  }

  /** Since when the line stands as it does: the time of the last record of it, or of the last
      boot, as the clock shows it now. */
  function Since(rs: seq<Wtmp>, line: Name): Option<int> {
    if rs == [] then None
    else Moved(Since(rs[..|rs| - 1], line), Pending(rs[..|rs| - 1]), rs[|rs| - 1], line)
  }

  /** A line not heard of yet stands since the epoch. */
  function Standing(rs: seq<Wtmp>, line: Name): int {
    match Since(rs, line)
    case None => 0
    case Some(t) => t
  }

  /** Who is on a line after a record, when `who` was, and the line stood at `since`: a login
      or logoff that is not older than the line counts, and so does a boot. */
  function Replaced(who: Name, since: Option<int>, r: Wtmp, line: Name): Name {
    var taken := (if since.None? then 0 else since.value) <= r.time;
    if r.line == [] || !taken then who
    else if r.line == line && r.kind.UserProcess? then r.name
    else if r.line == line && r.kind.DeadProcess? then []
    else if since.Some? && r.kind.BootTime? then []
    else who
  }

  /** Who is on the line, nobody being the empty name. */
  function Occupant(rs: seq<Wtmp>, line: Name): Name {
    if rs == [] then []
    else Replaced(Occupant(rs[..|rs| - 1], line), Since(rs[..|rs| - 1], line), rs[|rs| - 1], line)
  }

  /** The two, as the books have them. */
  function NameOf(lines: seq<Line>, line: Name): Name {
    var i := Index(lines, line);
    if i < |lines| then lines[i].tname else []
  }

  function TimeOf(lines: seq<Line>, line: Name): Option<int> {
    var i := Index(lines, line);
    if i < |lines| then Some(lines[i].ttime) else None
  }

  /** The books agree with the log. */
  ghost predicate Tracks(s: State, rs: seq<Wtmp>) {
    && s.datetime == Pending(rs)
    && (forall line: Name :: Since(rs, line) == TimeOf(s.books.lines, line))
    && (forall line: Name :: Occupant(rs, line) == NameOf(s.books.lines, line))
  }

  lemma {:induction false} RunMore(site: Site, s: State, rs: seq<Wtmp>, r: Wtmp)
    ensures Run(site, s, rs + [r]) == Step(site, Run(site, s, rs), r)
    decreases |rs|
  {
    if rs == [] {
      assert rs + [r] == [r] && [r][1..] == [];
    } else {
      assert (rs + [r])[1..] == rs[1..] + [r];
      RunMore(site, Step(site, s, rs[0]), rs[1..], r);
    }
  }

  predicate SameNames(a: seq<Line>, b: seq<Line>) {
    |a| == |b| && forall i :: 0 <= i < |a| ==> a[i].tline == b[i].tline
  }

  lemma {:induction false} SameIndex(a: seq<Line>, b: seq<Line>, line: Name)
    requires SameNames(a, b)
    ensures Index(a, line) == Index(b, line)
  {
    if a != [] {
      assert a[0].tline == b[0].tline;
      SameIndex(a[1..], b[1..], line);
    }
  }

  lemma {:induction false} NewIndex(lines: seq<Line>, l: Line, line: Name)
    ensures Index(lines + [l], line) ==
            if Index(lines, line) < |lines| then Index(lines, line)
            else if l.tline == line then |lines| else |lines| + 1
  {
    if lines == [] {
      assert lines + [l] == [l] && [l][1..] == [];
    } else {
      assert (lines + [l])[1..] == lines[1..] + [l];
      NewIndex(lines[1..], l, line);
    }
  }

  /** The line `a` after a boot at `time`. */
  predicate LoggedOff(a: Line, b: Line, time: int) {
    b.ttime == time && b.tname == if a.ttime <= time then [] else a.tname
  }

  lemma {:induction false} UpAllTimes(site: Site, b: Books, i: nat, time: int)
    requires i <= |b.lines|
    ensures SameNames(b.lines, UpAll(site, b, i, time).lines)
    ensures forall j :: 0 <= j < i ==> UpAll(site, b, i, time).lines[j] == b.lines[j]
    ensures forall j :: i <= j < |b.lines| ==> LoggedOff(b.lines[j], UpAll(site, b, i, time).lines[j], time)
    decreases |b.lines| - i
  {
    if i < |b.lines| {
      var b' := Update(site, b, i, DeadProcess, [], time);
      UpAllTimes(site, b', i + 1, time);
      assert UpAll(site, b, i, time).lines[i] == b'.lines[i];
    }
  }

  /** `rs` is the log before `r`. */
  lemma {:induction false} SinceMore(rs: seq<Wtmp>, r: Wtmp, line: Name)
    ensures Since(rs + [r], line) == Moved(Since(rs, line), Pending(rs), r, line)
    ensures Occupant(rs + [r], line) == Replaced(Occupant(rs, line), Since(rs, line), r, line)
    ensures Pending(rs + [r]) ==
            if r.line == [] then Pending(rs) else if r.kind.OldTime? then r.time
            else if r.kind.NewTime? then 0 else Pending(rs)
  {
    assert (rs + [r])[..|rs|] == rs;
  }

  lemma {:induction false} WithLineTimes(lines: seq<Line>, name: Name, line: Name)
    ensures line != name ==> TimeOf(WithLine(lines, name), line) == TimeOf(lines, line)
    ensures NameOf(WithLine(lines, name), line) == NameOf(lines, line)
    ensures Index(WithLine(lines, name), name) == Index(lines, name)
  {
    NewIndex(lines, Fresh(name), line);
    NewIndex(lines, Fresh(name), name);
  }

  /** A record of a process on the line, taken if it is not older than it. */
  predicate RecordedOn(a: Line, b: Line, kind: Kind, name: Name, time: int) {
    && b.ttime == time
    && b.tname == if a.ttime > time then a.tname else if kind.UserProcess? then name
                  else if kind.DeadProcess? then [] else a.tname
  }

  lemma {:induction false} UpdateTimes(site: Site, b: Books, i: nat, kind: Kind, name: Name, time: int)
    requires i < |b.lines|
    ensures var lines := Update(site, b, i, kind, name, time).lines;
            && SameNames(b.lines, lines) && RecordedOn(b.lines[i], lines[i], kind, name, time)
            && forall j :: 0 <= j < |lines| && j != i ==> lines[j] == b.lines[j]
  {
  }

  /** Time and occupant of the line after a record of kind `r`. */
  predicate Recorded(before: seq<Line>, after: seq<Line>, pending: int, r: Wtmp, line: Name) {
    && TimeOf(after, line) == Moved(TimeOf(before, line), pending, r, line)
    && NameOf(after, line) == Replaced(NameOf(before, line), TimeOf(before, line), r, line)
  }

  /** Only the line of the record changes. */
  lemma {:induction false} LineTimes(before: seq<Line>, with: seq<Line>, k: nat, after: seq<Line>, pending: int,
                                     r: Wtmp, line: Name)
    requires r.line != [] && OfProcess(r.kind) && with == WithLine(before, r.line) && k == Index(before, r.line)
    requires SameNames(with, after) && k < |with| && RecordedOn(with[k], after[k], r.kind, r.name, r.time)
    requires forall j :: 0 <= j < |after| && j != k ==> after[j] == with[j]
    ensures Recorded(before, after, pending, r, line)
  {
    WithLineTimes(before, r.line, line);
    SameIndex(with, after, line);
    if line != r.line {
      var j := Index(with, line);
      assert j < |with| ==> j != k;
    } else {
      assert with[k].ttime == if k < |before| then before[k].ttime else 0;
    }
  }

  lemma {:induction false} OnLineTimes(site: Site, b: Books, pending: int, r: Wtmp, line: Name)
    requires r.line != [] && OfProcess(r.kind)
    ensures Recorded(b.lines, OnLine(site, b, r).lines, pending, r, line)
  {
    var b1, k := b.(lines := WithLine(b.lines, r.line)), Index(b.lines, r.line);
    UpdateTimes(site, b1, k, r.kind, r.name, r.time);
    LineTimes(b.lines, b1.lines, k, OnLine(site, b, r).lines, pending, r, line);
  }

  lemma {:induction false} BootTimes(site: Site, b: Books, pending: int, r: Wtmp, line: Name)
    requires r.line != [] && r.kind.BootTime?
    ensures Recorded(b.lines, UpAll(site, b, 0, r.time).lines, pending, r, line)
  {
    UpAllTimes(site, b, 0, r.time);
    var lines, i := UpAll(site, b, 0, r.time).lines, Index(b.lines, line);
    SameIndex(b.lines, lines, line);
    if i < |b.lines| { assert LoggedOff(b.lines[i], lines[i], r.time); }
  }

  lemma {:induction false} ShiftTimes(before: seq<Line>, after: seq<Line>, pending: int, r: Wtmp, line: Name)
    requires r.line != [] && r.kind.NewTime? && pending != 0 && |after| == |before|
    requires forall i :: 0 <= i < |after| ==> after[i] == before[i].(ttime := before[i].ttime + (r.time - pending))
    ensures Recorded(before, after, pending, r, line)
  {
    SameIndex(before, after, line);
  }

  lemma {:induction false} StillTimes(lines: seq<Line>, pending: int, r: Wtmp, line: Name)
    requires r.line == [] || !(OfProcess(r.kind) || r.kind.BootTime? || (r.kind.NewTime? && pending != 0))
    ensures Recorded(lines, lines, pending, r, line)
  {
  }

  lemma {:induction false} StepLines(site: Site, s: State, r: Wtmp)
    ensures Step(site, s, r).books.lines ==
            if r.line == [] then s.books.lines
            else if OfProcess(r.kind) then OnLine(site, s.books, r).lines
            else if r.kind.BootTime? then UpAll(site, s.books, 0, r.time).lines
            else if r.kind.NewTime? && s.datetime != 0 then Shift(s.books.lines, r.time - s.datetime)
            else s.books.lines
  {
  }

  lemma {:induction false} StepTimes(site: Site, s: State, r: Wtmp, line: Name)
    ensures Recorded(s.books.lines, Step(site, s, r).books.lines, s.datetime, r, line)
  {
    StepLines(site, s, r);
    var lines := s.books.lines;
    if r.line != [] && OfProcess(r.kind) {
      OnLineTimes(site, s.books, s.datetime, r, line);
    } else if r.line != [] && r.kind.BootTime? {
      BootTimes(site, s.books, s.datetime, r, line);
    } else if r.line != [] && r.kind.NewTime? && s.datetime != 0 {
      ShiftTimes(lines, Shift(lines, r.time - s.datetime), s.datetime, r, line);
    } else {
      StillTimes(lines, s.datetime, r, line);
    }
  }

  lemma {:induction false} TracksStep(site: Site, s: State, rs: seq<Wtmp>, r: Wtmp)
    requires Tracks(s, rs)
    ensures Tracks(Step(site, s, r), rs + [r])
  {
    forall line: Name
      ensures Since(rs + [r], line) == TimeOf(Step(site, s, r).books.lines, line)
      ensures Occupant(rs + [r], line) == NameOf(Step(site, s, r).books.lines, line)
    {
      SinceMore(rs, r, line);
      StepTimes(site, s, r, line);
    }
    SinceMore(rs, r, []);
  }

  lemma {:induction false} RunTracks(site: Site, rs: seq<Wtmp>)
    ensures Tracks(Run(site, INITIAL, rs), rs)
    decreases |rs|
  {
    if rs != [] {
      var init, r := rs[..|rs| - 1], rs[|rs| - 1];
      assert rs == init + [r];
      RunTracks(site, init);
      RunMore(site, INITIAL, init, r);
      TracksStep(site, Run(site, INITIAL, init), init, r);
    }
  }

  // ----- when sessions are conserved -----

  /** Record `i` is a login without a name, and not older than its line. */
  predicate TakenNameless(rs: seq<Wtmp>, i: nat)
    requires i < |rs|
  {
    && rs[i].line != [] && rs[i].kind.UserProcess? && rs[i].name == []
    && Standing(rs[..i], rs[i].line) <= rs[i].time
  }

  ghost predicate NoneNameless(rs: seq<Wtmp>) { forall i :: 0 <= i < |rs| ==> !TakenNameless(rs, i) }

  lemma {:induction false} StepBlank(site: Site, s: State, rs: seq<Wtmp>, r: Wtmp)
    requires Tracks(s, rs)
    ensures Step(site, s, r).books.blank ==
            s.books.blank + if TakenNameless(rs + [r], |rs|) then 1 else 0
  {
    assert (rs + [r])[..|rs|] == rs;
    assert Since(rs, r.line) == TimeOf(s.books.lines, r.line);
    UpAllBlank(site, s.books, 0, r.time);
  }

  lemma {:induction false} RunBlank(site: Site, rs: seq<Wtmp>)
    ensures Run(site, INITIAL, rs).books.blank >= 0
    ensures Run(site, INITIAL, rs).books.blank == 0 <==> NoneNameless(rs)
    decreases |rs|
  {
    if rs != [] {
      var init, r := rs[..|rs| - 1], rs[|rs| - 1];
      assert rs == init + [r];
      RunBlank(site, init);
      RunMore(site, INITIAL, init, r);
      RunTracks(site, init);
      StepBlank(site, Run(site, INITIAL, init), init, r);
      forall i | 0 <= i < |init| ensures TakenNameless(rs, i) <==> TakenNameless(init, i) {
        assert rs[..i] == init[..i];
      }
    }
  }

  /** Connect time and sessions are conserved exactly when no login without a name is taken. */
  lemma {:induction false} ConservedIffNamed(site: Site, rs: seq<Wtmp>)
    ensures Conserved(Run(site, INITIAL, rs).books) <==> NoneNameless(rs)
  {
    var end := RunBalanced(site, INITIAL, rs);
    RunBlank(site, rs);
  }

  lemma {:induction false} SinceBounded(rs: seq<Wtmp>, line: Name, now: int)
    requires forall i :: 0 <= i < |rs| ==> rs[i].time <= now && !rs[i].kind.NewTime?
    ensures Since(rs, line).Some? ==> Since(rs, line).value <= now
  {
    if rs != [] { SinceBounded(rs[..|rs| - 1], line, now); }
  }

  lemma {:induction false} ForwardTimes(rs: seq<Wtmp>, now: int, i: nat)
    requires Forward(rs, now) && i < |rs|
    ensures now <= rs[i].time && !rs[i].kind.NewTime? && forall j :: 0 <= j < i ==> rs[j].time <= rs[i].time
  {
    if i > 0 {
      ForwardTimes(rs[1..], rs[0].time, i - 1);
      forall j | 0 <= j < i ensures rs[j].time <= rs[i].time {
        if j > 0 { assert rs[j] == rs[1..][j - 1]; }
      }
    }
  }

  lemma {:induction false} ForwardTakes(rs: seq<Wtmp>, i: nat)
    requires Forward(rs, 0) && i < |rs|
    ensures TakenNameless(rs, i) <==> !(rs[i].line == [] || Named(rs[i]))
  {
    ForwardTimes(rs, 0, i);
    var now, before := rs[i].time, rs[..i];
    forall j | 0 <= j < |before| ensures before[j].time <= now && !before[j].kind.NewTime? {
      ForwardTimes(rs, 0, j);
    }
    SinceBounded(before, rs[i].line, now);
  }

  predicate AllNamed(rs: seq<Wtmp>) { forall i :: 0 <= i < |rs| ==> rs[i].line == [] || Named(rs[i]) }

  lemma {:induction false} ForwardNameless(rs: seq<Wtmp>)
    requires Forward(rs, 0)
    ensures NoneNameless(rs) <==> AllNamed(rs)
  {
    forall i | 0 <= i < |rs| ensures TakenNameless(rs, i) <==> !(rs[i].line == [] || Named(rs[i])) {
      ForwardTakes(rs, i);
    }
  }

  /** On a log that runs forward without changes of the clock: exactly when every login on a
      line has a name. */
  lemma {:induction false} ForwardConservedIffNamed(site: Site, rs: seq<Wtmp>)
    requires Forward(rs, 0)
    ensures Conserved(Run(site, INITIAL, rs).books) <==> AllNamed(rs)
  {
    ConservedIffNamed(site, rs);
    ForwardNameless(rs);
  }

  /** One login without a name: it is counted on its line and never charged. */
  lemma {:induction false} NamelessLost(site: Site, line: Name, t: int)
    requires line != [] && t >= 0
    ensures !Conserved(Run(site, INITIAL, [Wtmp(UserProcess, line, [], t)]).books)
  {
    var rs := [Wtmp(UserProcess, line, [], t)];
    assert rs[..0] == [];
    assert TakenNameless(rs, 0);
    ConservedIffNamed(site, rs);
  }

  /** The same login, older than its line: it is refused, and nothing is lost. */
  lemma {:induction false} NamelessRefused(site: Site, line: Name, t: int, older: int)
    requires line != [] && older < t
    ensures Conserved(Run(site, INITIAL, [Wtmp(LoginProcess, line, [], t), Wtmp(UserProcess, line, [], older)]).books)
  {
    var r, q := Wtmp(LoginProcess, line, [], t), Wtmp(UserProcess, line, [], older);
    var rs := [r, q];
    assert rs[..1] == [] + [r];
    SinceMore([], r, line);
    assert NoneNameless(rs);
    ConservedIffNamed(site, rs);
  }

  // ----- from when sessions are charged -----

  /** The log of sessions after a record of a process, from who was on the line and since when. */
  lemma {:induction false} OnLineLog(site: Site, b: Books, r: Wtmp, who: Name, since: Option<int>)
    requires who == NameOf(b.lines, r.line) && since == TimeOf(b.lines, r.line)
    ensures var start := if since.None? then 0 else since.value;
            OnLine(site, b, r).log ==
            if who != [] && (r.kind.UserProcess? || r.kind.DeadProcess?) && start <= r.time
            then b.log + [Session(Index(b.lines, r.line), who, site.uidOf(who), start, r.time - start)]
            else b.log
  {
  }

  /** A record charges at most one session: that of whoever is on its line, from the time since
      when the line stands, which is its last record of whatever kind and not only a login. */
  lemma {:induction false} ChargedSince(site: Site, rs: seq<Wtmp>, r: Wtmp)
    requires r.line != [] && OfProcess(r.kind)
    ensures var b, b' := Run(site, INITIAL, rs).books, Run(site, INITIAL, rs + [r]).books;
            var who, start := Occupant(rs, r.line), Standing(rs, r.line);
            if who != [] && (r.kind.UserProcess? || r.kind.DeadProcess?) && start <= r.time
            then b'.log == b.log + [Session(Index(b.lines, r.line), who, site.uidOf(who), start, r.time - start)]
            else b'.log == b.log
  {
    var s := Run(site, INITIAL, rs);
    RunTracks(site, rs);
    RunMore(site, INITIAL, rs, r);
    OnLineLog(site, s.books, r, Occupant(rs, r.line), Since(rs, r.line));
  }

  /** A record of a getty or of init on a line with a user moves that time: of the session only
      the part behind it is charged. */
  lemma {:induction false} LoginLosesTime(site: Site, line: Name, name: Name, kind: Kind, t0: int, t1: int, t2: int)
    requires line != [] && name != [] && (kind.LoginProcess? || kind.InitProcess?) && 0 <= t0 <= t1 <= t2
    ensures var rs := [Wtmp(UserProcess, line, name, t0)] + [Wtmp(kind, line, [], t1)];
            var b := Run(site, INITIAL, rs + [Wtmp(DeadProcess, line, [], t2)]).books;
            b.log == [Session(0, name, site.uidOf(name), t1, t2 - t1)]
  {
    var r0, r1, r2 := Wtmp(UserProcess, line, name, t0), Wtmp(kind, line, [], t1), Wtmp(DeadProcess, line, [], t2);
    var s0 := Step(site, INITIAL, r0);
    var s1 := Step(site, s0, r1);
    FirstLogin(site, line, name, t0);
    Answered(site, s0, line, name, kind, t0, t1);
    LoggedOut(site, s1, line, name, t1, t2);
    assert [] + [r0] == [r0];
    RunMore(site, INITIAL, [], r0);
    RunMore(site, INITIAL, [r0], r1);
    RunMore(site, INITIAL, [r0] + [r1], r2);
  }

  lemma {:induction false} FirstLogin(site: Site, line: Name, name: Name, t0: int)
    requires line != [] && name != [] && 0 <= t0
    ensures var b := Step(site, INITIAL, Wtmp(UserProcess, line, name, t0)).books;
            b.lines == [Line(line, name, t0, 1, 1, 0, 0)] && b.log == []
  {
  }

  lemma {:induction false} Answered(site: Site, s: State, line: Name, name: Name, kind: Kind, t0: int, t1: int)
    requires line != [] && name != [] && (kind.LoginProcess? || kind.InitProcess?) && t0 <= t1
    requires s.books.lines == [Line(line, name, t0, 1, 1, 0, 0)] && s.books.log == []
    ensures var b := Step(site, s, Wtmp(kind, line, [], t1)).books;
            b.lines == [Line(line, name, t1, 1, 1, 0, 0)] && b.log == []
  {
  }

  lemma {:induction false} LoggedOut(site: Site, s: State, line: Name, name: Name, t1: int, t2: int)
    requires line != [] && name != [] && t1 <= t2
    requires s.books.lines == [Line(line, name, t1, 1, 1, 0, 0)] && s.books.log == []
    ensures var b := Step(site, s, Wtmp(DeadProcess, line, [], t2)).books;
            b.log == [Session(0, name, site.uidOf(name), t1, t2 - t1)]
  {
  }
}
