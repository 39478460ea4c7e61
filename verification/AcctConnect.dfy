/** The state and operations of usr/src/cmd/acct/acctcon.c. */
module AcctConnect {
  import opened AcctRecords
  import opened AcctCon
  import opened AcctBoot
  import opened Utmp

  lemma {:induction false} IndexIs(lines: seq<Line>, tline: Name, i: nat)
    requires i <= |lines| && (forall j :: 0 <= j < i ==> lines[j].tline != tline)
             && (i < |lines| ==> lines[i].tline == tline)
    ensures Index(lines, tline) == i
  {
  }

  lemma {:induction false} FindIs(table: seq<Ctab>, uid: int, i: nat)
    requires i <= |table| && (forall j :: 0 <= j < i ==> table[j].uid != uid) && (i < |table| ==> table[i].uid == uid)
    ensures Find(table, uid) == i
  {
  }

  class Connect {
    const site: Site
    var lines: seq<Line>
    var table: seq<Ctab>
    var datetime: int
    var lastime: int
    var ndates: int
    var exitcode: int
    /** The sessions charged, and the logins without a name. */
    ghost var log: seq<Session>
    ghost var blank: int

    ghost function Now(): Books
      reads this
    {
      Books(lines, table, log, blank, exitcode)
    }

    ghost function View(): State
      reads this
    {
      State(Now(), datetime, lastime, ndates)
    }

    constructor (site: Site)
      ensures this.site == site && View() == INITIAL
    {
      this.site := site;
      lines, table, datetime, lastime, ndates, exitcode := [], [], 0, 0, 0, 0;
      log, blank := [], 0;
    }

    /** `iline` */
    method Iline(tline: Name) returns (i: nat)
      modifies this`lines
      ensures i == Index(old(lines), tline) && lines == WithLine(old(lines), tline)
    {
      i := 0;
      while i < |lines|
        invariant 0 <= i <= |lines| && lines == old(lines) && forall j :: 0 <= j < i ==> lines[j].tline != tline
      {
        if lines[i].tline == tline {
          IndexIs(lines, tline, i);
          return;
        }
        i := i + 1;
      }
      IndexIs(lines, tline, i);
      lines := lines + [Fresh(tline)];
    }

    /** `enter`: the entry of the user is looked up, and made if there is none. */
    method EnterUser(c: Ctab)
      modifies this`table
      ensures table == Enter(old(table), c)
    {
      var i := 0;
      while i < |table| && table[i].uid != c.uid
        invariant 0 <= i <= |table| && forall j :: 0 <= j < i ==> table[j].uid != c.uid
      {
        i := i + 1;
      }
      FindIs(table, c.uid, i);
      if i == |table| {
        table := table + [c];
      } else {
        var t := table[i];
        table := table[i := t.(con0 := t.con0 + c.con0, con1 := t.con1 + c.con1, sess := t.sess + c.sess)];
      }
    }

    /** The end of a session on line `i`, which was there since `told`. */
    method EndSession(i: nat, told: int, tnew: int)
      requires i < |lines|
      modifies this`lines, this`table, this`log
      ensures var l := old(lines)[i];
              && lines == old(lines)[i := l.(ttotal := l.ttotal + (tnew - told))]
              && table == Charge(site, old(table), l.tname, told, tnew - told)
              && log == old(log) + [Session(i, l.tname, site.uidOf(l.tname), told, tnew - told)]
    {
      var name := lines[i].tname;
      var dur := tnew - told;
      var prime := site.prime(told, dur);
      EnterUser(Ctab(site.uidOf(name), name, prime, dur - prime, 1));
      log := log + [Session(i, name, site.uidOf(name), told, dur)];
      lines := lines[i := lines[i].(ttotal := lines[i].ttotal + dur)];
    }

    /** The case `USER_PROCESS` of `update`, once the line has the new time. */
    method LogOn(i: nat, name: Name, told: int, tnew: int)
      requires i < |lines| && lines[i].ttime == tnew
      modifies this`lines, this`table, this`log
      ensures var l, ends := old(lines)[i], old(lines)[i].tname != [];
              && lines == old(lines)[i := Updated(l, if ends then tnew - told else 0, UserProcess, name, tnew)]
              && table == (if ends then Charge(site, old(table), l.tname, told, tnew - told) else old(table))
              && log == (if ends then old(log) + [Session(i, l.tname, site.uidOf(l.tname), told, tnew - told)]
                         else old(log))
    {
      lines := lines[i := lines[i].(tlsess := lines[i].tlsess + 1)];
      if lines[i].tname != [] {
        EndSession(i, told, tnew);
      } else {
        lines := lines[i := lines[i].(tlon := lines[i].tlon + 1)];
      }
      lines := lines[i := lines[i].(tname := name)];
    }

    /** The case `DEAD_PROCESS`. */
    method LogOff(i: nat, told: int, tnew: int)
      requires i < |lines| && lines[i].ttime == tnew
      modifies this`lines, this`table, this`log
      ensures var l, ends := old(lines)[i], old(lines)[i].tname != [];
              && lines == old(lines)[i := Updated(l, if ends then tnew - told else 0, DeadProcess, [], tnew)]
              && table == (if ends then Charge(site, old(table), l.tname, told, tnew - told) else old(table))
              && log == (if ends then old(log) + [Session(i, l.tname, site.uidOf(l.tname), told, tnew - told)]
                         else old(log))
    {
      lines := lines[i := lines[i].(tloff := lines[i].tloff + 1)];
      if lines[i].tname != [] {
        EndSession(i, told, tnew);
        lines := lines[i := lines[i].(tname := [])];
      }
    }

    /** `update` */
    method UpdateLine(i: nat, kind: Kind, name: Name, tnew: int)
      requires i < |lines|
      modifies this`lines, this`table, this`log, this`blank, this`exitcode
      ensures Now() == Update(site, old(Now()), i, kind, name, tnew)
    {
      var told := lines[i].ttime;
      lines := lines[i := lines[i].(ttime := tnew)];
      if told > tnew {
        exitcode := 1;
        return;
      }
      if kind.UserProcess? {
        LogOn(i, name, told, tnew);
        blank := blank + Blank(kind, name);
      } else if kind.DeadProcess? {
        LogOff(i, told, tnew);
      }
    }

    /** `upall`: the sessions on all lines end, unless a line is ahead of `time`. */
    method UpdateAll(time: int)
      modifies this`lines, this`table, this`log, this`blank, this`exitcode
      ensures Now() == UpAll(site, old(Now()), 0, time)
      ensures log == old(log) + EndedFrom(site, old(lines), 0, time)
    {
      UpAllLog(site, Now(), 0, time);
      var i := 0;
      while i < |lines|
        invariant 0 <= i <= |lines| && UpAll(site, Now(), i, time) == UpAll(site, old(Now()), 0, time)
      {
        UpdateLine(i, DeadProcess, [], time);
        i := i + 1;
      }
    }

    /** The loop of `NEW_TIME`. */
    method ShiftAll(timediff: int)
      modifies this`lines
      ensures lines == Shift(old(lines), timediff)
    {
      var i := 0;
      while i < |lines|
        invariant 0 <= i <= |lines| == |old(lines)|
        invariant forall j :: 0 <= j < i ==> lines[j] == old(lines)[j].(ttime := old(lines)[j].ttime + timediff)
        invariant forall j :: i <= j < |lines| ==> lines[j] == old(lines)[j]
      {
        lines := lines[i := lines[i].(ttime := lines[i].ttime + timediff)];
        i := i + 1;
      }
    }

    /** `loop` */
    method Loop(r: Wtmp)
      modifies this
      ensures View() == Step(site, old(View()), r)
    {
      if r.line == [] { return; }
      match r.kind
      case OldTime => datetime := r.time;
      case NewTime =>
        if datetime == 0 { return; }
        ShiftAll(r.time - datetime);
        datetime := 0;
        ndates := ndates + 1;
      case BootTime =>
        UpdateAll(r.time);
        lastime := r.time;
      case Accounting | RunLevel => lastime := r.time;
      case UserProcess | LoginProcess | InitProcess | DeadProcess =>
        var i := Iline(r.line);
        UpdateLine(i, r.kind, r.name, r.time);
      case EmptyRec =>
    }

    /** The loop of `main` over the records of the log. */
    method Process(rs: seq<Wtmp>)
      modifies this
      ensures View() == Run(site, old(View()), rs)
    {
      ghost var rest := rs;
      var i := 0;
      while i < |rs|
        invariant 0 <= i <= |rs| && |rest| == |rs| - i && (forall k :: 0 <= k < |rest| ==> rest[k] == rs[i + k])
        invariant Run(site, View(), rest) == Run(site, old(View()), rs)
      {
        Loop(rs[i]);
        rest := rest[1..];
        i := i + 1;
      }
    }
  }
}
