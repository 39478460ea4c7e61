/** What usr/src/cmd/acct/wtmpfix.c is to do to a login log: times written before a change of
    the clock are moved to the new clock, back to the last boot. */
module WtmpChanges {
  import opened Utmp

  type Text = seq<int>

  datatype Rec = Rec(kind: Kind, line: Text, name: Text, time: int)

  // ----- run levels -----

  /** "run-level ", "S" and "2" */
  const RUN_LEVEL: Text := [114, 117, 110, 45, 108, 101, 118, 101, 108, 32]
  const SINGLE: Text := [83]
  const MULTI: Text := [50]

  /** `multimode` after a record: zero in single-user mode. */
  function NextMode(mode: int, r: Rec): int {
    if !r.kind.RunLevel? then mode
    else if RUN_LEVEL + SINGLE <= r.line then 0
    else if RUN_LEVEL + MULTI <= r.line then mode + 1
    else mode
  }

  function Mode(xs: seq<Rec>): int {
    if xs == [] then 0 else NextMode(Mode(xs[..|xs| - 1]), xs[|xs| - 1])
  }

  /** The characters of a string as bytes. */
  function Ascii(s: string): (t: Text)
    ensures |t| == |s| && forall i :: 0 <= i < |s| ==> t[i] == s[i] as int
  {
    seq(|s|, i requires 0 <= i < |s| => s[i] as int)
  }

  /** A record of going to multi-user mode, and one of going to single-user mode. */
  predicate ToMulti(r: Rec) {
    r.kind.RunLevel? && [114, 117, 110, 45, 108, 101, 118, 101, 108, 32, 50] <= r.line
  }

  predicate ToSingle(r: Rec) {
    r.kind.RunLevel? && [114, 117, 110, 45, 108, 101, 118, 101, 108, 32, 83] <= r.line
  }

  lemma LevelTexts()
    ensures RUN_LEVEL + MULTI == [114, 117, 110, 45, 108, 101, 118, 101, 108, 32, 50] == Ascii("run-level 2")
    ensures RUN_LEVEL + SINGLE == [114, 117, 110, 45, 108, 101, 118, 101, 108, 32, 83] == Ascii("run-level S")
  {
  }

  /** What a record does to the mode. */
  lemma {:induction false} NextModeMeans(mode: int, r: Rec)
    ensures NextMode(mode, r) == if ToSingle(r) then 0 else if ToMulti(r) then mode + 1 else mode
    ensures !(ToSingle(r) && ToMulti(r))
  {
    LevelTexts();
    assert ToSingle(r) ==> r.line[10] == 83;
    assert ToMulti(r) ==> r.line[10] == 50;
  }

  /** The system is in multi-user mode exactly if the log has it going there, and not going to
      single-user mode after that. */
  ghost predicate InMulti(xs: seq<Rec>) {
    exists i :: 0 <= i < |xs| && ToMulti(xs[i]) && forall j :: i < j < |xs| ==> !ToSingle(xs[j])
  }

  lemma {:induction false} InMultiMore(xs: seq<Rec>, r: Rec)
    ensures InMulti(xs + [r]) <==> ToMulti(r) || (InMulti(xs) && !ToSingle(r))
  {
    var all := xs + [r];
    assert all[|xs|] == r && forall i :: 0 <= i < |xs| ==> all[i] == xs[i];
    if InMulti(xs) && !ToSingle(r) {
      var i :| 0 <= i < |xs| && ToMulti(xs[i]) && forall j :: i < j < |xs| ==> !ToSingle(xs[j]);
      assert ToMulti(all[i]) && forall j :: i < j < |all| ==> !ToSingle(all[j]);
    }
    if ToMulti(r) { assert ToMulti(all[|xs|]); }
    if InMulti(all) && !ToMulti(r) {
      var i :| 0 <= i < |all| && ToMulti(all[i]) && forall j :: i < j < |all| ==> !ToSingle(all[j]);
      assert ToMulti(xs[i]) && !ToSingle(all[|xs|]);
      forall j | i < j < |xs| ensures !ToSingle(xs[j]) { assert !ToSingle(all[j]); }
    }
  }

  lemma {:induction false} ModeMeans(xs: seq<Rec>)
    ensures Mode(xs) >= 0 && (Mode(xs) != 0 <==> InMulti(xs))
  {
    if xs != [] {
      var init, r := xs[..|xs| - 1], xs[|xs| - 1];
      ModeMeans(init);
      NextModeMeans(Mode(init), r);
      assert xs == init + [r];
      InMultiMore(init, r);
    }
  }

  // ----- names -----

  predicate NameChar(c: int) {
    48 <= c <= 57 || 65 <= c <= 90 || 97 <= c <= 122 || c == 36 || c == 32 || c == 46 || c == 95 || c == 45
  }

  predicate Invalid(name: Text) { exists i :: 0 <= i < |name| && !NameChar(name[i]) }

  /** "INVALID" */
  const INVALID: Text := [73, 78, 86, 65, 76, 73, 68]

  function Clean(r: Rec): Rec { if Invalid(r.name) then r.(name := INVALID) else r }

  /** The log with bad names replaced; the second record of a change is not looked at. */
  function Cleaned(xs: seq<Rec>): (ys: seq<Rec>)
    ensures |ys| == |xs|
  {
    if xs == [] then []
    else
      var n := |xs| - 1;
      Cleaned(xs[..n]) + [if n > 0 && xs[n - 1].kind.OldTime? then xs[n] else Clean(xs[n])]
  }

  /** The characters of a name are letters, digits and five others. */
  lemma NameCharMeans(c: char)
    ensures NameChar(c as int) <==>
            'a' <= c <= 'z' || 'A' <= c <= 'Z' || '0' <= c <= '9' || c in ['$', ' ', '.', '_', '-']
    ensures INVALID == Ascii("INVALID")
  {
  }

  /** Only names are replaced, and exactly those with another character in them that do not
      stand directly behind the first record of a change. */
  lemma {:induction false} CleanedMeans(xs: seq<Rec>, i: nat)
    requires i < |xs|
    ensures Cleaned(xs)[i] ==
            if Invalid(xs[i].name) && !(i > 0 && xs[i - 1].kind.OldTime?) then xs[i].(name := INVALID) else xs[i]
    decreases |xs|
  {
    var n := |xs| - 1;
    if i < n { CleanedMeans(xs[..n], i); }
  }

  // ----- changes of the clock -----

  /** Every old time is followed by a new one. */
  predicate PairAt(xs: seq<Rec>, c: int) {
    0 <= c < |xs| && xs[c].kind.OldTime? ==> c + 1 < |xs| && xs[c + 1].kind.NewTime?
  }

  predicate Paired(xs: seq<Rec>) { forall c :: 0 <= c < |xs| ==> PairAt(xs, c) }

  /** A change in multi-user mode. */
  ghost predicate Change(xs: seq<Rec>, c: int) { 0 <= c < |xs| - 1 && xs[c].kind.OldTime? && InMulti(xs[..c]) }

  predicate BootBetween(xs: seq<Rec>, q: int, c: int) { exists b :: q < b < c && 0 <= b < |xs| && xs[b].kind.BootTime? }

  /** What change `c` adds to the time of record `q`. */
  ghost function Effect(xs: seq<Rec>, q: int, c: int): int {
    if q < c && Change(xs, c) && !BootBetween(xs, q, c) then xs[c + 1].time - xs[c].time else 0
  }

  /** What the changes before `n` add. */
  ghost function Effects(xs: seq<Rec>, q: int, n: nat): int {
    if n == 0 then 0 else Effects(xs, q, n - 1) + Effect(xs, q, n - 1)
  }

  /** The log as it is to be. */
  ghost predicate Repaired(xs: seq<Rec>, out: seq<Rec>) {
    |out| == |xs| && forall q :: 0 <= q < |xs| ==>
        out[q] == Cleaned(xs)[q].(time := Cleaned(xs)[q].time + Effects(xs, q, |xs|))
  }

  // ----- the log grows -----

  /** The position of the last boot record, or 0. */
  function LastBoot(xs: seq<Rec>): (b: nat)
    ensures b <= |xs| && (xs != [] ==> b < |xs|)
  {
    if xs == [] then 0 else if xs[|xs| - 1].kind.BootTime? then |xs| - 1 else LastBoot(xs[..|xs| - 1])
  }

  lemma {:induction false} LastBootMeans(xs: seq<Rec>, q: nat)
    ensures LastBoot(xs) <= q <==> forall b :: q < b < |xs| ==> !xs[b].kind.BootTime?
  {
    if xs != [] {
      var front := xs[..|xs| - 1];
      LastBootMeans(front, q);
      assert forall b :: 0 <= b < |front| ==> front[b] == xs[b];
    }
  }

  /** Before a change the last boot is at or before `q` exactly if none lies between. */
  lemma BootMeans(xs: seq<Rec>, q: nat, c: nat)
    requires q < c <= |xs|
    ensures LastBoot(xs[..c]) <= q <==> !BootBetween(xs, q, c)
  {
    LastBootMeans(xs[..c], q);
    assert forall b :: q < b < c ==> xs[..c][b] == xs[b];
  }

  /** What follows a complete log does not change the effects in it. */
  lemma {:induction false} EffectsKept(xs: seq<Rec>, ys: seq<Rec>, q: nat, n: nat)
    requires Paired(xs) && n <= |xs|
    ensures Effects(xs + ys, q, n) == Effects(xs, q, n)
  {
    if n > 0 {
      EffectsKept(xs, ys, q, n - 1);
      EffectKept(xs, ys, q, n - 1);
    }
  }

  lemma EffectKept(xs: seq<Rec>, ys: seq<Rec>, q: nat, c: nat)
    requires Paired(xs) && c < |xs|
    ensures Effect(xs + ys, q, c) == Effect(xs, q, c)
  {
    var all := xs + ys;
    assert PairAt(xs, c);
    assert all[..c] == xs[..c] && forall b :: 0 <= b < |xs| ==> all[b] == xs[b];
    if BootBetween(all, q, c) {
      var b :| q < b < c && 0 <= b < |all| && all[b].kind.BootTime?;
      assert xs[b].kind.BootTime?;
    }
    if BootBetween(xs, q, c) {
      var b :| q < b < c && 0 <= b < |xs| && xs[b].kind.BootTime?;
      assert all[b].kind.BootTime?;
    }
  }

  /** Adding to a complete log leaves it complete exactly if what is added is complete. */
  lemma PairedAppend(xs: seq<Rec>, ys: seq<Rec>)
    requires Paired(xs)
    ensures Paired(xs + ys) <==> Paired(ys)
  {
    var all := xs + ys;
    if Paired(ys) {
      forall c | 0 <= c < |all| ensures PairAt(all, c) {
        if c < |xs| { assert PairAt(xs, c); } else { assert PairAt(ys, c - |xs|) && all[c] == ys[c - |xs|]; }
      }
    }
    if Paired(all) {
      forall c | 0 <= c < |ys| ensures PairAt(ys, c) { assert PairAt(all, |xs| + c) && all[|xs| + c] == ys[c]; }
    }
  }
}
