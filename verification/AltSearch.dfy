/** `ent_bsearch` of usr/src/cmd/addbadse/ix_altsc.c. */
module AltSearch {
  import opened AltEntries

  predicate IsPowerOfTwo(n: nat) {
    n == 1 || (n > 1 && n % 2 == 0 && IsPowerOfTwo(n / 2))
  }

  predicate Contains(e: Ent, x: int) { e.bad <= x <= e.end }

  /** `ent_bsearch`: the probe `ind` counts from 1 and moves by halving steps; when a step
      would leave the table it stays and only the step is halved. */
  method EntBsearch(buf: array<Ent>, cnt: nat, key: int) returns (r: int)
    requires cnt <= buf.Length && Ordered(buf[..cnt])
    ensures -1 <= r < cnt
    ensures r >= 0 ==> Contains(buf[r], key)
    ensures r == -1 ==> forall k :: 0 <= k < cnt ==> !Contains(buf[k], key)
  {
    if cnt == 0 { return -1; }
    ghost var es := buf[..cnt];
    var i: nat, ind: nat := 1, 1;
    while i <= cnt
      invariant 1 <= ind <= cnt && IsPowerOfTwo(i) && IsPowerOfTwo(ind)
      invariant (i == 1 && ind == 1) || i == 2 * ind
      decreases cnt + 1 - i
    {
      ind := i;
      i := 2 * i;
    }
    var interval: nat := ind;
    while interval != 0
      invariant 1 <= ind <= cnt && IsPowerOfTwo(interval) && interval <= ind
      invariant forall k :: 0 <= k < cnt && Contains(es[k], key) ==> ind - interval < k + 1 < ind + interval
      decreases interval
    {
      var e := buf[ind - 1];
      if key >= e.bad && key <= e.end { return ind - 1; }
      ghost var step := interval;
      interval := interval / 2;
      if interval == 0 { break; }
      assert step == 2 * interval;
      if key < e.bad {
        assert forall k :: ind <= k < cnt ==> Before(es[ind - 1], es[k]);
        ind := ind - interval;
      } else {
        assert forall k :: 0 <= k < ind - 1 ==> Before(es[k], es[ind - 1]);
        if ind == cnt { break; }
        if ind + interval <= cnt { ind := ind + interval; }
      }
    }
    r := -1;
  }
}
