/** The sector map of usr/src/cmd/addbadse/ix_altsc.c: its disk image of one bit per sector,
    its in-core form of one cell per sector, and the allocation of runs of good sectors. */
module AltMap {
  import opened Bytes

  // ----- the disk image -----

  /** The bit of sector `i`, the highest bit of a byte first. */
  predicate GetBit(bytes: seq<byte>, i: nat)
    requires i / 8 < |bytes|
  {
    Bit(bytes[i / 8], 7 - i % 8)
  }

  /** In numbers: the first sector of a byte is worth 128, the last one 1. */
  lemma {:induction false} BitValues(bytes: seq<byte>, q: nat, k: nat)
    requires q < |bytes| && k < 8
    ensures GetBit(bytes, 8 * q + k) <==> bytes[q] / [128, 64, 32, 16, 8, 4, 2, 1][k] % 2 == 1
  {
    var b := bytes[q];
    assert (8 * q + k) / 8 == q && (8 * q + k) % 8 == k;
    Halved(b, 7 - k);
  }

  lemma {:induction false} Halved(b: nat, j: nat)
    requires j < 8
    ensures Bit(b, j) <==> b / [1, 2, 4, 8, 16, 32, 64, 128][j] % 2 == 1
    decreases j
  {
    if j > 0 {
      Halved(b / 2, j - 1);
      assert b / 2 / [1, 2, 4, 8, 16, 32, 64, 128][j - 1] == b / [1, 2, 4, 8, 16, 32, 64, 128][j];
    }
  }

  /** `bytes` is the image of `m`, with the unused bits of the last byte clear. */
  ghost predicate Packed(m: seq<bool>, bytes: seq<byte>) {
    && |m| <= 8 * |bytes|
    && (forall i: nat :: i < |m| ==> GetBit(bytes, i) == m[i])
    && (forall i: nat :: |m| <= i < 8 * BytesFor(|m|) ==> !GetBit(bytes, i))
  }

  function BytesFor(n: nat): nat { (n + 7) / 8 }

  /** `b` holds the first `n` of the eight cells of `m` from `base`, and nothing else. */
  ghost predicate Holds(m: seq<bool>, b: byte, base: nat, n: nat) {
    forall k: nat :: k < 8 ==> (Bit(b, k) <==> 7 - k < n && base + 7 - k < |m| && m[base + 7 - k])
  }

  lemma HoldsNext(m: seq<bool>, b: byte, base: nat, n: nat)
    requires Holds(m, b, base, n) && n < 8 && base + n < |m|
    ensures Holds(m, if m[base + n] then Place(b, 7 - n) else b, base, n + 1)
  {
  }

  lemma HoldsStart(m: seq<bool>, base: nat)
    ensures Holds(m, 0, base, 0)
  {
    forall k: nat | k < 8 ensures !Bit(0, k) { ZeroBits(k); }
  }

  ghost predicate Stored(m: seq<bool>, out: seq<byte>) {
    forall q: nat :: q < |out| ==> Holds(m, out[q], 8 * q, 8)
  }

  lemma StoredPacked(m: seq<bool>, bytes: seq<byte>)
    requires BytesFor(|m|) <= |bytes| && Stored(m, bytes[..BytesFor(|m|)])
    ensures Packed(m, bytes)
  {
    forall i: nat | i < 8 * BytesFor(|m|) ensures GetBit(bytes, i) == (i < |m| && m[i]) {
      var q := i / 8;
      assert q < BytesFor(|m|) && bytes[..BytesFor(|m|)][q] == bytes[q];
      assert Holds(m, bytes[q], 8 * q, 8) && i == 8 * q + i % 8;
    }
  }

  method StoreByte(mapp: array<byte>, maplen: nat, mask: byte, ghost m: seq<bool>, ghost out: seq<byte>)
    requires maplen < mapp.Length && mapp[..maplen] == out && Stored(m, out) && Holds(m, mask, 8 * maplen, 8)
    modifies mapp
    ensures mapp[..maplen + 1] == out + [mask] && Stored(m, out + [mask])
    ensures forall q :: maplen < q < mapp.Length ==> mapp[q] == old(mapp[q])
  {
    mapp[maplen] := mask;
  }

  /** `compress_map` */
  method CompressMap(memmap: array<bool>, mapp: array<byte>)
    requires BytesFor(memmap.Length) <= mapp.Length
    modifies mapp
    ensures Packed(memmap[..], mapp[..])
    ensures mapp[BytesFor(memmap.Length)..] == old(mapp[BytesFor(memmap.Length)..])
  {
    ghost var m, tail := memmap[..], mapp[..];
    ghost var out: seq<byte> := [];
    var i, bytesz, mask: byte, maplen := 0, 7, 0, 0;
    HoldsStart(m, 0);
    while i < memmap.Length
      invariant i <= memmap.Length && 0 <= bytesz <= 7 && i == 8 * maplen + (7 - bytesz)
      invariant Holds(m, mask, 8 * maplen, 7 - bytesz)
      invariant maplen <= mapp.Length && mapp[..maplen] == out && Stored(m, out)
      invariant forall q :: maplen <= q < mapp.Length ==> mapp[q] == tail[q]
    {
      HoldsNext(m, mask, 8 * maplen, 7 - bytesz);
      if memmap[i] { mask := Place(mask, bytesz); }
      bytesz := bytesz - 1;
      if bytesz < 0 {
        StoreByte(mapp, maplen, mask, m, out);
        out := out + [mask];
        maplen := maplen + 1;
        bytesz := 7;
        mask := 0;
        HoldsStart(m, 8 * maplen);
      }
      i := i + 1;
    }
    if bytesz != 7 {
      assert Holds(m, mask, 8 * maplen, 8);
      StoreByte(mapp, maplen, mask, m, out);
    }
    assert mapp[..BytesFor(|m|)] == mapp[..][..BytesFor(|m|)];
    StoredPacked(m, mapp[..]);
  }

  /** `altsmap_getbit`: the mask `ALTS_BAD << 7` is shifted down to the wanted bit. */
  method MapGetbit(mapp: array<byte>, badsec: nat) returns (bad: bool)
    requires badsec / 8 < mapp.Length
    ensures bad == GetBit(mapp[..], badsec)
  {
    var slot, field := badsec / 8, badsec % 8;
    bad := Bit(mapp[slot], 7 - field);
  }

  /** `expand_map` */
  method ExpandMap(mapp: array<byte>, memmap: array<bool>)
    requires memmap.Length <= 8 * mapp.Length
    modifies memmap
    ensures forall i: nat :: i < memmap.Length ==> memmap[i] == GetBit(mapp[..], i)
  {
    var i := 0;
    while i < memmap.Length
      invariant 0 <= i <= memmap.Length
      invariant forall j: nat :: j < i ==> memmap[j] == GetBit(mapp[..], j)
    {
      var bad := MapGetbit(mapp, i);
      memmap[i] := bad;
      i := i + 1;
    }
  }

  /** Two bytes with the same digits are the same byte. */
  lemma {:induction false} SameBits(a: nat, b: nat, n: nat)
    requires a < Exp2(n) && b < Exp2(n) && forall k: nat :: k < n ==> Bit(a, k) == Bit(b, k)
    ensures a == b
  {
    if n > 0 {
      assert Bit(a, 0) == Bit(b, 0);
      forall k: nat | k < n - 1 ensures Bit(a / 2, k) == Bit(b / 2, k) {
        assert Bit(a, k + 1) == Bit(b, k + 1);
      }
      SameBits(a / 2, b / 2, n - 1);
    }
  }

  /** The image of a map reads back as that map, and no two images of a map differ. */
  lemma PackedBothWays(m: seq<bool>, m': seq<bool>, bytes: seq<byte>, bytes': seq<byte>)
    requires Packed(m, bytes) && Packed(m', bytes') && |m| == |m'|
    ensures m == m' <==> bytes[..BytesFor(|m|)] == bytes'[..BytesFor(|m|)]
  {
    var n := BytesFor(|m|);
    if m == m' {
      forall q | 0 <= q < n ensures bytes[q] == bytes'[q] {
        forall k: nat | k < 8 ensures Bit(bytes[q], k) == Bit(bytes'[q], k) {
          var i := 8 * q + (7 - k);
          assert i / 8 == q && i % 8 == 7 - k && i < 8 * n;
          assert GetBit(bytes, i) == GetBit(bytes', i);
        }
        SameBits(bytes[q], bytes'[q], 8);
      }
    }
    if bytes[..n] == bytes'[..n] {
      forall i: nat | i < |m| ensures m[i] == m'[i] {
        assert i / 8 < n && bytes[..n][i / 8] == bytes[i / 8] && bytes'[..n][i / 8] == bytes'[i / 8];
        assert GetBit(bytes, i) == m[i] && GetBit(bytes', i) == m'[i];
      }
    }
  }

  // ----- allocation -----

  /** The `cnt` sectors from `lo` are good. */
  ghost predicate Free(m: seq<bool>, lo: int, cnt: int) {
    forall i :: lo <= i < lo + cnt && 0 <= i < |m| ==> !m[i]
  }

  ghost predicate FreeDown(m: seq<bool>, hi: int, cnt: int) { Free(m, hi - cnt + 1, cnt) }

  /** The lowest of the runs of `cnt` good sectors between `lo` and `end`, or 0. */
  ghost function LowestRun(m: seq<bool>, lo: nat, end: nat, cnt: int): (r: int)
    requires end <= |m|
    ensures r == 0 && lo > 0 ==> cnt <= 0 || forall f :: lo <= f <= end - cnt ==> !Free(m, f, cnt)
    ensures r != 0 ==> cnt > 0 && lo <= r <= end - cnt && Free(m, r, cnt) && forall f :: lo <= f < r ==>
            !Free(m, f, cnt)
    decreases end - lo
  {
    if cnt <= 0 || lo > end - cnt then 0
    else if Free(m, lo, cnt) then lo
    else LowestRun(m, lo + 1, end, cnt)
  }

  /** The last sector of the highest of the runs of `cnt` good sectors from `hi` down to
      above `end`, or 0. */
  ghost function HighestRun(m: seq<bool>, hi: int, end: nat, cnt: int): (r: int)
    requires hi < |m|
    ensures r == 0 ==> cnt <= 0 || forall f :: end + cnt <= f <= hi ==> !FreeDown(m, f, cnt)
    ensures r != 0 ==> cnt > 0 && end + cnt <= r <= hi && FreeDown(m, r, cnt)
    ensures r != 0 ==> forall f :: r < f <= hi ==> !FreeDown(m, f, cnt)
    decreases hi - end
  {
    if cnt <= 0 || hi < end + cnt then 0
    else if FreeDown(m, hi, cnt) then hi
    else HighestRun(m, hi - 1, end, cnt)
  }

  /** No run of `cnt` starts between `lo` and `hi`, so the search may start at `hi`. */
  lemma {:induction false} LowestSkips(m: seq<bool>, lo: nat, hi: nat, end: nat, cnt: int)
    requires lo <= hi && end <= |m| && forall f :: lo <= f < hi ==> f + cnt > end || !Free(m, f, cnt)
    ensures LowestRun(m, lo, end, cnt) == LowestRun(m, hi, end, cnt)
    decreases hi - lo
  {
    if lo < hi { LowestSkips(m, lo + 1, hi, end, cnt); }
  }

  lemma {:induction false} HighestSkips(m: seq<bool>, hi: int, lo: int, end: nat, cnt: int)
    requires lo <= hi < |m| && forall f :: lo < f <= hi ==> f < end + cnt || !FreeDown(m, f, cnt)
    ensures HighestRun(m, hi, end, cnt) == HighestRun(m, lo, end, cnt)
    decreases hi - lo
  {
    if lo < hi { HighestSkips(m, hi - 1, lo, end, cnt); }
  }

  const MAP_UP := 1
  const MAP_DOWN := -1

  predicate Span(srt: nat, end: nat, size: nat, dir: int) {
    (dir == MAP_UP && srt <= end <= size) || (dir == MAP_DOWN && end <= srt < size)
  }

  ghost function BestRun(m: seq<bool>, srt: nat, end: nat, cnt: int, dir: int): int
    requires Span(srt, end, |m|, dir)
  {
    if dir == MAP_UP then LowestRun(m, srt, end, cnt) else HighestRun(m, srt, end, cnt)
  }

  predicate InReach(srt: nat, end: nat, size: nat, i: int, dir: int) {
    && Span(srt, end, size, dir)
    && (if dir == MAP_UP then srt <= i <= end else end <= i <= srt)
  }

  /** `altsmap_alloc` */
  method MapAlloc(memmap: array<bool>, srt: nat, end: nat, cnt: int, dir: int) returns (r: int)
    requires Span(srt, end, memmap.Length, dir)
    ensures r == BestRun(memmap[..], srt, end, cnt, dir)
  {
    ghost var m := memmap[..];
    var i: int, first: int, total := srt, srt, 0;
    while i != end
      invariant InReach(srt, end, |m|, i, dir) && Searching(m, srt, end, cnt, dir, i, first, total)
      decreases if dir == MAP_UP then end - i else i - end
    {
      SearchingNext(m, srt, end, cnt, dir, i, first, total);
      if memmap[i] {
        total := 0;
        first := i + dir;
      } else {
        total := total + 1;
        if total == cnt {
          return first;
        }
      }
      i := i + dir;
    }
    r := 0;
  }

  /** The upward search stands at `i` with the last `total` sectors good, from `first`. */
  ghost predicate Rising(m: seq<bool>, srt: nat, end: nat, cnt: int, i: int, first: int, total: int) {
    && srt <= first <= i <= end <= |m| && 0 <= total == i - first && Free(m, first, total)
    && (cnt > 0 ==> total < cnt)
    && LowestRun(m, srt, end, cnt) == LowestRun(m, first, end, cnt)
  }

  lemma RisingNext(m: seq<bool>, srt: nat, end: nat, cnt: int, i: int, first: int, total: int)
    requires Rising(m, srt, end, cnt, i, first, total) && i < end
    ensures m[i] ==> Rising(m, srt, end, cnt, i + 1, i + 1, 0)
    ensures !m[i] && total + 1 == cnt ==> LowestRun(m, srt, end, cnt) == first
    ensures !m[i] && total + 1 != cnt ==> Rising(m, srt, end, cnt, i + 1, first, total + 1)
  {
    if m[i] {
      if cnt > 0 {
        forall f | first <= f <= i ensures !Free(m, f, cnt) { assert f <= i < f + cnt; }
        LowestSkips(m, first, i + 1, end, cnt);
      }
    }
  }

  ghost predicate Falling(m: seq<bool>, srt: nat, end: nat, cnt: int, i: int, first: int, total: int) {
    && end <= i <= first <= srt < |m| && 0 <= total == first - i && Free(m, i + 1, total)
    && (cnt > 0 ==> total < cnt)
    && HighestRun(m, srt, end, cnt) == HighestRun(m, first, end, cnt)
  }

  lemma FallingNext(m: seq<bool>, srt: nat, end: nat, cnt: int, i: int, first: int, total: int)
    requires Falling(m, srt, end, cnt, i, first, total) && end < i
    ensures m[i] ==> Falling(m, srt, end, cnt, i - 1, i - 1, 0)
    ensures !m[i] && total + 1 == cnt ==> HighestRun(m, srt, end, cnt) == first
    ensures !m[i] && total + 1 != cnt ==> Falling(m, srt, end, cnt, i - 1, first, total + 1)
  {
    if m[i] {
      if cnt > 0 {
        forall f | i <= f <= first ensures !FreeDown(m, f, cnt) { assert f - cnt + 1 <= i <= f; }
        HighestSkips(m, first, i - 1, end, cnt);
      }
    }
  }

  ghost predicate Searching(m: seq<bool>, srt: nat, end: nat, cnt: int, dir: int, i: int, first: int, total: int)
    requires InReach(srt, end, |m|, i, dir)
    ensures Searching(m, srt, end, cnt, dir, i, first, total) && i == end ==> BestRun(m, srt, end, cnt, dir) == 0
  {
    if dir == MAP_UP then Rising(m, srt, end, cnt, i, first, total) else Falling(m, srt, end, cnt, i, first, total)
  }

  lemma SearchingNext(m: seq<bool>, srt: nat, end: nat, cnt: int, dir: int, i: int, first: int, total: int)
    requires InReach(srt, end, |m|, i, dir) && i != end && Searching(m, srt, end, cnt, dir, i, first, total)
    ensures m[i] ==> Searching(m, srt, end, cnt, dir, i + dir, i + dir, 0)
    ensures !m[i] && total + 1 == cnt ==> BestRun(m, srt, end, cnt, dir) == first
    ensures !m[i] && total + 1 != cnt ==> Searching(m, srt, end, cnt, dir, i + dir, first, total + 1)
  {
    if dir == MAP_UP {
      RisingNext(m, srt, end, cnt, i, first, total);
    } else {
      FallingNext(m, srt, end, cnt, i, first, total);
    }
  }
}
