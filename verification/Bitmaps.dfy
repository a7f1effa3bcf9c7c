/** lib/kernel/bitmap.c: a map of bits in bytes, with first-fit search. */
module Bitmaps {
  import opened Options

  // ---------------------------------------------------------------- first fit on bits

  /** cnt clear bits from start on, all among the first n. */
  predicate Clear(bits: seq<bool>, n: nat, start: nat, cnt: nat)
    requires n <= |bits|
  {
    start + cnt <= n && forall k :: start <= k < start + cnt ==> !bits[k]
  }

  function FirstFitFrom(bits: seq<bool>, n: nat, cnt: nat, i: nat): (r: Option<nat>)
    requires n <= |bits|
    ensures r.Some? ==> Clear(bits, n, r.value, cnt) && forall j :: i <= j < r.value ==> !Clear(bits, n, j, cnt)
    ensures r.None? ==> forall j :: i <= j ==> !Clear(bits, n, j, cnt)
    decreases n - i
  {
    if i + cnt > n then None
    else if Clear(bits, n, i, cnt) then Some(i)
    else FirstFitFrom(bits, n, cnt, i + 1)
  }

  /** The least start of cnt consecutive clear bits among the first n. */
  function FirstFit(bits: seq<bool>, n: nat, cnt: nat): (r: Option<nat>)
    requires n <= |bits|
    ensures r.Some? ==> Clear(bits, n, r.value, cnt) && forall j :: 0 <= j < r.value ==> !Clear(bits, n, j, cnt)
    ensures r.None? ==> forall j: nat :: !Clear(bits, n, j, cnt)
  {
    FirstFitFrom(bits, n, cnt, 0)
  }

  /** A clear run with no earlier one is the first fit. */
  lemma FirstFitIs(bits: seq<bool>, n: nat, cnt: nat, i: nat)
    requires n <= |bits| && Clear(bits, n, i, cnt) && forall j :: 0 <= j < i ==> !Clear(bits, n, j, cnt)
    ensures FirstFit(bits, n, cnt) == Some(i)
  {
  }

  lemma NothingClear(bits: seq<bool>, n: nat, cnt: nat)
    requires n <= |bits| && cnt > 0 && forall j :: 0 <= j < n ==> bits[j]
    ensures forall j: nat :: !Clear(bits, n, j, cnt)
  {
    forall j: nat {:trigger Clear(bits, n, j, cnt)} ensures !Clear(bits, n, j, cnt) {
      if j < n {
        assert bits[j];
      }
    }
  }

  /** The counter of bitmap_scan: `count` clear bits end at `end`, preceded by a set bit if by any,
      and no run of cnt clear bits ends there or earlier. */
  ghost predicate Counting(bits: seq<bool>, n: nat, cnt: nat, end: nat, count: nat) {
    && count <= end <= n <= |bits| && count < cnt
    && Clear(bits, n, end - count, count)
    && (end == count || bits[end - count - 1])
    && (forall j: nat :: j + cnt <= end ==> !Clear(bits, n, j, cnt))
  }

  lemma StartCounting(bits: seq<bool>, n: nat, cnt: nat, first: nat)
    requires first < n <= |bits| && cnt > 1 && !bits[first] && forall j :: 0 <= j < first ==> bits[j]
    ensures Counting(bits, n, cnt, first + 1, 1)
  {
    forall j: nat {:trigger Clear(bits, n, j, cnt)} | j + cnt <= first + 1 ensures !Clear(bits, n, j, cnt) {
      assert bits[j];
    }
  }

  lemma CountBit(bits: seq<bool>, n: nat, cnt: nat, end: nat, count: nat)
    requires Counting(bits, n, cnt, end, count) && end < n
    ensures bits[end] ==> Counting(bits, n, cnt, end + 1, 0)
    ensures !bits[end] && count + 1 < cnt ==> Counting(bits, n, cnt, end + 1, count + 1)
    ensures !bits[end] && count + 1 == cnt ==> FirstFit(bits, n, cnt) == Some(end - count)
  {
    forall j: nat {:trigger Clear(bits, n, j, cnt)} | j + cnt <= end + 1 && (bits[end] || j < end - count)
      ensures !Clear(bits, n, j, cnt)
    {
      if j + cnt == end + 1 {
        assert bits[end] || bits[end - count - 1];
      }
    }
    if !bits[end] && count + 1 == cnt {
      FirstFitIs(bits, n, cnt, end - count);
    }
  }

  /** For one bit that is the first clear bit. */
  lemma FirstFitOne(bits: seq<bool>, n: nat, i: nat)
    requires i < n <= |bits| && !bits[i] && forall j :: 0 <= j < i ==> bits[j]
    ensures FirstFit(bits, n, 1) == Some(i)
  {
    assert forall j :: 0 <= j < i ==> bits[j] && !Clear(bits, n, j, 1);
    FirstFitIs(bits, n, 1, i);
  }

  // ---------------------------------------------------------------- bits in bytes

  /** BITMAP_MASK << k */
  function Mask(k: nat): bv8
    requires k < 8
  {
    if k == 0 then 1 else if k == 1 then 2 else if k == 2 then 4 else if k == 3 then 8
    else if k == 4 then 16 else if k == 5 then 32 else if k == 6 then 64 else 128
  }

  predicate BitOf(b: bv8, k: nat)
    requires k < 8
  {
    b & Mask(k) != 0
  }

  lemma SetBit(b: bv8, k: nat, j: nat)
    requires k < 8 && j < 8
    ensures BitOf(b | Mask(k), j) == (j == k || BitOf(b, j))
  {
    if { case k == 0 => case k == 1 => case k == 2 => case k == 3 =>
         case k == 4 => case k == 5 => case k == 6 => case k == 7 => }
  }

  lemma ClearBit(b: bv8, k: nat, j: nat)
    requires k < 8 && j < 8
    ensures BitOf(b & !Mask(k), j) == (j != k && BitOf(b, j))
  {
    if { case k == 0 => case k == 1 => case k == 2 => case k == 3 =>
         case k == 4 => case k == 5 => case k == 6 => case k == 7 => }
  }

  lemma ByteSet(was: bv8, now: bv8, k: nat, value: bool)
    requires k < 8 && now == if value then was | Mask(k) else was & !Mask(k)
    ensures forall j :: 0 <= j < 8 ==> BitOf(now, j) == if j == k then value else BitOf(was, j)
  {
    forall j | 0 <= j < 8 ensures BitOf(now, j) == if j == k then value else BitOf(was, j) {
      if value {
        SetBit(was, k, j);
      } else {
        ClearBit(was, k, j);
      }
    }
  }

  lemma FullByte(b: bv8)
    ensures b == 0xff <==> forall k :: 0 <= k < 8 ==> BitOf(b, k)
  {
    forall k | 0 <= k < 8 ensures b == 0xff ==> BitOf(b, k) {
    }
    if forall k :: 0 <= k < 8 ==> BitOf(b, k) {
      assert BitOf(b, 0) && BitOf(b, 1) && BitOf(b, 2) && BitOf(b, 3);
      assert BitOf(b, 4) && BitOf(b, 5) && BitOf(b, 6) && BitOf(b, 7);
    }
  }

  // ---------------------------------------------------------------- struct bitmap

  /** Panic is the ASSERT on a map without a clear bit, which comes before the test that would return -1. */
  datatype Scan = Panic | NoRun | At(start: nat)

  /** The first run as an answer of bitmap_scan. */
  function RunOf(bits: seq<bool>, n: nat, cnt: nat): Scan
    requires n <= |bits|
  {
    match FirstFit(bits, n, cnt)
    case None => NoRun
    case Some(i) => At(i)
  }

  /** One bit further: the count goes on or starts again. */
  lemma CountOn(bits: seq<bool>, n: nat, cnt: nat, end: nat, count: nat)
    requires Counting(bits, n, cnt, end, count) && end < n
    ensures var c := if bits[end] then 0 else count + 1;
            if c == cnt then RunOf(bits, n, cnt) == At(end - cnt + 1) else Counting(bits, n, cnt, end + 1, c)
  {
    CountBit(bits, n, cnt, end, count);
  }

  lemma NoRunLeft(bits: seq<bool>, n: nat, cnt: nat, count: nat)
    requires Counting(bits, n, cnt, n, count)
    ensures RunOf(bits, n, cnt) == NoRun
  {
    assert FirstFit(bits, n, cnt).Some? ==> Clear(bits, n, FirstFit(bits, n, cnt).value, cnt);
  }

  /** What bitmap_scan answers for a map of n bits followed in memory by the bit bits[n]. */
  function ScanOf(bits: seq<bool>, n: nat, cnt: nat): Scan
    requires n < |bits|
  {
    if FirstFit(bits, n, 1).None? then Panic
    else RunOf(bits, n + 1, cnt)
  }

  class Bitmap {
    const len: nat           // btmp_bytes_len
    const bits: array<bv8>   // the memory from the first byte of the map on; it reaches past the map

    ghost predicate Valid() {
      len < bits.Length
    }

    predicate Test(i: nat)
      requires i < 8 * bits.Length
      reads bits
    {
      BitOf(bits[i / 8], i % 8)
    }

    ghost function View(): (v: seq<bool>)
      reads bits
      ensures |v| == 8 * bits.Length && forall i :: 0 <= i < |v| ==> v[i] == Test(i)
    {
      seq(8 * bits.Length, i requires 0 <= i < 8 * bits.Length reads bits => Test(i))
    }

    method Set(i: nat, value: bool)
      requires i < 8 * bits.Length
      modifies bits
      ensures View() == old(View())[i := value]
    {
      ghost var was := bits[i / 8];
      if value {
        bits[i / 8] := bits[i / 8] | Mask(i % 8);
      } else {
        bits[i / 8] := bits[i / 8] & !Mask(i % 8);
      }
      ByteSet(was, bits[i / 8], i % 8, value);
      forall j | 0 <= j < 8 * bits.Length ensures Test(j) == if j == i then value else old(Test(j)) {
      }
    }

    method FirstClearByte() returns (b: nat)
      requires Valid()
      ensures b <= len && (forall i :: 0 <= i < 8 * b ==> Test(i))
      ensures b < len ==> bits[b] != 0xff
    {
      b := 0;
      while bits[b] == 0xff && b < len
        invariant b <= len
        invariant forall i :: 0 <= i < 8 * b ==> Test(i)
      {
        FullByte(bits[b]);
        b := b + 1;
      }
    }

    method FirstClearBit(b: nat) returns (k: nat)
      requires b < bits.Length && bits[b] != 0xff
      ensures k < 8 && !BitOf(bits[b], k) && forall j :: 0 <= j < k ==> BitOf(bits[b], j)
    {
      FullByte(bits[b]);
      k := 0;
      while BitOf(bits[b], k)
        invariant k < 8
        decreases 8 - k
        invariant forall j :: 0 <= j < k ==> BitOf(bits[b], j)
      {
        assert k < 7;
        k := k + 1;
      }
    }

    /** bitmap_scan.  The last loop also tests the bit behind the map. */
    method Scan(cnt: nat) returns (r: Scan)
      requires Valid() && cnt > 0
      ensures r == ScanOf(View(), 8 * len, cnt)
    {
      var idx_byte := FirstClearByte();
      ghost var view, n := View(), 8 * len;
      if idx_byte == len {
        assert forall j :: 0 <= j < n ==> view[j];
        NothingClear(view, n, 1);
        return Panic;
      }
      var idx_bit := FirstClearBit(idx_byte);
      var first := idx_byte * 8 + idx_bit;
      FirstAt(idx_byte, idx_bit);
      FirstFitOne(view, n, first);
      if cnt == 1 {
        FirstFitOne(view, n + 1, first);
        return At(first);
      }
      StartCounting(view, n + 1, cnt, first);
      r := ScanRuns(cnt, first);
    }

    lemma FirstAt(b: nat, k: nat)
      requires b < bits.Length && k < 8 && !BitOf(bits[b], k)
      requires forall i :: 0 <= i < 8 * b ==> Test(i)
      requires forall j :: 0 <= j < k ==> BitOf(bits[b], j)
      ensures !View()[8 * b + k] && forall j :: 0 <= j < 8 * b + k ==> View()[j]
    {
      forall j | 0 <= j < 8 * b + k ensures View()[j] {
        assert j >= 8 * b ==> j / 8 == b;
      }
    }

    /** bitmap_scan_test */
    method ReadBit(i: nat) returns (b: bool)
      requires i < 8 * bits.Length
      ensures b == View()[i]
    {
      b := Test(i);
    }

    /** The loop of bitmap_scan that counts clear bits, started behind the first one. */
    method ScanRuns(cnt: nat, first: nat) returns (r: Scan)
      requires Valid() && cnt > 1 && first < 8 * len
      requires Counting(View(), 8 * len + 1, cnt, first + 1, 1)
      ensures r == RunOf(View(), 8 * len + 1, cnt)
    {
      ghost var view, n := View(), 8 * len + 1;
      var bit_left, next_bit, count := 8 * len - first, first + 1, 1;
      while bit_left > 0
        invariant bit_left + next_bit == n
        invariant Counting(view, n, cnt, next_bit, count)
      {
        CountOn(view, n, cnt, next_bit, count);
        bit_left := bit_left - 1;
        var b := ReadBit(next_bit);
        count := if b then 0 else count + 1;
        if count == cnt {
          return At(next_bit - cnt + 1);
        }
        next_bit := next_bit + 1;
      }
      NoRunLeft(view, n, cnt, count);
      return NoRun;
    }
  }

  // ---------------------------------------------------------------- the bit behind the map

  /** If that bit is set, bitmap_scan is first fit on the map. */
  lemma GuardedScan(bits: seq<bool>, n: nat, cnt: nat)
    requires n < |bits| && cnt > 0 && bits[n]
    ensures ScanOf(bits, n, cnt) ==
            if FirstFit(bits, n, 1).None? then Panic
            else RunOf(bits, n, cnt)
  {
    var m := n + 1;
    assert forall j: nat :: Clear(bits, m, j, cnt) <==> Clear(bits, n, j, cnt);
    if FirstFit(bits, n, cnt).Some? {
      FirstFitIs(bits, m, cnt, FirstFit(bits, n, cnt).value);
    }
  }

  /** In general the answer runs over the end of the map exactly when the map has no run of its own
      and ends, together with the bit behind it, in cnt clear bits. */
  lemma ScanOverruns(bits: seq<bool>, n: nat, cnt: nat)
    requires n < |bits| && cnt > 0 && FirstFit(bits, n, 1).Some?
    ensures (ScanOf(bits, n, cnt).At? && ScanOf(bits, n, cnt).start + cnt > n)
            <==> (FirstFit(bits, n, cnt).None? && cnt <= n + 1 && Clear(bits, n + 1, n + 1 - cnt, cnt))
  {
    var m := n + 1;
    assert forall j: nat :: Clear(bits, n, j, cnt) <==> Clear(bits, m, j, cnt) && j + cnt <= n;
    if FirstFit(bits, n, cnt).Some? {
      FirstFitIs(bits, m, cnt, FirstFit(bits, n, cnt).value);
    } else if cnt <= m && Clear(bits, m, m - cnt, cnt) {
      FirstFitIs(bits, m, cnt, m - cnt);
    }
  }

  /** A map of one byte, its last bit clear, followed by a byte whose first bit is clear: a request
      for two bits is granted the bit behind the map. */
  lemma OverrunExample()
    ensures var bits := [true, true, true, true, true, true, true, false, false];
            ScanOf(bits, 8, 2) == At(7)
  {
    var bits := [true, true, true, true, true, true, true, false, false];
    FirstFitOne(bits, 8, 7);
    assert forall j :: 0 <= j < 7 ==> bits[j] && !Clear(bits, 9, j, 2);
    FirstFitIs(bits, 9, 2, 7);
  }

  lemma FirstFitBelow(bits: seq<bool>, more: seq<bool>, cnt: nat)
    ensures FirstFit(bits + more, |bits|, cnt) == FirstFit(bits, |bits|, cnt)
  {
    forall j: nat {:trigger Clear(bits, |bits|, j, cnt)} {:trigger Clear(bits + more, |bits|, j, cnt)}
      ensures Clear(bits + more, |bits|, j, cnt) <==> Clear(bits, |bits|, j, cnt)
    {
      assert forall k :: 0 <= k < |bits| ==> (bits + more)[k] == bits[k];
    }
    if FirstFit(bits, |bits|, cnt).Some? {
      FirstFitIs(bits + more, |bits|, cnt, FirstFit(bits, |bits|, cnt).value);
    }
  }

  lemma NoneClear(bits: seq<bool>)
    ensures FirstFit(bits, |bits|, 1).None? <==> forall i :: 0 <= i < |bits| ==> bits[i]
  {
    if forall i :: 0 <= i < |bits| ==> bits[i] {
      NothingClear(bits, |bits|, 1);
    }
    assert forall i: nat :: i < |bits| && !bits[i] ==> Clear(bits, |bits|, i, 1);
  }

  /** What bitmap_scan answers for a map that is followed in memory by a set bit: what the allocators of
      pages, frames and blocks see. */
  function Answer(bits: seq<bool>, cnt: nat): (r: Scan)
    requires cnt > 0
    ensures r.Panic? <==> forall i :: 0 <= i < |bits| ==> bits[i]
    ensures r.NoRun? ==> FirstFit(bits, |bits|, cnt) == None && cnt > 1
    ensures r.At? ==> FirstFit(bits, |bits|, cnt) == Some(r.start)
  {
    GuardedScan(bits + [true], |bits|, cnt);
    FirstFitBelow(bits, [true], 1);
    FirstFitBelow(bits, [true], cnt);
    NoneClear(bits);
    ScanOf(bits + [true], |bits|, cnt)
  }
}
