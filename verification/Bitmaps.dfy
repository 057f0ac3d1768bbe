/** The word-packed bitmap of include/sys/bitmap.h. */
module Bitmaps {
  import opened Words
  import opened Rounding

  /** Bit i of a packed buffer. */
  predicate At(ws: seq<bv64>, i: nat)
    requires i < 64 * |ws|
  {
    Bit(ws[i / 64], i % 64)
  }

  /** The word's bits in [low, high) became b, and the others kept their value; base is the index of bit 0. */
  ghost predicate Patched(w: bv64, w': bv64, base: nat, low: nat, high: nat, b: bool) {
    forall k :: 0 <= k < 64 ==> (Bit(w', k) <==> if low <= base + k < high then b else Bit(w, k))
  }

  ghost predicate RangeBecame(ws: seq<bv64>, ws': seq<bv64>, low: nat, high: nat, b: bool) {
    && |ws'| == |ws|
    && forall i :: 0 <= i < 64 * |ws| ==> (At(ws', i) <==> if low <= i < high then b else At(ws, i))
  }

  lemma RangeFromWords(ws: seq<bv64>, ws': seq<bv64>, low: nat, high: nat, b: bool)
    requires |ws'| == |ws|
    requires forall q :: 0 <= q < |ws| ==> Patched(ws[q], ws'[q], 64 * q, low, high, b)
    ensures RangeBecame(ws, ws', low, high, b)
  {
    hide Bit;
    forall i | 0 <= i < 64 * |ws| ensures At(ws', i) <==> if low <= i < high then b else At(ws, i) {
      assert Patched(ws[i / 64], ws'[i / 64], 64 * (i / 64), low, high, b);
      assert 64 * (i / 64) + i % 64 == i;
    }
  }

  /** The mask selects the bits of word q that lie in [low, high). */
  ghost predicate Selects(mask: bv64, q: nat, low: nat, high: nat) {
    forall k :: 0 <= k < 64 ==> (Bit(mask, k) <==> low <= 64 * q + k < high)
  }

  lemma SingleMask(low: nat, high: nat)
    requires low < high && low / 64 == (high - 1) / 64
    ensures Selects(And(From(low % 64), UpTo((high - 1) % 64)), low / 64, low, high)
  {
    hide Bit, From, UpTo, And;
    var a, b := low % 64, (high - 1) % 64;
    forall k | 0 <= k < 64 ensures Bit(And(From(a), UpTo(b)), k) <==> low <= 64 * (low / 64) + k < high {
      OpBits(From(a), UpTo(b), k);
      MaskBits(a, k);
      MaskBits(b, k);
    }
  }

  lemma FirstMask(low: nat, high: nat)
    requires low < high && low / 64 < (high - 1) / 64
    ensures Selects(From(low % 64), low / 64, low, high)
  {
    hide Bit, From;
    forall k | 0 <= k < 64 ensures Bit(From(low % 64), k) <==> low <= 64 * (low / 64) + k < high { MaskBits(low % 64, k); }
  }

  lemma LastMask(low: nat, high: nat)
    requires low < high && low / 64 < (high - 1) / 64
    ensures Selects(UpTo((high - 1) % 64), (high - 1) / 64, low, high)
  {
    hide Bit, UpTo;
    var q, b := (high - 1) / 64, (high - 1) % 64;
    forall k | 0 <= k < 64 ensures Bit(UpTo(b), k) <==> low <= 64 * q + k < high { MaskBits(b, k); }
  }

  lemma MiddleWord(w: bv64, q: nat, low: nat, high: nat)
    requires low <= 64 * q && 64 * q + 64 <= high
    ensures Patched(w, ONES, 64 * q, low, high, true) && Patched(w, 0, 64 * q, low, high, false)
  {
    hide Bit;
    forall k | 0 <= k < 64 ensures Bit(ONES, k) && !Bit(0, k) { OpBits(w, w, k); }
  }

  lemma OutsideWord(w: bv64, q: nat, low: nat, high: nat, b: bool)
    requires 64 * q + 64 <= low || high <= 64 * q
    ensures Patched(w, w, 64 * q, low, high, b)
  {}

  lemma PatchWord(w: bv64, mask: bv64, q: nat, low: nat, high: nat)
    requires Selects(mask, q, low, high)
    ensures Patched(w, Or(w, mask), 64 * q, low, high, true)
    ensures Patched(w, And(w, Not(mask)), 64 * q, low, high, false)
  {
    hide Bit, Or, And, Not;
    forall k | 0 <= k < 64
      ensures (Bit(Or(w, mask), k) <==> Bit(w, k) || Bit(mask, k))
      ensures (Bit(And(w, Not(mask)), k) <==> Bit(w, k) && !Bit(mask, k))
    {
      OpBits(w, mask, k);
      OpBits(w, Not(mask), k);
      OpBits(mask, w, k);
    }
  }

  class Bitmap {
    var firstZeroIdx: nat
    const length: nat
    const buffer: array<bv64>

    ghost predicate Valid()
      reads this
    {
      length <= 64 * buffer.Length
    }

    /** The hint is sound: every bit below it is set. */
    ghost predicate HintOk()
      requires Valid()
      reads this, buffer
    {
      forall i :: 0 <= i < firstZeroIdx && i < length ==> At(buffer[..], i)
    }

    constructor (words: array<bv64>, bits: nat)
      requires bits <= 64 * words.Length
      ensures buffer == words && length == bits && firstZeroIdx == 0 && Valid() && HintOk()
    {
      firstZeroIdx, length, buffer := 0, bits, words;
    }

    method SetRange(low: nat, high: nat)
      requires Valid()
      modifies buffer
      ensures RangeBecame(old(buffer[..]), buffer[..], low, if high <= length then high else low, true)
      ensures old(HintOk()) ==> HintOk()
    {
      hide Bit, Or, And, Not, From, UpTo, Patched;
      ghost var ws := buffer[..];
      if low >= high || high > length { return; }
      var firstQwordIdx, lastQwordIdx := low / 64, (high - 1) / 64;
      if firstQwordIdx == lastQwordIdx {
        var mask := And(From(low % 64), UpTo((high - 1) % 64));
        SingleMask(low, high);
        PatchWord(buffer[firstQwordIdx], mask, firstQwordIdx, low, high);
        buffer[firstQwordIdx] := Or(buffer[firstQwordIdx], mask);
        Rest(ws, firstQwordIdx, lastQwordIdx, low, high, true);
        RangeFromWords(ws, buffer[..], low, high, true);
        return;
      }
      FirstMask(low, high);
      PatchWord(buffer[firstQwordIdx], From(low % 64), firstQwordIdx, low, high);
      buffer[firstQwordIdx] := Or(buffer[firstQwordIdx], From(low % 64));
      var i := firstQwordIdx + 1;
      while i < lastQwordIdx
        invariant firstQwordIdx < i <= lastQwordIdx
        invariant forall q :: firstQwordIdx <= q < i ==> Patched(ws[q], buffer[q], 64 * q, low, high, true)
        invariant forall q :: (0 <= q < firstQwordIdx || i <= q < buffer.Length) ==> buffer[q] == ws[q]
      {
        MiddleWord(ws[i], i, low, high);
        buffer[i] := ONES;
        i := i + 1;
      }
      LastMask(low, high);
      PatchWord(buffer[lastQwordIdx], UpTo((high - 1) % 64), lastQwordIdx, low, high);
      buffer[lastQwordIdx] := Or(buffer[lastQwordIdx], UpTo((high - 1) % 64));
      Rest(ws, firstQwordIdx, lastQwordIdx, low, high, true);
      RangeFromWords(ws, buffer[..], low, high, true);
    }

    static lemma Rest(ws: seq<bv64>, first: nat, last: nat, low: nat, high: nat, b: bool)
      requires first == low / 64 && low < high && last == (high - 1) / 64
      ensures forall q :: 0 <= q < |ws| && (q < first || last < q) ==> Patched(ws[q], ws[q], 64 * q, low, high, b)
    {
      hide Bit, Patched;
      forall q | 0 <= q < |ws| && (q < first || last < q) ensures Patched(ws[q], ws[q], 64 * q, low, high, b) {
        OutsideWord(ws[q], q, low, high, b);
      }
    }

    method ClearRange(low: nat, high: nat)
      requires Valid()
      modifies this`firstZeroIdx, buffer
      ensures RangeBecame(old(buffer[..]), buffer[..], low, if high <= length then high else low, false)
      ensures (old(HintOk()) ==> HintOk()) && firstZeroIdx <= old(firstZeroIdx)
    {
      hide Bit, Or, And, Not, From, UpTo, Patched, At;
      ghost var ws := buffer[..];
      if low >= high || high > length { return; }
      if low < firstZeroIdx { firstZeroIdx := low; }
      var firstQwordIdx, lastQwordIdx := low / 64, (high - 1) / 64;
      if firstQwordIdx == lastQwordIdx {
        var mask := And(From(low % 64), UpTo((high - 1) % 64));
        SingleMask(low, high);
        PatchWord(buffer[firstQwordIdx], mask, firstQwordIdx, low, high);
        buffer[firstQwordIdx] := And(buffer[firstQwordIdx], Not(mask));
        Rest(ws, firstQwordIdx, lastQwordIdx, low, high, false);
        RangeFromWords(ws, buffer[..], low, high, false);
        HintAfterClear(ws, buffer[..], low, high, old(firstZeroIdx), firstZeroIdx, length);
        return;
      }
      FirstMask(low, high);
      PatchWord(buffer[firstQwordIdx], From(low % 64), firstQwordIdx, low, high);
      buffer[firstQwordIdx] := And(buffer[firstQwordIdx], Not(From(low % 64)));
      var i := firstQwordIdx + 1;
      while i < lastQwordIdx
        invariant firstQwordIdx < i <= lastQwordIdx && firstZeroIdx <= low && firstZeroIdx <= old(firstZeroIdx)
        invariant forall q :: firstQwordIdx <= q < i ==> Patched(ws[q], buffer[q], 64 * q, low, high, false)
        invariant forall q :: (0 <= q < firstQwordIdx || i <= q < buffer.Length) ==> buffer[q] == ws[q]
      {
        MiddleWord(ws[i], i, low, high);
        buffer[i] := 0;
        i := i + 1;
      }
      LastMask(low, high);
      PatchWord(buffer[lastQwordIdx], UpTo((high - 1) % 64), lastQwordIdx, low, high);
      buffer[lastQwordIdx] := And(buffer[lastQwordIdx], Not(UpTo((high - 1) % 64)));
      Rest(ws, firstQwordIdx, lastQwordIdx, low, high, false);
      RangeFromWords(ws, buffer[..], low, high, false);
      HintAfterClear(ws, buffer[..], low, high, old(firstZeroIdx), firstZeroIdx, length);
    }

    method Set(index: nat)
      requires Valid()
      modifies buffer
      ensures RangeBecame(old(buffer[..]), buffer[..], index, if index < length then index + 1 else index, true)
      ensures old(HintOk()) ==> HintOk()
    {
      hide Bit, Or, And, Not, One, Patched;
      if index >= length { return; }
      ghost var ws := buffer[..];
      var q := index / 64;
      OneMask(index);
      PatchWord(buffer[q], One(index % 64), q, index, index + 1);
      buffer[q] := Or(buffer[q], One(index % 64));
      Rest(ws, q, q, index, index + 1, true);
      RangeFromWords(ws, buffer[..], index, index + 1, true);
    }

    method Clear(index: nat)
      requires Valid()
      modifies this`firstZeroIdx, buffer
      ensures RangeBecame(old(buffer[..]), buffer[..], index, if index < length then index + 1 else index, false)
      ensures old(HintOk()) ==> HintOk()
    {
      hide Bit, Or, And, Not, One, Patched;
      if index >= length { return; }
      ghost var ws := buffer[..];
      var q := index / 64;
      OneMask(index);
      PatchWord(buffer[q], One(index % 64), q, index, index + 1);
      buffer[q] := And(buffer[q], Not(One(index % 64)));
      firstZeroIdx := if firstZeroIdx < index then firstZeroIdx else index;
      Rest(ws, q, q, index, index + 1, false);
      RangeFromWords(ws, buffer[..], index, index + 1, false);
    }

    method IsSet(idx: nat) returns (r: bool)
      requires Valid()
      ensures r <==> idx < length && At(buffer[..], idx)
    {
      hide Bit, And, One;
      if idx >= length { return false; }
      TestOne(buffer[idx / 64], idx % 64);
      return And(buffer[idx / 64], One(idx % 64)) != 0;
    }

    method IsEmpty() returns (r: bool)
      requires Valid()
      ensures r <==> forall i :: 0 <= i < length ==> !At(buffer[..], i)
    {
      hide Bit, And, Below;
      var fullQwords := length / 64;
      for i := 0 to fullQwords
        invariant forall j :: 0 <= j < 64 * i ==> !At(buffer[..], j)
      {
        ZeroWord(buffer[i]);
        if buffer[i] != 0 {
          ghost var k :| 0 <= k < 64 && Bit(buffer[i], k);
          assert At(buffer[..], 64 * i + k);
          return false;
        }
      }
      var remainingBits := length % 64;
      if remainingBits != 0 {
        var w := And(buffer[fullQwords], Below(remainingBits));
        LowPart(buffer[fullQwords], remainingBits);
        if w != 0 {
          ghost var k :| 0 <= k < remainingBits && Bit(buffer[fullQwords], k);
          assert At(buffer[..], 64 * fullQwords + k);
          return false;
        }
      }
      return true;
    }

    /** The whole-word part of the search for a clear bit. */
    method ScanWords(qwordIdx: nat, start: nat, endIdx: nat) returns (r: nat)
      requires Valid() && start <= 64 * qwordIdx
      requires forall j :: start <= j < 64 * qwordIdx && j < 64 * buffer.Length ==> At(buffer[..], j)
      ensures FirstIn(buffer[..], false, start, endIdx, length, r)
    {
      hide Bit, Not, Ctz;
      var endQwordIdx := ((if endIdx < length then endIdx else length) + 63) / 64;
      var i := qwordIdx;
      while i < endQwordIdx
        invariant qwordIdx <= i
        invariant forall j :: start <= j < 64 * i && j < 64 * buffer.Length ==> At(buffer[..], j)
      {
        FirstClear(buffer[i]);
        if buffer[i] != ONES {
          var res := i * 64 + Ctz(Not(buffer[i]));
          FoundAt(buffer[..], false, 64 * i, i, 0, Ctz(Not(buffer[i])));
          return if res < endIdx then res else length;
        }
        WholeWord(buffer[..], false, i, 0);
        i := i + 1;
      }
      return length;
    }

    method FindFirstClear(startIdx: nat, endIdx: nat) returns (r: nat)
      requires Valid() && startIdx <= 64 * buffer.Length
      ensures HintOk() ==> FirstIn(buffer[..], false, startIdx, endIdx, length, r)
    {
      hide Bit, Or, Not, Below, Ctz, At;
      if firstZeroIdx >= length { return length; }
      var start := if startIdx < firstZeroIdx then firstZeroIdx else startIdx;
      var qwordIdx, bitIdx := start / 64, start % 64;
      if bitIdx != 0 {
        var maskedQword := Or(buffer[qwordIdx], Below(bitIdx));
        FirstClearFrom(buffer[qwordIdx], bitIdx);
        if maskedQword != ONES {
          var res := qwordIdx * 64 + Ctz(Not(maskedQword));
          FoundAt(buffer[..], false, start, qwordIdx, bitIdx, Ctz(Not(maskedQword)));
          return if res < endIdx then res else length;
        }
        WholeWord(buffer[..], false, qwordIdx, bitIdx);
        qwordIdx := qwordIdx + 1;
      }
      r := ScanWords(qwordIdx, start, endIdx);
    }

    method FindFirstSet(startIdx: nat, endIdx: nat) returns (r: nat)
      requires Valid()
      ensures r == FirstSet(buffer[..], length, startIdx, endIdx)
    {
      hide Bit, And, Not, Below, Ctz, FirstSet, At;
      if startIdx >= length { Beyond(buffer[..], length, startIdx, endIdx); return length; }
      var qwordIdx: nat, bitIdx: nat := startIdx / 64, startIdx % 64;
      var endQwordIdx := ((if endIdx < length then endIdx else length) + 63) / 64;
      while qwordIdx < endQwordIdx
        invariant bitIdx < 64 && startIdx <= 64 * qwordIdx + bitIdx
        invariant forall j :: startIdx <= j < 64 * qwordIdx + bitIdx && j < 64 * buffer.Length ==> !At(buffer[..], j)
      {
        var qword := buffer[qwordIdx];
        if bitIdx != 0 { qword := And(qword, Not(Below(bitIdx))); }
        FirstSetFrom(buffer[qwordIdx], bitIdx, qword);
        if qword != 0 {
          var res := qwordIdx * 64 + Ctz(qword);
          FoundAt(buffer[..], true, 64 * qwordIdx + bitIdx, qwordIdx, bitIdx, Ctz(qword));
          FirstSetIs(buffer[..], length, startIdx, endIdx, 64 * endQwordIdx, res);
          return if res < endIdx then res else length;
        }
        WholeWord(buffer[..], true, qwordIdx, bitIdx);
        qwordIdx := qwordIdx + 1;
        bitIdx := 0;
      }
      FirstSetIs(buffer[..], length, startIdx, endIdx, 64 * endQwordIdx, 64 * qwordIdx + bitIdx);
      return length;
    }

    /** bitmap_find_clear_region_and_set, stopped after the given number of rounds of its loop. */
    method SearchRegion(minIdx: nat, maxIdx: nat, len: nat, align: nat, rounds: nat) returns (o: Outcome)
      requires Valid() && HintOk() && firstZeroIdx <= length && length + align < WORD_LIMIT
      requires len <= maxIdx || length + align + len + 65 < WORD_LIMIT
      modifies buffer
      ensures HintOk()
      ensures o == Search(old(buffer[..]), firstZeroIdx, length, minIdx, maxIdx, len, align, rounds)
      ensures if o.Found? then RangeBecame(old(buffer[..]), buffer[..], o.start, o.start + len, true)
              else buffer[..] == old(buffer[..])
    {
      hide At, RoundUp, RangeBecame, FirstSet, Within;
      if len == 0 || minIdx >= maxIdx || maxIdx > length { return Failed; }
      var alignment := if align == 0 then 1 else align;
      var idx: nat := RoundUp(if minIdx < firstZeroIdx then firstZeroIdx else minIdx, alignment);
      var left := rounds;
      while left > 0 && Within(idx, maxIdx, len)
        invariant buffer[..] == old(buffer[..])
        invariant Search(buffer[..], firstZeroIdx, length, minIdx, maxIdx, len, align, rounds)
          == Rounds(buffer[..], length, maxIdx, len, alignment, idx, left)
      {
        var firstSet := FindFirstSet(idx, idx + len);
        FirstSetIn(buffer[..], length, idx, idx + len);
        if firstSet >= idx + len {
          SetRange(idx, idx + len);
          return Found(idx);
        }
        idx := RoundUp(firstSet + 1, alignment);
        left := left - 1;
      }
      return if Within(idx, maxIdx, len) then Running(idx) else Failed;
    }

    /** Takes the lowest aligned clear run in [minIdx, maxIdx), or reports length and changes nothing. */
    method FindClearRegionAndSet(minIdx: nat, maxIdx: nat, len: nat, align: nat) returns (r: nat)
      requires Valid() && HintOk() && length + align < WORD_LIMIT && firstZeroIdx <= length
      requires len <= maxIdx
      modifies buffer
      ensures HintOk()
      ensures r == length ==>
        && buffer[..] == old(buffer[..])
        && (len > 0 && maxIdx <= length ==> NoFit(buffer[..], minIdx, maxIdx, len, align))
      ensures r != length ==>
        && 0 < len && maxIdx <= length && Fits(old(buffer[..]), minIdx, maxIdx, len, align, r)
        && PassedBy(old(buffer[..]), minIdx, maxIdx, len, align, r)
        && RangeBecame(old(buffer[..]), buffer[..], r, r + len, true)
    {
      hide At, RangeBecame, Search;
      SearchRight(buffer[..], firstZeroIdx, length, minIdx, maxIdx, len, align, length + 1);
      var o := SearchRegion(minIdx, maxIdx, len, align, length + 1);
      return if o.Found? then o.start else length;
    }

    /** The set bits in the order of the iteration. */
    method ForEachSet() returns (visited: seq<nat>)
      requires Valid()
      ensures Visited(buffer[..], length, length, visited)
    {
      hide Bit, Ctz, DropLowest, Visited;
      visited := [];
      VisitNone(buffer[..], length);
      var qwordIdx := 0;
      while qwordIdx < (length + 63) / 64
        invariant Visited(buffer[..], length, 64 * qwordIdx, visited)
      {
        var tempQword := buffer[qwordIdx];
        ghost var lo := 0;
        while tempQword != 0
          invariant lo <= 64 && Visited(buffer[..], length, 64 * qwordIdx + lo, visited)
          invariant forall k :: 0 <= k < 64 ==> (Bit(tempQword, k) <==> lo <= k && Bit(buffer[qwordIdx], k))
          decreases 64 - lo
        {
          var bit := Ctz(tempQword);
          CtzIs(tempQword);
          var idx := qwordIdx * 64 + bit;
          VisitNext(buffer[..], length, qwordIdx, lo, bit, visited);
          if idx < length { visited := visited + [idx]; }
          forall k | 0 <= k < 64 ensures Bit(DropLowest(tempQword), k) <==> Bit(tempQword, k) && k != bit {
            DropLow(tempQword, k);
          }
          tempQword := DropLowest(tempQword);
          lo := bit + 1;
        }
        ZeroWord(tempQword);
        VisitSkip(buffer[..], length, qwordIdx, lo, visited);
        qwordIdx := qwordIdx + 1;
      }
      VisitEnd(buffer[..], length, 64 * qwordIdx, visited);
    }
  }

  /** s starts an aligned run of len clear bits inside [minIdx, maxIdx); an alignment of zero means none. */
  ghost predicate Fits(ws: seq<bv64>, minIdx: nat, maxIdx: nat, len: nat, align: nat, s: nat) {
    && minIdx <= s && s + len <= maxIdx <= 64 * |ws| && (align == 0 || s % align == 0)
    && forall j :: s <= j < s + len ==> !At(ws, j)
  }

  ghost predicate NoFit(ws: seq<bv64>, minIdx: nat, maxIdx: nat, len: nat, align: nat) {
    forall s: nat :: !Fits(ws, minIdx, maxIdx, len, align, s)
  }

  /** Nothing below idx fits. */
  ghost predicate PassedBy(ws: seq<bv64>, minIdx: nat, maxIdx: nat, len: nat, align: nat, idx: nat) {
    forall s: nat :: s < idx ==> !Fits(ws, minIdx, maxIdx, len, align, s)
  }

  lemma PassHint(ws: seq<bv64>, minIdx: nat, maxIdx: nat, len: nat, align: nat, hint: nat)
    requires len > 0 && maxIdx <= 64 * |ws| && forall i :: 0 <= i < hint && i < maxIdx ==> At(ws, i)
    ensures PassedBy(ws, minIdx, maxIdx, len, align, if minIdx < hint then hint else minIdx)
  {
    hide At;
    forall s: nat | s < hint && s + len <= maxIdx ensures !Fits(ws, minIdx, maxIdx, len, align, s) { assert At(ws, s); }
  }

  lemma PassUnaligned(ws: seq<bv64>, minIdx: nat, maxIdx: nat, len: nat, align: nat, idx: nat)
    requires PassedBy(ws, minIdx, maxIdx, len, align, idx) && idx + align < WORD_LIMIT
    ensures var m := if align == 0 then 1 else align; var r := RoundUp(idx, m);
      r % m == 0 && idx <= r < idx + m && PassedBy(ws, minIdx, maxIdx, len, align, r)
  {
    hide At, RoundUp;
    RoundUpLeast(idx, if align == 0 then 1 else align);
  }

  /** A set bit at f rules out every run that would cover it. */
  lemma PassSet(ws: seq<bv64>, minIdx: nat, maxIdx: nat, len: nat, align: nat, idx: nat, f: nat)
    requires PassedBy(ws, minIdx, maxIdx, len, align, idx) && idx <= f < idx + len && f < 64 * |ws| && At(ws, f)
    ensures PassedBy(ws, minIdx, maxIdx, len, align, f + 1)
  {
    hide At;
    forall s: nat | s < f + 1 ensures !Fits(ws, minIdx, maxIdx, len, align, s) {}
  }

  /** The loop guard, with the subtraction of 64-bit operands. */
  predicate Within(idx: nat, maxIdx: nat, len: nat) { idx <= (maxIdx - len) % WORD_LIMIT }

  lemma WithinExact(idx: nat, maxIdx: nat, len: nat)
    requires len <= maxIdx < WORD_LIMIT
    ensures Within(idx, maxIdx, len) <==> idx + len <= maxIdx
  {}

  /** The least set index in [from, stop), or stop. */
  function NextSet(ws: seq<bv64>, from: nat, stop: nat): (r: nat)
    requires from <= stop <= 64 * |ws|
    ensures from <= r <= stop
    decreases stop - from
  {
    if from == stop || At(ws, from) then from else NextSet(ws, from + 1, stop)
  }

  lemma {:induction false} NextSetFirst(ws: seq<bv64>, from: nat, stop: nat)
    requires from <= stop <= 64 * |ws|
    ensures var r := NextSet(ws, from, stop); (r < stop ==> At(ws, r)) && forall j :: from <= j < r ==> !At(ws, j)
    decreases stop - from
  {
    hide At;
    if from == stop || At(ws, from) {
    } else {
      NextSetFirst(ws, from + 1, stop);
    }
  }

  lemma NextSetIs(ws: seq<bv64>, from: nat, stop: nat, r: nat)
    requires from <= r && stop <= 64 * |ws| && (r < stop ==> At(ws, r))
    requires forall j :: from <= j < r && j < stop ==> !At(ws, j)
    ensures from <= stop ==> NextSet(ws, from, stop) == if r < stop then r else stop
  {
    hide At, NextSet;
    if from <= stop { NextSetFirst(ws, from, stop); }
  }

  /** What bitmap_find_first_set returns: it looks at whole words, so it may also meet a bit past the length. */
  function FirstSet(ws: seq<bv64>, length: nat, startIdx: nat, endIdx: nat): (r: nat)
    requires length <= 64 * |ws|
    ensures r == length || (startIdx <= r < endIdx && r < 64 * |ws| && r < length + 64)
  {
    var stop := 64 * (((if endIdx < length then endIdx else length) + 63) / 64);
    if startIdx >= length || startIdx >= stop then length
    else
      var k := NextSet(ws, startIdx, stop);
      if k < stop && k < endIdx then k else length
  }

  lemma Beyond(ws: seq<bv64>, length: nat, startIdx: nat, endIdx: nat)
    requires length <= 64 * |ws| && startIdx >= length
    ensures FirstSet(ws, length, startIdx, endIdx) == length
  {}

  lemma FirstSetIs(ws: seq<bv64>, length: nat, startIdx: nat, endIdx: nat, stop: nat, r: nat)
    requires length <= 64 * |ws| && stop == 64 * (((if endIdx < length then endIdx else length) + 63) / 64)
    requires startIdx <= r && startIdx < length && (r < stop ==> At(ws, r))
    requires forall j :: startIdx <= j < r && j < stop ==> !At(ws, j)
    ensures FirstSet(ws, length, startIdx, endIdx) == if r < stop && r < endIdx then r else length
  {
    hide At, NextSet;
    NextSetIs(ws, startIdx, stop, r);
  }

  lemma FirstSetIn(ws: seq<bv64>, length: nat, startIdx: nat, endIdx: nat)
    requires length <= 64 * |ws|
    ensures var r := FirstSet(ws, length, startIdx, endIdx);
      && FirstIn(ws, true, startIdx, endIdx, length, r) && r < length + 64
      && (r != length ==> startIdx <= r < endIdx && At(ws, r))
  {
    hide At, NextSet;
    var stop := 64 * (((if endIdx < length then endIdx else length) + 63) / 64);
    if startIdx < length && startIdx < stop { NextSetFirst(ws, startIdx, stop); }
  }

  // ---- the loop of the region search ------------------------------------------------------------------

  datatype Outcome = Found(start: nat) | Failed | Running(idx: nat)

  /** The loop from idx on, for at most k rounds. */
  function Rounds(ws: seq<bv64>, length: nat, maxIdx: nat, len: nat, alignment: nat, idx: nat, k: nat): Outcome
    requires length <= 64 * |ws| && alignment > 0
    decreases k
  {
    if !Within(idx, maxIdx, len) then Failed
    else if k == 0 then Running(idx)
    else
      var f := FirstSet(ws, length, idx, idx + len);
      if f >= idx + len then Found(idx) else Rounds(ws, length, maxIdx, len, alignment, RoundUp(f + 1, alignment), k - 1)
  }

  function Search(ws: seq<bv64>, hint: nat, length: nat, minIdx: nat, maxIdx: nat, len: nat, align: nat, k: nat): Outcome
    requires length <= 64 * |ws|
  {
    if len == 0 || minIdx >= maxIdx || maxIdx > length then Failed
    else
      var alignment := if align == 0 then 1 else align;
      Rounds(ws, length, maxIdx, len, alignment, RoundUp(if minIdx < hint then hint else minIdx, alignment), k)
  }

  /** The outcome promised: the lowest fit, or none if there is none. */
  ghost predicate Right(ws: seq<bv64>, minIdx: nat, maxIdx: nat, len: nat, align: nat, o: Outcome) {
    match o
    case Found(s) => Fits(ws, minIdx, maxIdx, len, align, s) && PassedBy(ws, minIdx, maxIdx, len, align, s)
    case Failed => NoFit(ws, minIdx, maxIdx, len, align)
    case Running(_) => false
  }

  lemma {:induction false} RoundsRight(ws: seq<bv64>, length: nat, minIdx: nat, maxIdx: nat, len: nat, align: nat,
      alignment: nat, idx: nat, k: nat)
    requires 0 < len <= maxIdx <= length <= 64 * |ws| && length + align < WORD_LIMIT
    requires alignment == (if align == 0 then 1 else align) && idx % alignment == 0 && minIdx <= idx && idx + k > length
    requires PassedBy(ws, minIdx, maxIdx, len, align, idx)
    ensures Right(ws, minIdx, maxIdx, len, align, Rounds(ws, length, maxIdx, len, alignment, idx, k))
    decreases k
  {
    hide At, RoundUp, FirstSet, Within;
    WithinExact(idx, maxIdx, len);
    if !Within(idx, maxIdx, len) {
    } else {
      FirstSetIn(ws, length, idx, idx + len);
      var f := FirstSet(ws, length, idx, idx + len);
      if f < idx + len {
        PassSet(ws, minIdx, maxIdx, len, align, idx, f);
        PassUnaligned(ws, minIdx, maxIdx, len, align, f + 1);
        RoundsRight(ws, length, minIdx, maxIdx, len, align, alignment, RoundUp(f + 1, alignment), k - 1);
      }
    }
  }

  /** For a region no longer than maxIdx the loop is over after at most length + 1 rounds, with the right outcome. */
  lemma SearchRight(ws: seq<bv64>, hint: nat, length: nat, minIdx: nat, maxIdx: nat, len: nat, align: nat, k: nat)
    requires length <= 64 * |ws| && length + align < WORD_LIMIT && hint <= length && len <= maxIdx && k > length
    requires forall i :: 0 <= i < hint && i < length ==> At(ws, i)
    ensures var o := Search(ws, hint, length, minIdx, maxIdx, len, align, k);
      && (0 < len && maxIdx <= length ==> Right(ws, minIdx, maxIdx, len, align, o)) && !o.Running?
      && (o.Found? ==> 0 < len && maxIdx <= length)
  {
    hide At, RoundUp, Rounds;
    if 0 < len && minIdx < maxIdx <= length {
      var idx, alignment := if minIdx < hint then hint else minIdx, if align == 0 then 1 else align;
      PassHint(ws, minIdx, maxIdx, len, align, hint);
      PassUnaligned(ws, minIdx, maxIdx, len, align, idx);
      RoundsRight(ws, length, minIdx, maxIdx, len, align, alignment, RoundUp(idx, alignment), k);
    }
  }

  /** For a longer region the guard never stops the loop: it goes on, or takes a region that reaches past maxIdx. */
  lemma {:induction false} LongRounds(ws: seq<bv64>, length: nat, maxIdx: nat, len: nat, alignment: nat, idx: nat, k: nat)
    requires maxIdx < len && maxIdx <= length <= 64 * |ws| && length + alignment + len + 64 < WORD_LIMIT
    requires alignment > 0 && idx < length + alignment + 64
    ensures var o := Rounds(ws, length, maxIdx, len, alignment, idx, k);
      !o.Failed? && (len > length ==> o.Running?)
    decreases k
  {
    hide At, RoundUp, FirstSet;
    assert Within(idx, maxIdx, len) by { WithinLong(idx, maxIdx, len); }
    if k == 0 {
    } else {
      FirstSetIn(ws, length, idx, idx + len);
      var f := FirstSet(ws, length, idx, idx + len);
      if f < idx + len {
        RoundUpLeast(f + 1, alignment);
        LongRounds(ws, length, maxIdx, len, alignment, RoundUp(f + 1, alignment), k - 1);
      }
    }
  }

  lemma WithinLong(idx: nat, maxIdx: nat, len: nat)
    requires maxIdx < len && idx + len < WORD_LIMIT
    ensures Within(idx, maxIdx, len)
  {}

  /** The search comes to the promised outcome if and only if the region is no longer than maxIdx. If it is longer than
      the whole bitmap the loop never ends. */
  lemma SearchRightOnlyIf(ws: seq<bv64>, hint: nat, length: nat, minIdx: nat, maxIdx: nat, len: nat, align: nat)
    requires 0 < len && minIdx < maxIdx <= length <= 64 * |ws| && length + align + len + 65 < WORD_LIMIT && hint <= length
    requires forall i :: 0 <= i < hint && i < length ==> At(ws, i)
    ensures (exists k: nat :: Right(ws, minIdx, maxIdx, len, align, Search(ws, hint, length, minIdx, maxIdx, len, align, k)))
      <==> len <= maxIdx
    ensures len > length ==> forall k: nat :: Search(ws, hint, length, minIdx, maxIdx, len, align, k).Running?
  {
    hide At, RoundUp, Rounds;
    if len <= maxIdx {
      SearchRight(ws, hint, length, minIdx, maxIdx, len, align, length + 1);
    } else {
      var idx, alignment := if minIdx < hint then hint else minIdx, if align == 0 then 1 else align;
      RoundUpLeast(idx, alignment);
      forall k: nat
        ensures var o := Search(ws, hint, length, minIdx, maxIdx, len, align, k);
          !Right(ws, minIdx, maxIdx, len, align, o) && (len > length ==> o.Running?)
      {
        LongRounds(ws, length, maxIdx, len, alignment, RoundUp(idx, alignment), k);
      }
    }
  }

  /** In an empty bitmap of 128 bits, a region of 16 is found at 0 although the search is to stop at 8. */
  lemma LongRegionTaken()
    ensures Search([0, 0], 0, 128, 0, 8, 16, 1, 1) == Found(0)
  {
    hide At, RoundUp, FirstSet;
    RoundUpLeast(0, 1);
    FirstSetIn([0, 0], 128, 0, 16);
    forall j: nat | j < 128 ensures !At([0, 0], j) { NoBits([0, 0], j); }
  }

  lemma NoBits(ws: seq<bv64>, k: nat)
    requires k < 64 * |ws| && forall q :: 0 <= q < |ws| ==> ws[q] == 0
    ensures !At(ws, k)
  {
    hide Bit;
    OpBits(0, 0, k % 64);
  }

  /** s lists, in ascending order, the set bits below upto and length. */
  ghost predicate Visited(ws: seq<bv64>, length: nat, upto: nat, s: seq<nat>) {
    && length <= 64 * |ws|
    && (forall i, j :: 0 <= i < j < |s| ==> s[i] < s[j])
    && forall i: nat :: i in s <==> i < upto && i < length && At(ws, i)
  }

  lemma VisitNone(ws: seq<bv64>, length: nat)
    requires length <= 64 * |ws|
    ensures Visited(ws, length, 0, [])
  {}

  lemma VisitNext(ws: seq<bv64>, length: nat, q: nat, lo: nat, k: nat, s: seq<nat>)
    requires q < |ws| && lo <= k < 64 && Visited(ws, length, 64 * q + lo, s)
    requires Bit(ws[q], k) && forall j :: lo <= j < k ==> !Bit(ws[q], j)
    ensures Visited(ws, length, 64 * q + k + 1, if 64 * q + k < length then s + [64 * q + k] else s)
  {
    hide Bit, At;
    FoundAt(ws, true, 64 * q + lo, q, lo, k);
    var t := if 64 * q + k < length then s + [64 * q + k] else s;
    forall i, j | 0 <= i < j < |t| ensures t[i] < t[j] { assert t[i] in s; }
  }

  lemma VisitSkip(ws: seq<bv64>, length: nat, q: nat, lo: nat, s: seq<nat>)
    requires q < |ws| && lo <= 64 && Visited(ws, length, 64 * q + lo, s)
    requires forall j :: lo <= j < 64 ==> !Bit(ws[q], j)
    ensures Visited(ws, length, 64 * (q + 1), s)
  {
    hide Bit, At;
    WholeWord(ws, true, q, lo);
  }

  lemma VisitEnd(ws: seq<bv64>, length: nat, upto: nat, s: seq<nat>)
    requires Visited(ws, length, upto, s) && length <= upto
    ensures Visited(ws, length, length, s)
  {
    hide At;
  }

  /** r is the first index in [lo, endIdx) below length whose bit is b; if there is none it is length, or a
      padding bit past it when endIdx reaches there. */
  ghost predicate FirstIn(ws: seq<bv64>, b: bool, lo: nat, endIdx: nat, length: nat, r: nat) {
    && length <= 64 * |ws|
    && (if r < length then lo <= r < endIdx && At(ws, r) == b else endIdx <= length ==> r == length)
    && forall j :: lo <= j < endIdx && j < r && j < length ==> At(ws, j) != b
  }

  /** The lowest clear bit from position b on, found through the mask of the bits below b. */
  lemma FirstClearFrom(w: bv64, b: nat)
    requires b < 64
    ensures var m := Or(w, Below(b));
      if m == ONES then forall j :: b <= j < 64 ==> Bit(w, j)
      else var k := Ctz(Not(m)); b <= k < 64 && !Bit(w, k) && forall j :: b <= j < k ==> Bit(w, j)
  {
    hide Bit, Or, Not, Below, Ctz;
    var m := Or(w, Below(b));
    forall j | 0 <= j < 64 ensures (Bit(m, j) <==> Bit(w, j) || j < b) && (Bit(Not(m), j) <==> !Bit(m, j)) {
      OpBits(w, Below(b), j);
      MaskBits(b, j);
      OpBits(m, m, j);
    }
    OnesWord(m);
    if m != ONES { NotZero(m); CtzIs(Not(m)); }
  }

  lemma FirstClear(w: bv64)
    ensures if w == ONES then forall j :: 0 <= j < 64 ==> Bit(w, j)
      else var k := Ctz(Not(w)); !Bit(w, k) && forall j :: 0 <= j < k ==> Bit(w, j)
  {
    hide Bit, Not, Ctz;
    forall j | 0 <= j < 64 ensures Bit(Not(w), j) <==> !Bit(w, j) { OpBits(w, w, j); }
    OnesWord(w);
    if w != ONES { NotZero(w); CtzIs(Not(w)); }
  }

  lemma FirstSetFrom(w: bv64, b: nat, m: bv64)
    requires b < 64 && m == if b != 0 then And(w, Not(Below(b))) else w
    ensures if m == 0 then forall j :: b <= j < 64 ==> !Bit(w, j)
      else b <= Ctz(m) < 64 && Bit(w, Ctz(m)) && forall j :: b <= j < Ctz(m) ==> !Bit(w, j)
  {
    hide Bit, And, Not, Below, Ctz;
    forall j | 0 <= j < 64 ensures Bit(m, j) <==> Bit(w, j) && b <= j {
      OpBits(w, Not(Below(b)), j);
      OpBits(Below(b), w, j);
      MaskBits(b, j);
    }
    ZeroWord(m);
    if m != 0 { CtzIs(m); }
  }

  lemma FoundAt(ws: seq<bv64>, b: bool, start: nat, q: nat, lo: nat, k: nat)
    requires q < |ws| && lo <= k < 64 && start == 64 * q + lo
    requires Bit(ws[q], k) == b && forall j :: lo <= j < k ==> Bit(ws[q], j) != b
    ensures At(ws, 64 * q + k) == b && forall j :: start <= j < 64 * q + k ==> At(ws, j) != b
  {
    hide Bit;
    forall j | start <= j < 64 * q + k ensures At(ws, j) != b { assert j / 64 == q && j % 64 == j - 64 * q; }
  }

  lemma WholeWord(ws: seq<bv64>, b: bool, q: nat, lo: nat)
    requires q < |ws| && forall j :: lo <= j < 64 ==> Bit(ws[q], j) != b
    ensures forall j :: 64 * q + lo <= j < 64 * (q + 1) ==> At(ws, j) != b
  {
    hide Bit;
    forall j | 64 * q + lo <= j < 64 * (q + 1) ensures At(ws, j) != b { assert j / 64 == q && j % 64 == j - 64 * q; }
  }

  /** Lowering the hint to the start of a cleared range keeps it sound. */
  lemma HintAfterClear(ws: seq<bv64>, ws': seq<bv64>, low: nat, high: nat, hint: nat, hint': nat, length: nat)
    requires RangeBecame(ws, ws', low, high, false) && length <= 64 * |ws| && hint' <= low && hint' <= hint
    ensures (forall i :: 0 <= i < hint && i < length ==> At(ws, i)) ==>
      forall i :: 0 <= i < hint' && i < length ==> At(ws', i)
  {
    hide At;
  }

  lemma OneMask(index: nat)
    ensures Selects(One(index % 64), index / 64, index, index + 1)
  {
    hide Bit, One;
    forall k | 0 <= k < 64 ensures Bit(One(index % 64), k) <==> k == index % 64 { MaskBits(index % 64, k); }
  }

  lemma TestOne(w: bv64, k: nat)
    requires k < 64
    ensures And(w, One(k)) != 0 <==> Bit(w, k)
  {
    hide Bit, And, One;
    ZeroWord(And(w, One(k)));
    forall j | 0 <= j < 64 ensures Bit(And(w, One(k)), j) <==> j == k && Bit(w, j) {
      OpBits(w, One(k), j);
      MaskBits(k, j);
    }
  }

  lemma LowPart(w: bv64, n: nat)
    requires n < 64
    ensures And(w, Below(n)) != 0 <==> exists k :: 0 <= k < n && Bit(w, k)
  {
    hide Bit, And, Below;
    var v := And(w, Below(n));
    ZeroWord(v);
    forall j | 0 <= j < 64 ensures Bit(v, j) <==> j < n && Bit(w, j) {
      OpBits(w, Below(n), j);
      MaskBits(n, j);
    }
  }
}
