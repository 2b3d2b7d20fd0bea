/**
 * The PID bitmap of the thread layer: `pidMap`, an array of 32-bit words in
 * which bit `p % 32` of word `p / 32` is set while PID `p` is in use. The
 * allocator scans the first 64 words (2048 PIDs) and claims the lowest clear
 * bit; freeing a PID toggles its bit.
 *
 * Words are `uint32_t` values, held as integers in `0 .. 2^32 - 1`; bit `j`
 * of `w` is its `j`-th binary digit. The only bitwise operations applied to
 * a word are with the single-bit mask `1 << j`: `w & (1 << j)` tests the
 * digit, `w | (1 << j)` adds `2^j` when the digit is clear, and
 * `w ^ (1 << j)` adds or takes away `2^j`.
 */
module PidBitmap {
  import opened Wrappers
  import opened BuddyBlocks

  /** PIDs handed out by the scan: `2048`. */
  const PID_COUNT: nat := 2048
  /** `BITS_IN_UINT32`. */
  const BITS_IN_UINT32: nat := 32
  /** Words the scan visits: `2048 / BITS_IN_UINT32`. */
  const SCANNED_WORDS: nat := 64
  /** The declared length of `pidMap`, `uint32_t pidMap[2048]`. */
  const MAP_WORDS: nat := 2048
  /** `MAX_UINT_32`: a word whose 32 PIDs are all in use. */
  const MAX_UINT_32: int := 0xFFFF_FFFF

  /** Values of a `uint32_t`. */
  newtype Word = x: int | 0 <= x < 0x1_0000_0000

  /** Binary digit `j` of `w` is 1. */
  predicate BitSet(w: nat, j: nat)
  {
    if j == 0 then w % 2 == 1 else BitSet(w / 2, j - 1)
  }

  /** Bit `j` of the word `w` is set. */
  predicate WordBit(w: Word, j: nat)
  {
    BitSet(w as nat, j)
  }

  /** `w | (1 << j)`. */
  function Or(w: Word, j: nat): (r: Word)
    requires j < 32
    ensures forall i: nat :: WordBit(r, i) == (i == j || WordBit(w, i))
  {
    if WordBit(w, j) then w
    else
      Pow2Word();
      var v := w as nat;
      ClearBitFits(v, j, 32);
      var u := v + Pow2(j);
      forall i: nat ensures BitSet(u, i) == (i == j || BitSet(v, i)) {
        AddBit(v, j, i);
      }
      u as Word
  }

  /** `w ^ (1 << j)`. */
  function Xor(w: Word, j: nat): (r: Word)
    requires j < 32
    ensures forall i: nat :: WordBit(r, i) == if i == j then !WordBit(w, i) else WordBit(w, i)
  {
    if WordBit(w, j) then
      var u := w as nat;
      SetBitBelow(u, j);
      var v := u - Pow2(j);
      forall i: nat ensures BitSet(u, i) == (i == j || BitSet(v, i)) {
        AddBit(v, j, i);
      }
      v as Word
    else
      Pow2Word();
      var v := w as nat;
      ClearBitFits(v, j, 32);
      var u := v + Pow2(j);
      forall i: nat ensures BitSet(u, i) == (i == j || BitSet(v, i)) {
        AddBit(v, j, i);
      }
      u as Word
  }

  /** PID `p` is in use in the bitmap `ws`. */
  predicate InUse(ws: seq<Word>, p: nat)
    requires p / 32 < |ws|
  {
    WordBit(ws[p / 32], p % 32)
  }

  /** `pidMap[p / 32] |= 1 << (p % 32)`: the store of `thread_alloc_pid`. */
  function Claim(ws: seq<Word>, p: nat): seq<Word>
    requires p / 32 < |ws|
  {
    ws[p / 32 := Or(ws[p / 32], p % 32)]
  }

  /** `pidMap[p / 32] ^= 1 << (p % 32)`: the store of `thread_free_pid`. */
  function Toggle(ws: seq<Word>, p: nat): seq<Word>
    requires p / 32 < |ws|
  {
    ws[p / 32 := Xor(ws[p / 32], p % 32)]
  }

  /** The lowest PID at or above `from` that is not in use, or `None` when all
      PIDs from `from` to 2047 are. This is the reference for the scan of
      `thread_alloc_pid`. */
  function LowestFree(ws: seq<Word>, from: nat): (r: Option<nat>)
    requires SCANNED_WORDS <= |ws|
    ensures r.Some? ==> from <= r.value < PID_COUNT && !InUse(ws, r.value)
    ensures r.Some? ==> forall q :: from <= q < r.value ==> InUse(ws, q)
    ensures r.None? <==> forall q :: from <= q < PID_COUNT ==> InUse(ws, q)
    decreases PID_COUNT - from
  {
    if from >= PID_COUNT then None
    else if !InUse(ws, from) then Some(from)
    else LowestFree(ws, from + 1)
  }

  /** Adding `2^j` to a number whose digit `j` is clear sets that digit and
      leaves every other digit as it was. */
  lemma {:induction false} AddBit(w: nat, j: nat, i: nat)
    requires !BitSet(w, j)
    ensures BitSet(w + Pow2(j), i) == (i == j || BitSet(w, i))
    decreases j
  {
    if j == 0 {
      if i > 0 {
        assert (w + 1) / 2 == w / 2;
      }
    } else {
      assert (w + Pow2(j)) / 2 == w / 2 + Pow2(j - 1);
      assert (w + Pow2(j)) % 2 == w % 2;
      if i > 0 {
        AddBit(w / 2, j - 1, i - 1);
      }
    }
  }

  /** A number whose digit `j` is set is at least `2^j`, and taking `2^j` away
      clears that digit. */
  lemma {:induction false} SetBitBelow(w: nat, j: nat)
    requires BitSet(w, j)
    ensures Pow2(j) <= w && !BitSet(w - Pow2(j), j)
    decreases j
  {
    if j > 0 {
      SetBitBelow(w / 2, j - 1);
      assert (w - Pow2(j)) / 2 == w / 2 - Pow2(j - 1);
    }
  }

  /** Setting a clear digit `j < n` of a number below `2^n` stays below `2^n`. */
  lemma {:induction false} ClearBitFits(w: nat, j: nat, n: nat)
    requires j < n && w < Pow2(n) && !BitSet(w, j)
    ensures w + Pow2(j) < Pow2(n)
    decreases j
  {
    assert Pow2(n) == 2 * Pow2(n - 1);
    if j == 0 {
      assert w % 2 == 0;
    } else {
      assert Pow2(j) == 2 * Pow2(j - 1);
      ClearBitFits(w / 2, j - 1, n - 1);
      assert w + Pow2(j) == 2 * (w / 2 + Pow2(j - 1)) + w % 2;
    }
  }

  /** Every digit below `n` of `2^n - 1` is set. */
  lemma {:induction false} AllOnes(n: nat, j: nat)
    requires j < n
    ensures BitSet(Pow2(n) - 1, j)
    decreases j
  {
    if j > 0 {
      assert (Pow2(n) - 1) / 2 == Pow2(n - 1) - 1;
      AllOnes(n - 1, j - 1);
    }
  }

  /** `2^(a+b) == 2^a * 2^b`. */
  lemma {:induction false} Pow2Add(a: nat, b: nat)
    ensures Pow2(a + b) == Pow2(a) * Pow2(b)
    decreases b
  {
    if b > 0 {
      Pow2Add(a, b - 1);
      assert Pow2(a + b) == 2 * Pow2(a + b - 1);
    }
  }

  /** `2^32` is one more than the largest word. */
  lemma Pow2Word()
    ensures Pow2(32) == 0x1_0000_0000
  {
    assert Pow2(8) == 256;
    Pow2Add(8, 8);
    Pow2Add(16, 16);
  }

  /** Two PIDs that share a word and a bit position are the same PID. */
  lemma SameSlot(p: nat, q: nat)
    requires p / 32 == q / 32 && p % 32 == q % 32
    ensures p == q
  {
  }

  /** Claiming `p` puts `p` in use and leaves every other PID as it was. */
  lemma ClaimOnly(ws: seq<Word>, p: nat, q: nat)
    requires p / 32 < |ws| && q / 32 < |ws|
    ensures |Claim(ws, p)| == |ws|
    ensures InUse(Claim(ws, p), q) == (q == p || InUse(ws, q))
  {
    if q / 32 == p / 32 && q % 32 == p % 32 {
      SameSlot(p, q);
    }
  }

  /** Toggling `p` flips whether `p` is in use and leaves every other PID. */
  lemma ToggleOnly(ws: seq<Word>, p: nat, q: nat)
    requires p / 32 < |ws| && q / 32 < |ws|
    ensures |Toggle(ws, p)| == |ws|
    ensures InUse(Toggle(ws, p), q) == if q == p then !InUse(ws, q) else InUse(ws, q)
  {
    if q / 32 == p / 32 && q % 32 == p % 32 {
      SameSlot(p, q);
    }
  }

  /** Freeing a PID that was just claimed from a clear bit restores the bitmap
      word for word. */
  lemma FreeUndoesClaim(ws: seq<Word>, p: nat)
    requires p / 32 < |ws| && !InUse(ws, p)
    ensures Toggle(Claim(ws, p), p) == ws
  {
    var w, j := ws[p / 32], p % 32;
    assert WordBit(Or(w, j), j);
  }

  /** Freeing a PID that is in use clears its bit, and claiming it again
      restores the bitmap word for word. */
  lemma ClaimUndoesFree(ws: seq<Word>, p: nat)
    requires p / 32 < |ws| && InUse(ws, p)
    ensures !InUse(Toggle(ws, p), p)
    ensures Claim(Toggle(ws, p), p) == ws
  {
    var w, j := ws[p / 32], p % 32;
    assert !WordBit(Xor(w, j), j);
  }

  /** Every bit of `MAX_UINT_32` is set. */
  lemma FullWord(j: nat)
    requires j < 32
    ensures WordBit(MAX_UINT_32 as Word, j)
  {
    Pow2Word();
    AllOnes(32, j);
  }

  /** After a free of a PID that is in use, the lowest free PID is at most
      that PID, and it is that PID exactly when every PID below it is in use. */
  lemma FreedIsCandidate(ws: seq<Word>, p: nat)
    requires SCANNED_WORDS <= |ws| && p < PID_COUNT && InUse(ws, p)
    ensures |Toggle(ws, p)| == |ws|
    ensures LowestFree(Toggle(ws, p), 0).Some? && LowestFree(Toggle(ws, p), 0).value <= p
    ensures LowestFree(Toggle(ws, p), 0).value == p <==> forall q :: 0 <= q < p ==> InUse(ws, q)
  {
    var ws' := Toggle(ws, p);
    ToggleOnly(ws, p, p);
    var r := LowestFree(ws', 0);
    forall q | 0 <= q < p
      ensures InUse(ws', q) == InUse(ws, q)
    {
      ToggleOnly(ws, p, q);
    }
    if forall q :: 0 <= q < p ==> InUse(ws, q) {
      assert r.value == p;
    } else {
      var q: nat :| q < p && !InUse(ws, q);
      assert !InUse(ws', q);
    }
  }

  /** A free PID with every PID below it in use is the lowest free one. */
  lemma LowestFreeIs(ws: seq<Word>, p: nat)
    requires SCANNED_WORDS <= |ws| && p < PID_COUNT && !InUse(ws, p)
    requires forall q :: 0 <= q < p ==> InUse(ws, q)
    ensures LowestFree(ws, 0) == Some(p)
  {
  }

  /** The bitmap `pidMap[2048]`, zero-initialised. */
  class PidMap {
    const words: array<Word>

    /** `uint32_t pidMap[2048] = {0}`: every PID free. */
    constructor ()
      ensures words.Length == MAP_WORDS && forall i :: 0 <= i < MAP_WORDS ==> words[i] == 0
      ensures fresh(words)
    {
      words := new Word[MAP_WORDS](_ => 0);
    }

    /** `thread_alloc_pid`: scans words 0 to 63, skips full words, and claims
        the first clear bit of the first word that is not full, which is the
        lowest free PID. When all 2048 PIDs are in use the C function reaches
        its end without a return value; here that is `None`, and the bitmap
        is unchanged. */
    method AllocPid() returns (r: Option<nat>)
      requires words.Length == MAP_WORDS
      modifies words
      ensures r == LowestFree(old(words[..]), 0)
      ensures r.Some? ==> words[..] == Claim(old(words[..]), r.value)
      ensures r.None? ==> words[..] == old(words[..])
    {
      ghost var ws := words[..];
      var i := 0;
      while i < PID_COUNT / BITS_IN_UINT32
        invariant 0 <= i <= SCANNED_WORDS && words[..] == ws
        invariant forall q :: 0 <= q < 32 * i ==> InUse(ws, q)
      {
        if words[i] as int != MAX_UINT_32 {
          var j := 0;
          while j < BITS_IN_UINT32
            invariant 0 <= j <= 32 && words[..] == ws
            invariant forall q :: 0 <= q < 32 * i + j ==> InUse(ws, q)
          {
            var p := i * BITS_IN_UINT32 + j;
            assert p / 32 == i && p % 32 == j;
            if !WordBit(words[i], j) {
              words[i] := Or(words[i], j);
              r := Some(p);
              assert words[..] == Claim(ws, p);
              LowestFreeIs(ws, p);
              return;
            }
            j := j + 1;
          }
        } else {
          forall q | 32 * i <= q < 32 * i + 32 ensures InUse(ws, q) {
            FullWord(q % 32);
          }
        }
        i := i + 1;
      }
      r := None;
    }

    /** `thread_free_pid(pid)`: flips bit `pid % 32` of word `pid / 32`,
        whether or not it was set. The word index must lie inside `pidMap`. */
    method FreePid(pid: nat)
      requires words.Length == MAP_WORDS && pid / BITS_IN_UINT32 < MAP_WORDS
      modifies words
      ensures words[..] == Toggle(old(words[..]), pid)
    {
      var index := pid / BITS_IN_UINT32;
      var bitIndex := pid % BITS_IN_UINT32;
      words[index] := Xor(words[index], bitIndex);
    }
  }
}
