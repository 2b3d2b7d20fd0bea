/**
 * Buddy blocks as runs of page-record indices: a block of order `k` headed by
 * record `h` is the run `h, h+1, ..., h+2^k-1`, and a free list of order `k`
 * is a concatenation of such runs, one per block head.
 */
module BuddyBlocks {
  import opened Rings

  /** Number of free lists, orders 0 to 8 (`MAX_BUDDY_PAGE_NUM`). */
  const MAX_ORDER: nat := 9

  /** `1 << k`: the number of pages in a block of order `k`. */
  function Pow2(k: nat): (r: nat)
    ensures 1 <= r
  {
    if k == 0 then 1 else 2 * Pow2(k - 1)
  }

  /** The records of the blocks headed by `hs`, each `p` pages long, in order. */
  function Blocks(hs: seq<int>, p: nat): seq<int>
  {
    if hs == [] then [] else Run(hs[0], p) + Blocks(hs[1..], p)
  }

  /** Concatenation of a sequence of runs. */
  function Flatten(ss: seq<seq<int>>): seq<int>
  {
    if ss == [] then [] else ss[0] + Flatten(ss[1..])
  }

  /** Filing one more block at the tail of a list appends its run. */
  lemma {:induction false} BlocksAppend(hs: seq<int>, h: int, p: nat)
    ensures Blocks(hs + [h], p) == Blocks(hs, p) + Run(h, p)
  {
    if hs == [] {
      assert Blocks([h], p) == Run(h, p) + Blocks([], p);
    } else {
      assert (hs + [h])[1..] == hs[1..] + [h];
      BlocksAppend(hs[1..], h, p);
    }
  }

  /** The first `p` records of a list of blocks are its first block, and the
      rest are the blocks that follow it. */
  lemma BlocksFront(hs: seq<int>, p: nat)
    requires hs != []
    ensures p <= |Blocks(hs, p)|
    ensures Blocks(hs, p)[..p] == Run(hs[0], p)
    ensures Blocks(hs, p)[p..] == Blocks(hs[1..], p)
  {
    assert Blocks(hs, p) == Run(hs[0], p) + Blocks(hs[1..], p);
  }

  /** A list of blocks is empty exactly when it has no block heads. */
  lemma BlocksEmpty(hs: seq<int>, p: nat)
    requires 1 <= p
    ensures Blocks(hs, p) == [] <==> hs == []
  {
    if hs != [] {
      assert Blocks(hs, p)[0] == hs[0];
    }
  }

  /** Every block head is itself on the list. */
  lemma {:induction false} HeadsListed(hs: seq<int>, p: nat, i: nat)
    requires 1 <= p && i < |hs|
    ensures hs[i] in Blocks(hs, p)
  {
    if i == 0 {
      assert Blocks(hs, p)[0] == hs[0];
    } else {
      HeadsListed(hs[1..], p, i - 1);
      assert hs[i] == hs[1..][i - 1];
    }
  }

  /** A list of `|hs|` blocks of `p` records holds `|hs| * p` records, and the
      `i`-th block starts at position `i * p`. */
  lemma {:induction false} BlocksHeadAt(hs: seq<int>, p: nat, i: nat)
    requires 1 <= p && i < |hs|
    ensures |Blocks(hs, p)| == |hs| * p && Blocks(hs, p)[i * p] == hs[i]
  {
    BlocksLength(hs, p);
    var rest := Blocks(hs[1..], p);
    assert Blocks(hs, p) == Run(hs[0], p) + rest;
    if i > 0 {
      BlocksHeadAt(hs[1..], p, i - 1);
      assert i * p == (i - 1) * p + p;
      assert hs[1..][i - 1] == hs[i];
    }
  }

  /** The length of a list of blocks. */
  lemma {:induction false} BlocksLength(hs: seq<int>, p: nat)
    ensures |Blocks(hs, p)| == |hs| * p
  {
    if hs != [] {
      BlocksLength(hs[1..], p);
    }
  }

  /** The groups of `init_page_map`: heads 0, 256, 512, ... of order-8 blocks
      cover records `0 .. 256*m-1` in ascending order. */
  lemma {:induction false} TopGroups(m: nat)
    ensures Blocks(seq(m, g => 256 * g), 256) == Run(0, 256 * m)
  {
    if m > 0 {
      var hs := seq(m, g => 256 * g);
      assert hs == seq(m - 1, g => 256 * g) + [256 * (m - 1)];
      TopGroups(m - 1);
      BlocksAppend(seq(m - 1, g => 256 * g), 256 * (m - 1), 256);
      assert Run(0, 256 * (m - 1)) + Run(256 * (m - 1), 256) == Run(0, 256 * m);
    }
  }

  /** Order-0 blocks are single records: the list of them is the list of their heads. */
  lemma {:induction false} SinglePages(hs: seq<int>)
    ensures Blocks(hs, 1) == hs
  {
    if hs != [] {
      SinglePages(hs[1..]);
      assert Run(hs[0], 1) == [hs[0]];
      assert hs == [hs[0]] + hs[1..];
    }
  }

  /** The halves filed by `get_pages_from_list` when it splits the block at `h`
      of order `k` down to order `o`: at each step the lower half (of order
      `k-1`) is filed and the upper half is split further. */
  function SplitHalves(h: int, k: nat, o: nat): (r: seq<seq<int>>)
    requires o <= k
    decreases k - o
  {
    if k == o then [] else [Run(h, Pow2(k - 1))] + SplitHalves(h + Pow2(k - 1), k - 1, o)
  }

  /** The filed halves followed by the block that is handed out are exactly the
      records of the block taken from the list, in order. */
  lemma {:induction false} SplitPartition(h: int, k: nat, o: nat)
    requires o <= k
    ensures Flatten(SplitHalves(h, k, o)) + Run(h + Pow2(k) - Pow2(o), Pow2(o)) == Run(h, Pow2(k))
    decreases k - o
  {
    if k > o {
      var q := Pow2(k - 1);
      var front, rest, kept := Run(h, q), Flatten(SplitHalves(h + q, k - 1, o)), Run(h + Pow2(k) - Pow2(o), Pow2(o));
      SplitPartition(h + q, k - 1, o);
      assert Pow2(k) == 2 * q;
      assert h + q + Pow2(k - 1) - Pow2(o) == h + Pow2(k) - Pow2(o);
      FlattenCons(front, SplitHalves(h + q, k - 1, o));
      RunAppend(h, q, q);
      AppendAssoc(front, rest, kept);
    }
  }

  /** Flattening a run in front of others puts its records first. */
  lemma FlattenCons(x: seq<int>, ss: seq<seq<int>>)
    ensures Flatten([x] + ss) == x + Flatten(ss)
  {
    assert ([x] + ss)[1..] == ss;
  }

  /** Concatenation is associative. */
  lemma AppendAssoc(a: seq<int>, b: seq<int>, c: seq<int>)
    ensures (a + b) + c == a + (b + c)
  {
  }

  /** There is one half for each order `o <= j < k`. */
  lemma {:induction false} SplitHalvesLength(h: int, k: nat, o: nat)
    requires o <= k
    ensures |SplitHalves(h, k, o)| == k - o
    decreases k - o
  {
    if k > o {
      SplitHalvesLength(h + Pow2(k - 1), k - 1, o);
    }
  }

  /** The step-`j` half, filed on list `j`, starts `2^k - 2^(j+1)` records into the
      block and holds `2^j` records. */
  lemma {:induction false} SplitHalfAt(h: int, k: nat, o: nat, j: nat)
    requires o <= j < k
    ensures |SplitHalves(h, k, o)| == k - o
    ensures SplitHalves(h, k, o)[k - 1 - j] == Run(h + Pow2(k) - Pow2(j + 1), Pow2(j))
    decreases k - o
  {
    var q := Pow2(k - 1);
    var rest := SplitHalves(h + q, k - 1, o);
    assert Pow2(k) == 2 * q;
    assert SplitHalves(h, k, o) == [Run(h, q)] + rest;
    SplitHalvesLength(h, k, o);
    if j < k - 1 {
      SplitHalfAt(h + q, k - 1, o, j);
      assert SplitHalves(h, k, o)[k - 1 - j] == rest[k - 2 - j];
      assert h + q + Pow2(k - 1) == h + Pow2(k);
    }
  }

  /** Block sizes grow with the order. */
  lemma {:induction false} Pow2Monotone(a: nat, b: nat)
    requires a <= b
    ensures Pow2(a) <= Pow2(b)
    decreases b - a
  {
    if a < b {
      Pow2Monotone(a, b - 1);
    }
  }

  /** The heads of the halves filed while splitting the block at `h` from order
      `k` down to order `o`: one per order `o <= j < k`. */
  ghost function SplitHeads(h: int, k: nat, o: nat): set<int>
    requires o <= k
    decreases k - o
  {
    if k == o then {} else {h} + SplitHeads(h + Pow2(k - 1), k - 1, o)
  }

  /** One more split step files the block that was being kept, which starts
      at `h + 2^k - 2^o`, as a new lower half. */
  lemma {:induction false} SplitHeadsStep(h: int, k: nat, o: nat)
    requires 0 < o <= k
    ensures SplitHeads(h, k, o - 1) == SplitHeads(h, k, o) + {h + Pow2(k) - Pow2(o)}
    decreases k - o
  {
    if k == o {
      assert Pow2(k) == 2 * Pow2(k - 1);
      assert SplitHeads(h + Pow2(k - 1), k - 1, k - 1) == {};
    } else {
      assert Pow2(k) == 2 * Pow2(k - 1);
      SplitHeadsStep(h + Pow2(k - 1), k - 1, o);
    }
  }

  /** Every split head lies below the kept block, which starts at `h + 2^k - 2^o`. */
  lemma {:induction false} SplitHeadsBelow(h: int, k: nat, o: nat, i: int)
    requires o <= k && i in SplitHeads(h, k, o)
    ensures h <= i < h + Pow2(k) - Pow2(o)
    decreases k - o
  {
    assert Pow2(k) == 2 * Pow2(k - 1);
    if i != h {
      SplitHeadsBelow(h + Pow2(k - 1), k - 1, o, i);
    } else {
      Pow2Monotone(o, k - 1);
    }
  }

  /** All split heads lie below the kept block. */
  lemma SplitHeadsWithin(h: int, k: nat, o: nat)
    requires o <= k
    ensures forall i :: i in SplitHeads(h, k, o) ==> h <= i < h + Pow2(k) - Pow2(o)
  {
    forall i | i in SplitHeads(h, k, o) ensures h <= i < h + Pow2(k) - Pow2(o) {
      SplitHeadsBelow(h, k, o, i);
    }
  }
}
