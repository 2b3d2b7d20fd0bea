/**
 * The buddy invariant on snapshots of the allocator's state, the free lists
 * after a block has been taken and split, and the proof that allocation keeps
 * the invariant.
 */
module BuddyLayout {
  import opened Rings
  import opened BuddyBlocks
  import opened FreeLists

  /** Page flags. */
  const PAGE_AVAILABLE: bv32 := 0x00
  const PAGE_DIRTY: bv32 := 0x01
  const PAGE_PROTECT: bv32 := 0x02
  const PAGE_BUDDY_BUSY: bv32 := 0x04
  const PAGE_IN_CACHE: bv32 := 0x08

  /** The buddy invariant over the free lists `ls`, their block heads `hs` and
      the `order` and `flags` fields of the `n` records: list `k` is a sequence
      of whole blocks of `2^k` consecutive records, each head carries order `k`,
      and every free record is AVAILABLE. */
  ghost predicate BuddyOk(ls: seq<seq<int>>, hs: seq<seq<int>>, ords: seq<int>, fl: seq<bv32>, n: nat)
  {
    && |ls| == MAX_ORDER && |hs| == MAX_ORDER && |ords| == n && |fl| == n
    && (forall k :: 0 <= k < MAX_ORDER ==> ls[k] == Blocks(hs[k], Pow2(k)))
    && (forall k, i :: 0 <= k < MAX_ORDER && 0 <= i < |hs[k]| ==> 0 <= hs[k][i] < n && ords[hs[k][i]] == k)
    && (forall k, j :: 0 <= k < MAX_ORDER && 0 <= j < |ls[k]| ==> 0 <= ls[k][j] < n && fl[ls[k][j]] == PAGE_AVAILABLE)
  }

  /** Head of the half filed on list `j` when the block at `h` of order `k` is split. */
  function HalfHead(h: int, k: nat, j: nat): int
  {
    h + Pow2(k) - Pow2(j + 1)
  }

  /** The free lists once the first block (at `h`) of list `k` has been cut out and
      split from order `k` down to order `o`: list `k` loses that block, and each
      split step, from `k - 1` down to `o`, appends the half of its order to its
      list. */
  ghost function ListsAfterSplit(ls: seq<seq<int>>, k: nat, o: nat, h: int): (r: seq<seq<int>>)
    requires |ls| == MAX_ORDER && o <= k < MAX_ORDER && Pow2(k) <= |ls[k]|
    ensures |r| == MAX_ORDER
    decreases k - o
  {
    if o == k then ls[k := ls[k][Pow2(k)..]]
    else
      var r := ListsAfterSplit(ls, k, o + 1, h);
      r[o := r[o] + Run(HalfHead(h, k, o), Pow2(o))]
  }

  /** The block heads to go with `ListsAfterSplit`. */
  ghost function HeadsAfterSplit(hs: seq<seq<int>>, k: nat, o: nat, h: int): (r: seq<seq<int>>)
    requires |hs| == MAX_ORDER && o <= k < MAX_ORDER && hs[k] != []
    ensures |r| == MAX_ORDER
    decreases k - o
  {
    if o == k then hs[k := hs[k][1..]]
    else
      var r := HeadsAfterSplit(hs, k, o + 1, h);
      r[o := r[o] + [HalfHead(h, k, o)]]
  }

  /** After the split, list `k` has lost its first block, each list `o <= j < k`
      has gained the half of order `j` at its tail, and the others are as before. */
  lemma {:induction false} ListsAfterSplitAt(ls: seq<seq<int>>, k: nat, o: nat, h: int, j: nat)
    requires |ls| == MAX_ORDER && o <= k < MAX_ORDER && Pow2(k) <= |ls[k]| && j < MAX_ORDER
    ensures ListsAfterSplit(ls, k, o, h)[j] ==
      if j == k then ls[k][Pow2(k)..]
      else if o <= j < k then ls[j] + Run(HalfHead(h, k, j), Pow2(j))
      else ls[j]
    decreases k - o
  {
    if o < k {
      ListsAfterSplitAt(ls, k, o + 1, h, j);
    }
  }

  /** The split files exactly the halves of `SplitHalves`: list `j`, for
      `o <= j < k`, gains the half of order `j`, and those halves followed by
      the kept block are the records of the block cut out of list `k`. */
  lemma SplitFiledHalves(ls: seq<seq<int>>, k: nat, o: nat, h: int)
    requires |ls| == MAX_ORDER && o <= k < MAX_ORDER && Pow2(k) <= |ls[k]|
    ensures |SplitHalves(h, k, o)| == k - o
    ensures forall j :: o <= j < k ==> ListsAfterSplit(ls, k, o, h)[j] == ls[j] + SplitHalves(h, k, o)[k - 1 - j]
    ensures Flatten(SplitHalves(h, k, o)) + Run(h + Pow2(k) - Pow2(o), Pow2(o)) == Run(h, Pow2(k))
  {
    SplitHalvesLength(h, k, o);
    forall j | o <= j < k
      ensures ListsAfterSplit(ls, k, o, h)[j] == ls[j] + SplitHalves(h, k, o)[k - 1 - j]
    {
      ListsAfterSplitAt(ls, k, o, h, j);
      SplitHalfAt(h, k, o, j);
    }
    SplitPartition(h, k, o);
  }

  /** The heads after the split, list by list. */
  lemma {:induction false} HeadsAfterSplitAt(hs: seq<seq<int>>, k: nat, o: nat, h: int, j: nat)
    requires |hs| == MAX_ORDER && o <= k < MAX_ORDER && hs[k] != [] && j < MAX_ORDER
    ensures HeadsAfterSplit(hs, k, o, h)[j] ==
      if j == k then hs[k][1..]
      else if o <= j < k then hs[j] + [HalfHead(h, k, j)]
      else hs[j]
    decreases k - o
  {
    if o < k {
      HeadsAfterSplitAt(hs, k, o + 1, h, j);
    }
  }

  /** The orders during the split of the block at `h` from order `k`, now at
      order `s`: each filed half's head has its order, and every other record
      has its order from `O0`. */
  ghost predicate SplitOrders(ords: seq<int>, O0: seq<int>, n: nat, h: int, k: nat, s: nat)
    requires s <= k
  {
    && |ords| == n && |O0| == n
    && (forall j :: s <= j < k ==> 0 <= HalfHead(h, k, j) < n && ords[HalfHead(h, k, j)] == j)
    && (forall i :: 0 <= i < n && i !in SplitHeads(h, k, s) ==> ords[i] == O0[i])
  }

  /** Giving the head of the new lower half, at `h + 2^k - 2^s`, order `s - 1`
      moves the split orders from `s` to `s - 1`. */
  lemma SplitOrdersStep(ords: seq<int>, O0: seq<int>, n: nat, h: int, k: nat, s: nat)
    requires 0 < s <= k && SplitOrders(ords, O0, n, h, k, s)
    requires 0 <= h + Pow2(k) - Pow2(s) < n
    ensures SplitOrders(ords[h + Pow2(k) - Pow2(s) := s - 1], O0, n, h, k, s - 1)
  {
    var pg := h + Pow2(k) - Pow2(s);
    var ords' := ords[pg := s - 1];
    assert HalfHead(h, k, s - 1) == pg;
    forall j | s - 1 <= j < k ensures 0 <= HalfHead(h, k, j) < n && ords'[HalfHead(h, k, j)] == j {
      if j >= s {
        HalfInside(h, k, s, j);
      }
    }
    SplitHeadsStep(h, k, s);
    forall i | 0 <= i < n && i !in SplitHeads(h, k, s - 1) ensures ords'[i] == O0[i] {
      assert i != pg && i !in SplitHeads(h, k, s);
    }
  }

  /** Giving the kept block, at `ret = h + 2^k - 2^o`, order `o` once the split has
      reached order `o` leaves each half's head and every other record alone. */
  lemma SplitOrdersDone(od: seq<int>, O0: seq<int>, n: nat, h: int, k: nat, o: nat)
    requires o <= k && SplitOrders(od, O0, n, h, k, o)
    requires 0 <= h + Pow2(k) - Pow2(o) < n
    ensures var ret := h + Pow2(k) - Pow2(o); var ords := od[ret := o];
      && (forall j :: o <= j < k ==> 0 <= HalfHead(h, k, j) < n && ords[HalfHead(h, k, j)] == j)
      && (forall i :: 0 <= i < n && i != ret && i !in SplitHeads(h, k, o) ==> ords[i] == O0[i])
  {
    forall j | o <= j < k ensures HalfHead(h, k, j) < h + Pow2(k) - Pow2(o) {
      HalfInside(h, k, o, j);
    }
  }

  /** The state of the split loop of `get_pages_from_list` on snapshots: the
      first block, at `h`, of list `k` in the lists `L0` with heads `H0` was cut
      out, and it has been split from order `k` down to order `s`. The halves of
      orders `s .. k-1` are filed with their order set, and the working block of
      order `s` at `pg` is a linked chain of records on no list; no other order
      or flag changed from `O0` and `F0`. */
  ghost predicate SplitState(nx: seq<int>, pv: seq<int>, n: nat, ls: seq<seq<int>>, hs: seq<seq<int>>,
                             ow: seq<int>, ords: seq<int>, fl: seq<bv32>,
                             L0: seq<seq<int>>, H0: seq<seq<int>>, O0: seq<int>, F0: seq<bv32>,
                             k: nat, s: nat, h: int, pg: int)
  {
    && Working(nx, pv, n, ls, ow, pg, Pow2(s))
    && |L0| == MAX_ORDER && |H0| == MAX_ORDER && s <= k < MAX_ORDER
    && Pow2(k) <= |L0[k]| && H0[k] != [] && 0 <= h && h + Pow2(k) <= n
    && pg == h + Pow2(k) - Pow2(s)
    && ls == ListsAfterSplit(L0, k, s, h) && hs == HeadsAfterSplit(H0, k, s, h)
    && SplitOrders(ords, O0, n, h, k, s)
    && fl == F0
  }

  /** The unlink of `get_pages_from_list`: linking the head of list `k` to the
      record after its first block cuts that block out, which is the split
      state at order `k`. */
  lemma DetachState(nx: seq<int>, pv: seq<int>, n: nat, ls: seq<seq<int>>, hs: seq<seq<int>>,
                    ow: seq<int>, ords: seq<int>, fl: seq<bv32>, k: nat, h: int)
    requires LinksOk(nx, pv, n, ls, ow) && |hs| == MAX_ORDER && k < MAX_ORDER && hs[k] != []
    requires Pow2(k) <= |ls[k]| && ls[k][..Pow2(k)] == Run(h, Pow2(k)) && 0 <= h && h + Pow2(k) <= n
    requires |ords| == n
    ensures nx[n + k] == h && 0 <= nx[h + Pow2(k) - 1] < n + LIST_COUNT
    ensures var t := nx[h + Pow2(k) - 1];
      SplitState(nx[n + k := t], pv[t := n + k], n, ls[k := ls[k][Pow2(k)..]], hs[k := hs[k][1..]],
                 Reown(ow, Run(h, Pow2(k)), -1), ords, fl, ls, hs, ords, fl, k, k, h, h)
  {
    var s := ls[k];
    var m := Pow2(k);
    assert s[m - 1] == s[..m][m - 1] == h + m - 1;
    assert s[0] == s[..m][0] == h;
    DetachEnds(nx, pv, n, ls, ow, k, m);
    DetachOk(nx, pv, n, ls, ow, k, m);
    var ow' := Reown(ow, Run(h, m), -1);
    forall i | h <= i < h + m ensures ow'[i] == -1 {
      RunMember(h, m, i);
    }
  }

  /** Halves lie inside the block, below the part that is kept, and the kept
      part starts where the half of order `o` would. */
  lemma HalfInside(h: int, k: nat, o: nat, j: nat)
    requires o <= j < k
    ensures h <= HalfHead(h, k, j) && HalfHead(h, k, j) + Pow2(j) <= h + Pow2(k) - Pow2(o)
  {
    Pow2Monotone(j + 1, k);
    Pow2Monotone(o, j);
  }

  /** A record inside the first block of list `k` is on no other list and
      nowhere else on list `k`. */
  lemma BlockDisjoint(L0: seq<seq<int>>, H0: seq<seq<int>>, OW0: seq<int>, n: nat, k: nat, j: nat, i: nat)
    requires |L0| == MAX_ORDER && |H0| == MAX_ORDER && |OW0| == n && k < MAX_ORDER && H0[k] != []
    requires L0[k] == Blocks(H0[k], Pow2(k)) && NoDup(L0[k])
    requires forall k, j :: 0 <= k < MAX_ORDER && 0 <= j < |L0[k]| ==> 0 <= L0[k][j] < n && OW0[L0[k][j]] == k
    requires j < MAX_ORDER && i < |L0[j]| && !(j == k && i < Pow2(k))
    ensures !(H0[k][0] <= L0[j][i] < H0[k][0] + Pow2(k))
  {
    var h, r := H0[k][0], L0[j][i];
    BlocksFront(H0[k], Pow2(k));
    var b := L0[k][..Pow2(k)];
    assert forall x :: 0 <= x < |b| ==> b[x] == L0[k][x] && OW0[b[x]] == k;
    if j == k {
      assert forall x :: 0 <= x < |b| ==> L0[k][x] != L0[k][i];
    }
    assert r !in b;
    RunMember(h, Pow2(k), r);
  }

  /** Each list after a split is still a sequence of whole blocks. */
  lemma AllocBlocks(L0: seq<seq<int>>, H0: seq<seq<int>>, k: nat, o: nat)
    requires |L0| == MAX_ORDER && |H0| == MAX_ORDER && o <= k < MAX_ORDER && H0[k] != []
    requires forall k :: 0 <= k < MAX_ORDER ==> L0[k] == Blocks(H0[k], Pow2(k))
    ensures Pow2(k) <= |L0[k]|
    ensures var h := H0[k][0]; var ls, hs := ListsAfterSplit(L0, k, o, h), HeadsAfterSplit(H0, k, o, h);
      forall j :: 0 <= j < MAX_ORDER ==> ls[j] == Blocks(hs[j], Pow2(j))
  {
    BlocksFront(H0[k], Pow2(k));
    var h := H0[k][0];
    var ls, hs := ListsAfterSplit(L0, k, o, h), HeadsAfterSplit(H0, k, o, h);
    forall j | 0 <= j < MAX_ORDER ensures ls[j] == Blocks(hs[j], Pow2(j)) {
      ListsAfterSplitAt(L0, k, o, h, j);
      HeadsAfterSplitAt(H0, k, o, h, j);
      if o <= j < k {
        BlocksAppend(H0[j], HalfHead(h, k, j), Pow2(j));
      }
    }
  }

  /** A block head on a list sits at some position of that list. */
  lemma HeadAt(hs: seq<int>, p: nat, i: nat) returns (x: nat)
    requires 1 <= p && i < |hs|
    ensures x < |Blocks(hs, p)| && Blocks(hs, p)[x] == hs[i]
  {
    HeadsListed(hs, p, i);
    x :| 0 <= x < |Blocks(hs, p)| && Blocks(hs, p)[x] == hs[i];
  }

  /** The first block of list `k` is the run at its first head, inside the record range. */
  lemma FirstBlock(L0: seq<seq<int>>, H0: seq<seq<int>>, n: nat, k: nat)
    requires |L0| == MAX_ORDER && |H0| == MAX_ORDER && k < MAX_ORDER && H0[k] != []
    requires L0[k] == Blocks(H0[k], Pow2(k))
    requires forall j :: 0 <= j < |L0[k]| ==> 0 <= L0[k][j] < n
    ensures Pow2(k) <= |L0[k]| && L0[k][..Pow2(k)] == Run(H0[k][0], Pow2(k))
    ensures 0 <= H0[k][0] && H0[k][0] + Pow2(k) <= n
  {
    BlocksFront(H0[k], Pow2(k));
    assert L0[k][Pow2(k) - 1] == L0[k][..Pow2(k)][Pow2(k) - 1];
    assert L0[k][0] == L0[k][..Pow2(k)][0];
  }

  /** Hypotheses shared by the allocation lemmas: the lists `L0` with heads
      `H0` before the allocation satisfy the block structure, each record is
      on the list `OW0` names, and the first block of list `k` is taken. */
  ghost predicate Before(L0: seq<seq<int>>, H0: seq<seq<int>>, OW0: seq<int>, n: nat, k: nat, o: nat)
  {
    && |L0| == MAX_ORDER && |H0| == MAX_ORDER && |OW0| == n && o <= k < MAX_ORDER && H0[k] != []
    && (forall k :: 0 <= k < MAX_ORDER ==> L0[k] == Blocks(H0[k], Pow2(k)) && NoDup(L0[k]))
    && (forall k, j :: 0 <= k < MAX_ORDER && 0 <= j < |L0[k]| ==> 0 <= L0[k][j] < n && OW0[L0[k][j]] == k)
  }

  /** After the split every block head is in range and carries its list's order. */
  lemma AllocHeads(L0: seq<seq<int>>, H0: seq<seq<int>>, OW0: seq<int>, O0: seq<int>, n: nat,
                   k: nat, o: nat, ords: seq<int>)
    requires Before(L0, H0, OW0, n, k, o)
    requires |O0| == n && forall k, i :: 0 <= k < MAX_ORDER && 0 <= i < |H0[k]| ==> 0 <= H0[k][i] < n && O0[H0[k][i]] == k
    requires var h := H0[k][0]; var ret := h + Pow2(k) - Pow2(o);
      && |ords| == n && 0 <= ret < n && ords[ret] == o
      && (forall j :: o <= j < k ==> 0 <= HalfHead(h, k, j) < n && ords[HalfHead(h, k, j)] == j)
      && (forall i :: 0 <= i < n && i != ret && i !in SplitHeads(h, k, o) ==> ords[i] == O0[i])
    ensures var hs := HeadsAfterSplit(H0, k, o, H0[k][0]);
      forall j, i :: 0 <= j < MAX_ORDER && 0 <= i < |hs[j]| ==> 0 <= hs[j][i] < n && ords[hs[j][i]] == j
  {
    var h := H0[k][0];
    var ret := h + Pow2(k) - Pow2(o);
    var hs := HeadsAfterSplit(H0, k, o, h);
    FirstBlock(L0, H0, n, k);
    Pow2Monotone(o, k);
    SplitHeadsWithin(h, k, o);
    forall j, i | 0 <= j < MAX_ORDER && 0 <= i < |hs[j]|
      ensures 0 <= hs[j][i] < n && ords[hs[j][i]] == j
    {
      HeadsAfterSplitAt(H0, k, o, h, j);
      if j == k {
        BlocksFront(H0[k], Pow2(k));
        var x := HeadAt(H0[k][1..], Pow2(k), i);
        assert L0[k][Pow2(k) + x] == hs[j][i];
        BlockDisjoint(L0, H0, OW0, n, k, k, Pow2(k) + x);
      } else if i < |H0[j]| {
        var x := HeadAt(H0[j], Pow2(j), i);
        assert L0[j][x] == hs[j][i];
        BlockDisjoint(L0, H0, OW0, n, k, j, x);
      }
    }
  }

  /** After the split every free record is in range and AVAILABLE. */
  lemma AllocFlags(L0: seq<seq<int>>, H0: seq<seq<int>>, OW0: seq<int>, F0: seq<bv32>, n: nat,
                   k: nat, o: nat, fl: seq<bv32>)
    requires Before(L0, H0, OW0, n, k, o)
    requires |F0| == n && forall k, j :: 0 <= k < MAX_ORDER && 0 <= j < |L0[k]| ==> F0[L0[k][j]] == PAGE_AVAILABLE
    requires var ret := H0[k][0] + Pow2(k) - Pow2(o);
      |fl| == n && forall r :: 0 <= r < n && r != ret ==> fl[r] == F0[r]
    ensures Pow2(k) <= |L0[k]|
    ensures var ls := ListsAfterSplit(L0, k, o, H0[k][0]);
      forall j, i :: 0 <= j < MAX_ORDER && 0 <= i < |ls[j]| ==> 0 <= ls[j][i] < n && fl[ls[j][i]] == PAGE_AVAILABLE
  {
    var h := H0[k][0];
    FirstBlock(L0, H0, n, k);
    forall j, i | 0 <= j < MAX_ORDER && 0 <= i < |L0[j]| && !(j == k && i < Pow2(k))
      ensures !(h <= L0[j][i] < h + Pow2(k))
    {
      BlockDisjoint(L0, H0, OW0, n, k, j, i);
    }
    var ls := ListsAfterSplit(L0, k, o, h);
    forall j, i | 0 <= j < MAX_ORDER && 0 <= i < |ls[j]|
      ensures 0 <= ls[j][i] < n && fl[ls[j][i]] == PAGE_AVAILABLE
    {
      AllocFlagAt(L0, F0, n, k, o, h, fl, j, i);
    }
  }

  /** One member of one list after the split is in range and AVAILABLE. */
  lemma AllocFlagAt(L0: seq<seq<int>>, F0: seq<bv32>, n: nat, k: nat, o: nat, h: int, fl: seq<bv32>, j: nat, i: nat)
    requires |L0| == MAX_ORDER && o <= k < MAX_ORDER && Pow2(k) <= |L0[k]| && L0[k][..Pow2(k)] == Run(h, Pow2(k))
    requires |F0| == n && forall j, i :: 0 <= j < MAX_ORDER && 0 <= i < |L0[j]| ==> 0 <= L0[j][i] < n && F0[L0[j][i]] == PAGE_AVAILABLE
    requires forall j, i :: 0 <= j < MAX_ORDER && 0 <= i < |L0[j]| && !(j == k && i < Pow2(k)) ==> !(h <= L0[j][i] < h + Pow2(k))
    requires var ret := h + Pow2(k) - Pow2(o);
      |fl| == n && forall r :: 0 <= r < n && r != ret ==> fl[r] == F0[r]
    requires j < MAX_ORDER && i < |ListsAfterSplit(L0, k, o, h)[j]|
    ensures var r := ListsAfterSplit(L0, k, o, h)[j][i];
      0 <= r < n && fl[r] == PAGE_AVAILABLE
  {
    var ls := ListsAfterSplit(L0, k, o, h);
    ListsAfterSplitAt(L0, k, o, h, j);
    Pow2Monotone(o, k);
    if j == k {
      assert ls[j][i] == L0[k][Pow2(k) + i];
    } else if o <= j < k && i >= |L0[j]| {
      HalfInside(h, k, o, j);
      var r := ls[j][i];
      assert r == HalfHead(h, k, j) + (i - |L0[j]|);
      assert L0[k][r - h] == L0[k][..Pow2(k)][r - h] == r;
    } else {
      assert ls[j][i] == L0[j][i];
    }
  }

  /** Taking the first block of list `k`, filing its lower halves down to order
      `o`, marking the kept head BUSY and giving it order `o` keeps the buddy
      invariant. */
  lemma AllocKeepsBuddy(L0: seq<seq<int>>, H0: seq<seq<int>>, OW0: seq<int>, O0: seq<int>, F0: seq<bv32>, n: nat,
                        k: nat, o: nat, ords: seq<int>, fl: seq<bv32>)
    requires Before(L0, H0, OW0, n, k, o) && BuddyOk(L0, H0, O0, F0, n)
    requires var h := H0[k][0]; var ret := h + Pow2(k) - Pow2(o);
      && |ords| == n && 0 <= ret < n && ords[ret] == o
      && (forall j :: o <= j < k ==> 0 <= HalfHead(h, k, j) < n && ords[HalfHead(h, k, j)] == j)
      && (forall i :: 0 <= i < n && i != ret && i !in SplitHeads(h, k, o) ==> ords[i] == O0[i])
      && fl == F0[ret := F0[ret] | PAGE_BUDDY_BUSY]
    ensures Pow2(k) <= |L0[k]|
    ensures var h := H0[k][0];
      BuddyOk(ListsAfterSplit(L0, k, o, h), HeadsAfterSplit(H0, k, o, h), ords, fl, n)
  {
    AllocBlocks(L0, H0, k, o);
    AllocHeads(L0, H0, OW0, O0, n, k, o, ords);
    AllocFlags(L0, H0, OW0, F0, n, k, o, fl);
  }

  /** One pass of the split loop: appending the lower half of the working block
      of order `s` at `pg` to list `s - 1`, as a chain spliced in before that
      list's head, with its head given order `s - 1`, is the split state at
      order `s - 1` with the upper half as the working block. */
  lemma SplitStepState(nx: seq<int>, pv: seq<int>, n: nat, ls: seq<seq<int>>, hs: seq<seq<int>>,
                       ow: seq<int>, ords: seq<int>, fl: seq<bv32>,
                       L0: seq<seq<int>>, H0: seq<seq<int>>, O0: seq<int>, F0: seq<bv32>,
                       k: nat, s: nat, h: int, pg: int)
    requires 0 < s && SplitState(nx, pv, n, ls, hs, ow, ords, fl, L0, H0, O0, F0, k, s, h, pg)
    ensures 0 <= pv[n + (s - 1)] < n + LIST_COUNT
    ensures var q, p, t := Pow2(s - 1), pv[n + (s - 1)], n + (s - 1);
      SplitState(nx[p := pg][pg + q - 1 := t], pv[pg := p][t := pg + q - 1], n,
                 ls[s - 1 := ls[s - 1] + Run(pg, q)], hs[s - 1 := hs[s - 1] + [pg]],
                 Reown(ow, Run(pg, q), s - 1), ords[pg := s - 1], fl, L0, H0, O0, F0, k, s - 1, h, pg + q)
  {
    var q := Pow2(s - 1);
    assert Pow2(s) == 2 * q;
    SplitLinksOk(nx, pv, n, ls, ow, s - 1, pg, q);
    assert HalfHead(h, k, s - 1) == pg;
    assert ListsAfterSplit(L0, k, s - 1, h) == ls[s - 1 := ls[s - 1] + Run(pg, q)];
    assert HeadsAfterSplit(H0, k, s - 1, h) == hs[s - 1 := hs[s - 1] + [pg]];
    assert pg + q == h + Pow2(k) - Pow2(s - 1);
    SplitOrdersStep(ords, O0, n, h, k, s);
  }

  /** The end of the split at order `o`: the kept block's head `pg` was free, so
      AVAILABLE, and marking it BUSY with order `o` leaves the lists after the
      split satisfying the buddy invariant. */
  lemma TakenState(ords: seq<int>, L0: seq<seq<int>>, H0: seq<seq<int>>, OW0: seq<int>, O0: seq<int>,
                   F0: seq<bv32>, n: nat, k: nat, o: nat, h: int, pg: int)
    requires Before(L0, H0, OW0, n, k, o) && BuddyOk(L0, H0, O0, F0, n) && h == H0[k][0]
    requires SplitOrders(ords, O0, n, h, k, o) && pg == h + Pow2(k) - Pow2(o)
    ensures Pow2(k) <= |L0[k]| && 0 <= pg && pg + Pow2(o) <= n && F0[pg] == PAGE_AVAILABLE
    ensures BuddyOk(ListsAfterSplit(L0, k, o, h), HeadsAfterSplit(H0, k, o, h), ords[pg := o], F0[pg := PAGE_BUDDY_BUSY], n)
    ensures forall j :: o <= j < k ==> 0 <= HalfHead(h, k, j) < n && ords[pg := o][HalfHead(h, k, j)] == j
    ensures forall i :: 0 <= i < n && i != pg && i !in SplitHeads(h, k, o) ==> ords[pg := o][i] == O0[i]
  {
    Pow2Monotone(o, k);
    FirstBlock(L0, H0, n, k);
    assert L0[k][Pow2(k) - Pow2(o)] == L0[k][..Pow2(k)][Pow2(k) - Pow2(o)] == pg;
    SplitOrdersDone(ords, O0, n, h, k, o);
    assert F0[pg := PAGE_BUDDY_BUSY] == F0[pg := F0[pg] | PAGE_BUDDY_BUSY];
    AllocKeepsBuddy(L0, H0, OW0, O0, F0, n, k, o, ords[pg := o], F0[pg := PAGE_BUDDY_BUSY]);
  }

  /** What `get_pages_from_list` promises when it takes the first block, at
      `h = H0[k][0]`, of the non-empty list `k` and hands out a block of order
      `o`: the returned head `pg` starts the top `2^o` records of that block;
      the lists and heads are those after the split; the returned records are
      on no list; `pg` was AVAILABLE and is now BUSY, with no other flag
      changed; `pg` has order `o`, each filed half's head its own order, and
      every other record its old order. */
  ghost predicate TakenFrom(ls: seq<seq<int>>, hs: seq<seq<int>>, ow: seq<int>, ords: seq<int>, fl: seq<bv32>,
                            L0: seq<seq<int>>, H0: seq<seq<int>>, O0: seq<int>, F0: seq<bv32>,
                            n: nat, k: nat, o: nat, pg: int)
  {
    && |L0| == MAX_ORDER && |H0| == MAX_ORDER && o <= k < MAX_ORDER && H0[k] != [] && Pow2(k) <= |L0[k]|
    && var h := H0[k][0];
    && pg == h + Pow2(k) - Pow2(o) && 0 <= pg && pg + Pow2(o) <= n
    && ls == ListsAfterSplit(L0, k, o, h) && hs == HeadsAfterSplit(H0, k, o, h)
    && |ow| == n && (forall i :: pg <= i < pg + Pow2(o) ==> ow[i] == -1)
    && |F0| == n && F0[pg] == PAGE_AVAILABLE && fl == F0[pg := PAGE_BUDDY_BUSY]
    && |ords| == n && |O0| == n && ords[pg] == o
    && (forall j :: o <= j < k ==> 0 <= HalfHead(h, k, j) < n && ords[HalfHead(h, k, j)] == j)
    && (forall i :: 0 <= i < n && i != pg && i !in SplitHeads(h, k, o) ==> ords[i] == O0[i])
  }

  /** The end of `get_pages_from_list` on snapshots: once the split has reached
      order `o`, marking the kept head `pg` BUSY and giving it order `o` leaves
      well-formed lists that satisfy the buddy invariant, and the outcome is the
      one `TakenFrom` describes. */
  lemma FinishState(nx: seq<int>, pv: seq<int>, n: nat, ls: seq<seq<int>>, hs: seq<seq<int>>,
                    ow: seq<int>, ords: seq<int>, fl: seq<bv32>,
                    L0: seq<seq<int>>, H0: seq<seq<int>>, OW0: seq<int>, O0: seq<int>, F0: seq<bv32>,
                    k: nat, o: nat, h: int, pg: int)
    requires SplitState(nx, pv, n, ls, hs, ow, ords, fl, L0, H0, O0, F0, k, o, h, pg)
    requires Before(L0, H0, OW0, n, k, o) && BuddyOk(L0, H0, O0, F0, n) && h == H0[k][0]
    ensures 0 <= pg < |fl|
    ensures LinksOk(nx, pv, n, ls, ow)
    ensures BuddyOk(ls, hs, ords[pg := o], fl[pg := fl[pg] | PAGE_BUDDY_BUSY], n)
    ensures TakenFrom(ls, hs, ow, ords[pg := o], fl[pg := fl[pg] | PAGE_BUDDY_BUSY], L0, H0, O0, F0, n, k, o, pg)
  {
    TakenState(ords, L0, H0, OW0, O0, F0, n, k, o, h, pg);
    assert fl[pg := fl[pg] | PAGE_BUDDY_BUSY] == F0[pg := PAGE_BUDDY_BUSY];
  }

  /** `PAGE_NUM_FOR_MAX_BUDDY`, `(1 << MAX_BUDDY_PAGE_NUM) - 1`: the group mask
      `init_page_map` is written with. */
  const PAGE_NUM_FOR_MAX_BUDDY: nat := 511
  /** `(1 << (MAX_BUDDY_PAGE_NUM - 1)) - 1`: the mask of a block of the top order,
      which the corrected `init_page_map` groups by. */
  const TOP_BLOCK_MASK: nat := 255

  lemma MulAtLeast(d: nat, k: int)
    requires 1 <= k
    ensures d * k >= d
  {
    assert d * k == d + d * (k - 1);
  }

  /** Quotient and remainder are the only ones: `a == d * q + r` with
      `0 <= r < d` gives `a / d == q` and `a % d == r`. */
  lemma DivModUnique(a: int, d: nat, q: int, r: int)
    requires 0 < d && a == d * q + r && 0 <= r < d
    ensures a / d == q && a % d == r
  {
    var q', r' := a / d, a % d;
    assert d * (q - q') == r' - r by {
      assert d * (q - q') == d * q - d * q';
    }
    if q > q' {
      MulAtLeast(d, q - q');
    } else if q < q' {
      MulAtLeast(d, q' - q);
    }
  }

  /** `KERNEL_PAGE_NUM & ~mask` for a mask `2^m - 1`: the records in whole groups
      of `mask + 1`, that is `n` rounded down to a multiple of `mask + 1`, with
      at most `mask` records left over. */
  function FullGroupsEnd(n: nat, mask: nat): (g: nat)
    ensures g <= n && g % (mask + 1) == 0 && n - g <= mask
  {
    DivModUnique(n - n % (mask + 1), mask + 1, n / (mask + 1), 0);
    n - n % (mask + 1)
  }

  /** The order `init_page_map` gives record `i` when the first `g` records form
      whole groups of `mask + 1`: 8 for the first record of a group (the test
      `(i & mask) == 0`, which for a mask `2^m - 1` is `i % (mask + 1) == 0`),
      -1 for the rest of a group, 0 past the groups. */
  function InitialOrder(g: nat, mask: nat, i: nat): int
  {
    if i < g then (if i % (mask + 1) == 0 then 8 else -1) else 0
  }

  /** Free list `k` once `init_page_map` has filed records `0 .. i-1`, the first
      `g` of them in whole groups. */
  function InitList(k: int, i: nat, g: nat): seq<int>
  {
    if k == 8 then Run(0, if i < g then i else g)
    else if k == 0 then Run(g, if i < g then 0 else i - g)
    else []
  }

  /** The records given order 8 or 0 at the same point: one per group of
      `mask + 1` started on list 8, every record past the groups on list 0. */
  function InitHeadList(k: int, i: nat, g: nat, mask: nat): seq<int>
  {
    if k == 8 then seq(((if i < g then i else g) + mask) / (mask + 1), j => (mask + 1) * j)
    else if k == 0 then Run(g, if i < g then 0 else i - g)
    else []
  }

  /** The free lists after `init_page_map` has filed records `0 .. i-1`, the
      first `g` of them in whole groups: each record is appended to list 8
      inside the groups and to list 0 past them. */
  ghost function InitLists(i: nat, g: nat): (r: seq<seq<int>>)
    ensures |r| == MAX_ORDER
  {
    if i == 0 then seq(MAX_ORDER, _ => [])
    else
      var r, k := InitLists(i - 1, g), if i - 1 < g then 8 else 0;
      r[k := r[k] + [i - 1]]
  }

  /** The records given the order of their list at the same point: a record is
      one on list 8 when it starts a group of `mask + 1`, and on list 0 when it
      lies past the groups. */
  ghost function InitHeads(i: nat, g: nat, mask: nat): (r: seq<seq<int>>)
    ensures |r| == MAX_ORDER
  {
    if i == 0 then seq(MAX_ORDER, _ => [])
    else
      var r, j := InitHeads(i - 1, g, mask), i - 1;
      if j < g && j % (mask + 1) == 0 then r[8 := r[8] + [j]]
      else if g <= j then r[0 := r[0] + [j]]
      else r
  }

  /** Groups of `d` started after `i` records. */
  lemma GroupCountStep(i: nat, d: nat)
    requires 0 < d
    ensures (i + 1 + d - 1) / d == if i % d == 0 then (i + d - 1) / d + 1 else (i + d - 1) / d
    ensures i % d == 0 ==> (i + d - 1) / d == i / d
  {
    var q, r := i / d, i % d;
    if r == 0 {
      DivModUnique(i + d - 1, d, q, d - 1);
      DivModUnique(i + d, d, q + 1, 0);
    } else {
      DivModUnique(i + d - 1, d, q + 1, r - 1);
      DivModUnique(i + d, d, q + 1, r);
    }
  }

  /** Filing the records one at a time builds each list in closed form: list 8
      is the run of the grouped records and list 0 the run of the others. */
  lemma {:induction false} InitListsAt(i: nat, g: nat, k: nat)
    requires k < MAX_ORDER
    ensures InitLists(i, g)[k] == InitList(k, i, g)
  {
    if i == 0 {
      assert |InitList(k, 0, g)| == 0;
    } else {
      var j := i - 1;
      InitListsAt(j, g, k);
      if k == 8 && j < g {
        assert InitList(8, i, g) == InitList(8, j, g) + [j];
      } else if k == 0 && g <= j {
        assert InitList(0, i, g) == InitList(0, j, g) + [j];
      }
    }
  }

  /** Filing record `j` inside the groups adds it to the records of order 8
      exactly when it starts a group. */
  lemma TopHeadsStep(j: nat, g: nat, mask: nat)
    requires j < g
    ensures InitHeadList(8, j + 1, g, mask)
            == if j % (mask + 1) == 0 then InitHeadList(8, j, g, mask) + [j] else InitHeadList(8, j, g, mask)
  {
    var d := mask + 1;
    GroupCountStep(j, d);
    var m := (j + mask) / d;
    assert InitHeadList(8, j, g, mask) == seq(m, x => d * x);
    if j % d == 0 {
      DivModUnique(j, d, j / d, 0);
      assert d * m == j;
      assert seq(m + 1, x => d * x) == seq(m, x => d * x) + [j];
    }
  }

  /** The records given order 8 or 0 at the same point: the multiples of
      `mask + 1` below the grouped records, and every other record past them. */
  lemma {:induction false} InitHeadsAt(i: nat, g: nat, mask: nat, k: nat)
    requires k < MAX_ORDER
    ensures InitHeads(i, g, mask)[k] == InitHeadList(k, i, g, mask)
  {
    if i == 0 {
      DivModUnique(mask, mask + 1, 0, mask);
      assert |InitHeadList(k, 0, g, mask)| == 0;
    } else {
      var j := i - 1;
      InitHeadsAt(j, g, mask, k);
      if k == 8 && j < g {
        TopHeadsStep(j, g, mask);
      } else if k == 0 && g <= j {
        assert InitHeadList(0, i, g, mask) == InitHeadList(0, j, g, mask) + [j];
      }
    }
  }

  /** The free lists of `init_page_map` once records `0 .. i-1` are filed: they
      hold exactly the filed records, each on the list of its group or list 0,
      and the records not yet filed are on no list. */
  ghost predicate FiledLists(n: nat, ls: seq<seq<int>>, hs: seq<seq<int>>, ow: seq<int>, i: nat, g: nat, mask: nat)
  {
    && i <= n && |ow| == n
    && ls == InitLists(i, g) && hs == InitHeads(i, g, mask)
    && (forall r :: i <= r < n ==> ow[r] == -1)
    && (forall r :: 0 <= r < i ==> ow[r] == if r < g then 8 else 0)
  }

  /** `INIT_LIST_HEAD` on a record that is on no list, then `list_add_tail`
      of it onto list `k`, keeps the lists well formed and appends it to list `k`. */
  lemma FileLinkOk(nx: seq<int>, pv: seq<int>, n: nat, ls: seq<seq<int>>, ow: seq<int>, i: nat, k: nat)
    requires LinksOk(nx, pv, n, ls, ow) && i < n && ow[i] == -1 && k < LIST_COUNT
    ensures 0 <= pv[n + k] < n + LIST_COUNT
    ensures var h, p := n + k, pv[n + k];
      LinksOk(nx[i := i][i := h][p := i], pv[i := i][h := i][i := p], n, ls[k := ls[k] + [i]], ow[i := k])
  {
    UnlistedWrite(nx, pv, nx[i := i], pv[i := i], n, ls, ow, i);
    AddTailOk(nx[i := i], pv[i := i], n, ls, ow, i, k);
    assert pv[i := i][n + k] == pv[n + k];
  }

  /** One pass of the loop of `init_page_map` files record `i` on list `k` (8
      inside the groups, 0 past them), given order 8 when it starts a group and
      0 when it lies past them; the record was on no list before. */
  lemma FileStep(n: nat, ls: seq<seq<int>>, hs: seq<seq<int>>, ow: seq<int>, i: nat, g: nat, mask: nat)
    requires FiledLists(n, ls, hs, ow, i, g, mask) && i < n
    ensures ow[i] == -1
    ensures var k := if i < g then 8 else 0;
      FiledLists(n, ls[k := ls[k] + [i]],
                 if i < g && i % (mask + 1) == 0 then hs[8 := hs[8] + [i]] else if g <= i then hs[0 := hs[0] + [i]] else hs,
                 ow[i := k], i + 1, g, mask)
  {
    var k := if i < g then 8 else 0;
    var ow' := ow[i := k];
    assert InitLists(i + 1, g) == ls[k := ls[k] + [i]];
    assert forall r :: i + 1 <= r < n ==> ow'[r] == -1;
    assert forall r :: 0 <= r < i + 1 ==> ow'[r] == if r < g then 8 else 0;
  }

  /** Once all `n` records are filed, list 8 holds the grouped records in order,
      the multiples of `mask + 1` among them have order 8, list 0 holds the
      remaining records, and the other lists nothing. */
  lemma InitDone(n: nat, g: nat, mask: nat)
    requires g <= n && g % (mask + 1) == 0
    ensures var ls, hs := InitLists(n, g), InitHeads(n, g, mask);
      && ls[8] == Run(0, g) && ls[0] == Run(g, n - g)
      && hs[8] == seq(g / (mask + 1), j => (mask + 1) * j) && hs[0] == Run(g, n - g)
      && (forall k :: 0 < k < 8 ==> ls[k] == [] && hs[k] == [])
  {
    GroupCountStep(g, mask + 1);
    forall k | 0 <= k < MAX_ORDER
      ensures InitLists(n, g)[k] == InitList(k, n, g) && InitHeads(n, g, mask)[k] == InitHeadList(k, n, g, mask)
    {
      InitListsAt(n, g, k);
      InitHeadsAt(n, g, mask, k);
    }
  }

  /** The top order's blocks are 256 pages. */
  lemma Pow2Top()
    ensures Pow2(8) == 256
  {
    assert Pow2(1) == 2;
    assert Pow2(2) == 4;
    assert Pow2(3) == 8;
    assert Pow2(4) == 16;
    assert Pow2(5) == 32;
    assert Pow2(6) == 64;
    assert Pow2(7) == 128;
    assert Pow2(8) == 2 * Pow2(7);
  }

  /** Filing record `i` on pass `i` with the source's mask `PAGE_NUM_FOR_MAX_BUDDY`
      breaks the buddy invariant whenever there are at least 512 records,
      whatever block heads are chosen: list 8 then holds at least two blocks of
      256 records, the second starts at record 256, and record 256 has order -1. */
  lemma SourceMaskNotBuddy(n: nat, hs: seq<seq<int>>, ords: seq<int>, fl: seq<bv32>)
    requires 512 <= n && |ords| == n
    requires forall i :: 0 <= i < n ==> ords[i] == InitialOrder(FullGroupsEnd(n, PAGE_NUM_FOR_MAX_BUDDY), PAGE_NUM_FOR_MAX_BUDDY, i)
    ensures !BuddyOk(InitLists(n, FullGroupsEnd(n, PAGE_NUM_FOR_MAX_BUDDY)), hs, ords, fl, n)
  {
    var g := FullGroupsEnd(n, PAGE_NUM_FOR_MAX_BUDDY);
    var ls := InitLists(n, g);
    if BuddyOk(ls, hs, ords, fl, n) {
      InitListsAt(n, g, 8);
      Pow2Top();
      assert ls[8] == Run(0, g) == Blocks(hs[8], 256);
      BlocksLength(hs[8], 256);
      assert 512 <= g;
      assert 1 < |hs[8]|;
      BlocksHeadAt(hs[8], 256, 1);
    }
  }

  /** The links `init_page_map` as written leaves, where every pass writes
      record 0 (its `pg` is never advanced): list `k`'s head, at `n + k`, points
      to record 0 both ways once a pass has used list `k`, and record 0 points
      both ways to the head it was last added to when that pass was the first on
      its list, and to itself otherwise. With at least two records the list of
      the first pass (list 8 when there are whole groups, else list 0) is then
      no ring, whatever members it is taken to have. */
  lemma AsWrittenNoRing(nx: seq<int>, pv: seq<int>, n: nat, g: nat)
    requires 2 <= n && g <= n && |nx| == n + MAX_ORDER && |pv| == n + MAX_ORDER
    requires 0 < g ==> nx[n + 8] == 0 && pv[n + 8] == 0
    requires g < n ==> nx[n] == 0 && pv[n] == 0
    requires pv[0] == if n - 1 == g then n else 0
    ensures forall s :: !Ring(nx, pv, FirstPassHead(n, g), s)
  {
  }

  /** The head, among the `n` records' links, of the list the first pass of
      `init_page_map` files on: list 8 when there are whole groups, else list 0. */
  function FirstPassHead(n: nat, g: nat): (h: nat)
    ensures h == n + 8 || h == n
    ensures h == n + 8 <==> 0 < g
  {
    if 0 < g then n + 8 else n
  }

  /** Once every record is filed in groups of 256, the lists and the records of
      order 8 and 0 satisfy the buddy invariant. */
  lemma InitBuddyOk(n: nat, g: nat, ords: seq<int>, fl: seq<bv32>)
    requires g <= n && g % 256 == 0
    requires |ords| == n && forall i :: 0 <= i < n ==> ords[i] == InitialOrder(g, TOP_BLOCK_MASK, i)
    requires |fl| == n && forall i :: 0 <= i < n ==> fl[i] == PAGE_AVAILABLE
    ensures BuddyOk(InitLists(n, g), InitHeads(n, g, TOP_BLOCK_MASK), ords, fl, n)
  {
    var ls, hs := InitLists(n, g), InitHeads(n, g, TOP_BLOCK_MASK);
    InitDone(n, g, TOP_BLOCK_MASK);
    assert 256 * (g / 256) == g;
    TopGroups(g / 256);
    SinglePages(hs[0]);
    Pow2Top();
    forall k | 0 <= k < MAX_ORDER ensures ls[k] == Blocks(hs[k], Pow2(k)) {
      if k != 8 && k != 0 {
        assert ls[k] == [] && hs[k] == [];
      }
    }
    forall k, i | 0 <= k < MAX_ORDER && 0 <= i < |hs[k]| ensures 0 <= hs[k][i] < n && ords[hs[k][i]] == k {
      if k == 8 {
        assert hs[k][i] == 256 * i;
        DivModUnique(256 * i, TOP_BLOCK_MASK + 1, i, 0);
      }
    }
  }

  /** The flags after `alloc_pages` sets DIRTY on the `m` records from `pg`. */
  function Dirtied(fl: seq<bv32>, pg: int, m: nat): (r: seq<bv32>)
    ensures |r| == |fl|
  {
    seq(|fl|, i requires 0 <= i < |fl| => if pg <= i < pg + m then fl[i] | PAGE_DIRTY else fl[i])
  }

  /** Setting DIRTY on records that are on no free list keeps the buddy
      invariant: every record on a free list is still AVAILABLE. */
  lemma DirtyKeepsBuddy(nx: seq<int>, pv: seq<int>, n: nat, ls: seq<seq<int>>, hs: seq<seq<int>>,
                        ow: seq<int>, ords: seq<int>, fl: seq<bv32>, pg: int, m: nat)
    requires LinksOk(nx, pv, n, ls, ow) && BuddyOk(ls, hs, ords, fl, n)
    requires 0 <= pg && pg + m <= n && forall i :: pg <= i < pg + m ==> ow[i] == -1
    ensures BuddyOk(ls, hs, ords, Dirtied(fl, pg, m), n)
  {
    var fl' := Dirtied(fl, pg, m);
    forall k, j | 0 <= k < MAX_ORDER && 0 <= j < |ls[k]|
      ensures 0 <= ls[k][j] < n && fl'[ls[k][j]] == PAGE_AVAILABLE
    {
      assert Owned(ls, ow, k);
    }
  }

  /** The flags `alloc_pages` leaves: the head of the handed-out block is BUSY
      and DIRTY, the other records of the block, which were free and so
      AVAILABLE, are DIRTY and nothing else, and every other record keeps its
      flags. */
  lemma AllocatedFlags(ls: seq<seq<int>>, hs: seq<seq<int>>, ow: seq<int>, ords: seq<int>,
                       L0: seq<seq<int>>, H0: seq<seq<int>>, O0: seq<int>, F0: seq<bv32>,
                       n: nat, k: nat, o: nat, pg: int)
    requires BuddyOk(L0, H0, O0, F0, n) && 0 <= pg < n
    requires TakenFrom(ls, hs, ow, ords, F0[pg := PAGE_BUDDY_BUSY], L0, H0, O0, F0, n, k, o, pg)
    ensures forall i :: 0 <= i < n ==>
      Dirtied(F0[pg := PAGE_BUDDY_BUSY], pg, Pow2(o))[i] ==
        if i == pg then PAGE_BUDDY_BUSY | PAGE_DIRTY
        else if pg < i < pg + Pow2(o) then PAGE_DIRTY
        else F0[i]
  {
    var h := H0[k][0];
    FirstBlock(L0, H0, n, k);
    Pow2Monotone(o, k);
    forall i | pg < i < pg + Pow2(o) ensures F0[i] == PAGE_AVAILABLE {
      assert L0[k][i - h] == L0[k][..Pow2(k)][i - h] == i;
    }
  }
}
