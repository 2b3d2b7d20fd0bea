/**
 * The buddy page allocator of the kernel: an array of page records, nine
 * circular free lists (orders 0 to 8) threaded through the records' list
 * links, the boot-time filing of every record, and allocation by order with
 * split-on-allocate.
 *
 * Pointers become indices. Record `i` is page `i` of the paged region; its
 * list link is node `i` of the `next`/`prev` arrays, and the list head
 * `page_buddy[k]` is the extra sentinel node `pageNum + k`. `container_of`
 * and `list_entry` are the identity on indices, and `BUDDY_END(x, k)` and
 * `NEXT_BUDDY_START(x, k)` are `x + 2^k - 1` and `x + 2^k`.
 */
module Buddy {
  import opened Wrappers
  import opened Rings
  import opened BuddyBlocks
  import opened FreeLists
  import opened BuddyLayout

  const PAGE_SHIFT: nat := 12
  /** `1 << PAGE_SHIFT`. */
  const PAGE_SIZE: nat := 4096
  /** The top order, whose blocks are 256 pages. */
  const TOP_ORDER: nat := 8

  const UINT32_MODULUS: nat := 0x1_0000_0000

  /** `vaddr` of record `i`: `KERNEL_PAGING_START + i * PAGE_SIZE`, stored in an
      `unsigned int`, so it wraps modulo 2^32. */
  function PageAddress(pagingStart: nat, i: nat): (a: nat)
    ensures a < UINT32_MODULUS
    ensures pagingStart + i * PAGE_SIZE < UINT32_MODULUS ==> a == pagingStart + i * PAGE_SIZE
  {
    (pagingStart + i * PAGE_SIZE) % UINT32_MODULUS
  }

  /** The lowest order at or above `from` whose list is non-empty (`|ls|` or
      `from` when there is none): where the scan of `get_pages_from_list` stops. */
  function FirstNonEmpty(ls: seq<seq<int>>, from: nat): (k: nat)
    ensures from <= k && (k <= |ls| || k == from)
    ensures k < |ls| ==> ls[k] != []
    ensures forall j :: from <= j < k && j < |ls| ==> ls[j] == []
    ensures k >= |ls| <==> forall j :: from <= j < |ls| ==> ls[j] == []
    decreases |ls| - from
  {
    if from >= |ls| then from
    else if ls[from] != [] then from
    else FirstNonEmpty(ls, from + 1)
  }

  /** The fields `init_page_map` gives records `0 .. i-1`, on snapshots of the
      `vaddr`, `flags`, `counter` and `order` fields. */
  ghost predicate FieldsSet(va: seq<int>, fl: seq<bv32>, co: seq<int>, od: seq<int>, pagingStart: nat, i: nat, g: nat, mask: nat)
  {
    && i <= |va| && i <= |fl| && i <= |co| && i <= |od|
    && forall r :: 0 <= r < i ==>
         va[r] == PageAddress(pagingStart, r) && fl[r] == PAGE_AVAILABLE && co[r] == 0 && od[r] == InitialOrder(g, mask, r)
  }

  /** Setting record `i`'s fields extends the filed prefix by one. */
  lemma FieldsStep(va: seq<int>, fl: seq<bv32>, co: seq<int>, od: seq<int>, pagingStart: nat, i: nat, g: nat, mask: nat)
    requires FieldsSet(va, fl, co, od, pagingStart, i, g, mask) && i < |va| && i < |fl| && i < |co| && i < |od|
    ensures FieldsSet(va[i := PageAddress(pagingStart, i)], fl[i := PAGE_AVAILABLE], co[i := 0],
                      od[i := InitialOrder(g, mask, i)], pagingStart, i + 1, g, mask)
  {
  }

  class BuddyAllocator {
    /** `KERNEL_PAGE_NUM` and `KERNEL_PAGING_START`, given rather than derived
        from the link-time end of the kernel image. */
    const pageNum: nat
    const pagingStart: nat

    /** The list links of the records, then of the nine list heads. */
    const next: array<int>
    const prev: array<int>
    /** The other fields of `struct page`, one array per field. */
    const vaddr: array<int>
    const flags: array<bv32>
    const orders: array<int>
    const counter: array<int>

    /** `lists[k]`: the records on free list `k`, in `next` order. */
    ghost var lists: seq<seq<int>>
    /** `heads[k]`: the heads of the blocks on free list `k`, in order. */
    ghost var heads: seq<seq<int>>
    /** `owner[r]`: the free list record `r` is on, or -1 when it is on none. */
    ghost var owner: seq<int>

    /** Index of the list head `page_buddy[k]`. */
    function Head(k: nat): nat
    {
      pageNum + k
    }

    /** The arrays have their sizes and are distinct objects. */
    ghost predicate Shape()
    {
      && next.Length == pageNum + MAX_ORDER && prev.Length == pageNum + MAX_ORDER
      && vaddr.Length == pageNum && flags.Length == pageNum
      && orders.Length == pageNum && counter.Length == pageNum
      && next != prev && next != vaddr && next != orders && next != counter
      && prev != vaddr && prev != orders && prev != counter
      && vaddr != orders && vaddr != counter && orders != counter
      && flags as object != next && flags as object != prev && flags as object != vaddr
      && flags as object != orders && flags as object != counter
    }

    /** The nine free lists are well-formed circular lists of distinct records,
        and `owner` says which list each record is on. */
    ghost predicate LinksValid()
      reads this, next, prev
    {
      Shape() && LinksOk(next[..], prev[..], pageNum, lists, owner)
    }

    /** The buddy invariant: well-formed lists made of whole blocks whose heads
        carry their order, and every free record AVAILABLE. */
    ghost predicate Valid()
      reads this, next, prev, flags, orders
    {
      LinksValid() && BuddyOk(lists, heads, orders[..], flags[..], pageNum)
    }

    constructor (pageNum: nat, pagingStart: nat)
      ensures this.pageNum == pageNum && this.pagingStart == pagingStart
      ensures Shape()
      ensures fresh(next) && fresh(prev) && fresh(vaddr) && fresh(flags) && fresh(orders) && fresh(counter)
    {
      this.pageNum := pageNum;
      this.pagingStart := pagingStart;
      next := new int[pageNum + MAX_ORDER];
      prev := new int[pageNum + MAX_ORDER];
      vaddr := new int[pageNum];
      flags := new bv32[pageNum];
      orders := new int[pageNum];
      counter := new int[pageNum];
      lists, heads, owner := [], [], [];
    }

    /** `INIT_LIST_HEAD`: node `x` points to itself both ways. */
    method InitListHead(x: nat)
      requires Shape() && x < pageNum + MAX_ORDER
      modifies next, prev
      ensures next[..] == old(next[..])[x := x] && prev[..] == old(prev[..])[x := x]
    {
      next[x] := x;
      prev[x] := x;
    }

    /** `__list_add(x, p, n)`: splice node `x` in between `p` and `n`. */
    method ListAddBetween(x: nat, p: nat, n: nat)
      requires Shape() && x < pageNum + MAX_ORDER && p < pageNum + MAX_ORDER && n < pageNum + MAX_ORDER
      modifies next, prev
      ensures next[..] == old(next[..])[x := n][p := x]
      ensures prev[..] == old(prev[..])[n := x][x := p]
    {
      prev[n] := x;
      next[x] := n;
      prev[x] := p;
      next[p] := x;
    }

    /** Node `t` becomes the successor of node `p`: `t->prev = p; p->next = t`. */
    method Join(p: nat, t: nat)
      requires Shape() && p < pageNum + MAX_ORDER && t < pageNum + MAX_ORDER
      modifies next, prev
      ensures next[..] == old(next[..])[p := t] && prev[..] == old(prev[..])[t := p]
    {
      prev[t] := p;
      next[p] := t;
    }

    /** `list_add_tail(x, &page_buddy[k])`: node `x` is spliced in between the
        last node of list `k` and its head, and becomes the last member of that
        list (`AddTailOk` shows the lists stay well formed when `x` was on none). */
    method ListAddTail(x: nat, k: nat)
      requires Shape() && x < pageNum && k < MAX_ORDER && 0 <= prev[Head(k)] < pageNum + MAX_ORDER
      requires |lists| == MAX_ORDER && |owner| == pageNum
      modifies this, next, prev
      ensures var h, p := Head(k), old(prev[Head(k)]);
        next[..] == old(next[..])[x := h][p := x] && prev[..] == old(prev[..])[h := x][x := p]
      ensures lists == old(lists)[k := old(lists[k]) + [x]]
      ensures owner == old(owner)[x := k] && heads == old(heads)
    {
      var h := Head(k);
      ListAddBetween(x, prev[h], h);
      lists := lists[k := lists[k] + [x]];
      owner := owner[x := k];
    }

    /** `list_del(x)` for the member at position `j` of list `k`: its neighbours
        are linked to each other, its own links are left as they were, and it
        leaves the list (`DelOk` shows the lists stay well formed). */
    method ListDel(x: nat, ghost k: nat, ghost j: nat)
      requires Shape() && x < pageNum && k < |lists| && j < |lists[k]| && lists[k][j] == x && |owner| == pageNum
      requires 0 <= prev[x] < pageNum + MAX_ORDER && 0 <= next[x] < pageNum + MAX_ORDER
      modifies this, next, prev
      ensures var p, m := old(prev[x]), old(next[x]);
        next[..] == old(next[..])[p := m] && prev[..] == old(prev[..])[m := p]
      ensures lists == old(lists)[k := old(lists[k])[..j] + old(lists[k])[j + 1..]]
      ensures owner == old(owner)[x := -1] && heads == old(heads)
    {
      var p, n := prev[x], next[x];
      next[p] := n;
      prev[n] := p;
      lists := lists[k := lists[k][..j] + lists[k][j + 1..]];
      owner := owner[x := -1];
    }

    /** `list_add_chain_tail(ch, ct, &page_buddy[k])`: the chain `c` from `ch` to
        `ct` is spliced in between the last node of list `k` and its head; only
        `ch`'s back link, `ct`'s forward link and the links at the tail of the
        list change, and `c` is appended to the list (`AddChainTailOk` shows the
        lists stay well formed when `c` is a linked chain of records on none). */
    method ListAddChainTail(ch: nat, ct: nat, k: nat, ghost c: seq<int>)
      requires Shape() && ch < pageNum + MAX_ORDER && ct < pageNum + MAX_ORDER && k < MAX_ORDER
      requires 0 <= prev[Head(k)] < pageNum + MAX_ORDER && |lists| == MAX_ORDER && |owner| == pageNum
      modifies this, next, prev
      ensures var p := old(prev[Head(k)]);
        next[..] == old(next[..])[p := ch][ct := Head(k)] && prev[..] == old(prev[..])[ch := p][Head(k) := ct]
      ensures lists == old(lists)[k := old(lists[k]) + c]
      ensures owner == Reown(old(owner), c, k) && heads == old(heads)
    {
      var h := Head(k);
      prev[ch] := prev[h];
      next[prev[h]] := ch;
      prev[h] := ct;
      next[ct] := h;
      lists := lists[k := lists[k] + c];
      owner := Reown(owner, c, k);
    }

    /** `list_empty(&page_buddy[k])`: the head points to itself exactly when list `k` is empty. */
    predicate ListEmpty(k: nat)
      requires LinksValid() && k < MAX_ORDER
      reads this, next, prev
      ensures ListEmpty(k) <==> lists[k] == []
    {
      EmptyIff(next[..], prev[..], pageNum, lists, owner, k);
      next[Head(k)] == Head(k)
    }

    /** `init_page_buddy`: every list head points to itself, so all nine lists
        are empty; no record is on a list and the records' links are untouched. */
    method InitPageBuddy()
      requires Shape()
      modifies this, next, prev
      ensures Valid()
      ensures lists == seq(MAX_ORDER, _ => []) && heads == seq(MAX_ORDER, _ => [])
      ensures owner == seq(pageNum, _ => -1)
      ensures forall k :: 0 <= k < MAX_ORDER ==> ListEmpty(k)
      ensures next[..pageNum] == old(next[..pageNum]) && prev[..pageNum] == old(prev[..pageNum])
      ensures forall k :: 0 <= k < MAX_ORDER ==> next[Head(k)] == Head(k) && prev[Head(k)] == Head(k)
    {
      for i := 0 to MAX_ORDER
        invariant forall k :: 0 <= k < i ==> next[Head(k)] == Head(k) && prev[Head(k)] == Head(k)
        invariant next[..pageNum] == old(next[..pageNum]) && prev[..pageNum] == old(prev[..pageNum])
      {
        InitListHead(Head(i));
      }
      lists := seq(MAX_ORDER, _ => []);
      heads := seq(MAX_ORDER, _ => []);
      owner := seq(pageNum, _ => -1);
      forall k | 0 <= k < MAX_ORDER ensures Ring(next[..], prev[..], pageNum + k, lists[k]) {
        assert next[..][Head(k)] == Head(k) && prev[..][Head(k)] == Head(k);
      }
    }

    /** One pass of the loop of `init_page_map` over record `i`, with `g` records
        in whole groups of `mask + 1`: its fields are set, its links point to
        itself, and it is appended to the order-8 list (with order 8 when it
        starts a group, `(i & mask) == 0`, and -1 otherwise) or, past the
        groups, to the order-0 list as a block of its own. */
    method FileRecord(i: nat, g: nat, mask: nat)
      requires Shape() && i < pageNum && |lists| == MAX_ORDER && |heads| == MAX_ORDER && |owner| == pageNum
      requires var k := if i < g then TOP_ORDER else 0; 0 <= prev[Head(k)] < pageNum + MAX_ORDER
      modifies this, next, prev, vaddr, flags, orders, counter
      ensures vaddr[..] == old(vaddr[..])[i := PageAddress(pagingStart, i)]
      ensures flags[..] == old(flags[..])[i := PAGE_AVAILABLE]
      ensures counter[..] == old(counter[..])[i := 0]
      ensures orders[..] == old(orders[..])[i := InitialOrder(g, mask, i)]
      ensures var k := if i < g then TOP_ORDER else 0; var h, p := Head(k), old(prev[Head(k)]);
        && next[..] == old(next[..])[i := i][i := h][p := i]
        && prev[..] == old(prev[..])[i := i][h := i][i := p]
      ensures var k := if i < g then TOP_ORDER else 0;
        lists == old(lists)[k := old(lists[k]) + [i]] && owner == old(owner)[i := k]
      ensures heads == if i < g && i % (mask + 1) == 0 then old(heads)[TOP_ORDER := old(heads[TOP_ORDER]) + [i]]
                       else if g <= i then old(heads)[0 := old(heads[0]) + [i]]
                       else old(heads)
    {
      vaddr[i] := PageAddress(pagingStart, i);
      flags[i] := PAGE_AVAILABLE;
      counter[i] := 0;
      ghost var va, fl, co := vaddr[..], flags[..], counter[..];
      InitListHead(i);
      if i < g {
        if i % (mask + 1) == 0 {
          orders[i] := TOP_ORDER;
          heads := heads[TOP_ORDER := heads[TOP_ORDER] + [i]];
        } else {
          orders[i] := -1;
        }
        ListAddTail(i, TOP_ORDER);
      } else {
        orders[i] := 0;
        heads := heads[0 := heads[0] + [i]];
        ListAddTail(i, 0);
      }
      assert vaddr[..] == va && flags[..] == fl && counter[..] == co;
    }

    /** The state of `init_page_map` once records `0 .. i-1` are filed, the first
        `g` of them in whole groups of `mask + 1`. */
    ghost predicate FiledUpTo(i: nat, g: nat, mask: nat)
      reads this, next, prev, vaddr, flags, counter, orders
    {
      && Shape()
      && LinksOk(next[..], prev[..], pageNum, lists, owner)
      && FiledLists(pageNum, lists, heads, owner, i, g, mask)
      && FieldsSet(vaddr[..], flags[..], counter[..], orders[..], pagingStart, i, g, mask)
    }

    /** One pass of the loop of `init_page_map` keeps its state up to date. */
    method FileNext(i: nat, g: nat, mask: nat)
      requires FiledUpTo(i, g, mask) && i < pageNum
      modifies this, next, prev, vaddr, flags, orders, counter
      ensures FiledUpTo(i + 1, g, mask)
    {
      FileStep(pageNum, lists, heads, owner, i, g, mask);
      FileLinkOk(next[..], prev[..], pageNum, lists, owner, i, if i < g then TOP_ORDER else 0);
      FieldsStep(vaddr[..], flags[..], counter[..], orders[..], pagingStart, i, g, mask);
      FileRecord(i, g, mask);
    }

    /** The loop of `init_page_map` over all records, with the first `g` in whole
        groups of `mask + 1`. */
    method FileRecords(g: nat, mask: nat)
      requires FiledUpTo(0, g, mask)
      modifies this, next, prev, vaddr, flags, orders, counter
      ensures FiledUpTo(pageNum, g, mask)
    {
      for i := 0 to pageNum
        invariant FiledUpTo(i, g, mask)
      {
        FileNext(i, g, mask);
      }
    }

    /** The body of `init_page_map` with the group mask `mask`: every record gets
        its page address, AVAILABLE and counter 0; the records in whole groups of
        `mask + 1` are appended in order to the order-8 list, each group's first
        record with order 8 and the others with order -1; the remaining records
        are appended in order to the order-0 list with order 0. The lists are
        well formed. */
    method InitPageMapWith(mask: nat)
      requires Shape()
      modifies this, next, prev, vaddr, flags, orders, counter
      ensures LinksValid()
      ensures forall i :: 0 <= i < pageNum ==>
        vaddr[i] == PageAddress(pagingStart, i) && flags[i] == PAGE_AVAILABLE && counter[i] == 0
      ensures forall i :: 0 <= i < pageNum ==> orders[i] == InitialOrder(FullGroupsEnd(pageNum, mask), mask, i)
      ensures var g := FullGroupsEnd(pageNum, mask);
        && lists == InitLists(pageNum, g) && heads == InitHeads(pageNum, g, mask)
        && lists[TOP_ORDER] == Run(0, g) && lists[0] == Run(g, pageNum - g)
        && (forall k :: 0 < k < TOP_ORDER ==> lists[k] == [])
        && heads[TOP_ORDER] == seq(g / (mask + 1), j => (mask + 1) * j) && heads[0] == Run(g, pageNum - g)
        && (forall k :: 0 < k < TOP_ORDER ==> heads[k] == [])
      ensures forall r :: 0 <= r < pageNum ==> owner[r] == if r < FullGroupsEnd(pageNum, mask) then TOP_ORDER else 0
    {
      InitPageBuddy();
      var g := FullGroupsEnd(pageNum, mask);
      FileRecords(g, mask);
      ghost var va, fl, co, od := vaddr[..], flags[..], counter[..], orders[..];
      forall i | 0 <= i < pageNum
        ensures vaddr[i] == PageAddress(pagingStart, i) && flags[i] == PAGE_AVAILABLE && counter[i] == 0
        ensures orders[i] == InitialOrder(g, mask, i)
      {
        assert va[i] == vaddr[i] && fl[i] == flags[i] && co[i] == counter[i] && od[i] == orders[i];
      }
      InitDone(pageNum, g, mask);
    }

    /** `init_page_map`, grouping by 256 records, the size of an order-8 block:
        the layout of `InitPageMapWith` for that mask, which satisfies the buddy
        invariant. */
    method InitPageMap()
      requires Shape()
      modifies this, next, prev, vaddr, flags, orders, counter
      ensures Valid()
      ensures forall i :: 0 <= i < pageNum ==>
        vaddr[i] == PageAddress(pagingStart, i) && flags[i] == PAGE_AVAILABLE && counter[i] == 0
      ensures forall i :: 0 <= i < pageNum ==> orders[i] == InitialOrder(FullGroupsEnd(pageNum, TOP_BLOCK_MASK), TOP_BLOCK_MASK, i)
      ensures var g := FullGroupsEnd(pageNum, TOP_BLOCK_MASK);
        && lists[TOP_ORDER] == Run(0, g) && lists[0] == Run(g, pageNum - g)
        && (forall k :: 0 < k < TOP_ORDER ==> lists[k] == [])
      ensures var g := FullGroupsEnd(pageNum, TOP_BLOCK_MASK);
        && heads[TOP_ORDER] == seq(g / 256, j => 256 * j) && heads[0] == Run(g, pageNum - g)
        && (forall k :: 0 < k < TOP_ORDER ==> heads[k] == [])
      ensures forall r :: 0 <= r < pageNum ==> owner[r] == if r < FullGroupsEnd(pageNum, TOP_BLOCK_MASK) then TOP_ORDER else 0
    {
      InitPageMapWith(TOP_BLOCK_MASK);
      InitBuddyOk(pageNum, FullGroupsEnd(pageNum, TOP_BLOCK_MASK), orders[..], flags[..]);
    }

    /** `init_page_map` with the source's mask `PAGE_NUM_FOR_MAX_BUDDY` but `pg`
        advanced to record `i` on pass `i`: the layout of `InitPageMapWith` for
        groups of 512, which breaks the buddy invariant, for any choice of block
        heads, once there are 512 records. */
    method InitPageMapSourceMask()
      requires Shape()
      modifies this, next, prev, vaddr, flags, orders, counter
      ensures LinksValid()
      ensures forall i :: 0 <= i < pageNum ==>
        vaddr[i] == PageAddress(pagingStart, i) && flags[i] == PAGE_AVAILABLE && counter[i] == 0
      ensures forall i :: 0 <= i < pageNum ==>
        orders[i] == InitialOrder(FullGroupsEnd(pageNum, PAGE_NUM_FOR_MAX_BUDDY), PAGE_NUM_FOR_MAX_BUDDY, i)
      ensures var g := FullGroupsEnd(pageNum, PAGE_NUM_FOR_MAX_BUDDY);
        && lists[TOP_ORDER] == Run(0, g) && lists[0] == Run(g, pageNum - g)
        && (forall k :: 0 < k < TOP_ORDER ==> lists[k] == [])
      ensures 512 <= pageNum ==> forall hs :: !BuddyOk(lists, hs, orders[..], flags[..], pageNum)
    {
      InitPageMapWith(PAGE_NUM_FOR_MAX_BUDDY);
      forall hs | 512 <= pageNum ensures !BuddyOk(lists, hs, orders[..], flags[..], pageNum) {
        SourceMaskNotBuddy(pageNum, hs, orders[..], flags[..]);
      }
    }

    /** Whether one of the first `i` passes of `init_page_map` files on list `k`:
        the passes below `g` use list 8 and the others list 0. */
    static predicate ListUsed(k: nat, i: nat, g: nat)
    {
      (k == TOP_ORDER && 0 < i && 0 < g) || (k == 0 && g < i)
    }

    /** One `list_add_tail` of record 0 onto list `k` in `init_page_map` as
        written, after `INIT_LIST_HEAD` of record 0: head `k` is empty or points
        to record 0 both ways; afterwards it points to record 0 both ways, and
        record 0 points to the head both ways if the list was empty and to itself
        otherwise. No other link changes. */
    method AddFirstRecord(k: nat)
      requires Shape() && 0 < pageNum && k < MAX_ORDER
      requires (next[Head(k)] == Head(k) && prev[Head(k)] == Head(k)) || (next[Head(k)] == 0 && prev[Head(k)] == 0)
      modifies next, prev
      ensures next[Head(k)] == 0 && prev[Head(k)] == 0
      ensures next[0] == prev[0] == if old(prev[Head(k)]) == Head(k) then Head(k) else 0
      ensures forall j :: 0 < j < pageNum + MAX_ORDER && j != Head(k) ==> next[j] == old(next[j]) && prev[j] == old(prev[j])
    {
      InitListHead(0);
      ListAddBetween(0, prev[Head(k)], Head(k));
    }

    /** The links of a head of `init_page_map` as written after `i` passes: it
        points to record 0 both ways once a pass has used its list, and to itself
        before that. */
    ghost predicate AsWrittenHeads(i: nat, g: nat)
      requires Shape()
      reads next, prev
    {
      forall k :: 0 <= k < MAX_ORDER ==>
        if ListUsed(k, i, g) then next[Head(k)] == 0 && prev[Head(k)] == 0
        else next[Head(k)] == Head(k) && prev[Head(k)] == Head(k)
    }

    /** The state of `init_page_map` as written after `i` passes: the heads as
        `AsWrittenHeads` says, record 0 holding what pass `i - 1` wrote, and
        records `1 .. pageNum-1` as they were (`va` .. `pv`). */
    ghost predicate RewrittenUpTo(i: nat, g: nat, va: seq<int>, fl: seq<bv32>, co: seq<int>, od: seq<int>,
                                  nx: seq<int>, pv: seq<int>)
      reads this, next, prev, vaddr, flags, counter, orders
    {
      && Shape()
      && i <= pageNum && |va| == |fl| == |co| == |od| == |nx| == |pv| == pageNum
      && AsWrittenHeads(i, g)
      && (0 < i ==>
            && vaddr[0] == PageAddress(pagingStart, i - 1) && flags[0] == PAGE_AVAILABLE && counter[0] == 0
            && orders[0] == InitialOrder(g, PAGE_NUM_FOR_MAX_BUDDY, i - 1)
            && next[0] == prev[0] == LastPassLink(i - 1, g))
      && (forall r :: 1 <= r < pageNum ==>
            && vaddr[r] == va[r] && flags[r] == fl[r] && counter[r] == co[r]
            && orders[r] == od[r] && next[r] == nx[r] && prev[r] == pv[r])
    }

    /** Where record 0 points after pass `i` of `init_page_map` as written: to the
        head of that pass's list when the pass was the first on it, else to
        itself. */
    function LastPassLink(i: nat, g: nat): (l: int)
      ensures l == Head(TOP_ORDER) <==> i == 0 && 0 < g
      ensures 0 < pageNum ==> (l == Head(0) <==> i == g)
    {
      if i == 0 && 0 < g then Head(TOP_ORDER) else if i == g then Head(0) else 0
    }

    /** One pass of `init_page_map` as written: its `pg` is still the first
        record. */
    method RewriteFirst(i: nat, g: nat, ghost va: seq<int>, ghost fl: seq<bv32>, ghost co: seq<int>,
                        ghost od: seq<int>, ghost nx: seq<int>, ghost pv: seq<int>)
      requires RewrittenUpTo(i, g, va, fl, co, od, nx, pv) && i < pageNum
      modifies next, prev, vaddr, flags, orders, counter
      ensures RewrittenUpTo(i + 1, g, va, fl, co, od, nx, pv)
    {
      var pg := 0;
      vaddr[pg] := PageAddress(pagingStart, i);
      flags[pg] := PAGE_AVAILABLE;
      counter[pg] := 0;
      if i < g {
        if i % (PAGE_NUM_FOR_MAX_BUDDY + 1) == 0 {
          orders[pg] := TOP_ORDER;
        } else {
          orders[pg] := -1;
        }
        AddFirstRecord(TOP_ORDER);
      } else {
        orders[pg] := 0;
        AddFirstRecord(0);
      }
    }

    /** `init_page_map` exactly as written: `pg` is set to the first record once
        and never advanced, so every pass rewrites record 0. Record 0 ends with
        the fields of the last pass; records `1 .. pageNum-1` keep their fields
        and links; each head used by a pass points to record 0 both ways; record
        0 points both ways to the head of the last pass when that pass was the
        first on its list, and to itself otherwise. With two records or more,
        the list of the first pass is then no ring. */
    method InitPageMapAsWritten()
      requires Shape()
      modifies this, next, prev, vaddr, flags, orders, counter
      ensures var g := FullGroupsEnd(pageNum, PAGE_NUM_FOR_MAX_BUDDY);
        && AsWrittenHeads(pageNum, g)
        && (0 < pageNum ==>
              && vaddr[0] == PageAddress(pagingStart, pageNum - 1) && flags[0] == PAGE_AVAILABLE && counter[0] == 0
              && orders[0] == InitialOrder(g, PAGE_NUM_FOR_MAX_BUDDY, pageNum - 1)
              && next[0] == prev[0] == LastPassLink(pageNum - 1, g))
      ensures forall r :: 1 <= r < pageNum ==>
        && vaddr[r] == old(vaddr[r]) && flags[r] == old(flags[r]) && counter[r] == old(counter[r])
        && orders[r] == old(orders[r]) && next[r] == old(next[r]) && prev[r] == old(prev[r])
      ensures 2 <= pageNum ==>
        forall s :: !Ring(next[..], prev[..], FirstPassHead(pageNum, FullGroupsEnd(pageNum, PAGE_NUM_FOR_MAX_BUDDY)), s)
    {
      ghost var va, fl, co, od := vaddr[..], flags[..], counter[..], orders[..];
      ghost var nx, pv := next[..pageNum], prev[..pageNum];
      InitPageBuddy();
      var g := FullGroupsEnd(pageNum, PAGE_NUM_FOR_MAX_BUDDY);
      assert next[..pageNum] == nx && prev[..pageNum] == pv;
      for i := 0 to pageNum
        invariant RewrittenUpTo(i, g, va, fl, co, od, nx, pv)
      {
        RewriteFirst(i, g, va, fl, co, od, nx, pv);
      }
      if 2 <= pageNum {
        AsWrittenNoRing(next[..], prev[..], pageNum, g);
      }
    }

    /** The state of the split loop of `get_pages_from_list`: the first block, at
        `h`, of list `k` in the lists `L0` with heads `H0` was cut out, and it has
        been split from order `k` down to order `s`. The halves of orders `s .. k-1`
        are filed with their order set, and the working block of order `s` at `pg`
        is a linked chain of records on no list; no other order or flag changed
        from `O0` and `F0`. */
    ghost predicate Splitting(L0: seq<seq<int>>, H0: seq<seq<int>>, O0: seq<int>, F0: seq<bv32>,
                              k: nat, s: nat, h: int, pg: int)
      reads this, next, prev, flags, orders
    {
      Shape() && SplitState(next[..], prev[..], pageNum, lists, heads, owner, orders[..], flags[..],
                            L0, H0, O0, F0, k, s, h, pg)
    }

    /** The unlink of `get_pages_from_list`: `pg` is the first record after the
        head of list `k`, and the head is linked to the record after `pg`'s block
        of `2^k` records, which leaves the list (`DetachState` shows this is the
        split state at order `k` when `pg` heads the list's first block). The
        ghost parameters `nx`, `pv` and `h` name the links before the unlink and
        the first record after the head. */
    method DetachFirstBlock(k: nat, ghost nx: seq<int>, ghost pv: seq<int>, ghost h: int) returns (pg: nat)
      requires Shape() && next[..] == nx && prev[..] == pv && k < MAX_ORDER
      requires |lists| == MAX_ORDER && |heads| == MAX_ORDER && |owner| == pageNum
      requires heads[k] != [] && Pow2(k) <= |lists[k]|
      requires nx[pageNum + k] == h && 0 <= h && h + Pow2(k) <= pageNum
      requires 0 <= nx[h + Pow2(k) - 1] < pageNum + MAX_ORDER
      modifies this, next, prev
      ensures pg == h
      ensures next[..] == nx[pageNum + k := nx[h + Pow2(k) - 1]] && prev[..] == pv[nx[h + Pow2(k) - 1] := pageNum + k]
      ensures orders[..] == old(orders[..]) && flags[..] == old(flags[..])
      ensures lists == old(lists)[k := old(lists[k])[Pow2(k)..]] && heads == old(heads)[k := old(heads[k])[1..]]
      ensures owner == Reown(old(owner), Run(h, Pow2(k)), -1)
    {
      var hd := Head(k);
      pg := next[hd];
      var tl := pg + Pow2(k) - 1;
      Join(hd, next[tl]);
      lists := lists[k := lists[k][Pow2(k)..]];
      heads := heads[k := heads[k][1..]];
      owner := Reown(owner, Run(pg, Pow2(k)), -1);
    }

    /** One pass of the split loop over the working block of order `s` at `pg`:
        the lower half's head gets order `s - 1`, the lower half is appended as a
        chain to list `s - 1` with `pg` as a new block head, and the upper half,
        at the returned index, is the new working block (`SplitStepState` shows
        the split state moves from order `s` to order `s - 1`). */
    method SplitOff(s: nat, pg: nat, ghost nx: seq<int>, ghost pv: seq<int>, ghost od: seq<int>) returns (upper: nat)
      requires Shape() && 0 < s <= MAX_ORDER && pg + Pow2(s) <= pageNum
      requires next[..] == nx && prev[..] == pv && orders[..] == od
      requires 0 <= pv[pageNum + (s - 1)] < pageNum + MAX_ORDER
      requires |lists| == MAX_ORDER && |heads| == MAX_ORDER && |owner| == pageNum
      modifies this, next, prev, orders
      ensures upper == pg + Pow2(s - 1)
      ensures var q, p, t := Pow2(s - 1), pv[pageNum + (s - 1)], pageNum + (s - 1);
        && next[..] == nx[p := pg][pg + q - 1 := t]
        && prev[..] == pv[pg := p][t := pg + q - 1]
        && lists == old(lists)[s - 1 := old(lists[s - 1]) + Run(pg, q)]
        && heads == old(heads)[s - 1 := old(heads[s - 1]) + [pg]]
        && owner == Reown(old(owner), Run(pg, q), s - 1)
        && orders[..] == od[pg := s - 1]
      ensures flags[..] == old(flags[..])
    {
      var q := Pow2(s - 1);
      assert Pow2(s) == 2 * q;
      upper := pg + q;
      orders[pg] := s - 1;
      ListAddChainTail(pg, pg + q - 1, s - 1, Run(pg, q));
      heads := heads[s - 1 := heads[s - 1] + [pg]];
    }

    /** The split loop of `get_pages_from_list`, from order `k` down to `order`:
        the returned record heads the block of order `order` that is kept. */
    method SplitDown(ghost L0: seq<seq<int>>, ghost H0: seq<seq<int>>, ghost O0: seq<int>, ghost F0: seq<bv32>,
                     k: nat, order: nat, ghost h: int, pg: nat) returns (ret: nat)
      requires order <= k && Splitting(L0, H0, O0, F0, k, k, h, pg)
      modifies this, next, prev, orders
      ensures ret == h + Pow2(k) - Pow2(order)
      ensures Splitting(L0, H0, O0, F0, k, order, h, ret)
    {
      var s := k;
      ret := pg;
      while s > order
        invariant order <= s && Splitting(L0, H0, O0, F0, k, s, h, ret)
        decreases s
      {
        ghost var nx, pv, od := next[..], prev[..], orders[..];
        SplitStepState(nx, pv, pageNum, lists, heads, owner, od, flags[..], L0, H0, O0, F0, k, s, h, ret);
        ret := SplitOff(s, ret, nx, pv, od);
        s := s - 1;
      }
    }

    /** The end of `get_pages_from_list`: the kept block's head `pg` is marked
        BUSY and given order `order` (`FinishState` shows the buddy invariant
        then holds again). The ghost parameters `od` and `fl` name the orders
        and flags before. */
    method MarkTaken(pg: nat, order: nat, ghost od: seq<int>, ghost fl: seq<bv32>)
      requires Shape() && pg < pageNum && orders[..] == od && flags[..] == fl
      modifies flags, orders
      ensures flags[..] == fl[pg := fl[pg] | PAGE_BUDDY_BUSY] && orders[..] == od[pg := order]
      ensures next[..] == old(next[..]) && prev[..] == old(prev[..])
    {
      flags[pg] := flags[pg] | PAGE_BUDDY_BUSY;
      orders[pg] := order;
    }

    /** The part of `get_pages_from_list` after the scan has found the non-empty
        list `k` at or above `order`: its first block, at `h`, is cut out and
        split down to order `order`, each lower half filed on its order's list
        with its order set, and the block left at the top is returned with BUSY
        set and order `order`. The buddy invariant is kept. */
    method TakeBlock(k: nat, order: nat) returns (pg: nat)
      requires Valid() && order <= k < MAX_ORDER && lists[k] != []
      modifies this, next, prev, flags, orders
      ensures Valid()
      ensures TakenFrom(lists, heads, owner, orders[..], flags[..],
                        old(lists), old(heads), old(orders[..]), old(flags[..]), pageNum, k, order, pg)
    {
      ghost var L0, H0, OW0, O0, F0 := lists, heads, owner, orders[..], flags[..];
      OwnersOf(next[..], prev[..], pageNum, lists, owner);
      BlocksEmpty(heads[k], Pow2(k));
      ghost var h := heads[k][0];
      pg := Unlink(k);
      pg := SplitAndMark(L0, H0, OW0, O0, F0, k, order, h, pg);
    }

    /** The unlink of the first block, at `h`, of the non-empty list `k`, from a
        state that satisfies the buddy invariant: the split starts at order `k`. */
    method Unlink(k: nat) returns (pg: nat)
      requires LinksValid() && |heads| == MAX_ORDER && k < MAX_ORDER && heads[k] != []
      requires lists[k] == Blocks(heads[k], Pow2(k)) && forall j :: 0 <= j < |lists[k]| ==> 0 <= lists[k][j] < pageNum
      modifies this, next, prev
      ensures pg == old(heads[k][0])
      ensures Splitting(old(lists), old(heads), old(orders[..]), old(flags[..]), k, k, pg, pg)
    {
      ghost var L0, H0, OW0, O0, F0 := lists, heads, owner, orders[..], flags[..];
      ghost var h := heads[k][0];
      FirstBlock(L0, H0, pageNum, k);
      ghost var nx0, pv0 := next[..], prev[..];
      DetachState(nx0, pv0, pageNum, L0, H0, OW0, O0, F0, k, h);
      pg := DetachFirstBlock(k, nx0, pv0, h);
    }

    /** The split loop and the marking of the kept block, from the state right
        after the unlink of the first block, at `h`, of list `k`. */
    method SplitAndMark(ghost L0: seq<seq<int>>, ghost H0: seq<seq<int>>, ghost OW0: seq<int>,
                        ghost O0: seq<int>, ghost F0: seq<bv32>, k: nat, order: nat, ghost h: int, pg: nat)
      returns (ret: nat)
      requires order <= k && Splitting(L0, H0, O0, F0, k, k, h, pg)
      requires Before(L0, H0, OW0, pageNum, k, order) && BuddyOk(L0, H0, O0, F0, pageNum) && h == H0[k][0]
      modifies this, next, prev, flags, orders
      ensures Valid()
      ensures TakenFrom(lists, heads, owner, orders[..], flags[..], L0, H0, O0, F0, pageNum, k, order, ret)
    {
      ret := SplitDown(L0, H0, O0, F0, k, order, h, pg);
      ghost var nx, pv, ls, hs, ow, od, fl := next[..], prev[..], lists, heads, owner, orders[..], flags[..];
      FinishState(nx, pv, pageNum, ls, hs, ow, od, fl, L0, H0, OW0, O0, F0, k, order, h, ret);
      MarkTaken(ret, order, od, fl);
    }

    /** `get_pages_from_list(order)`: the scan finds the lowest non-empty list at
        or above `order`, or none, and then nothing changes. Otherwise the first
        block of that list, of order `k`, is cut out and split: the lower half of
        each order from `k - 1` down to `order` is filed on that order's list with
        its order set, and the block left at the top, of order `order`, is
        returned with BUSY set and order `order`. The buddy invariant is kept. */
    method GetPagesFromList(order: nat) returns (r: Option<nat>)
      requires Valid()
      modifies this, next, prev, flags, orders
      ensures Valid()
      ensures r.None? <==> forall j :: order <= j < MAX_ORDER ==> old(lists[j]) == []
      ensures r.None? ==>
        && lists == old(lists) && heads == old(heads) && owner == old(owner)
        && next[..] == old(next[..]) && prev[..] == old(prev[..])
        && flags[..] == old(flags[..]) && orders[..] == old(orders[..])
      ensures r.Some? ==> TakenFrom(lists, heads, owner, orders[..], flags[..], old(lists), old(heads),
                                    old(orders[..]), old(flags[..]), pageNum, FirstNonEmpty(old(lists), order),
                                    order, r.value)
    {
      var k := order;
      while k < MAX_ORDER && ListEmpty(k)
        invariant order <= k && FirstNonEmpty(lists, k) == FirstNonEmpty(lists, order)
        decreases MAX_ORDER - k
      {
        k := k + 1;
      }
      if k >= MAX_ORDER {
        return None;
      }
      assert FirstNonEmpty(lists, order) == k;
      var pg := TakeBlock(k, order);
      r := Some(pg);
    }
  

    /** The DIRTY loop of `alloc_pages`: records `pg .. pg+m-1` get DIRTY set. */
    method MarkDirty(pg: nat, m: nat)
      requires Shape() && pg + m <= pageNum
      modifies flags
      ensures flags[..] == Dirtied(old(flags[..]), pg, m)
    {
      for i := 0 to m
        invariant flags[..] == Dirtied(old(flags[..]), pg, i)
      {
        flags[pg + i] := flags[pg + i] | PAGE_DIRTY;
      }
    }

    /** `alloc_pages(order, flag)`: `get_pages_from_list(order)`, then DIRTY on
        every record of the handed-out block of `2^order` records. It fails, and
        nothing changes, exactly when every list from `order` up is empty. On
        success the lists, heads and orders are those `TakenFrom` describes, the
        head of the block is BUSY and DIRTY, its other records DIRTY, and every
        other record keeps its flags (see `AllocatedFlags`). `flag` is unused. */
    method AllocPages(order: nat, flag: bv32) returns (r: Option<nat>)
      requires Valid()
      modifies this, next, prev, flags, orders
      ensures Valid()
      ensures r.None? <==> forall j :: order <= j < MAX_ORDER ==> old(lists[j]) == []
      ensures r.None? ==>
        && lists == old(lists) && heads == old(heads) && owner == old(owner)
        && next[..] == old(next[..]) && prev[..] == old(prev[..])
        && flags[..] == old(flags[..]) && orders[..] == old(orders[..])
      ensures r.Some? ==> r.value < pageNum
      ensures r.Some? ==>
        var pg, F1 := r.value, old(flags[..])[r.value := PAGE_BUDDY_BUSY];
        && TakenFrom(lists, heads, owner, orders[..], F1, old(lists), old(heads), old(orders[..]),
                     old(flags[..]), pageNum, FirstNonEmpty(old(lists), order), order, pg)
        && flags[..] == Dirtied(F1, pg, Pow2(order))
    {
      r := GetPagesFromList(order);
      if r.None? {
        return;
      }
      var pg := r.value;
      DirtyKeepsBuddy(next[..], prev[..], pageNum, lists, heads, owner, orders[..], flags[..], pg, Pow2(order));
      MarkDirty(pg, Pow2(order));
    }
  }
}
