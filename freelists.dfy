/**
 * The nine free lists of the buddy allocator as one value: the `next`/`prev`
 * links of `n` page records followed by the nine list heads, the members of
 * each list, and for each record the list it is on (-1 for none). Every
 * list primitive the allocator uses keeps `LinksOk`; the lemmas here say so
 * on snapshots, so the methods of the allocator only write the links.
 */
module FreeLists {
  import opened Rings

  const LIST_COUNT: nat := 9

  /** The free lists are well formed: each is a circular list of distinct
      records through its own head `n + k`, and `ow` says which list each
      record is on. */
  ghost predicate LinksOk(nx: seq<int>, pv: seq<int>, n: nat, ls: seq<seq<int>>, ow: seq<int>)
  {
    && |nx| == n + LIST_COUNT && |pv| == n + LIST_COUNT
    && |ls| == LIST_COUNT && |ow| == n
    && (forall r :: 0 <= r < n ==> -1 <= ow[r] < LIST_COUNT)
    && (forall k :: 0 <= k < LIST_COUNT ==> ListOk(nx, pv, n, ls, k))
    && (forall k :: 0 <= k < LIST_COUNT ==> Owned(ls, ow, k))
  }

  /** List `k` is a circular list of distinct records through its head `n + k`. */
  ghost predicate ListOk(nx: seq<int>, pv: seq<int>, n: nat, ls: seq<seq<int>>, k: nat)
    requires k < |ls|
  {
    Ring(nx, pv, n + k, ls[k]) && NoDup(ls[k])
  }

  /** Every member of list `k` is a record that `ow` puts on list `k`. */
  ghost predicate Owned(ls: seq<seq<int>>, ow: seq<int>, k: nat)
    requires k < |ls|
  {
    forall j :: 0 <= j < |ls[k]| ==> 0 <= ls[k][j] < |ow| && ow[ls[k][j]] == k
  }

  /** `ow` after every record of `c` has been put on list `k`. */
  ghost function Reown(ow: seq<int>, c: seq<int>, k: int): (r: seq<int>)
    ensures |r| == |ow|
    ensures forall i :: 0 <= i < |ow| ==> r[i] == if i in c then k else ow[i]
  {
    seq(|ow|, i requires 0 <= i < |ow| => if i in c then k else ow[i])
  }

  /** Every member of every list is a record on the list `ow` names. */
  lemma OwnersOf(nx: seq<int>, pv: seq<int>, n: nat, ls: seq<seq<int>>, ow: seq<int>)
    requires LinksOk(nx, pv, n, ls, ow)
    ensures forall k, j :: 0 <= k < LIST_COUNT && 0 <= j < |ls[k]| ==> 0 <= ls[k][j] < n && ow[ls[k][j]] == k
    ensures forall k :: 0 <= k < LIST_COUNT ==> NoDup(ls[k])
  {
    forall k, j | 0 <= k < LIST_COUNT && 0 <= j < |ls[k]| ensures 0 <= ls[k][j] < n && ow[ls[k][j]] == k {
      assert Owned(ls, ow, k);
    }
    forall k | 0 <= k < LIST_COUNT ensures NoDup(ls[k]) {
      assert ListOk(nx, pv, n, ls, k);
    }
  }

  /** A change confined to list `k` keeps the lists well formed: the writes, at
      the nodes `w`, touch only list `k`'s head, its members and records on no list, list `k` is well
      formed afterwards, and the other lists and their members' owners are kept. */
  lemma ListChanged(nx: seq<int>, pv: seq<int>, nx': seq<int>, pv': seq<int>, n: nat,
                    ls: seq<seq<int>>, ow: seq<int>, ls': seq<seq<int>>, ow': seq<int>, k: nat, w: set<int>)
    requires LinksOk(nx, pv, n, ls, ow) && k < LIST_COUNT
    requires |nx'| == |nx| && |pv'| == |pv| && |ls'| == LIST_COUNT && |ow'| == n
    requires forall i :: 0 <= i < |nx| && i !in w ==> nx'[i] == nx[i] && pv'[i] == pv[i]
    requires forall i :: i in w ==> i == n + k || (0 <= i < n && (ow[i] == k || ow[i] == -1))
    requires ListOk(nx', pv', n, ls', k) && Owned(ls', ow', k)
    requires forall k' :: 0 <= k' < LIST_COUNT && k' != k ==> ls'[k'] == ls[k']
    requires forall r :: 0 <= r < n ==> -1 <= ow'[r] < LIST_COUNT
    requires forall r :: 0 <= r < n && ow[r] != k && ow[r] != -1 ==> ow'[r] == ow[r]
    ensures LinksOk(nx', pv', n, ls', ow')
  {
    forall k' | 0 <= k' < LIST_COUNT && k' != k
      ensures ListOk(nx', pv', n, ls', k') && Owned(ls', ow', k')
    {
      assert ListOk(nx, pv, n, ls, k') && Owned(ls, ow, k');
      forall j | 0 <= j < |ls[k']|
        ensures nx'[ls[k'][j]] == nx[ls[k'][j]] && pv'[ls[k'][j]] == pv[ls[k'][j]] && ow'[ls[k'][j]] == k'
      {
        assert ow[ls[k'][j]] == k';
      }
      RingFrame(nx, pv, nx', pv', n + k', ls[k']);
    }
  }

  /** The neighbours of a list head are the head itself or members of its list. */
  lemma HeadNeighbours(nx: seq<int>, pv: seq<int>, n: nat, ls: seq<seq<int>>, ow: seq<int>, k: nat)
    requires LinksOk(nx, pv, n, ls, ow) && k < LIST_COUNT
    ensures nx[n + k] == n + k || (0 <= nx[n + k] < n && ow[nx[n + k]] == k)
    ensures pv[n + k] == n + k || (0 <= pv[n + k] < n && ow[pv[n + k]] == k)
  {
    assert ListOk(nx, pv, n, ls, k) && Owned(ls, ow, k);
    if ls[k] != [] {
      assert ls[k][0] == ls[k][0] && ls[k][|ls[k]| - 1] == ls[k][|ls[k]| - 1];
    }
  }

  /** The head of list `k` points to itself exactly when the list is empty. */
  lemma EmptyIff(nx: seq<int>, pv: seq<int>, n: nat, ls: seq<seq<int>>, ow: seq<int>, k: nat)
    requires LinksOk(nx, pv, n, ls, ow) && k < LIST_COUNT
    ensures nx[n + k] == n + k <==> ls[k] == []
  {
    assert ListOk(nx, pv, n, ls, k);
  }

  /** A record on no list is not a member of any list. */
  lemma Unlisted(nx: seq<int>, pv: seq<int>, n: nat, ls: seq<seq<int>>, ow: seq<int>, x: int)
    requires LinksOk(nx, pv, n, ls, ow) && 0 <= x < n && ow[x] == -1
    ensures forall k :: 0 <= k < LIST_COUNT ==> x !in ls[k] && x != n + k
  {
    forall k | 0 <= k < LIST_COUNT ensures x !in ls[k] {
      assert Owned(ls, ow, k);
    }
  }

  /** `list_add_tail(x, &page_buddy[k])` on a record that is on no list. */
  lemma AddTailOk(nx: seq<int>, pv: seq<int>, n: nat, ls: seq<seq<int>>, ow: seq<int>, x: nat, k: nat)
    requires LinksOk(nx, pv, n, ls, ow) && x < n && ow[x] == -1 && k < LIST_COUNT
    ensures 0 <= pv[n + k] < n + LIST_COUNT
    ensures var h := n + k; var p := pv[h];
      LinksOk(nx[x := h][p := x], pv[h := x][x := p], n, ls[k := ls[k] + [x]], ow[x := k])
  {
    var h := n + k;
    HeadNeighbours(nx, pv, n, ls, ow, k);
    var p := pv[h];
    var nx', pv' := nx[x := h][p := x], pv[h := x][x := p];
    var ls', ow' := ls[k := ls[k] + [x]], ow[x := k];
    assert ListOk(nx, pv, n, ls, k) && Owned(ls, ow, k);
    Unlisted(nx, pv, n, ls, ow, x);
    AddTailSplice(nx, pv, h, ls[k], x);
    assert ListOk(nx', pv', n, ls', k);
    forall j | 0 <= j < |ls'[k]| ensures 0 <= ls'[k][j] < |ow'| && ow'[ls'[k][j]] == k {
      if j < |ls[k]| {
        assert ls'[k][j] == ls[k][j];
      }
    }
    ListChanged(nx, pv, nx', pv', n, ls, ow, ls', ow', k, {x, p, h});
  }

  /** `list_del` of the member at position `j` of list `k`. */
  lemma DelOk(nx: seq<int>, pv: seq<int>, n: nat, ls: seq<seq<int>>, ow: seq<int>, k: nat, j: nat)
    requires LinksOk(nx, pv, n, ls, ow) && k < LIST_COUNT && ListOk(nx, pv, n, ls, k) && Owned(ls, ow, k) && j < |ls[k]|
    ensures 0 <= pv[ls[k][j]] < n + LIST_COUNT && 0 <= nx[ls[k][j]] < n + LIST_COUNT
    ensures var x := ls[k][j]; var p, m := pv[x], nx[x];
      LinksOk(nx[p := m], pv[m := p], n, ls[k := ls[k][..j] + ls[k][j + 1..]], ow[x := -1])
  {
    var s := ls[k];
    var x := s[j];
    assert ListOk(nx, pv, n, ls, k) && Owned(ls, ow, k);
    DeleteSplice(nx, pv, n + k, s, j);
    var p, m := pv[x], nx[x];
    var nx', pv' := nx[p := m], pv[m := p];
    var ls', ow' := ls[k := s[..j] + s[j + 1..]], ow[x := -1];
    assert p == (if 0 < j then s[j - 1] else n + k);
    assert m == (if j + 1 < |s| then s[j + 1] else n + k);
    assert ListOk(nx', pv', n, ls', k);
    forall i | 0 <= i < |ls'[k]| ensures 0 <= ls'[k][i] < |ow'| && ow'[ls'[k][i]] == k {
      var i' := if i < j then i else i + 1;
      assert ls'[k][i] == s[i'] && i' != j;
    }
    ListChanged(nx, pv, nx', pv', n, ls, ow, ls', ow', k, {p, m});
  }

  /** `list_add_chain_tail(c[0], c[|c|-1], &page_buddy[k])` on a linked chain of
      records that are on no list. */
  lemma AddChainTailOk(nx: seq<int>, pv: seq<int>, n: nat, ls: seq<seq<int>>, ow: seq<int>, c: seq<int>, k: nat)
    requires LinksOk(nx, pv, n, ls, ow) && k < LIST_COUNT
    requires c != [] && NoDup(c) && Chain(nx, pv, c)
    requires forall j :: 0 <= j < |c| ==> 0 <= c[j] < n && ow[c[j]] == -1
    ensures 0 <= pv[n + k] < n + LIST_COUNT
    ensures var h := n + k; var p, ch, ct := pv[h], c[0], c[|c| - 1];
      LinksOk(nx[p := ch][ct := h], pv[ch := p][h := ct], n, ls[k := ls[k] + c], Reown(ow, c, k))
  {
    var h := n + k;
    HeadNeighbours(nx, pv, n, ls, ow, k);
    var p, ch, ct := pv[h], c[0], c[|c| - 1];
    var nx', pv' := nx[p := ch][ct := h], pv[ch := p][h := ct];
    var ls', ow' := ls[k := ls[k] + c], Reown(ow, c, k);
    assert ListOk(nx, pv, n, ls, k);
    forall j | 0 <= j < |c| ensures c[j] != h && c[j] !in ls[k] {
      Unlisted(nx, pv, n, ls, ow, c[j]);
    }
    AddChainTailSplice(nx, pv, h, ls[k], c);
    assert ListOk(nx', pv', n, ls', k);
    assert Owned(ls, ow, k);
    ChainOwners(ls, ow, c, k);
    ListChanged(nx, pv, nx', pv', n, ls, ow, ls', ow', k, {p, ct, ch, h});
  }

  /** Once a chain of records on no list is appended to list `k` and given to
      list `k`, list `k` is owned as before and every other record keeps its owner. */
  lemma ChainOwners(ls: seq<seq<int>>, ow: seq<int>, c: seq<int>, k: nat)
    requires k < |ls| && Owned(ls, ow, k)
    requires forall r :: 0 <= r < |ow| ==> -1 <= ow[r] < LIST_COUNT
    requires k < LIST_COUNT && forall j :: 0 <= j < |c| ==> 0 <= c[j] < |ow| && ow[c[j]] == -1
    ensures Owned(ls[k := ls[k] + c], Reown(ow, c, k), k)
    ensures forall r :: 0 <= r < |ow| ==> -1 <= Reown(ow, c, k)[r] < LIST_COUNT
    ensures forall r :: 0 <= r < |ow| && ow[r] != -1 ==> Reown(ow, c, k)[r] == ow[r]
  {
    var ls', ow' := ls[k := ls[k] + c], Reown(ow, c, k);
    forall i | 0 <= i < |ls'[k]| ensures 0 <= ls'[k][i] < |ow'| && ow'[ls'[k][i]] == k {
      if i < |ls[k]| {
        assert ls'[k][i] == ls[k][i];
      } else {
        assert ls'[k][i] == c[i - |ls[k]|];
      }
    }
    forall r | 0 <= r < |ow| && ow[r] != -1 ensures ow'[r] == ow[r] {
      assert r !in c;
    }
  }

  /** The head of a non-empty list `k` points to its first member, and the
      successor of its `m`-th member is a node. */
  lemma DetachEnds(nx: seq<int>, pv: seq<int>, n: nat, ls: seq<seq<int>>, ow: seq<int>, k: nat, m: nat)
    requires LinksOk(nx, pv, n, ls, ow) && k < LIST_COUNT && ListOk(nx, pv, n, ls, k) && 0 < m <= |ls[k]|
    ensures nx[n + k] == ls[k][0]
    ensures 0 <= nx[ls[k][m - 1]] < n + LIST_COUNT
  {
    var s := ls[k];
    assert ListOk(nx, pv, n, ls, k);
    if m < |s| {
      assert nx[s[m - 1]] == s[m];
    }
  }

  /** The unlink of `get_pages_from_list`: the first `m` members of list `k` are
      cut out, stay linked to each other, and are then on no list. */
  lemma DetachOk(nx: seq<int>, pv: seq<int>, n: nat, ls: seq<seq<int>>, ow: seq<int>, k: nat, m: nat)
    requires LinksOk(nx, pv, n, ls, ow) && k < LIST_COUNT && ListOk(nx, pv, n, ls, k) && 0 < m <= |ls[k]|
    ensures nx[ls[k][m - 1]] == (if m < |ls[k]| then ls[k][m] else n + k)
    ensures var h, t := n + k, nx[ls[k][m - 1]];
      && LinksOk(nx[h := t], pv[t := h], n, ls[k := ls[k][m..]], Reown(ow, ls[k][..m], -1))
      && Chain(nx[h := t], pv[t := h], ls[k][..m]) && NoDup(ls[k][..m])
  {
    var s := ls[k];
    var h := n + k;
    assert ListOk(nx, pv, n, ls, k) && Owned(ls, ow, k);
    DropPrefixSplice(nx, pv, h, s, m);
    var t := nx[s[m - 1]];
    var nx', pv' := nx[h := t], pv[t := h];
    var ls', ow' := ls[k := s[m..]], Reown(ow, s[..m], -1);
    assert t == h || (0 <= t < n && ow[t] == k) by {
      if m < |s| {
        assert t == s[m];
      }
    }
    assert ListOk(nx', pv', n, ls', k);
    PrefixOwners(ls, ow, k, m);
    ListChanged(nx, pv, nx', pv', n, ls, ow, ls', ow', k, {h, t});
  }

  /** Once the first `m` members of list `k` are cut out and put on no list,
      the rest of list `k` is owned as before and every record on another list
      keeps its owner. */
  lemma PrefixOwners(ls: seq<seq<int>>, ow: seq<int>, k: nat, m: nat)
    requires k < |ls| && Owned(ls, ow, k) && NoDup(ls[k]) && m <= |ls[k]|
    requires forall r :: 0 <= r < |ow| ==> -1 <= ow[r] < LIST_COUNT
    ensures Owned(ls[k := ls[k][m..]], Reown(ow, ls[k][..m], -1), k)
    ensures forall r :: 0 <= r < |ow| ==> -1 <= Reown(ow, ls[k][..m], -1)[r] < LIST_COUNT
    ensures forall r :: 0 <= r < |ow| && ow[r] != k ==> Reown(ow, ls[k][..m], -1)[r] == ow[r]
  {
    var s := ls[k];
    var ls', ow' := ls[k := s[m..]], Reown(ow, s[..m], -1);
    forall i | 0 <= i < |ls'[k]| ensures 0 <= ls'[k][i] < |ow'| && ow'[ls'[k][i]] == k {
      assert ls'[k][i] == s[m + i];
      assert s[m + i] !in s[..m];
    }
    forall r | 0 <= r < |ow| && ow[r] != k ensures ow'[r] == ow[r] {
      assert r !in s[..m];
    }
  }

  /** One split step of `get_pages_from_list` on the working chain of `2q`
      records at `a`, none of them on a list: its lower half is a chain that
      `list_add_chain_tail` may append to list `k`, and after that append the
      upper half is still a chain of records on no list. */
  lemma SplitChainOk(nx: seq<int>, pv: seq<int>, n: nat, ls: seq<seq<int>>, ow: seq<int>, k: nat, a: int, q: nat)
    requires LinksOk(nx, pv, n, ls, ow) && k < LIST_COUNT && 0 < q
    requires Chain(nx, pv, Run(a, 2 * q)) && 0 <= a && a + 2 * q <= n
    requires forall i :: a <= i < a + 2 * q ==> ow[i] == -1
    ensures Chain(nx, pv, Run(a, q)) && NoDup(Run(a, q))
    ensures forall j :: 0 <= j < q ==> 0 <= Run(a, q)[j] < n && ow[Run(a, q)[j]] == -1
    ensures 0 <= pv[n + k] < n + LIST_COUNT
    ensures var p, h := pv[n + k], n + k;
      && Chain(nx[p := a][a + q - 1 := h], pv[a := p][h := a + q - 1], Run(a + q, q))
      && (forall i :: a + q <= i < a + 2 * q ==> Reown(ow, Run(a, q), k)[i] == -1)
  {
    ChainRunSplit(nx, pv, a, 2 * q, q);
    RunNoDup(a, q);
    HeadNeighbours(nx, pv, n, ls, ow, k);
    var p, h := pv[n + k], n + k;
    var nx', pv' := nx[p := a][a + q - 1 := h], pv[a := p][h := a + q - 1];
    forall i | a + q <= i < a + 2 * q
      ensures nx'[i] == nx[i] && pv'[i] == pv[i] && Reown(ow, Run(a, q), k)[i] == -1
    {
      assert i != p;
      RunMember(a, q, i);
    }
    ChainFrame(nx, pv, nx', pv', Run(a + q, q));
  }

  /** Appending the lower half `a .. a+q-1` of a chain of records on no list to
      list `k` gives well-formed lists with those records on list `k`. */
  lemma SplitAppendOk(nx: seq<int>, pv: seq<int>, n: nat, ls: seq<seq<int>>, ow: seq<int>, k: nat, a: int, q: nat)
    requires LinksOk(nx, pv, n, ls, ow) && k < LIST_COUNT && 0 < q
    requires Chain(nx, pv, Run(a, q)) && NoDup(Run(a, q)) && 0 <= a && a + q <= n
    requires forall j :: 0 <= j < q ==> 0 <= Run(a, q)[j] < n && ow[Run(a, q)[j]] == -1
    ensures 0 <= pv[n + k] < n + LIST_COUNT
    ensures var p, h := pv[n + k], n + k;
      LinksOk(nx[p := a][a + q - 1 := h], pv[a := p][h := a + q - 1], n, ls[k := ls[k] + Run(a, q)], Reown(ow, Run(a, q), k))
  {
    var c := Run(a, q);
    assert c[0] == a && c[|c| - 1] == a + q - 1;
    AddChainTailOk(nx, pv, n, ls, ow, c, k);
  }

  /** The links while `get_pages_from_list` splits a block: the lists are well
      formed and the working block of `m` records at `a` is a linked chain of
      records on no list. */
  ghost predicate Working(nx: seq<int>, pv: seq<int>, n: nat, ls: seq<seq<int>>, ow: seq<int>, a: int, m: nat)
  {
    && LinksOk(nx, pv, n, ls, ow) && 0 <= a && a + m <= n
    && Chain(nx, pv, Run(a, m))
    && (forall i :: a <= i < a + m ==> ow[i] == -1)
  }

  /** One split step of `get_pages_from_list` on the links: the lower half of
      the working chain of `2q` records at `a` is appended to list `k`, and the
      upper half is the new working chain. */
  lemma SplitLinksOk(nx: seq<int>, pv: seq<int>, n: nat, ls: seq<seq<int>>, ow: seq<int>, k: nat, a: int, q: nat)
    requires Working(nx, pv, n, ls, ow, a, 2 * q) && k < LIST_COUNT && 0 < q
    ensures 0 <= pv[n + k] < n + LIST_COUNT
    ensures var p, t := pv[n + k], n + k;
      Working(nx[p := a][a + q - 1 := t], pv[a := p][t := a + q - 1], n, ls[k := ls[k] + Run(a, q)],
              Reown(ow, Run(a, q), k), a + q, q)
  {
    SplitChainOk(nx, pv, n, ls, ow, k, a, q);
    SplitAppendOk(nx, pv, n, ls, ow, k, a, q);
  }

  /** Writing the links of a record that is on no list disturbs no list. */
  lemma UnlistedWrite(nx: seq<int>, pv: seq<int>, nx': seq<int>, pv': seq<int>, n: nat,
                      ls: seq<seq<int>>, ow: seq<int>, x: nat)
    requires LinksOk(nx, pv, n, ls, ow) && x < n && ow[x] == -1
    requires |nx'| == |nx| && |pv'| == |pv|
    requires forall i :: 0 <= i < |nx| && i != x ==> nx'[i] == nx[i] && pv'[i] == pv[i]
    ensures LinksOk(nx', pv', n, ls, ow)
  {
    forall k | 0 <= k < LIST_COUNT ensures ListOk(nx', pv', n, ls, k) {
      assert ListOk(nx, pv, n, ls, k) && Owned(ls, ow, k);
      forall j | 0 <= j < |ls[k]| ensures ls[k][j] != x {
        assert ow[ls[k][j]] == k;
      }
      RingFrame(nx, pv, nx', pv', n + k, ls[k]);
    }
  }
}
