/**
 * Circular doubly-linked lists threaded through two index arrays, in the
 * style of the kernel's `struct list_head`: `nx` and `pv` are snapshots of
 * the `next` and `prev` fields of every node, a list has a sentinel node `h`,
 * and `s` is the sequence of nodes met by following `next` from `h`.
 * The lemmas below state what each splice of the list primitives does to
 * that sequence.
 */
module Rings {

  /** No node occurs twice in `s`. */
  ghost predicate NoDup(s: seq<int>)
  {
    forall i, j :: 0 <= i < j < |s| ==> s[i] != s[j]
  }

  /** The run `a, a+1, ..., a+n-1` of consecutive node indices. */
  function Run(a: int, n: nat): (r: seq<int>)
    ensures |r| == n
    ensures forall i :: 0 <= i < n ==> r[i] == a + i
  {
    seq(n, i => a + i)
  }

  /** The nodes of `c` are linked to one another in order (its two ends may point anywhere). */
  ghost predicate Chain(nx: seq<int>, pv: seq<int>, c: seq<int>)
  {
    && |nx| == |pv|
    && (forall j :: 0 <= j < |c| ==> 0 <= c[j] < |nx|)
    && (forall j :: 0 <= j < |c| - 1 ==> nx[c[j]] == c[j + 1] && pv[c[j + 1]] == c[j])
  }

  /** Following `next` from the sentinel `h` visits exactly `s` and returns to `h`;
      `prev` is the reverse walk. */
  ghost predicate Ring(nx: seq<int>, pv: seq<int>, h: int, s: seq<int>)
  {
    && Chain(nx, pv, s)
    && 0 <= h < |nx|
    && (forall j :: 0 <= j < |s| ==> s[j] != h)
    && (s == [] ==> nx[h] == h && pv[h] == h)
    && (s != [] ==> nx[h] == s[0] && pv[s[0]] == h && pv[h] == s[|s| - 1] && nx[s[|s| - 1]] == h)
  }

  /** A run holds exactly the integers in its range. */
  lemma RunMember(a: int, n: nat, x: int)
    ensures x in Run(a, n) <==> a <= x < a + n
  {
    if a <= x < a + n {
      assert Run(a, n)[x - a] == x;
    }
  }

  /** Two adjacent runs make one. */
  lemma RunAppend(a: int, m: nat, n: nat)
    ensures Run(a, m) + Run(a + m, n) == Run(a, m + n)
  {
    var r := Run(a, m) + Run(a + m, n);
    forall i | 0 <= i < m + n ensures r[i] == a + i {
      if i >= m {
        assert r[i] == Run(a + m, n)[i - m];
      }
    }
  }

  /** Writes that touch neither the sentinel nor a member leave a ring intact. */
  lemma RingFrame(nx: seq<int>, pv: seq<int>, nx': seq<int>, pv': seq<int>, h: int, s: seq<int>)
    requires Ring(nx, pv, h, s)
    requires |nx'| == |nx| && |pv'| == |pv|
    requires nx'[h] == nx[h] && pv'[h] == pv[h]
    requires forall j :: 0 <= j < |s| ==> nx'[s[j]] == nx[s[j]] && pv'[s[j]] == pv[s[j]]
    ensures Ring(nx', pv', h, s)
  {
  }

  /** Writes away from the nodes of a chain keep it linked. */
  lemma ChainFrame(nx: seq<int>, pv: seq<int>, nx': seq<int>, pv': seq<int>, c: seq<int>)
    requires Chain(nx, pv, c)
    requires |nx'| == |nx| && |pv'| == |pv|
    requires forall j :: 0 <= j < |c| ==> nx'[c[j]] == nx[c[j]] && pv'[c[j]] == pv[c[j]]
    ensures Chain(nx', pv', c)
  {
    forall j | 0 <= j < |c| - 1
      ensures nx'[c[j]] == c[j + 1] && pv'[c[j + 1]] == c[j]
    {
      assert pv'[c[j + 1]] == pv[c[j + 1]];
    }
  }

  /** A linked run of consecutive nodes splits into two linked runs. */
  lemma ChainRunSplit(nx: seq<int>, pv: seq<int>, a: int, n: nat, m: nat)
    requires Chain(nx, pv, Run(a, n)) && m <= n
    ensures Chain(nx, pv, Run(a, m)) && Chain(nx, pv, Run(a + m, n - m))
  {
    var c, c1, c2 := Run(a, n), Run(a, m), Run(a + m, n - m);
    forall j | 0 <= j < |c1| ensures 0 <= c1[j] < |nx| {
      assert c1[j] == c[j];
    }
    forall j | 0 <= j < |c2| ensures 0 <= c2[j] < |nx| {
      assert c2[j] == c[m + j];
    }
    forall j | 0 <= j < |c1| - 1 ensures nx[c1[j]] == c1[j + 1] && pv[c1[j + 1]] == c1[j] {
      assert c1[j] == c[j] && c1[j + 1] == c[j + 1];
    }
    forall j | 0 <= j < |c2| - 1 ensures nx[c2[j]] == c2[j + 1] && pv[c2[j + 1]] == c2[j] {
      assert c2[j] == c[m + j] && c2[j + 1] == c[m + j + 1];
    }
  }

  /** A run has no repeated node. */
  lemma RunNoDup(a: int, n: nat)
    ensures NoDup(Run(a, n))
  {
  }

  /** `__list_add(x, pv[h], h)`: the node `x` becomes the last member. */
  lemma AddTailSplice(nx: seq<int>, pv: seq<int>, h: int, s: seq<int>, x: int)
    requires Ring(nx, pv, h, s) && NoDup(s)
    requires 0 <= x < |nx| && x != h && x !in s
    ensures var p := pv[h];
      Ring(nx[x := h][p := x], pv[h := x][x := p], h, s + [x]) && NoDup(s + [x])
  {
    var p := pv[h];
    var nx', pv', s' := nx[x := h][p := x], pv[h := x][x := p], s + [x];
    forall j | 0 <= j < |s'| - 1
      ensures nx'[s'[j]] == s'[j + 1] && pv'[s'[j + 1]] == s'[j]
    {
      assert s'[j] == s[j] && s[j] != x;
      if j + 1 < |s| {
        assert s'[j + 1] == s[j + 1] && s[j] != p && s[j + 1] != x;
      }
    }
  }

  /** `list_add_chain_tail`: the linked chain `c` is appended after the last member. */
  lemma AddChainTailSplice(nx: seq<int>, pv: seq<int>, h: int, s: seq<int>, c: seq<int>)
    requires Ring(nx, pv, h, s) && NoDup(s)
    requires Chain(nx, pv, c) && NoDup(c) && c != []
    requires forall j :: 0 <= j < |c| ==> c[j] != h && c[j] !in s
    ensures var p, ch, ct := pv[h], c[0], c[|c| - 1];
      Ring(nx[p := ch][ct := h], pv[ch := p][h := ct], h, s + c) && NoDup(s + c)
  {
    var p, ch, ct := pv[h], c[0], c[|c| - 1];
    var nx', pv', s' := nx[p := ch][ct := h], pv[ch := p][h := ct], s + c;
    assert p == h || p == s[|s| - 1];
    forall j | 0 <= j < |s'| - 1
      ensures nx'[s'[j]] == s'[j + 1] && pv'[s'[j + 1]] == s'[j]
    {
      if j + 1 < |s| {
        assert s'[j] == s[j] && s'[j + 1] == s[j + 1];
        assert s[j] != p && s[j] != ct && s[j + 1] != ch;
      } else if j + 1 == |s| {
        assert s'[j] == p && s'[j + 1] == ch;
      } else {
        var i := j - |s|;
        assert s'[j] == c[i] && s'[j + 1] == c[i + 1];
        assert c[i] != p && c[i] != ct && c[i + 1] != ch;
      }
    }
    forall i, j | 0 <= i < j < |s'| ensures s'[i] != s'[j] {
      if j < |s| {
        assert s'[i] == s[i] && s'[j] == s[j];
      } else if i >= |s| {
        assert s'[i] == c[i - |s|] && s'[j] == c[j - |s|];
      } else {
        assert s'[j] == c[j - |s|] && s'[i] == s[i];
      }
    }
  }

  /** The unlink of `get_pages_from_list`: the first `m` members are cut out by
      re-pointing the sentinel past `s[m-1]`; the cut-out nodes stay linked to each other. */
  lemma DropPrefixSplice(nx: seq<int>, pv: seq<int>, h: int, s: seq<int>, m: nat)
    requires Ring(nx, pv, h, s) && NoDup(s)
    requires 0 < m <= |s|
    ensures nx[s[m - 1]] == (if m < |s| then s[m] else h)
    ensures var t := if m < |s| then s[m] else h;
      && Ring(nx[h := t], pv[t := h], h, s[m..]) && NoDup(s[m..])
      && Chain(nx[h := t], pv[t := h], s[..m]) && NoDup(s[..m])
  {
    var t := if m < |s| then s[m] else h;
    if m < |s| {
      assert nx[s[m - 1]] == s[m];
    }
    var nx', pv', s' := nx[h := t], pv[t := h], s[m..];
    forall j | 0 <= j < |s'| - 1
      ensures nx'[s'[j]] == s'[j + 1] && pv'[s'[j + 1]] == s'[j]
    {
      assert s'[j] == s[m + j] && s'[j + 1] == s[m + j + 1];
      assert s[m + j + 1] != t;
    }
    var c := s[..m];
    forall j | 0 <= j < |c| - 1
      ensures nx'[c[j]] == c[j + 1] && pv'[c[j + 1]] == c[j]
    {
      assert c[j] == s[j] && c[j + 1] == s[j + 1];
      assert t != s[j + 1];
    }
  }

  /** Removing one element keeps a sequence free of duplicates. */
  lemma NoDupRemove(s: seq<int>, j: nat)
    requires NoDup(s) && j < |s|
    ensures NoDup(s[..j] + s[j + 1..])
  {
    var s' := s[..j] + s[j + 1..];
    forall a, b | 0 <= a < b < |s'| ensures s'[a] != s'[b] {
      var a', b' := if a < j then a else a + 1, if b < j then b else b + 1;
      assert a' < b' && s'[a] == s[a'] && s'[b] == s[b'];
    }
  }

  /** The chain part of `list_del`: bridging over `s[j]` keeps the others linked. */
  lemma DeleteChain(nx: seq<int>, pv: seq<int>, h: int, s: seq<int>, j: nat)
    requires Ring(nx, pv, h, s) && NoDup(s)
    requires j < |s|
    ensures var p, n := (if 0 < j then s[j - 1] else h), (if j + 1 < |s| then s[j + 1] else h);
      Chain(nx[p := n], pv[n := p], s[..j] + s[j + 1..])
  {
    var p, n := (if 0 < j then s[j - 1] else h), (if j + 1 < |s| then s[j + 1] else h);
    var nx', pv', s' := nx[p := n], pv[n := p], s[..j] + s[j + 1..];
    assert |s'| == |s| - 1;
    forall i | 0 <= i < |s'| - 1
      ensures nx'[s'[i]] == s'[i + 1] && pv'[s'[i + 1]] == s'[i]
    {
      if i + 1 < j {
        assert s'[i] == s[i] && s'[i + 1] == s[i + 1];
        assert s[i] != p && s[i + 1] != n;
      } else if i + 1 == j {
        assert s'[i] == s[i] == p && s'[i + 1] == s[i + 2] == n;
      } else {
        assert s'[i] == s[i + 1] && s'[i + 1] == s[i + 2];
        assert s[i + 1] != p && s[i + 2] != n;
      }
    }
    forall i | 0 <= i < |s'| ensures 0 <= s'[i] < |nx| {
      assert s'[i] == (if i < j then s[i] else s[i + 1]);
    }
  }

  /** `list_del`: the member at position `j` is unlinked; the rest keep their order. */
  lemma DeleteSplice(nx: seq<int>, pv: seq<int>, h: int, s: seq<int>, j: nat)
    requires Ring(nx, pv, h, s) && NoDup(s)
    requires j < |s|
    ensures pv[s[j]] == (if 0 < j then s[j - 1] else h)
    ensures nx[s[j]] == (if j + 1 < |s| then s[j + 1] else h)
    ensures var p, n := (if 0 < j then s[j - 1] else h), (if j + 1 < |s| then s[j + 1] else h);
      Ring(nx[p := n], pv[n := p], h, s[..j] + s[j + 1..]) && NoDup(s[..j] + s[j + 1..])
  {
    var p, n := (if 0 < j then s[j - 1] else h), (if j + 1 < |s| then s[j + 1] else h);
    if 0 < j {
      assert pv[s[j]] == s[j - 1];
    }
    if j + 1 < |s| {
      assert nx[s[j]] == s[j + 1];
    }
    var nx', pv', s' := nx[p := n], pv[n := p], s[..j] + s[j + 1..];
    DeleteChain(nx, pv, h, s, j);
    assert |s'| == |s| - 1;
    forall i | 0 <= i < |s'| ensures s'[i] != h {
      assert s'[i] == (if i < j then s[i] else s[i + 1]);
    }
    if s' != [] {
      assert s'[0] == (if 0 < j then s[0] else s[1]);
      assert s'[|s'| - 1] == (if j + 1 < |s| then s[|s| - 1] else s[|s| - 2]);
    }
    NoDupRemove(s, j);
  }
}
