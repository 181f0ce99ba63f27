/** The free list in memory: block headers at their own addresses, linked in both
    directions through the list head, and what each relinking does to the list. */
module HeapLinks {
  import opened HeapSpec

  /** The header at the start of a free block. */
  datatype MemBlk = MemBlk(mnext: int, mlength: int, mprev: int)

  type Mem = map<int, MemBlk>

  function At(f: seq<Block>, head: int, i: int): int {
    if 0 <= i < |f| then f[i].addr else head
  }

  ghost predicate LinkOk(node: Mem, head: int, f: seq<Block>, i: int) {
    && 0 <= i < |f| && f[i].addr in node
    && node[f[i].addr] == MemBlk(At(f, head, i + 1), f[i].len, At(f, head, i - 1))
  }

  ghost predicate Linked(node: Mem, head: int, f: seq<Block>) {
    && head in node && node[head].mnext == At(f, head, 0) && node[head].mprev == At(f, head, |f| - 1)
    && forall i :: 0 <= i < |f| ==> LinkOk(node, head, f, i)
  }

  ghost predicate Above(f: seq<Block>, i: int, j: int) {
    0 <= i < |f| && 0 <= j < |f| && f[i].addr < f[j].addr
  }

  ghost predicate Ascending(f: seq<Block>, head: int) {
    && (forall i :: 0 <= i < |f| ==> head < f[i].addr)
    && (forall i, j :: 0 <= i < j < |f| ==> Above(f, i, j))
  }

  lemma WfAscends(f: seq<Block>, lo: int, hi: int, head: int)
    requires Wf(f, lo, hi) && head < lo
    ensures Ascending(f, head)
  {
    forall i, j | 0 <= i < j < |f|
      ensures Above(f, i, j)
    {
      assert Gap(f, i, j);
    }
  }

  lemma Distinct(f: seq<Block>, head: int, i: int, j: int)
    requires Ascending(f, head) && -1 <= i <= |f| && 0 <= j < |f| && i != j
    ensures At(f, head, i) != f[j].addr
  {
    if 0 <= i < j { assert Above(f, i, j); }
    if j < i < |f| { assert Above(f, j, i); }
  }

  function Next(node: Mem, a: int, v: int): Mem
    requires a in node
  {
    node[a := node[a].(mnext := v)]
  }

  function Prev(node: Mem, a: int, v: int): Mem
    requires a in node
  {
    node[a := node[a].(mprev := v)]
  }

  function Length(node: Mem, a: int, v: int): Mem
    requires a in node
  {
    node[a := node[a].(mlength := v)]
  }

  /** The neighbours of place `i` are in memory. */
  lemma Around(node: Mem, head: int, f: seq<Block>, i: int)
    requires Linked(node, head, f)
    ensures At(f, head, i) in node
  {
    if 0 <= i < |f| { assert LinkOk(node, head, f, i); }
  }

  /** The counter in the list head is no part of the list. */
  lemma Counted(node: Mem, head: int, f: seq<Block>, c: int)
    requires Ascending(f, head) && Linked(node, head, f)
    ensures Linked(Length(node, head, c), head, f)
  {
    forall i | 0 <= i < |f|
      ensures LinkOk(Length(node, head, c), head, f, i)
    {
      assert LinkOk(node, head, f, i);
    }
  }

  /** Block `i` leaves the list. */
  lemma Unlinked(node: Mem, head: int, f: seq<Block>, i: int)
    requires Ascending(f, head) && Linked(node, head, f) && 0 <= i < |f|
    ensures At(f, head, i - 1) in node && At(f, head, i + 1) in node
    ensures Linked(Prev(Next(node, At(f, head, i - 1), At(f, head, i + 1)), At(f, head, i + 1), At(f, head, i - 1)),
                   head, f[..i] + f[i + 1..])
  {
    var p, n := At(f, head, i - 1), At(f, head, i + 1);
    Around(node, head, f, i - 1);
    Around(node, head, f, i + 1);
    var node', g := Prev(Next(node, p, n), n, p), f[..i] + f[i + 1..];
    forall j | 0 <= j < |g|
      ensures LinkOk(node', head, g, j)
    {
      var j' := if j < i then j else j + 1;
      assert LinkOk(node, head, f, j');
      if j' != i - 1 { Distinct(f, head, i - 1, j'); }
      if j' != i + 1 { Distinct(f, head, i + 1, j'); }
    }
    assert g == [] || (if i == 0 then g[0] == f[1] else g[0] == f[0]);
  }

  /** Block `b` enters the list at place `k`. */
  lemma Entered(node: Mem, head: int, f: seq<Block>, k: int, b: Block)
    requires 0 <= k <= |f| && Ascending(f[..k] + [b] + f[k..], head) && Linked(node, head, f)
    ensures At(f, head, k - 1) in node && At(f, head, k) in node
    ensures var node' := node[b.addr := MemBlk(At(f, head, k), b.len, At(f, head, k - 1))];
            Linked(Next(Prev(node', At(f, head, k), b.addr), At(f, head, k - 1), b.addr), head, f[..k] + [b] + f[k..])
  {
    var p, n, g := At(f, head, k - 1), At(f, head, k), f[..k] + [b] + f[k..];
    Around(node, head, f, k - 1);
    Around(node, head, f, k);
    var node' := Next(Prev(node[b.addr := MemBlk(n, b.len, p)], n, b.addr), p, b.addr);
    assert At(g, head, k - 1) == p && At(g, head, k + 1) == n;
    forall j | 0 <= j < |g|
      ensures LinkOk(node', head, g, j)
    {
      if j != k { Distinct(g, head, k, j); }
      if j != k - 1 { Distinct(g, head, k - 1, j); }
      if j != k + 1 { Distinct(g, head, k + 1, j); }
      if j != k { assert LinkOk(node, head, f, if j < k then j else j - 1); }
    }
    assert g[k] == b;
  }

  /** Block `i` changes its length. */
  lemma Relengthed(node: Mem, head: int, f: seq<Block>, i: int, len: int)
    requires Ascending(f, head) && Linked(node, head, f) && 0 <= i < |f|
    ensures f[i].addr in node
    ensures Linked(Length(node, f[i].addr, len), head, f[i := Block(f[i].addr, len)])
  {
    var a, g := f[i].addr, f[i := Block(f[i].addr, len)];
    assert LinkOk(node, head, f, i);
    forall j | 0 <= j < |g|
      ensures LinkOk(Length(node, a, len), head, g, j)
    {
      assert LinkOk(node, head, f, j);
      if j != i { Distinct(f, head, i, j); }
    }
  }

  /** Block `i` is replaced by block `b` at the same place. */
  lemma Replaced(node: Mem, head: int, f: seq<Block>, i: int, b: Block)
    requires 0 <= i < |f| && Ascending(f, head) && Ascending(f[i := b], head) && Linked(node, head, f)
    ensures At(f, head, i - 1) in node && At(f, head, i + 1) in node
    ensures var p, n := At(f, head, i - 1), At(f, head, i + 1);
            Linked(Prev(Next(node, p, b.addr)[b.addr := MemBlk(n, b.len, p)], n, b.addr), head, f[i := b])
  {
    var p, n, g := At(f, head, i - 1), At(f, head, i + 1), f[i := b];
    Around(node, head, f, i - 1);
    Around(node, head, f, i + 1);
    var node' := Prev(Next(node, p, b.addr)[b.addr := MemBlk(n, b.len, p)], n, b.addr);
    forall j | 0 <= j < |g|
      ensures LinkOk(node', head, g, j)
    {
      assert LinkOk(node, head, f, j);
      if j != i { Distinct(g, head, i, j); }
      if j != i - 1 { Distinct(g, head, i - 1, j); }
      if j != i + 1 { Distinct(g, head, i + 1, j); }
    }
    assert g[i] == b;
  }

  /** Block `i` takes over the one above it. */
  lemma Merged(node: Mem, head: int, f: seq<Block>, i: int)
    requires Ascending(f, head) && Linked(node, head, f) && 0 <= i < |f| - 1
    ensures f[i].addr in node && f[i + 1].addr in node && At(f, head, i + 2) in node
    ensures var a := f[i].addr;
            Linked(Prev(Next(Length(node, a, f[i].len + f[i + 1].len), a, At(f, head, i + 2)), At(f, head, i + 2), a),
                   head, f[..i] + [Block(a, f[i].len + f[i + 1].len)] + f[i + 2..])
  {
    var b := Block(f[i].addr, f[i].len + f[i + 1].len);
    assert LinkOk(node, head, f, i) && LinkOk(node, head, f, i + 1);
    Relengthed(node, head, f, i, b.len);
    var f', node' := f[i := b], Length(node, b.addr, b.len);
    forall p, q | 0 <= p < q < |f'|
      ensures Above(f', p, q)
    {
      assert Above(f, p, q);
    }
    Unlinked(node', head, f', i + 1);
    assert f'[..i + 1] + f'[i + 1 + 1..] == f[..i] + [b] + f[i + 2..];
    Around(node', head, f', i + 2);
  }

  /** The two writes that unlink a block can be made in either order. */
  lemma EitherOrder(node: Mem, p: int, n: int)
    requires p in node && n in node
    ensures Next(Prev(node, n, p), p, n) == Prev(Next(node, p, n), n, p)
  {
  }

  lemma PlacedAscends(f: seq<Block>, lo: int, hi: int, head: int, k: int, b: Block)
    requires Wf(f, lo, hi) && FitsAt(f, k, b) && InHeap([b], lo, hi) && head < lo
    ensures InHeap(Placed(f, k, b), lo, hi) && Ascending(Placed(f, k, b), head)
  {
    assert lo <= [b][0].addr;
    FitsIsBelow(f, lo, hi, k, b);
    PlacedInHeap(f, lo, hi, k, b);
    var g := Placed(f, k, b);
    forall i, j | 0 <= i < j < |g|
      ensures Above(g, i, j)
    {
      PlacedGap(f, lo, hi, k, b, i, j);
    }
  }
}
