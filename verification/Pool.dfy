/**
  The pool allocator: cells of one size in growing chunks, free cells linked through their own
  memory, and chunks with free cells linked in a list of their own.
  */
module PoolModel {
  import opened Quadr

  /** A chunk of `count` cells from address `data` on; address 0 ends a list of free cells. */
  datatype Chunk = Chunk(data: int, count: nat, firstFree: int, nextFree: Option<nat>)

  function Cells(start: int, elem: int, n: nat): (r: seq<int>)
    ensures |r| == n
    decreases n
  {
    if n == 0 then [] else [start] + Cells(start + elem, elem, n - 1)
  }

  function Size(c: Chunk, elem: int): int { c.count * elem }

  function CellsOf(c: Chunk, elem: int): seq<int> { Cells(c.data, elem, c.count) }

  ghost predicate Once<T(!new)>(s: seq<T>) { forall i, j :: 0 <= i < j < |s| ==> s[i] != s[j] }

  lemma {:induction false} CellsRange(start: int, elem: int, n: nat)
    requires elem > 0
    ensures forall p :: p in Cells(start, elem, n) ==> start <= p < start + n * elem
    ensures Once(Cells(start, elem, n))
    decreases n
  {
    if n > 0 {
      CellsRange(start + elem, elem, n - 1);
      assert n * elem == elem + (n - 1) * elem;
      var rest := Cells(start + elem, elem, n - 1);
      assert start !in rest;
    }
  }

  /** The memory links `cells`, starting at `first`. */
  ghost predicate Linked(mem: map<int, int>, cells: seq<int>, first: int) {
    if cells == [] then first == 0
    else first == cells[0] && first in mem && Linked(mem, cells[1..], mem[first])
  }

  lemma {:induction false} LinkedFrame(mem: map<int, int>, mem': map<int, int>, cells: seq<int>, first: int)
    requires Linked(mem, cells, first) && forall p :: p in cells && p in mem ==> p in mem' && mem'[p] == mem[p]
    ensures Linked(mem', cells, first)
  {
    if cells != [] {
      LinkedFrame(mem, mem', cells[1..], mem[first]);
    }
  }

  ghost predicate LinkAt(mem: map<int, int>, start: int, elem: int, n: nat, j: nat) {
    var p := start + j * elem;
    p in mem && mem[p] == if j + 1 < n then p + elem else 0
  }

  lemma {:induction false} LinkedCells(mem: map<int, int>, start: int, elem: int, n: nat)
    requires n > 0 && forall j :: 0 <= j < n ==> LinkAt(mem, start, elem, n, j)
    ensures Linked(mem, Cells(start, elem, n), start)
    decreases n
  {
    assert LinkAt(mem, start, elem, n, 0);
    if n > 1 {
      var start', n' := start + elem, n - 1;
      forall j | 0 <= j < n' ensures LinkAt(mem, start', elem, n', j) {
        assert LinkAt(mem, start, elem, n, j + 1);
        assert (j + 1) * elem == elem + j * elem;
      }
      LinkedCells(mem, start', elem, n');
    }
  }

  /** The memory of two chunks does not overlap; either may come first. */
  predicate Apart(c: Chunk, c': Chunk, elem: int) {
    c.data + Size(c, elem) <= c'.data || c'.data + Size(c', elem) <= c.data
  }

  ghost predicate AllApart(chunks: seq<Chunk>, elem: int) {
    forall i, j :: 0 <= i < j < |chunks| ==> Apart(chunks[i], chunks[j], elem)
  }

  /** Cell `p` of chunk `i` has been handed out. */
  ghost predicate LiveIn(chunks: seq<Chunk>, free: seq<seq<int>>, elem: int, i: nat, p: int)
    requires i < |chunks| == |free|
  {
    p in CellsOf(chunks[i], elem) && p !in free[i]
  }

  ghost predicate IsLive(chunks: seq<Chunk>, free: seq<seq<int>>, elem: int, p: int) {
    |chunks| == |free| && exists i :: 0 <= i < |chunks| && LiveIn(chunks, free, elem, i, p)
  }

  /** A cell belongs to one chunk only. */
  lemma OneChunk(chunks: seq<Chunk>, elem: int, i: nat, j: nat, p: int)
    requires elem > 0 && AllApart(chunks, elem) && i < |chunks| && j < |chunks|
    requires p in CellsOf(chunks[i], elem) && p in CellsOf(chunks[j], elem)
    ensures i == j
  {
    CellsRange(chunks[i].data, elem, chunks[i].count);
    CellsRange(chunks[j].data, elem, chunks[j].count);
    assert Spans(chunks[i], elem, p) && Spans(chunks[j], elem, p);
    if i != j { OneSpan(chunks, elem, i, j, p); }
  }

  predicate Spans(c: Chunk, elem: int, p: int) { c.data <= p < c.data + Size(c, elem) }

  lemma OneSpan(chunks: seq<Chunk>, elem: int, i: nat, j: nat, p: int)
    requires AllApart(chunks, elem) && i < |chunks| && j < |chunks| && i != j
    ensures !(Spans(chunks[i], elem, p) && Spans(chunks[j], elem, p))
  {
    assert Apart(chunks[if i < j then i else j], chunks[if i < j then j else i], elem);
  }

  /** The system's allocator gives memory that is at no other chunk, wherever it likes. */
  ghost predicate Places(xmalloc: (seq<Chunk>, int) -> int, elem: int) {
    forall chunks: seq<Chunk>, bytes: int :: bytes > 0 ==> PlacedAt(chunks, elem, xmalloc(chunks, bytes), bytes)
  }

  ghost predicate PlacedAt(chunks: seq<Chunk>, elem: int, data: int, bytes: int) {
    data > 0 && forall i :: 0 <= i < |chunks| ==> chunks[i].data + Size(chunks[i], elem) <= data || data + bytes <= chunks[i].data
  }

  /** The first address behind all chunks. */
  function Ceiling(chunks: seq<Chunk>, elem: int): (r: int)
    ensures r > 0
  {
    if chunks == [] then 1
    else
      var end, rest := chunks[0].data + Size(chunks[0], elem), Ceiling(chunks[1..], elem);
      if end > rest then end else rest
  }

  lemma {:induction false} CeilingAbove(chunks: seq<Chunk>, elem: int, i: nat)
    requires i < |chunks|
    ensures chunks[i].data + Size(chunks[i], elem) <= Ceiling(chunks, elem)
  {
    if i > 0 { CeilingAbove(chunks[1..], elem, i - 1); }
  }

  /** An allocator that puts every chunk behind the others does what is asked of it. */
  lemma PlacesMet(elem: int)
    ensures Places((chunks, bytes) => Ceiling(chunks, elem), elem)
  {
    forall chunks: seq<Chunk>, bytes: int | bytes > 0 ensures PlacedAt(chunks, elem, Ceiling(chunks, elem), bytes) {
      forall i | 0 <= i < |chunks| ensures chunks[i].data + Size(chunks[i], elem) <= Ceiling(chunks, elem) {
        CeilingAbove(chunks, elem, i);
      }
    }
  }

  /** Chunks keep their cells, and only chunk `pn` has another list of free cells. */
  ghost predicate ChangedAt(chunks: seq<Chunk>, free: seq<seq<int>>, chunks': seq<Chunk>, free': seq<seq<int>>, pn: nat) {
    && |chunks'| == |chunks| == |free| == |free'| && pn < |chunks|
    && (forall i :: 0 <= i < |chunks| ==> chunks'[i].data == chunks[i].data && chunks'[i].count == chunks[i].count)
    && (forall i :: 0 <= i < |chunks| && i != pn ==> free'[i] == free[i])
  }

  /** A free cell more or less is a live cell less or more. */
  lemma MovedLive(chunks: seq<Chunk>, free: seq<seq<int>>, chunks': seq<Chunk>, free': seq<seq<int>>, elem: int, pn: nat, p: int)
    requires elem > 0 && AllApart(chunks, elem) && ChangedAt(chunks, free, chunks', free', pn)
    requires p in CellsOf(chunks[pn], elem) && free[pn] == [p] + free'[pn] && p !in free'[pn]
    ensures !IsLive(chunks, free, elem, p) && IsLive(chunks', free', elem, p)
    ensures forall q :: q != p ==> (IsLive(chunks', free', elem, q) <==> IsLive(chunks, free, elem, q))
  {
    if IsLive(chunks, free, elem, p) {
      var i :| 0 <= i < |chunks| && LiveIn(chunks, free, elem, i, p);
      OneChunk(chunks, elem, i, pn, p);
    }
    assert LiveIn(chunks', free', elem, pn, p);
    forall q | q != p ensures IsLive(chunks', free', elem, q) <==> IsLive(chunks, free, elem, q) {
      if IsLive(chunks, free, elem, q) {
        var i :| 0 <= i < |chunks| && LiveIn(chunks, free, elem, i, q);
        assert LiveIn(chunks', free', elem, i, q);
      }
      if IsLive(chunks', free', elem, q) {
        var i :| 0 <= i < |chunks| && LiveIn(chunks', free', elem, i, q);
        assert LiveIn(chunks, free, elem, i, q);
      }
    }
  }

  lemma LiveKept(chunks: seq<Chunk>, chunks': seq<Chunk>, free: seq<seq<int>>, elem: int)
    requires |chunks'| == |chunks| == |free|
    requires forall i :: 0 <= i < |chunks| ==> chunks'[i].data == chunks[i].data && chunks'[i].count == chunks[i].count
    ensures forall q :: IsLive(chunks', free, elem, q) <==> IsLive(chunks, free, elem, q)
  {
    forall q ensures IsLive(chunks', free, elem, q) <==> IsLive(chunks, free, elem, q) {
      if IsLive(chunks, free, elem, q) {
        var i :| 0 <= i < |chunks| && LiveIn(chunks, free, elem, i, q);
        assert LiveIn(chunks', free, elem, i, q);
      }
      if IsLive(chunks', free, elem, q) {
        var i :| 0 <= i < |chunks| && LiveIn(chunks', free, elem, i, q);
        assert LiveIn(chunks, free, elem, i, q);
      }
    }
  }

  /** A new chunk has no live cells. */
  lemma NewChunkLive(chunks: seq<Chunk>, free: seq<seq<int>>, c: Chunk, elem: int)
    requires |chunks| == |free|
    ensures forall q :: IsLive(chunks + [c], free + [CellsOf(c, elem)], elem, q) <==> IsLive(chunks, free, elem, q)
  {
    var chunks', free' := chunks + [c], free + [CellsOf(c, elem)];
    forall q ensures IsLive(chunks', free', elem, q) <==> IsLive(chunks, free, elem, q) {
      if IsLive(chunks, free, elem, q) {
        var i :| 0 <= i < |chunks| && LiveIn(chunks, free, elem, i, q);
        assert LiveIn(chunks', free', elem, i, q);
      }
      if IsLive(chunks', free', elem, q) {
        var i :| 0 <= i < |chunks'| && LiveIn(chunks', free', elem, i, q);
        assert LiveIn(chunks, free, elem, i, q);
      }
    }
  }

  // ---------- the list of chunks with free cells ----------

  ghost predicate NextOk(chunks: seq<Chunk>, order: seq<nat>, k: nat)
    requires k < |order|
  {
    order[k] < |chunks| && chunks[order[k]].nextFree == if k + 1 < |order| then Some(order[k + 1]) else None
  }

  ghost predicate ListOk(chunks: seq<Chunk>, order: seq<nat>) {
    order != [] && Once(order) && forall k :: 0 <= k < |order| ==> NextOk(chunks, order, k)
  }

  ghost predicate ExactlyFree(free: seq<seq<int>>, order: seq<nat>) {
    forall i :: 0 <= i < |free| ==> (i in order <==> free[i] != [])
  }

  lemma ListKept(chunks: seq<Chunk>, chunks': seq<Chunk>, order: seq<nat>)
    requires ListOk(chunks, order) && |chunks'| >= |chunks|
    requires forall i :: 0 <= i < |chunks| ==> chunks'[i].nextFree == chunks[i].nextFree
    ensures ListOk(chunks', order)
  {
    forall k | 0 <= k < |order| ensures NextOk(chunks', order, k) { assert NextOk(chunks, order, k); }
  }

  /** The first chunk leaves the list. */
  lemma ListTail(chunks: seq<Chunk>, order: seq<nat>)
    requires ListOk(chunks, order) && |order| > 1
    ensures ListOk(chunks, order[1..]) && forall i :: i in order <==> i == order[0] || i in order[1..]
    ensures order[0] !in order[1..]
  {
    forall k | 0 <= k < |order| - 1 ensures NextOk(chunks, order[1..], k) { assert NextOk(chunks, order, k + 1); }
    assert order == [order[0]] + order[1..];
    forall k | 0 <= k < |order[1..]| ensures order[1..][k] != order[0] { assert order[1..][k] == order[k + 1]; }
  }

  /** A chunk joins the list at its head. */
  lemma ListPush(chunks: seq<Chunk>, chunks': seq<Chunk>, order: seq<nat>, pn: nat)
    requires ListOk(chunks, order) && pn < |chunks| == |chunks'| && pn !in order
    requires chunks'[pn].nextFree == Some(order[0])
    requires forall i :: 0 <= i < |chunks| && i != pn ==> chunks'[i].nextFree == chunks[i].nextFree
    ensures ListOk(chunks', [pn] + order)
  {
    var order' := [pn] + order;
    forall k | 0 <= k < |order'| ensures NextOk(chunks', order', k) {
      if k > 0 { assert NextOk(chunks, order, k - 1) && order'[k] == order[k - 1] && order[k - 1] in order; }
    }
    forall j, k | 0 <= j < k < |order'| ensures order'[j] != order'[k] {
      assert order'[k] == order[k - 1] && order[k - 1] in order;
      if j > 0 { assert order'[j] == order[j - 1]; }
    }
  }

  /** A chunk was added, because the only free cell had been taken. It has two cells for every byte of the chunk before it. */
  ghost predicate GrownFrom(chunks: seq<Chunk>, free: seq<seq<int>>, chunks': seq<Chunk>, elem: int) {
    DoubledLast(chunks, chunks', elem) && |free| == |chunks| && exists pn :: 0 <= pn < |free| && OnlyFree(free, pn)
  }

  ghost predicate DoubledLast(chunks: seq<Chunk>, chunks': seq<Chunk>, elem: int) {
    |chunks'| == |chunks| + 1 && chunks != [] && chunks'[|chunks|].count == 2 * (chunks[|chunks| - 1].count * elem)
  }

  /** One cell of chunk `pn` is free, and no other cell. */
  ghost predicate OnlyFree(free: seq<seq<int>>, pn: nat)
    requires pn < |free|
  {
    |free[pn]| == 1 && forall i :: 0 <= i < |free| && i != pn ==> free[i] == []
  }

  class Pool {
    const elem: int
    const xmalloc: (seq<Chunk>, int) -> int

    var chunks: seq<Chunk>
    var firstFree: nat
    var mem: map<int, int>

    ghost var free: seq<seq<int>>
    ghost var order: seq<nat>

    /** The free cells of chunk `i` are linked, and lie in the chunk. */
    ghost predicate ChunkOk(i: nat)
      reads this
      requires i < |chunks| == |free|
    {
      && chunks[i].count > 0 && 0 < chunks[i].data
      && Linked(mem, free[i], chunks[i].firstFree) && Once(free[i])
      && forall p :: p in free[i] ==> p in CellsOf(chunks[i], elem)
    }

    ghost predicate OrderOk()
      reads this
    {
      ListOk(chunks, order) && firstFree == order[0] && ExactlyFree(free, order)
    }

    ghost predicate Valid()
      reads this
    {
      && elem > 0 && Places(xmalloc, elem) && |chunks| == |free| && OrderOk()
      && (forall i :: 0 <= i < |chunks| ==> ChunkOk(i))
      && AllApart(chunks, elem)
    }

    ghost predicate Live(p: int)
      reads this
    {
      IsLive(chunks, free, elem, p)
    }

    constructor (size: nat, elem: int, xmalloc: (seq<Chunk>, int) -> int)
      requires size > 0 && elem > 0 && Places(xmalloc, elem)
      ensures Valid() && this.elem == elem && this.xmalloc == xmalloc && forall p :: !Live(p)
    {
      this.elem, this.xmalloc := elem, xmalloc;
      chunks, free, order, firstFree, mem := [], [], [0], 0, map[];
      new;
      AddChunk(size);
    }

    /** Memory is as before outside the given range. */
    static ghost predicate Outside(mem: map<int, int>, mem': map<int, int>, start: int, end: int) {
      forall p :: (p < start || p >= end) && p in mem ==> p in mem' && mem'[p] == mem[p]
    }

    /** make_free_list: every cell of a new chunk points to the next one, and the last one to none. */
    method MakeFreeList(start: int, n: nat)
      requires elem > 0 && n > 0
      modifies this`mem
      ensures Linked(mem, Cells(start, elem, n), start)
      ensures Outside(old(mem), mem, start, start + n * elem)
    {
      var end := start + n * elem;
      LinkOn(start, n, end);
      ghost var linked, m, last := mem, n + 1, n - 1;
      assert end - elem == start + last * elem;
      Below(0, n, elem);
      mem := mem[end - elem := 0];
      forall j | 0 <= j < n ensures LinkAt(mem, start, elem, n, j) {
        assert LinkAt(linked, start, elem, m, j);
        if j < last { Below(j, last, elem); }
      }
      LinkedCells(mem, start, elem, n);
    }

    method LinkOn(start: int, n: nat, end: int)
      requires elem > 0 && end == start + n * elem
      modifies this`mem
      ensures var m := n + 1; forall j :: 0 <= j < n ==> LinkAt(mem, start, elem, m, j)
      ensures Outside(old(mem), mem, start, start + n * elem)
    {
      var ptr := start;
      ghost var k, m := 0, n + 1;
      while ptr != end
        invariant k <= n && ptr == start + k * elem >= start
        invariant forall j :: 0 <= j < k ==> LinkAt(mem, start, elem, m, j)
        invariant Outside(old(mem), mem, start, end)
        decreases n - k
      {
        ghost var before := mem;
        mem := mem[ptr := ptr + elem];
        forall j | 0 <= j < k ensures LinkAt(mem, start, elem, m, j) {
          assert LinkAt(before, start, elem, m, j);
          Below(j, k, elem);
        }
        assert LinkAt(mem, start, elem, m, k);
        ptr := ptr + elem;
        NextCell(k, elem);
        k := k + 1;
      }
      Same(k, n, elem);
    }

    static lemma NextCell(k: int, elem: int)
      ensures (k + 1) * elem == k * elem + elem
    {}

    static lemma Below(i: int, j: int, elem: int)
      requires i < j && elem > 0
      ensures i * elem < j * elem
    {}

    static lemma Same(i: int, j: int, elem: int)
      requires i * elem == j * elem && elem > 0
      ensures i == j
    {}

    /** new_pool_node: a chunk wherever the system has room for it. */
    method AddChunk(size: nat)
      requires elem > 0 && Places(xmalloc, elem) && size > 0 && |chunks| == |free|
      requires forall i :: 0 <= i < |chunks| ==> ChunkOk(i)
      requires AllApart(chunks, elem)
      modifies this`chunks, this`mem, this`free
      ensures |chunks| == |free| == |old(chunks)| + 1
      ensures forall i :: 0 <= i < |chunks| ==> ChunkOk(i)
      ensures AllApart(chunks, elem)
      ensures chunks[..|old(chunks)|] == old(chunks) && free[..|old(free)|] == old(free)
      ensures var c := chunks[|chunks| - 1];
              c.count == size && c.nextFree == None && free[|free| - 1] == CellsOf(c, elem)
    {
      Below(0, size, elem);
      var data := xmalloc(chunks, size * elem);
      var c := Chunk(data, size, data, None);
      assert PlacedAt(chunks, elem, data, size * elem);
      MakeFreeList(data, size);
      CellsRange(data, elem, size);
      ghost var was := |chunks|;
      chunks := chunks + [c];
      free := free + [CellsOf(c, elem)];
      forall i | 0 <= i < was ensures ChunkOk(i) {
        assert old(ChunkOk(i));
        CellsRange(chunks[i].data, elem, chunks[i].count);
        LinkedFrame(old(mem), mem, free[i], chunks[i].firstFree);
      }
      forall i, j | 0 <= i < j < |chunks| ensures Apart(chunks[i], chunks[j], elem) {
        if j < was { assert Apart(old(chunks)[i], old(chunks)[j], elem); }
      }
    }

    /** Everything but the list of chunks with free cells is in order. */
    ghost predicate CellsOk()
      reads this
    {
      && elem > 0 && Places(xmalloc, elem) && |chunks| == |free| && AllApart(chunks, elem)
      && forall i :: 0 <= i < |chunks| ==> ChunkOk(i)
    }

    lemma CellPositive(i: nat, p: int)
      requires elem > 0 && |chunks| == |free| && i < |chunks| && ChunkOk(i) && p in free[i]
      ensures p > 0
    {
      CellsRange(chunks[i].data, elem, chunks[i].count);
    }

    /** The first free cell of a chunk. */
    method TakeCell(pn: nat) returns (p: int)
      requires CellsOk() && pn < |chunks| && free[pn] != []
      modifies this`chunks, this`free
      ensures CellsOk() && |free| == |old(free)| && free == old(free)[pn := free[pn]] && old(free)[pn] == [p] + free[pn]
      ensures chunks == old(chunks)[pn := old(chunks)[pn].(firstFree := chunks[pn].firstFree)]
      ensures p in CellsOf(chunks[pn], elem) && p !in free[pn] && (chunks[pn].firstFree == 0 <==> free[pn] == [])
    {
      assert ChunkOk(pn);
      p := chunks[pn].firstFree;
      ghost var cells := free[pn];
      assert p == cells[0] && p in cells && p !in cells[1..];
      assert Linked(mem, cells[1..], mem[p]);
      if |cells| > 1 {
        assert cells[1] in cells && cells[1..][0] == cells[1] == mem[p];
        CellPositive(pn, cells[1]);
      }
      chunks := chunks[pn := chunks[pn].(firstFree := mem[p])];
      free := free[pn := cells[1..]];
      forall i | 0 <= i < |chunks| ensures ChunkOk(i) { assert old(ChunkOk(i)); }
      forall i, j | 0 <= i < j < |chunks| ensures Apart(chunks[i], chunks[j], elem) { assert Apart(old(chunks)[i], old(chunks)[j], elem); }
    }

    /** palloc: the cell was not in use, and is now. */
    method Palloc() returns (p: int)
      requires Valid()
      modifies this
      ensures Valid() && !old(Live(p)) && forall q :: Live(q) <==> old(Live(q)) || q == p
      ensures |chunks| == |old(chunks)| || GrownFrom(old(chunks), old(free), chunks, elem)
    {
      ghost var pn := firstFree;
      assert NextOk(chunks, order, 0) && order[0] in order;
      OneInOrder();
      p := TakeCell(firstFree);
      MovedLive(old(chunks), old(free), chunks, free, elem, pn, p);
      ListKept(old(chunks), chunks, order);
      if chunks[firstFree].firstFree == 0 {
        assert |order| == 1 ==> OnlyFree(old(free), pn);
        LeaveChunk();
      }
    }

    lemma OneInOrder()
      requires Valid()
      ensures |order| == 1 ==> forall i :: 0 <= i < |free| && i != firstFree ==> free[i] == []
    {
      if |order| == 1 {
        forall i: nat | i < |free| && i != firstFree ensures free[i] == [] { assert i !in order; }
      }
    }

    /** The first chunk of the list has no free cell left: the next one, or a new chunk, takes its place. */
    method LeaveChunk()
      requires CellsOk() && ListOk(chunks, order) && firstFree == order[0] && firstFree < |chunks| && free[firstFree] == []
      requires forall i :: 0 <= i < |chunks| && i != firstFree ==> (i in order <==> free[i] != [])
      modifies this
      ensures Valid() && forall q :: Live(q) <==> old(Live(q))
      ensures |chunks| == |old(chunks)| || (old(|order|) == 1 && DoubledLast(old(chunks), chunks, elem))
    {
      assert NextOk(chunks, order, 0);
      if chunks[firstFree].nextFree.Some? {
        NextChunk();
      } else {
        GrowPool();
      }
    }

    method NextChunk()
      requires CellsOk() && ListOk(chunks, order) && firstFree == order[0] && firstFree < |chunks| && free[firstFree] == []
      requires forall i :: 0 <= i < |chunks| && i != firstFree ==> (i in order <==> free[i] != [])
      requires chunks[firstFree].nextFree.Some? && |order| > 1
      modifies this`firstFree, this`order
      ensures Valid() && forall q :: Live(q) <==> old(Live(q))
    {
      assert NextOk(chunks, order, 0);
      ListTail(chunks, order);
      firstFree := chunks[firstFree].nextFree.value;
      order := order[1..];
      forall i | 0 <= i < |chunks| ensures ChunkOk(i) { assert old(ChunkOk(i)); }
    }

    method GrowPool()
      requires CellsOk() && ListOk(chunks, order) && firstFree == order[0] && firstFree < |chunks| && free[firstFree] == []
      requires forall i :: 0 <= i < |chunks| && i != firstFree ==> (i in order <==> free[i] != [])
      requires |order| == 1
      modifies this
      ensures Valid() && DoubledLast(old(chunks), chunks, elem) && forall q :: Live(q) <==> old(Live(q))
    {
      var pn := firstFree;
      while pn + 1 < |chunks|
        invariant pn < |chunks|
      {
        pn := pn + 1;
      }
      assert ChunkOk(pn);
      Below(0, chunks[pn].count, elem);
      firstFree, order := pn + 1, [pn + 1];
      forall i | 0 <= i < |chunks| ensures ChunkOk(i) { assert old(ChunkOk(i)); }
      AddChunk(2 * Size(chunks[pn], elem));
      ghost var c := chunks[pn + 1];
      assert chunks == old(chunks) + [c] && free == old(free) + [CellsOf(c, elem)];
      NewChunkLive(old(chunks), old(free), c, elem);
      assert NextOk(chunks, order, 0);
    }


    /** pfree: exactly the given cell goes out of use. */
    method Pfree(p: int)
      requires Valid() && Live(p)
      modifies this
      ensures Valid() && forall q :: Live(q) <==> old(Live(q)) && q != p
    {
      var pn := FindChunk(p);
      var next := chunks[pn].firstFree;
      NextZero(pn);
      ReturnCell(pn, p);
      MovedLive(chunks, free, old(chunks), old(free), elem, pn, p);
      ListKept(old(chunks), chunks, order);
      if next == 0 {
        JoinList(pn);
      }
    }

    lemma NextZero(pn: nat)
      requires CellsOk() && pn < |chunks|
      ensures chunks[pn].firstFree == 0 <==> free[pn] == []
    {
      assert ChunkOk(pn);
      if free[pn] != [] { CellPositive(pn, free[pn][0]); }
    }

    /** The chunk whose memory a live cell lies in. */
    method FindChunk(p: int) returns (pn: nat)
      requires CellsOk() && Live(p)
      ensures pn < |chunks| && LiveIn(chunks, free, elem, pn, p)
    {
      ghost var i: nat :| 0 <= i < |chunks| && LiveIn(chunks, free, elem, i, p);
      CellsRange(chunks[i].data, elem, chunks[i].count);
      forall j: nat | j < i ensures !Spans(chunks[j], elem, p) {
        OneSpan(chunks, elem, i, j, p);
      }
      pn := 0;
      while !Spans(chunks[pn], elem, p)
        invariant pn <= i
        decreases i - pn
      {
        pn := pn + 1;
      }
    }

    /** The cell becomes the first free one of its chunk. */
    method ReturnCell(pn: nat, p: int)
      requires CellsOk() && pn < |chunks| && LiveIn(chunks, free, elem, pn, p)
      modifies this`chunks, this`free, this`mem
      ensures CellsOk() && free == old(free)[pn := [p] + old(free)[pn]]
      ensures chunks == old(chunks)[pn := old(chunks)[pn].(firstFree := p)]
    {
      ghost var cells := free[pn];
      mem := mem[p := chunks[pn].firstFree];
      chunks := chunks[pn := chunks[pn].(firstFree := p)];
      free := free[pn := [p] + cells];
      forall i | 0 <= i < |chunks| ensures ChunkOk(i) {
        assert old(ChunkOk(i));
        if i != pn && p in old(free)[i] { OneChunk(old(chunks), elem, i, pn, p); }
        LinkedFrame(old(mem), mem, old(free)[i], old(chunks)[i].firstFree);
        if i == pn { assert ([p] + cells)[1..] == cells; }
      }
      forall i, j | 0 <= i < j < |chunks| ensures Apart(chunks[i], chunks[j], elem) { assert Apart(old(chunks)[i], old(chunks)[j], elem); }
    }

    /** A chunk that was full goes to the head of the list. */
    method JoinList(pn: nat)
      requires CellsOk() && pn < |chunks| && ListOk(chunks, order) && firstFree == order[0] && pn !in order && free[pn] != []
      requires forall i :: 0 <= i < |chunks| && i != pn ==> (i in order <==> free[i] != [])
      modifies this`chunks, this`firstFree, this`order
      ensures Valid() && forall q :: Live(q) <==> old(Live(q))
    {
      ListPush(chunks, chunks[pn := chunks[pn].(nextFree := Some(firstFree))], order, pn);
      chunks := chunks[pn := chunks[pn].(nextFree := Some(firstFree))];
      firstFree, order := pn, [pn] + order;
      forall i | 0 <= i < |chunks| ensures ChunkOk(i) { assert old(ChunkOk(i)); }
      forall i, j | 0 <= i < j < |chunks| ensures Apart(chunks[i], chunks[j], elem) { assert Apart(old(chunks)[i], old(chunks)[j], elem); }
      LiveKept(old(chunks), chunks, free, elem);
    }

    /** What the program stores in a live cell does not matter. */
    method Store(p: int, v: int)
      requires Valid() && Live(p)
      modifies this`mem
      ensures Valid() && forall q :: Live(q) <==> old(Live(q))
    {
      ghost var j :| 0 <= j < |chunks| && LiveIn(chunks, free, elem, j, p);
      mem := mem[p := v];
      forall i | 0 <= i < |chunks| ensures ChunkOk(i) {
        assert old(ChunkOk(i));
        if i != j && p in free[i] { OneChunk(chunks, elem, i, j, p); }
        LinkedFrame(old(mem), mem, free[i], chunks[i].firstFree);
      }
    }
  }
}
