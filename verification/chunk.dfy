/**
 The DAT chunk container: a walker that moves a cursor over raw bytes, and a builder that turns the chunks it
 yields into a tree by keeping an index path to the directory being filled.

 A tree is described by its outline: its chunks in preorder, each with its depth. The builder is specified by the
 outline alone, `OutlineDecidesTree` shows that an outline belongs to one tree only, and `PrintedOutline` works out
 the outline of printed bytes, so `ParsePrinted` gets the printed forest back.
 */
module DatChunk {
  import opened Wrappers

  const HEADER_BYTES: nat := 16
  const UNIT_BYTES: nat := 16
  const CHUNK_KINDS: nat := 0x80
  const CHUNK_SIZE_UNITS: nat := 0x8_0000
  const END_KIND: nat := 0x00
  const DIRECTORY_KIND: nat := 0x01
  const SYNTHETIC_KIND: nat := 0xFF

  datatype Chunk = Chunk(name: seq<byte>, kind: nat, data: seq<byte>, offset: nat)

  datatype DatError = TruncatedChunk(offset: nat, needed: nat, available: nat)

  type Item = Result<Chunk, DatError>

  // ---- walking -------------------------------------------------------------------------------------------------

  function HeaderValue(bytes: seq<byte>, at: nat): nat
    requires at + HEADER_BYTES <= |bytes|
  {
    U32Le(bytes[at + 4..at + 8])
  }

  /** Total size of the chunk at `at`: 19 bits of 16-byte units above the 7-bit kind. */
  function TotalBytes(bytes: seq<byte>, at: nat): nat
    requires at + HEADER_BYTES <= |bytes|
  {
    HeaderValue(bytes, at) / CHUNK_KINDS % CHUNK_SIZE_UNITS * UNIT_BYTES
  }

  function ChunkAt(bytes: seq<byte>, at: nat): Chunk
    requires at + HEADER_BYTES <= |bytes|
    requires HEADER_BYTES <= TotalBytes(bytes, at) <= |bytes| - at
  {
    Chunk(bytes[at..at + 4], HeaderValue(bytes, at) % CHUNK_KINDS,
          bytes[at + HEADER_BYTES..at + TotalBytes(bytes, at)], at)
  }

  /** Everything a walker standing at `at` still yields. */
  function Walk(bytes: seq<byte>, at: nat): seq<Item>
    decreases |bytes| - at
  {
    if at >= |bytes| then []
    else if at + HEADER_BYTES > |bytes| then [Err(TruncatedChunk(at, HEADER_BYTES, |bytes| - at))]
    else
      var total := TotalBytes(bytes, at);
      if total < HEADER_BYTES then []
      else if at + total > |bytes| then [Err(TruncatedChunk(at, total, |bytes| - at))]
      else [Ok(ChunkAt(bytes, at))] + Walk(bytes, at + total)
  }

  /** One unfolding of what a walker at `at` yields. */
  lemma WalkFrom(bytes: seq<byte>, at: nat)
    ensures at >= |bytes| ==> Walk(bytes, at) == []
    ensures at < |bytes| < at + HEADER_BYTES ==>
              Walk(bytes, at) == [Err(TruncatedChunk(at, HEADER_BYTES, |bytes| - at))]
    ensures at + HEADER_BYTES <= |bytes| ==>
              var total := TotalBytes(bytes, at);
              Walk(bytes, at)
              == if total < HEADER_BYTES then []
                 else if at + total > |bytes| then [Err(TruncatedChunk(at, total, |bytes| - at))]
                 else [Ok(ChunkAt(bytes, at))] + Walk(bytes, at + total)
  {
  }

  /** A chunk's bytes in all, from the last four bytes of its header. */
  function SizeOf(b4: nat, b5: nat, b6: nat, b7: nat): nat {
    16 * (b4 / 128 + 2 * b5 + 512 * b6 + 131072 * (b7 % 4))
  }

  /** The header word byte by byte: 7 bits of kind, 19 of size, and 6 that are neither. */
  lemma HeaderByBytes(bytes: seq<byte>, at: nat)
    requires at + 16 <= |bytes|
    ensures HeaderValue(bytes, at) % CHUNK_KINDS == bytes[at + 4] % 128
    ensures TotalBytes(bytes, at) == SizeOf(bytes[at + 4], bytes[at + 5], bytes[at + 6], bytes[at + 7])
  {
    var b := bytes[at + 4..at + 8];
    PackedParts(b[0], b[1], b[2], b[3], U32Le(b));
  }

  lemma PackedParts(b0: nat, b1: nat, b2: nat, b3: nat, value: nat)
    requires b0 < 0x100 && b1 < 0x100 && b2 < 0x100 && b3 < 0x100
    requires value == b0 + 0x100 * b1 + 0x1_0000 * b2 + 0x100_0000 * b3
    ensures value % 128 == b0 % 128
    ensures value / 128 % 524288 == b0 / 128 + 2 * b1 + 512 * b2 + 131072 * (b3 % 4)
  {
    var low := b0 / 128 + 2 * b1 + 512 * b2;
    assert value == 128 * (low + 131072 * b3) + b0 % 128;
    assert value / 128 == low + 131072 * b3;
    assert low + 131072 * b3 == 524288 * (b3 / 4) + (low + 131072 * (b3 % 4));
  }

  /** What the walk yields at a position holding at least 16 bytes, in the numbers of the format. */
  lemma WalkByBytes(bytes: seq<byte>, at: nat)
    requires at + 16 <= |bytes|
    ensures var size := SizeOf(bytes[at + 4], bytes[at + 5], bytes[at + 6], bytes[at + 7]);
            Walk(bytes, at)
            == if size == 0 then []
               else if at + size > |bytes| then [Err(TruncatedChunk(at, size, |bytes| - at))]
               else [Ok(Chunk(bytes[at..at + 4], bytes[at + 4] % 128, bytes[at + 16..at + size], at))]
                    + Walk(bytes, at + size)
  {
    HeaderByBytes(bytes, at);
    WalkFrom(bytes, at);
    WholeUnits(bytes[at + 4], bytes[at + 5], bytes[at + 6], bytes[at + 7]);
    hide Walk, HeaderValue, TotalBytes, SizeOf;
  }

  lemma WholeUnits(b4: nat, b5: nat, b6: nat, b7: nat)
    ensures SizeOf(b4, b5, b6, b7) < 16 <==> SizeOf(b4, b5, b6, b7) == 0
  {
  }

  /** The walk reads nothing before the position it stands at. */
  lemma {:induction false} WalkReadsAhead(a: seq<byte>, b: seq<byte>, at: nat)
    requires |a| == |b| && forall k :: at <= k < |a| ==> a[k] == b[k]
    ensures Walk(a, at) == Walk(b, at)
    decreases |a| - at
  {
    hide Walk, U32Le;
    WalkFrom(a, at);
    WalkFrom(b, at);
    if at + HEADER_BYTES <= |a| {
      assert a[at + 4..at + 8] == b[at + 4..at + 8] && a[at..at + 4] == b[at..at + 4];
      var total := TotalBytes(a, at);
      if HEADER_BYTES <= total <= |a| - at {
        assert a[at + HEADER_BYTES..at + total] == b[at + HEADER_BYTES..at + total];
        WalkReadsAhead(a, b, at + total);
      }
    }
  }

  /** The upper six bits of a header's last byte, the shadow flag among them, change nothing. */
  lemma ShadowFlagChangesNothing(bytes: seq<byte>, at: nat, last: byte)
    requires at + 16 <= |bytes| && last % 4 == bytes[at + 7] % 4
    ensures Walk(bytes[at + 7 := last], at) == Walk(bytes, at)
  {
    hide Walk;
    var other := bytes[at + 7 := last];
    WalkByBytes(bytes, at);
    WalkByBytes(other, at);
    var size := SizeOf(bytes[at + 4], bytes[at + 5], bytes[at + 6], bytes[at + 7]);
    if 0 < size && at + size <= |bytes| {
      assert other[at..at + 4] == bytes[at..at + 4] && other[at + 16..at + size] == bytes[at + 16..at + size];
      WalkReadsAhead(other, bytes, at + size);
    }
  }

  class ChunkWalker {
    const bytes: seq<byte>
    var cursor: nat

    constructor (bytes: seq<byte>)
      ensures this.bytes == bytes && cursor == 0
    {
      this.bytes := bytes;
      cursor := 0;
    }

    method Next() returns (item: Option<Item>)
      modifies this
      ensures item.None? ==> Walk(bytes, old(cursor)) == [] && Walk(bytes, cursor) == []
      ensures item.Some? ==> Walk(bytes, old(cursor)) == [item.value] + Walk(bytes, cursor)
      ensures item.Some? ==> old(cursor) < cursor <= |bytes|
      ensures item.Some? && item.value.Ok? ==>
                var chunk := item.value.value;
                chunk.offset == old(cursor) && cursor == old(cursor) + HEADER_BYTES + |chunk.data|
      ensures item.Some? && item.value.Ok? ==>
                var (chunk, at) := (item.value.value, old(cursor));
                && at + 16 <= cursor && chunk.name == bytes[at..at + 4] && chunk.kind == bytes[at + 4] % 128
                && chunk.data == bytes[at + 16..cursor]
                && cursor - at == SizeOf(bytes[at + 4], bytes[at + 5], bytes[at + 6], bytes[at + 7])
    {
      hide Walk, U32Le;
      if cursor + 16 <= |bytes| {
        HeaderByBytes(bytes, cursor);
      }
      WalkFrom(bytes, cursor);
      WalkFrom(bytes, |bytes|);
      if cursor >= |bytes| {
        return None;
      }
      var headerOff := cursor;
      if headerOff + HEADER_BYTES > |bytes| {
        cursor := |bytes|;
        return Some(Err(TruncatedChunk(headerOff, HEADER_BYTES, |bytes| - headerOff)));
      }
      var value := U32Le(bytes[headerOff + 4..headerOff + 8]);
      var kind := value % CHUNK_KINDS;
      var totalBytes := value / CHUNK_KINDS % CHUNK_SIZE_UNITS * UNIT_BYTES;
      if totalBytes < HEADER_BYTES {
        cursor := |bytes|;
        return None;
      }
      var bodyEnd := headerOff + totalBytes;
      if bodyEnd > |bytes| {
        cursor := |bytes|;
        return Some(Err(TruncatedChunk(headerOff, totalBytes, |bytes| - headerOff)));
      }
      var chunk := Chunk(bytes[headerOff..headerOff + 4], kind, bytes[headerOff + HEADER_BYTES..bodyEnd], headerOff);
      cursor := bodyEnd;
      return Some(Ok(chunk));
    }
  }

  /** Where the item after `chunk` starts. */
  function EndOf(chunk: Chunk): nat {
    chunk.offset + HEADER_BYTES + |chunk.data|
  }

  /** `item` sits at `start`: an Ok chunk is bytes of the buffer, an error says how far the buffer falls short. */
  predicate SitsAt(bytes: seq<byte>, item: Item, start: nat) {
    match item
    case Ok(c) =>
      && c.offset == start
      && EndOf(c) <= |bytes|
      && c.name == bytes[start..start + 4]
      && c.data == bytes[start + HEADER_BYTES..EndOf(c)]
      && EndOf(c) - start == TotalBytes(bytes, start)
      && c.kind == HeaderValue(bytes, start) % CHUNK_KINDS
    case Err(e) =>
      e.offset == start && e.available == |bytes| - start && e.available < e.needed
  }

  /** The Ok chunks tile a prefix of the buffer without gaps, and any error is the single last item. */
  lemma {:induction false} WalkTilesPrefix(bytes: seq<byte>, at: nat)
    ensures var items := Walk(bytes, at);
            && (forall i :: 0 <= i < |items| - 1 ==> items[i].Ok?)
            && (forall i :: 0 < i < |items| ==> SitsAt(bytes, items[i], EndOf(items[i - 1].value)))
            && (items != [] ==> SitsAt(bytes, items[0], at))
    decreases |bytes| - at
  {
    var items := Walk(bytes, at);
    if |items| > 0 && items[0].Ok? {
      var next := at + TotalBytes(bytes, at);
      WalkTilesPrefix(bytes, next);
      var rest := Walk(bytes, next);
      assert items[1..] == rest;
      assert forall i :: 0 < i < |items| ==> items[i] == rest[i - 1];
      assert EndOf(items[0].value) == next;
    }
  }

  // ---- the tree and its outline ----------------------------------------------------------------------------------

  datatype ChunkNode = ChunkNode(chunk: Chunk, children: seq<ChunkNode>)

  datatype Line = Line(chunk: Chunk, depth: nat)

  /** The chunks below a node in preorder, each with its depth. */
  function Outline(nodes: seq<ChunkNode>, depth: nat): seq<Line> {
    if nodes == [] then []
    else [Line(nodes[0].chunk, depth)] + Outline(nodes[0].children, depth + 1) + Outline(nodes[1..], depth)
  }

  /**
   The depths a run of walker items stands at: a directory opens one level, an end marker closes one when there is
   one to close, and neither end markers nor errors have a line of their own.
   */
  function Indent(items: seq<Item>, depth: nat): seq<Line> {
    if items == [] then []
    else if items[0].Err? then Indent(items[1..], depth)
    else
      var chunk := items[0].value;
      if chunk.kind == END_KIND then Indent(items[1..], if depth == 0 then 0 else depth - 1)
      else [Line(chunk, depth)] + Indent(items[1..], if chunk.kind == DIRECTORY_KIND then depth + 1 else depth)
  }

  /** Every index of `path` names the last child there is on its level. */
  predicate Rightmost(node: ChunkNode, path: seq<nat>)
    decreases |path|
  {
    path == []
    || (|node.children| > 0 && path[0] == |node.children| - 1 && Rightmost(node.children[path[0]], path[1..]))
  }

  function AtPath(node: ChunkNode, path: seq<nat>): ChunkNode
    requires Rightmost(node, path)
    decreases |path|
  {
    if path == [] then node else AtPath(node.children[path[0]], path[1..])
  }

  /** The tree after `leaf` has been pushed onto the children of the node at `path`. */
  function PushAt(node: ChunkNode, path: seq<nat>, leaf: ChunkNode): ChunkNode
    requires Rightmost(node, path)
    decreases |path|
  {
    if path == [] then node.(children := node.children + [leaf])
    else node.(children := node.children[path[0] := PushAt(node.children[path[0]], path[1..], leaf)])
  }

  lemma {:induction false} OutlineAppend(a: seq<ChunkNode>, b: seq<ChunkNode>, depth: nat)
    ensures Outline(a + b, depth) == Outline(a, depth) + Outline(b, depth)
    decreases |a|
  {
    if a == [] {
      assert a + b == b;
    } else {
      assert (a + b)[1..] == a[1..] + b;
      OutlineAppend(a[1..], b, depth);
    }
  }

  lemma OutlineOne(node: ChunkNode, depth: nat)
    ensures Outline([node], depth) == [Line(node.chunk, depth)] + Outline(node.children, depth + 1)
  {
  }

  lemma {:induction false} PushKeepsRightmost(node: ChunkNode, path: seq<nat>, leaf: ChunkNode)
    requires Rightmost(node, path)
    ensures var after := PushAt(node, path, leaf);
            && after.chunk == node.chunk
            && Rightmost(after, path)
            && Rightmost(after, path + [|AtPath(node, path).children|])
    decreases |path|
  {
    if path == [] {
      assert PushAt(node, path, leaf).children[|node.children|] == leaf;
      assert (path + [|node.children|])[1..] == [];
    } else {
      PushKeepsRightmost(node.children[path[0]], path[1..], leaf);
      assert (path + [|AtPath(node, path).children|])[1..] == path[1..] + [|AtPath(node, path).children|];
    }
  }

  /** A forest whose last tree is replaced: its lines before that tree stay. */
  lemma OutlineOfLast(front: seq<ChunkNode>, last: ChunkNode, depth: nat)
    ensures Outline(front + [last], depth)
            == Outline(front, depth) + [Line(last.chunk, depth)] + Outline(last.children, depth + 1)
  {
    OutlineAppend(front, [last], depth);
    OutlineOne(last, depth);
    hide Outline;
  }

  lemma MoreLines(a: seq<Line>, b: seq<Line>, c: seq<Line>, d: seq<Line>)
    ensures a + b + (c + d) == a + b + c + d
  {
  }

  lemma {:induction false} PushAddsLine(node: ChunkNode, path: seq<nat>, chunk: Chunk, depth: nat)
    requires Rightmost(node, path)
    ensures Outline(PushAt(node, path, ChunkNode(chunk, [])).children, depth)
            == Outline(node.children, depth) + [Line(chunk, depth + |path|)]
    decreases |path|
  {
    var leaf := ChunkNode(chunk, []);
    if path == [] {
      OutlineOfLast(node.children, leaf, depth);
    } else {
      var child := node.children[path[0]];
      PushAddsLine(child, path[1..], chunk, depth + 1);
      PushKeepsRightmost(child, path[1..], leaf);
      hide Outline, Rightmost;
      var child' := PushAt(child, path[1..], leaf);
      var front := node.children[..path[0]];
      assert node.children == front + [child];
      assert PushAt(node, path, leaf).children == front + [child'];
      OutlineOfLast(front, child, depth);
      OutlineOfLast(front, child', depth);
      MoreLines(Outline(front, depth), [Line(child.chunk, depth)], Outline(child.children, depth + 1),
                [Line(chunk, depth + |path|)]);
    }
  }

  /** Pushing at the rightmost path adds one last line, at the path's depth; the path stays rightmost. */
  lemma PushAddsLastLine(node: ChunkNode, path: seq<nat>, chunk: Chunk, depth: nat)
    requires Rightmost(node, path)
    ensures var after := PushAt(node, path, ChunkNode(chunk, []));
            && Outline(after.children, depth) == Outline(node.children, depth) + [Line(chunk, depth + |path|)]
            && after.chunk == node.chunk
            && Rightmost(after, path)
            && Rightmost(after, path + [|AtPath(node, path).children|])
  {
    hide *;
    PushAddsLine(node, path, chunk, depth);
    PushKeepsRightmost(node, path, ChunkNode(chunk, []));
  }

  lemma {:induction false} PopKeepsRightmost(node: ChunkNode, path: seq<nat>)
    requires path != [] && Rightmost(node, path)
    ensures Rightmost(node, path[..|path| - 1])
    decreases |path|
  {
    if |path| > 1 {
      PopKeepsRightmost(node.children[path[0]], path[1..]);
      assert path[..|path| - 1][1..] == path[1..][..|path| - 2];
    }
  }

  /** One chunk of the builder's loop: it takes the run's first line, if it has one, into the tree. */
  method Accept(root: ChunkNode, path: seq<nat>, chunk: Chunk, ghost rest: seq<Item>)
    returns (root': ChunkNode, path': seq<nat>)
    requires Rightmost(root, path)
    ensures root'.chunk == root.chunk && Rightmost(root', path')
    ensures Outline(root'.children, 0) + Indent(rest, |path'|)
            == Outline(root.children, 0) + Indent([Ok(chunk)] + rest, |path|)
  {
    assert ([Ok(chunk)] + rest)[1..] == rest;
    root', path' := root, path;
    if chunk.kind == END_KIND {
      if path != [] {
        PopKeepsRightmost(root, path);
        path' := path[..|path| - 1];
      }
    } else {
      PushAddsLastLine(root, path, chunk, 0);
      root' := PushAt(root, path, ChunkNode(chunk, []));
      if chunk.kind == DIRECTORY_KIND {
        path' := path + [|AtPath(root, path).children|];
      }
    }
  }

  /** On any bytes: the tree's outline is the walker's run with its nesting read off the kinds. */
  method WalkTree(bytes: seq<byte>) returns (root: ChunkNode)
    ensures root.chunk == Chunk([0, 0, 0, 0], 255, [], 0)
    ensures Outline(root.children, 0) == Indent(Walk(bytes, 0), 0)
  {
    root := ChunkNode(Chunk([0, 0, 0, 0], SYNTHETIC_KIND, [], 0), []);
    var path: seq<nat> := [];
    var walker := new ChunkWalker(bytes);
    while true
      invariant walker.bytes == bytes
      invariant root.chunk == Chunk([0, 0, 0, 0], SYNTHETIC_KIND, [], 0)
      invariant Rightmost(root, path)
      invariant Outline(root.children, 0) + Indent(Walk(bytes, walker.cursor), |path|) == Indent(Walk(bytes, 0), 0)
      decreases |bytes| - walker.cursor
    {
      ghost var left := Walk(bytes, walker.cursor);
      var item := walker.Next();
      if item.None? {
        break;
      }
      assert left[1..] == Walk(bytes, walker.cursor);
      if item.value.Ok? {
        root, path := Accept(root, path, item.value.value, Walk(bytes, walker.cursor));
      }
    }
  }

  // ---- how deep a chunk lies -------------------------------------------------------------------------------------

  /** Directories (kind 1) less ends (kind 0) in a run of walker items. */
  function Surplus(items: seq<Item>): int
    decreases |items|
  {
    if items == [] then 0
    else
      var last := items[|items| - 1];
      Surplus(items[..|items| - 1])
      + if last.Ok? && last.value.kind == 1 then 1 else if last.Ok? && last.value.kind == 0 then -1 else 0
  }

  /** The depth one item leaves behind. */
  function NextDepth(item: Item, depth: nat): nat {
    if item.Err? then depth
    else if item.value.kind == END_KIND then if depth == 0 then 0 else depth - 1
    else if item.value.kind == DIRECTORY_KIND then depth + 1 else depth
  }

  function DepthAfter(items: seq<Item>, depth: nat): nat {
    if items == [] then depth else DepthAfter(items[1..], NextDepth(items[0], depth))
  }

  lemma {:induction false} DepthAfterOne(items: seq<Item>, item: Item, depth: nat)
    ensures DepthAfter(items + [item], depth) == NextDepth(item, DepthAfter(items, depth))
    ensures Indent(items + [item], depth) == Indent(items, depth) + Indent([item], DepthAfter(items, depth))
    decreases |items|
  {
    if items == [] {
      assert items + [item] == [item];
    } else {
      assert (items + [item])[1..] == items[1..] + [item];
      DepthAfterOne(items[1..], item, NextDepth(items[0], depth));
    }
  }

  lemma {:induction false} DepthIsSurplus(items: seq<Item>) returns (from: nat)
    ensures from <= |items| && Surplus(items[from..]) == DepthAfter(items, 0)
    ensures forall j: nat :: j <= |items| ==> Surplus(items[j..]) <= DepthAfter(items, 0)
    decreases |items|
  {
    var n := |items|;
    if n == 0 {
      from := 0;
      return;
    }
    var front, last := items[..n - 1], items[n - 1];
    assert items == front + [last] && [last][1..] == [];
    var before := DepthIsSurplus(front);
    DepthAfterOne(front, last, 0);
    forall j: nat | j < n
      ensures Surplus(items[j..]) == Surplus(front[j..]) + Surplus([last])
    {
      assert items[j..][..|items[j..]| - 1] == front[j..] && [last][..0] == [];
    }
    assert items[n..] == [];
    from := if DepthAfter(items, 0) == 0 && DepthAfter(front, 0) == 0 then n else before;
  }

  /**
   A chunk that has a line stands at the greatest surplus of directories over ends in any stretch of chunks up to it: an
   end with no directory left to close counts for nothing.
   */
  lemma LineDepth(items: seq<Item>, chunk: Chunk)
    requires chunk.kind != 0
    ensures var lines := Indent(items + [Ok(chunk)], 0);
            && lines != [] && lines[|lines| - 1].chunk == chunk
            && (forall j: nat :: j <= |items| ==> Surplus(items[j..]) <= lines[|lines| - 1].depth)
            && exists j: nat :: j <= |items| && Surplus(items[j..]) == lines[|lines| - 1].depth
  {
    var item: Item := Ok(chunk);
    DepthAfterOne(items, item, 0);
    var from := DepthIsSurplus(items);
    assert [item][1..] == [];
  }

  /** Ends and errors have no line. */
  lemma NoLine(items: seq<Item>, item: Item)
    requires item.Ok? ==> item.value.kind == 0
    ensures Indent(items + [item], 0) == Indent(items, 0)
  {
    DepthAfterOne(items, item, 0);
    assert [item][1..] == [];
  }

  // ---- an outline belongs to one tree ----------------------------------------------------------------------------

  lemma {:induction false} OutlineDepths(nodes: seq<ChunkNode>, depth: nat)
    ensures forall l :: l in Outline(nodes, depth) ==> l.depth >= depth
    ensures nodes != [] ==> Outline(nodes, depth)[0].depth == depth
  {
    if nodes != [] {
      OutlineDepths(nodes[0].children, depth + 1);
      OutlineDepths(nodes[1..], depth);
    }
  }

  /** How many lines a list opens with before the first that is no deeper than `depth`. */
  function DeepRun(lines: seq<Line>, depth: nat): nat {
    if lines == [] || lines[0].depth <= depth then 0 else 1 + DeepRun(lines[1..], depth)
  }

  lemma {:induction false} DeepRunSplits(deep: seq<Line>, rest: seq<Line>, depth: nat)
    requires forall l :: l in deep ==> l.depth > depth
    requires rest != [] ==> rest[0].depth <= depth
    ensures DeepRun(deep + rest, depth) == |deep|
    decreases |deep|
  {
    if deep == [] {
      assert deep + rest == rest;
    } else {
      assert (deep + rest)[1..] == deep[1..] + rest;
      DeepRunSplits(deep[1..], rest, depth);
    }
  }

  /** `deep` and `rest` can be told apart in their concatenation. */
  lemma SplitIsUnique(deep: seq<Line>, rest: seq<Line>, deep': seq<Line>, rest': seq<Line>, depth: nat)
    requires deep + rest == deep' + rest'
    requires forall l :: l in deep || l in deep' ==> l.depth > depth
    requires (rest != [] ==> rest[0].depth <= depth) && (rest' != [] ==> rest'[0].depth <= depth)
    ensures deep == deep' && rest == rest'
  {
    DeepRunSplits(deep, rest, depth);
    DeepRunSplits(deep', rest', depth);
    assert deep == (deep + rest)[..|deep|] && rest == (deep + rest)[|deep|..];
    assert deep' == (deep' + rest')[..|deep|] && rest' == (deep' + rest')[|deep|..];
  }

  lemma HeadsAgree(a: seq<ChunkNode>, b: seq<ChunkNode>, depth: nat)
    requires a != [] && b != [] && Outline(a, depth) == Outline(b, depth)
    ensures a[0].chunk == b[0].chunk
    ensures Outline(a[0].children, depth + 1) == Outline(b[0].children, depth + 1)
    ensures Outline(a[1..], depth) == Outline(b[1..], depth)
  {
    var (head, deep, rest) := (Line(a[0].chunk, depth), Outline(a[0].children, depth + 1), Outline(a[1..], depth));
    var (head', deep', rest') := (Line(b[0].chunk, depth), Outline(b[0].children, depth + 1), Outline(b[1..], depth));
    assert [head] + (deep + rest) == [head] + deep + rest;
    assert [head'] + (deep' + rest') == [head'] + deep' + rest';
    assert ([head] + (deep + rest))[0] == head && ([head'] + (deep' + rest'))[0] == head';
    assert ([head] + (deep + rest))[1..] == deep + rest && ([head'] + (deep' + rest'))[1..] == deep' + rest';
    OutlineDepths(a[0].children, depth + 1);
    OutlineDepths(b[0].children, depth + 1);
    OutlineDepths(a[1..], depth);
    OutlineDepths(b[1..], depth);
    SplitIsUnique(deep, rest, deep', rest', depth);
  }

  lemma {:induction false} OutlineDecidesTree(a: seq<ChunkNode>, b: seq<ChunkNode>, depth: nat)
    requires Outline(a, depth) == Outline(b, depth)
    ensures a == b
  {
    if a != [] && b != [] {
      HeadsAgree(a, b, depth);
      OutlineDecidesTree(a[0].children, b[0].children, depth + 1);
      OutlineDecidesTree(a[1..], b[1..], depth);
      assert a == [a[0]] + a[1..] && b == [b[0]] + b[1..];
    }
  }

  // ---- printing and reading back ----------------------------------------------------------------------------------

  function Zeros(n: nat): seq<byte> { seq(n, _ => 0) }

  /** One chunk to print. */
  datatype Raw = Raw(name: seq<byte>, kind: nat, body: seq<byte>) {
    predicate Printable() { |name| == 4 && kind < CHUNK_KINDS && Units() < CHUNK_SIZE_UNITS }

    function Units(): (n: nat)
      ensures HEADER_BYTES + |body| <= n * UNIT_BYTES < HEADER_BYTES + |body| + UNIT_BYTES
    {
      (HEADER_BYTES + |body| + UNIT_BYTES - 1) / UNIT_BYTES
    }

    function Size(): nat { Units() * UNIT_BYTES }

    function Padded(): (padded: seq<byte>)
      ensures |padded| == Size() - HEADER_BYTES && body <= padded
    {
      body + Zeros(Size() - HEADER_BYTES - |body|)
    }

    function PlacedAt(at: nat): (chunk: Chunk)
      ensures chunk.kind == kind
    {
      Chunk(name, kind, Padded(), at)
    }
  }

  function U32Bytes(value: nat): (b: seq<byte>)
    requires value < 0x1_0000_0000
    ensures |b| == 4 && U32Le(b) == value
  {
    var v1 := value / 0x100;
    var v2 := v1 / 0x100;
    [value % 0x100, v1 % 0x100, v2 % 0x100, v2 / 0x100]
  }

  /** A chunk's bytes: name, packed kind and size, eight zero bytes, the body padded to whole units. */
  function SynthChunk(raw: Raw): (bytes: seq<byte>)
    requires raw.Printable()
    ensures |bytes| == raw.Size()
  {
    raw.name + U32Bytes(raw.Units() * CHUNK_KINDS + raw.kind) + Zeros(8) + raw.Padded()
  }

  function Bytes(raws: seq<Raw>): seq<byte>
    requires forall r :: r in raws ==> r.Printable()
  {
    if raws == [] then [] else SynthChunk(raws[0]) + Bytes(raws[1..])
  }

  function Sizes(raws: seq<Raw>): nat {
    if raws == [] then 0 else raws[0].Size() + Sizes(raws[1..])
  }

  /** The items a walker yields for printed chunks whose bytes start at `at`. */
  function Items(raws: seq<Raw>, at: nat): seq<Item> {
    if raws == [] then [] else [Ok(raws[0].PlacedAt(at))] + Items(raws[1..], at + raws[0].Size())
  }

  predicate Holds(bytes: seq<byte>, at: nat, part: seq<byte>) {
    at + |part| <= |bytes| && bytes[at..at + |part|] == part
  }

  lemma HoldsParts(bytes: seq<byte>, at: nat, a: seq<byte>, b: seq<byte>)
    requires Holds(bytes, at, a + b)
    ensures Holds(bytes, at, a) && Holds(bytes, at + |a|, b)
  {
    var whole := bytes[at..at + |a + b|];
    assert whole[..|a|] == a && whole[|a|..] == b;
    assert bytes[at..at + |a|] == whole[..|a|];
    assert bytes[at + |a|..at + |a| + |b|] == whole[|a|..];
  }

  lemma PrintedParts(bytes: seq<byte>, at: nat, raw: Raw)
    requires raw.Printable() && Holds(bytes, at, SynthChunk(raw))
    ensures HEADER_BYTES <= raw.Size() && at + raw.Size() <= |bytes|
    ensures bytes[at..at + 4] == raw.name
    ensures bytes[at + 4..at + 8] == U32Bytes(raw.Units() * CHUNK_KINDS + raw.kind)
    ensures bytes[at + HEADER_BYTES..at + raw.Size()] == raw.Padded()
  {
    var packed := U32Bytes(raw.Units() * CHUNK_KINDS + raw.kind);
    hide U32Bytes, Raw.Padded, Raw.Size;
    HoldsParts(bytes, at, raw.name + packed + Zeros(8), raw.Padded());
    HoldsParts(bytes, at, raw.name + packed, Zeros(8));
    HoldsParts(bytes, at, raw.name, packed);
  }

  lemma Unpacked(units: nat, kind: nat)
    requires units < CHUNK_SIZE_UNITS && kind < CHUNK_KINDS
    ensures var value := units * CHUNK_KINDS + kind;
            value / CHUNK_KINDS % CHUNK_SIZE_UNITS == units && value % CHUNK_KINDS == kind
  {
  }

  lemma PrintedChunk(bytes: seq<byte>, at: nat, raw: Raw)
    requires raw.Printable() && Holds(bytes, at, SynthChunk(raw))
    ensures HEADER_BYTES <= raw.Size() && at + raw.Size() <= |bytes|
    ensures TotalBytes(bytes, at) == raw.Size() && ChunkAt(bytes, at) == raw.PlacedAt(at)
  {
    PrintedParts(bytes, at, raw);
    Unpacked(raw.Units(), raw.kind);
    hide U32Bytes, U32Le, Holds, SynthChunk, Raw.Padded, Raw.Units;
    assert HeaderValue(bytes, at) == raw.Units() * CHUNK_KINDS + raw.kind;
    hide HeaderValue;
  }

  /** The walker reads a printed chunk back, padded body and all, and steps over exactly its bytes. */
  lemma WalkSynthChunk(bytes: seq<byte>, at: nat, raw: Raw)
    requires raw.Printable() && Holds(bytes, at, SynthChunk(raw))
    ensures Walk(bytes, at) == [Ok(raw.PlacedAt(at))] + Walk(bytes, at + raw.Size())
  {
    PrintedChunk(bytes, at, raw);
    hide Walk, Holds, SynthChunk, HeaderValue, TotalBytes, ChunkAt, Raw.Size, Raw.PlacedAt;
    WalkFrom(bytes, at);
  }

  lemma ConsItems(head: Item, rest: seq<Item>, after: seq<Item>)
    ensures [head] + rest + after == [head] + (rest + after)
  {
  }

  lemma {:induction false} WalkBytes(bytes: seq<byte>, at: nat, raws: seq<Raw>)
    requires forall r :: r in raws ==> r.Printable()
    requires Holds(bytes, at, Bytes(raws))
    ensures Walk(bytes, at) == Items(raws, at) + Walk(bytes, at + Sizes(raws))
    decreases |raws|
  {
    hide Walk, SynthChunk, Raw.PlacedAt, Raw.Size, Holds;
    if raws != [] {
      HoldsParts(bytes, at, SynthChunk(raws[0]), Bytes(raws[1..]));
      WalkSynthChunk(bytes, at, raws[0]);
      WalkBytes(bytes, at + raws[0].Size(), raws[1..]);
      ConsItems(Ok(raws[0].PlacedAt(at)), Items(raws[1..], at + raws[0].Size()), Walk(bytes, at + Sizes(raws)));
    }
  }

  lemma {:induction false} BytesSize(raws: seq<Raw>)
    requires forall r :: r in raws ==> r.Printable()
    ensures |Bytes(raws)| == Sizes(raws)
    decreases |raws|
  {
    if raws != [] {
      BytesSize(raws[1..]);
    }
  }

  lemma {:induction false} ItemsAppend(a: seq<Raw>, b: seq<Raw>, at: nat)
    ensures Items(a + b, at) == Items(a, at) + Items(b, at + Sizes(a))
    ensures Sizes(a + b) == Sizes(a) + Sizes(b)
    decreases |a|
  {
    hide Raw.PlacedAt, Raw.Size;
    if a == [] {
      assert a + b == b;
    } else {
      assert (a + b)[1..] == a[1..] + b;
      ItemsAppend(a[1..], b, at + a[0].Size());
      var (head, rest) := ([Ok(a[0].PlacedAt(at))], Items(b, at + Sizes(a)));
      assert head + (Items(a[1..], at + a[0].Size()) + rest) == head + Items(a[1..], at + a[0].Size()) + rest;
    }
  }

  /** A forest: leaves of any kind but the two reserved ones, and directories with a name and body of their own. */
  datatype Entry =
    | Leaf(chunk: Raw)
    | Dir(name: seq<byte>, body: seq<byte>, entries: seq<Entry>)

  const END_MARKER := Raw([101, 110, 100, 0], END_KIND, [])

  predicate Printable(entries: seq<Entry>) {
    entries == []
    || (&& (match entries[0]
            case Leaf(chunk) => chunk.Printable() && chunk.kind > DIRECTORY_KIND
            case Dir(name, body, inner) => Raw(name, DIRECTORY_KIND, body).Printable() && Printable(inner))
        && Printable(entries[1..]))
  }

  /** The forest as the chunks that spell it: a directory is its chunk, its contents, an end marker. */
  function Flatten(entries: seq<Entry>): seq<Raw> {
    if entries == [] then []
    else
      (match entries[0]
       case Leaf(chunk) => [chunk]
       case Dir(name, body, inner) => [Raw(name, DIRECTORY_KIND, body)] + Flatten(inner) + [END_MARKER])
      + Flatten(entries[1..])
  }

  lemma {:induction false} FlattenPrintable(entries: seq<Entry>)
    requires Printable(entries)
    ensures forall r :: r in Flatten(entries) ==> r.Printable()
  {
    if entries != [] {
      FlattenPrintable(entries[1..]);
      if entries[0].Dir? {
        FlattenPrintable(entries[0].entries);
      }
    }
  }

  /** The forest as chunk nodes, when its bytes start at `at`. */
  function Placed(entries: seq<Entry>, at: nat): seq<ChunkNode> {
    if entries == [] then []
    else
      match entries[0]
      case Leaf(chunk) => [ChunkNode(chunk.PlacedAt(at), [])] + Placed(entries[1..], at + chunk.Size())
      case Dir(name, body, inner) =>
        var dir := Raw(name, DIRECTORY_KIND, body);
        var close := at + dir.Size() + Sizes(Flatten(inner));
        [ChunkNode(dir.PlacedAt(at), Placed(inner, at + dir.Size()))]
        + Placed(entries[1..], close + END_MARKER.Size())
  }

  /** `Indent` over a run that opens with a chunk. */
  lemma IndentChunk(chunk: Chunk, rest: seq<Item>, depth: nat)
    ensures Indent([Ok(chunk)] + rest, depth)
            == if chunk.kind == END_KIND then Indent(rest, if depth == 0 then 0 else depth - 1)
               else [Line(chunk, depth)] + Indent(rest, if chunk.kind == DIRECTORY_KIND then depth + 1 else depth)
  {
    assert ([Ok(chunk)] + rest)[1..] == rest;
  }

  lemma OutlineCons(node: ChunkNode, rest: seq<ChunkNode>, depth: nat)
    ensures Outline([node] + rest, depth)
            == [Line(node.chunk, depth)] + Outline(node.children, depth + 1) + Outline(rest, depth)
  {
    assert ([node] + rest)[1..] == rest;
  }

  /** A directory's run: its own chunk, its contents one level down, and the end marker that leads back up. */
  lemma DirectoryIndent(dir: Chunk, body: seq<Line>, inside: seq<Item>, end: Chunk, rest: seq<Item>, depth: nat)
    requires dir.kind == DIRECTORY_KIND && end.kind == END_KIND
    requires Indent(inside + ([Ok(end)] + rest), depth + 1) == body + Indent([Ok(end)] + rest, depth + 1)
    ensures Indent([Ok(dir)] + inside + [Ok(end)] + rest, depth) == [Line(dir, depth)] + body + Indent(rest, depth)
  {
    hide Indent;
    assert [Ok(dir)] + inside + [Ok(end)] + rest == [Ok(dir)] + (inside + ([Ok(end)] + rest));
    IndentChunk(dir, inside + ([Ok(end)] + rest), depth);
    IndentChunk(end, rest, depth + 1);
  }

  lemma NoParts(at: nat, depth: nat)
    ensures Items(Flatten([]), at) == [] && Outline(Placed([], at), depth) == [] && Outline([], depth) == []
  {
  }

  lemma OneItem(chunk: Raw, at: nat)
    ensures Items([chunk], at) == [Ok(chunk.PlacedAt(at))] && Sizes([chunk]) == chunk.Size()
  {
  }

  lemma LeafItems(chunk: Raw, rest: seq<Raw>, at: nat)
    ensures Items([chunk] + rest, at) == [Ok(chunk.PlacedAt(at))] + Items(rest, at + chunk.Size())
  {
    ItemsAppend([chunk], rest, at);
    OneItem(chunk, at);
  }

  lemma DirectoryItems(dir: Raw, inner: seq<Raw>, rest: seq<Raw>, at: nat)
    ensures var inside := at + dir.Size();
            var close := inside + Sizes(inner);
            Items([dir] + inner + [END_MARKER] + rest, at)
            == [Ok(dir.PlacedAt(at))] + Items(inner, inside) + [Ok(END_MARKER.PlacedAt(close))]
               + Items(rest, close + END_MARKER.Size())
  {
    hide Items;
    var inside := at + dir.Size();
    var close := inside + Sizes(inner);
    ItemsAppend([dir] + inner + [END_MARKER], rest, at);
    ItemsAppend([dir] + inner, [END_MARKER], at);
    ItemsAppend([dir], inner, at);
    OneItem(dir, at);
    OneItem(END_MARKER, close);
  }

  lemma FlattenLeaf(entries: seq<Entry>, at: nat)
    requires entries != [] && entries[0].Leaf? && Printable(entries)
    ensures var chunk := entries[0].chunk;
            && Printable(entries[1..]) && Flatten(entries) == [chunk] + Flatten(entries[1..])
            && Placed(entries, at) == [ChunkNode(chunk.PlacedAt(at), [])] + Placed(entries[1..], at + chunk.Size())
            && chunk.PlacedAt(at).kind != END_KIND && chunk.PlacedAt(at).kind != DIRECTORY_KIND
  {
    hide Raw.Size;
  }

  lemma LeafParts(entries: seq<Entry>, at: nat, depth: nat)
    requires entries != [] && entries[0].Leaf? && Printable(entries)
    ensures var chunk := entries[0].chunk;
            var next := at + chunk.Size();
            && Printable(entries[1..])
            && chunk.PlacedAt(at).kind != END_KIND && chunk.PlacedAt(at).kind != DIRECTORY_KIND
            && Items(Flatten(entries), at) == [Ok(chunk.PlacedAt(at))] + Items(Flatten(entries[1..]), next)
            && Outline(Placed(entries, at), depth)
               == [Line(chunk.PlacedAt(at), depth)] + Outline(Placed(entries[1..], next), depth)
  {
    FlattenLeaf(entries, at);
    hide *;
    var chunk := entries[0].chunk;
    var next := at + chunk.Size();
    LeafItems(chunk, Flatten(entries[1..]), at);
    OutlineCons(ChunkNode(chunk.PlacedAt(at), []), Placed(entries[1..], next), depth);
    NoParts(at, depth + 1);
  }

  lemma FlattenDir(entries: seq<Entry>)
    requires entries != [] && entries[0].Dir? && Printable(entries)
    ensures var Dir(name, body, inner) := entries[0];
            && Printable(inner) && Printable(entries[1..])
            && Flatten(entries)
               == [Raw(name, DIRECTORY_KIND, body)] + Flatten(inner) + [END_MARKER] + Flatten(entries[1..])
  {
  }

  lemma PlacedDir(entries: seq<Entry>, at: nat)
    requires entries != [] && entries[0].Dir?
    ensures var Dir(name, body, inner) := entries[0];
            var dir := Raw(name, DIRECTORY_KIND, body);
            var inside := at + dir.Size();
            var next := inside + Sizes(Flatten(inner)) + END_MARKER.Size();
            Placed(entries, at)
            == [ChunkNode(dir.PlacedAt(at), Placed(inner, inside))] + Placed(entries[1..], next)
  {
    hide Sizes, Flatten, Raw.Size, Raw.PlacedAt;
  }

  lemma DirItems(entries: seq<Entry>, at: nat)
    requires entries != [] && entries[0].Dir? && Printable(entries)
    ensures var Dir(name, body, inner) := entries[0];
            var dir := Raw(name, DIRECTORY_KIND, body);
            var inside := at + dir.Size();
            var close := inside + Sizes(Flatten(inner));
            Items(Flatten(entries), at)
            == [Ok(dir.PlacedAt(at))] + Items(Flatten(inner), inside) + [Ok(END_MARKER.PlacedAt(close))]
               + Items(Flatten(entries[1..]), close + END_MARKER.Size())
  {
    hide *;
    var Dir(name, body, inner) := entries[0];
    FlattenDir(entries);
    DirectoryItems(Raw(name, DIRECTORY_KIND, body), Flatten(inner), Flatten(entries[1..]), at);
  }

  lemma DirOutline(entries: seq<Entry>, at: nat, depth: nat)
    requires entries != [] && entries[0].Dir?
    ensures var Dir(name, body, inner) := entries[0];
            var dir := Raw(name, DIRECTORY_KIND, body);
            var inside := at + dir.Size();
            var next := inside + Sizes(Flatten(inner)) + END_MARKER.Size();
            Outline(Placed(entries, at), depth)
            == [Line(dir.PlacedAt(at), depth)] + Outline(Placed(inner, inside), depth + 1)
               + Outline(Placed(entries[1..], next), depth)
  {
    hide *;
    var Dir(name, body, inner) := entries[0];
    var dir := Raw(name, DIRECTORY_KIND, body);
    var inside := at + dir.Size();
    PlacedDir(entries, at);
    OutlineCons(ChunkNode(dir.PlacedAt(at), Placed(inner, inside)),
                Placed(entries[1..], inside + Sizes(Flatten(inner)) + END_MARKER.Size()), depth);
  }

  lemma DirKinds(dir: Raw, at: nat, close: nat)
    requires dir.kind == DIRECTORY_KIND
    ensures dir.PlacedAt(at).kind == DIRECTORY_KIND && END_MARKER.PlacedAt(close).kind == END_KIND
  {
  }

  lemma DirParts(entries: seq<Entry>, at: nat, depth: nat)
    requires entries != [] && entries[0].Dir? && Printable(entries)
    ensures var Dir(name, body, inner) := entries[0];
            var dir := Raw(name, DIRECTORY_KIND, body);
            var inside := at + dir.Size();
            var close := inside + Sizes(Flatten(inner));
            var next := close + END_MARKER.Size();
            && Printable(inner) && Printable(entries[1..])
            && dir.PlacedAt(at).kind == DIRECTORY_KIND && END_MARKER.PlacedAt(close).kind == END_KIND
            && Items(Flatten(entries), at)
               == [Ok(dir.PlacedAt(at))] + Items(Flatten(inner), inside) + [Ok(END_MARKER.PlacedAt(close))]
                  + Items(Flatten(entries[1..]), next)
            && Outline(Placed(entries, at), depth)
               == [Line(dir.PlacedAt(at), depth)] + Outline(Placed(inner, inside), depth + 1)
                  + Outline(Placed(entries[1..], next), depth)
  {
    hide *;
    var Dir(name, body, inner) := entries[0];
    var dir := Raw(name, DIRECTORY_KIND, body);
    FlattenDir(entries);
    DirKinds(dir, at, at + dir.Size() + Sizes(Flatten(inner)));
    DirItems(entries, at);
    DirOutline(entries, at, depth);
  }

  /** The items of a printed forest run through its outline and end on the level they began on. */
  lemma {:induction false} PrintedOutline(entries: seq<Entry>, at: nat, after: seq<Item>, depth: nat)
    requires Printable(entries)
    ensures Indent(Items(Flatten(entries), at) + after, depth)
            == Outline(Placed(entries, at), depth) + Indent(after, depth)
    decreases entries, 1
  {
    hide *;
    if entries == [] {
      NoParts(at, depth);
      assert [] + after == after;
    } else if entries[0].Dir? {
      PrintedDirectory(entries, at, after, depth);
    } else {
      LeafParts(entries, at, depth);
      var chunk := entries[0].chunk;
      var next := at + chunk.Size();
      var left := Items(Flatten(entries[1..]), next) + after;
      assert Items(Flatten(entries), at) + after == [Ok(chunk.PlacedAt(at))] + left;
      IndentChunk(chunk.PlacedAt(at), left, depth);
      PrintedOutline(entries[1..], next, after, depth);
      assert Outline(Placed(entries, at), depth) + Indent(after, depth)
             == [Line(chunk.PlacedAt(at), depth)] + (Outline(Placed(entries[1..], next), depth) + Indent(after, depth));
    }
  }

  lemma {:induction false} PrintedDirectory(entries: seq<Entry>, at: nat, after: seq<Item>, depth: nat)
    requires Printable(entries) && entries != [] && entries[0].Dir?
    ensures Indent(Items(Flatten(entries), at) + after, depth)
            == Outline(Placed(entries, at), depth) + Indent(after, depth)
    decreases entries, 0
  {
    hide *;
    DirParts(entries, at, depth);
    var Dir(name, body, inner) := entries[0];
    var dir := Raw(name, DIRECTORY_KIND, body);
    var inside := at + dir.Size();
    var close := inside + Sizes(Flatten(inner));
    var next := close + END_MARKER.Size();
    var end := END_MARKER.PlacedAt(close);
    var left := Items(Flatten(entries[1..]), next) + after;
    var lines := Outline(Placed(inner, inside), depth + 1);
    PrintedOutline(inner, inside, [Ok(end)] + left, depth + 1);
    DirectoryIndent(dir.PlacedAt(at), lines, Items(Flatten(inner), inside), end, left, depth);
    assert Items(Flatten(entries), at) + after
           == [Ok(dir.PlacedAt(at))] + Items(Flatten(inner), inside) + [Ok(end)] + left;
    PrintedOutline(entries[1..], next, after, depth);
    assert Outline(Placed(entries, at), depth) + Indent(after, depth)
           == [Line(dir.PlacedAt(at), depth)] + lines
              + (Outline(Placed(entries[1..], next), depth) + Indent(after, depth));
  }

  lemma NothingAfter(bytes: seq<byte>)
    ensures Walk(bytes, |bytes|) == [] && Indent([], 0) == []
  {
  }

  /** Reading printed bytes gives the printed forest back: same nesting, names, kinds, bodies and offsets. */
  method ParsePrinted(entries: seq<Entry>) returns (root: ChunkNode)
    requires Printable(entries)
    ensures root.children == Placed(entries, 0)
  {
    hide Bytes, Flatten, Walk, Indent, Outline, Placed, Items, Printable;
    FlattenPrintable(entries);
    var bytes := Bytes(Flatten(entries));
    root := WalkTree(bytes);
    assert bytes[0..|bytes|] == bytes;
    BytesSize(Flatten(entries));
    WalkBytes(bytes, 0, Flatten(entries));
    NothingAfter(bytes);
    PrintedOutline(entries, 0, [], 0);
    assert Items(Flatten(entries), 0) + [] == Items(Flatten(entries), 0);
    OutlineDecidesTree(root.children, Placed(entries, 0), 0);
  }
}
