/** A growing byte array with a cursor, kept in blocks. */
module ByteArrays {
  import opened ByteBlocks
  import opened ByteCodec

  datatype Result<T> = Ok(value: T) | OutOfRange

  class ByteArray {
    const baseSize: nat
    const hostLittle: bool      // the byte order of the machine
    var position: nat
    var capacity: nat
    var size: nat
    var littleEndian: bool
    var root: Node
    var cur: Node?
    ghost var nodes: seq<Node>

    /** `cur` is the block that holds the position, or null when there is none: exactly at the capacity. */
    ghost predicate Valid()
      reads this, nodes
    {
      && baseSize > 0 && Linked(nodes, baseSize) && |nodes| > 0 && nodes[0] == root
      && capacity == Begin(|nodes|, baseSize) && position <= size <= capacity
      && cur == BlockAt(nodes, baseSize, position)
    }

    /** The flat sequence that the blocks stand for, `capacity` bytes long. */
    ghost function Bytes(): seq<Byte>
      reads this`nodes, Buffers(nodes)
    {
      Contents(nodes)
    }

    constructor (base: nat, host: bool)
      requires base > 0
      ensures hostLittle == host && Valid() && baseSize == base && position == size == 0 && capacity == base && !littleEndian
      ensures fresh(nodes) && fresh(Buffers(nodes))
    {
      var n := new Node(base);
      baseSize, hostLittle, position, capacity, size, littleEndian := base, host, 0, base, 0, false;
      root, cur := n, n;
      nodes := [n];
    }

    /** Below the capacity there is a current block. */
    lemma CursorAt()
      requires Valid() && position < capacity
      ensures var k := position / baseSize;
              0 <= k < |nodes| && cur == nodes[k] && position == Begin(k, baseSize) + position % baseSize && position % baseSize < baseSize
    {
      BlockBelow(position, |nodes|, baseSize);
      BlockOf(position, baseSize);
    }

    /** There is none exactly at the capacity. */
    lemma CursorNull()
      requires Valid()
      ensures cur == null <==> position == capacity
    {
      if position == capacity {
        BlockUnique(position, |nodes|, baseSize);
      } else {
        CursorAt();
      }
    }

    /** Walks to the end of the list. */
    method Last() returns (tmp: Node)
      requires Valid()
      ensures tmp == nodes[|nodes| - 1]
    {
      tmp := root;
      ghost var i := 0;
      while tmp.next != null
        invariant 0 <= i < |nodes| && tmp == nodes[i]
        decreases |nodes| - i
      {
        tmp := tmp.next;
        i := i + 1;
      }
    }

    lemma NoBuffers(n: Node, ns: seq<Node>)
      ensures this !in Buffers(ns) && n !in Buffers(ns)
      ensures forall o :: o in Buffers(ns) ==> allocated(o)
    {}

    /** Hangs one more block to the end of the list. */
    method Extend(tmp: Node) returns (node: Node)
      requires Linked(nodes, baseSize) && |nodes| > 0 && tmp == nodes[|nodes| - 1] && capacity == Begin(|nodes|, baseSize)
      modifies this`capacity, this`nodes, tmp
      ensures nodes == old(nodes) + [node] && fresh(node) && fresh(node.ptr)
      ensures Linked(nodes, baseSize) && capacity == Begin(|nodes|, baseSize)
      ensures old(Bytes()) <= Bytes()
    {
      node := new Node(baseSize);
      tmp.next := node;
      capacity := capacity + baseSize;
      ghost var before := nodes;
      nodes := nodes + [node];
      BeginNext(|nodes| - 1, baseSize);
      NoBuffers(tmp, before);
      assert Contents(before) == old(Contents(nodes));
      ContentsAppend(before, [node]);
    }

    /** Hangs `count` more blocks to the end of the list; gives the first of them. */
    method ExtendBy(last: Node, count: nat) returns (first: Node?)
      requires Linked(nodes, baseSize) && |nodes| > 0 && last == nodes[|nodes| - 1] && capacity == Begin(|nodes|, baseSize)
      modifies this`capacity, this`nodes, nodes
      ensures old(nodes) <= nodes && |nodes| == |old(nodes)| + count
      ensures Linked(nodes, baseSize) && capacity == Begin(|nodes|, baseSize)
      ensures forall i :: |old(nodes)| <= i < |nodes| ==> fresh(nodes[i]) && fresh(nodes[i].ptr)
      ensures old(Bytes()) <= Bytes()
      ensures first == if count == 0 then null else nodes[|old(nodes)|]
    {
      hide Begin, Contents;
      ghost var before, blocks := nodes, Bytes();
      var tmp := last;
      first := null;
      for j := 0 to count
        invariant before <= nodes && |nodes| == |before| + j && Linked(nodes, baseSize) && tmp == nodes[|nodes| - 1]
        invariant capacity == Begin(|nodes|, baseSize) && blocks <= Bytes()
        invariant forall i :: |before| <= i < |nodes| ==> fresh(nodes[i]) && fresh(nodes[i].ptr)
        invariant first == if j == 0 then null else nodes[|before|]
      {
        tmp := Extend(tmp);
        if first == null {
          first := tmp;
        }
      }
    }

    /** Makes room for `n` bytes at the position, with no more new blocks than that takes. */
    method AddCapacity(n: nat)
      requires Valid()
      modifies this`capacity, this`cur, this`nodes, nodes
      ensures Valid()
      ensures old(nodes) <= nodes
      ensures forall i :: |old(nodes)| <= i < |nodes| ==> fresh(nodes[i]) && fresh(nodes[i].ptr)
      ensures old(Bytes()) <= Bytes()
      ensures position + n <= capacity && old(capacity) <= capacity
      ensures capacity == old(capacity) || capacity < position + n + baseSize
    {
      hide Begin, BlockAt, BlocksFor, Contents, Linked;
      var left := capacity - position;
      if left >= n {
        return;
      }
      var need := n - left;
      var count := BlocksFor(need, baseSize);
      NoBuffers(root, nodes);
      var last := Last();
      var first := ExtendBy(last, count);
      BlocksEnough(need, baseSize, |old(nodes)|);
      BlockKept(old(nodes), nodes, baseSize, position);
      NoBuffers(last, nodes);
      if left == 0 {
        cur := first;
      }
    }

    /** Copies the next `n` bytes of `buf` into the current block. */
    method CopyPart(buf: seq<Byte>, bpos: nat, n: nat, npos: nat, ghost s: seq<Byte>, ghost p: nat, ghost k: nat)
      requires Linked(nodes, baseSize) && k < |nodes| && cur == nodes[k] && npos + n <= baseSize
      requires bpos + n <= |buf| && p + |buf| <= |s| == Begin(|nodes|, baseSize) && p + bpos == Begin(k, baseSize) + npos
      requires Backed(nodes, baseSize, Splice(s, p, buf[..bpos]))
      modifies Buffers(nodes)
      ensures Backed(nodes, baseSize, Splice(s, p, buf[..bpos + n]))
    {
      hide Begin, Contents, Splice, Backed;
      ghost var t := Splice(s, p, buf[..bpos]);
      CopyInto(cur.ptr, npos, buf[bpos..bpos + n], nodes, baseSize, k, t);
      SpliceNext(s, p, buf, bpos, n);
    }

    /** The copying loop of `Write`: there is room for `buf`. */
    method WriteBlocks(buf: seq<Byte>)
      requires Valid() && 0 < |buf| && position + |buf| <= capacity
      modifies this`position, this`cur, Buffers(nodes)
      ensures position == old(position) + |buf| && cur == BlockAt(nodes, baseSize, position)
      ensures |old(Bytes())| == capacity && Bytes() == Splice(old(Bytes()), old(position), buf)
    {
      hide Begin, BlockAt, Contents, Splice, Backed;
      CursorAt();
      ghost var s, p, k: nat := Bytes(), position, position / baseSize;
      ContentsBacked(nodes, baseSize);
      ContentsLength(nodes, baseSize);
      SpliceNothing(s, p);
      var npos: nat := position % baseSize;
      var ncap := cur.ptr.Length - npos;
      var bpos: nat, left: nat := 0, |buf|;
      assert buf[..bpos] == [];
      while left > 0
        invariant bpos + left == |buf| && position == p + bpos && Backed(nodes, baseSize, Splice(s, p, buf[..bpos]))
        invariant left > 0 ==>
                    k < |nodes| && cur == nodes[k] && position == Begin(k, baseSize) + npos && ncap == baseSize - npos && npos < baseSize
        invariant left == 0 ==> cur == BlockAt(nodes, baseSize, position)
        decreases left
      {
        var n := if ncap >= left then left else ncap;
        CopyPart(buf, bpos, n, npos, s, p, k);
        BeginNext(k, baseSize);
        BlockAtIs(nodes, baseSize, position + n, if npos + n == baseSize then k + 1 else k);
        if ncap >= left {
          if cur.ptr.Length == npos + n {
            cur := cur.next;
          }
          position := position + n;
          bpos := bpos + n;
          left := 0;
        } else {
          position := position + ncap;
          bpos := bpos + ncap;
          left := left - ncap;
          cur := cur.next;
          ncap := cur.ptr.Length;
          npos := 0;
          k := k + 1;
        }
      }
      assert buf[..bpos] == buf;
      BackedIsContents(nodes, baseSize, Splice(s, p, buf));
    }

    /** `buf` was written at the position: exactly the bytes it covers changed, the position moved past them,
        and no more blocks were added than that took. */
    twostate predicate Wrote(buf: seq<Byte>)
      reads this, nodes, Buffers(nodes)
    {
      && Valid() && root == old(root) && littleEndian == old(littleEndian)
      && Extends(old(nodes), nodes) && old(capacity) <= capacity
      && (capacity == old(capacity) || capacity < position + baseSize)
      && position == old(position) + |buf| && size == (if position > old(size) then position else old(size))
      && Overwritten(old(Bytes()), Bytes(), old(position), buf)
    }

    method Write(buf: seq<Byte>)
      requires Valid()
      modifies this, nodes, Buffers(nodes)
      ensures Wrote(buf)
    {
      hide Begin, BlockAt, Contents, Splice, Overwritten, Linked;
      NoBuffers(root, nodes);
      BytesLength();
      if |buf| == 0 {
        NothingOverwritten(Bytes(), position);
        return;
      }
      AddCapacity(|buf|);
      ghost var s := Bytes();
      Fill(buf);
      OverwrittenLonger(old(Bytes()), s, Bytes(), old(position), buf);
    }

    /** `Write` when there is room. */
    method Fill(buf: seq<Byte>)
      requires Valid() && 0 < |buf| && position + |buf| <= capacity
      modifies this`position, this`cur, this`size, Buffers(nodes)
      ensures Valid() && position == old(position) + |buf| && size == (if position > old(size) then position else old(size))
      ensures Overwritten(old(Bytes()), Bytes(), old(position), buf)
    {
      hide Begin, BlockAt, Contents, Splice, Overwritten;
      NoBuffers(root, nodes);
      ghost var s := Bytes();
      WriteBlocks(buf);
      if position > size {
        size := position;
      }
      SpliceOverwrites(s, s, old(position), buf);
    }

    /** The copying loop of `Read`. */
    method ReadBlocks(n: nat) returns (buf: seq<Byte>)
      requires Valid() && 0 < n && position + n <= capacity
      modifies this`position, this`cur
      ensures position == old(position) + n && cur == BlockAt(nodes, baseSize, position)
      ensures |Bytes()| == capacity && buf == Bytes()[old(position)..position]
    {
      hide Begin, BlockAt, Contents, Backed;
      CursorAt();
      NoBuffers(root, nodes);
      ghost var s, p, k: nat := Bytes(), position, position / baseSize;
      ContentsBacked(nodes, baseSize);
      ContentsLength(nodes, baseSize);
      var npos: nat := position % baseSize;
      var ncap := cur.ptr.Length - npos;
      var left := n;
      buf := [];
      while left > 0
        invariant 0 <= left && |buf| + left == n && position == p + |buf| && buf == s[p..position]
        invariant left > 0 ==>
                    k < |nodes| && cur == nodes[k] && position == Begin(k, baseSize) + npos && ncap == baseSize - npos && npos < baseSize
        invariant left == 0 ==> cur == BlockAt(nodes, baseSize, position)
        decreases left
      {
        var m := if ncap >= left then left else ncap;
        BackedSlice(nodes, baseSize, s, k, npos, m);
        assert s[p..position + m] == s[p..position] + s[position..position + m];
        BeginNext(k, baseSize);
        BlockAtIs(nodes, baseSize, position + m, if npos + m == baseSize then k + 1 else k);
        buf := buf + cur.ptr[npos..npos + m];
        if ncap >= left {
          if cur.ptr.Length == npos + m {
            cur := cur.next;
          }
          position := position + m;
          left := 0;
        } else {
          position := position + ncap;
          left := left - ncap;
          cur := cur.next;
          ncap := cur.ptr.Length;
          npos := 0;
          k := k + 1;
        }
      }
    }

    /** Reads `n` bytes and moves past them, or fails and changes nothing. A read of no bytes looks at the
        current block, so there has to be one. */
    method Read(n: nat) returns (r: Result<seq<Byte>>)
      requires Valid() && (n > 0 || position < capacity)
      modifies this`position, this`cur
      ensures Valid() && |Bytes()| == capacity
      ensures r.OutOfRange? <==> n > size - old(position)
      ensures r.OutOfRange? ==> position == old(position)
      ensures r.Ok? ==> position == old(position) + n && r.value == Bytes()[old(position)..position]
      ensures r.Ok? ==> old(Unread()) == r.value + Unread()
    {
      hide Begin, BlockAt, Contents;
      ContentsLength(nodes, baseSize);
      NoBuffers(root, nodes);
      if n > size - position {
        return OutOfRange;
      }
      if n == 0 {
        return Ok([]);
      }
      var buf := ReadBlocks(n);
      return Ok(buf);
    }

    /** Where a positional read really begins: in the current block, at the offset of the given position. */
    ghost function ReadsFrom(from: nat): nat
      requires baseSize > 0
      reads this`position
    {
      Begin(position / baseSize, baseSize) + from % baseSize
    }

    /** The positional read begins at the right place exactly for positions in the current block, and the
        longest read it accepts ends within the data exactly for offsets up to the current one: it can be
        relied on exactly for positions in the current block that are not after the current one. */
    lemma ReadsFromIsRight(from: nat)
      requires Valid()
      ensures ReadsFrom(from) == from <==> from / baseSize == position / baseSize
      ensures ReadsFrom(from) + (size - position) <= size <==> from % baseSize <= position % baseSize
    {
      BlockOf(from, baseSize);
      BlockOf(position, baseSize);
      BlockUnique(ReadsFrom(from), position / baseSize, baseSize);
      assert position == Begin(position / baseSize, baseSize) + position % baseSize;
    }

    /** The positional read: it starts in the current block whatever the position, is limited by what is left
        at the current position, and moves nothing. */
    method ReadAt(n: nat, from: nat) returns (r: Result<seq<Byte>>)
      requires Valid() && (n <= size - position ==> position < capacity && ReadsFrom(from) + n <= capacity)
      ensures r.OutOfRange? <==> n > size - position
      ensures r.Ok? ==> |Bytes()| == capacity && r.value == Bytes()[ReadsFrom(from)..ReadsFrom(from) + n]
    {
      hide Begin, BlockAt, Contents, Backed;
      if n > size - position {
        return OutOfRange;
      }
      CursorAt();
      NoBuffers(root, nodes);
      BlockOf(from, baseSize);
      ghost var s, p, k: nat := Bytes(), ReadsFrom(from), position / baseSize;
      ContentsBacked(nodes, baseSize);
      ContentsLength(nodes, baseSize);
      var node, npos: nat, left := cur, from % baseSize, n;
      var ncap := node.ptr.Length - npos;
      var buf: seq<Byte> := [];
      while left > 0
        invariant 0 <= left && |buf| + left == n && buf == s[p..p + |buf|]
        invariant left > 0 ==>
                    k < |nodes| && node == nodes[k] && p + |buf| == Begin(k, baseSize) + npos && ncap == baseSize - npos && npos < baseSize
        decreases left
      {
        var m := if ncap >= left then left else ncap;
        BackedSlice(nodes, baseSize, s, k, npos, m);
        assert s[p..p + |buf| + m] == s[p..p + |buf|] + s[p + |buf|..p + |buf| + m];
        BeginNext(k, baseSize);
        buf := buf + node.ptr[npos..npos + m];
        left := left - m;
        if left > 0 {
          assert k + 1 < |nodes|;
          node := node.next;
          ncap := node.ptr.Length;
          npos := 0;
          k := k + 1;
        }
      }
      return Ok(buf);
    }

    /** Moves the position; beyond the size the size follows, beyond the capacity it fails. */
    method SetPosition(pos: nat) returns (ok: bool)
      requires Valid()
      modifies this`position, this`size, this`cur
      ensures Valid()
      ensures ok <==> pos <= capacity
      ensures if ok then position == pos && size == (if pos > old(size) then pos else old(size))
              else position == old(position) && size == old(size)
    {
      hide Begin, BlockAt;
      if pos > capacity {
        return false;
      }
      position := pos;
      if position > size {
        size := position;
      }
      cur := root;
      var rest := pos;
      ghost var k := 0;
      BeginNext(0, baseSize);
      while rest > cur.ptr.Length
        invariant k < |nodes| && cur == nodes[k] && 0 <= rest && pos == Begin(k, baseSize) + rest
        invariant position == pos && size == if pos > old(size) then pos else old(size)
        decreases rest
      {
        rest := rest - cur.ptr.Length;
        cur := cur.next;
        BeginNext(k, baseSize);
        k := k + 1;
      }
      BeginNext(k, baseSize);
      BlockAtIs(nodes, baseSize, pos, if rest == baseSize then k + 1 else k);
      if rest == cur.ptr.Length {
        cur := cur.next;
      }
      return true;
    }

    /** Forgets all but the first block. */
    method Clear()
      requires Valid()
      modifies this, root
      ensures Valid() && nodes == old(nodes)[..1] && root == old(root) && littleEndian == old(littleEndian)
      ensures position == size == 0 && capacity == baseSize
      ensures Bytes() == old(root.ptr[..])
    {
      position, size, capacity, cur := 0, 0, baseSize, root;
      root.next := null;
      nodes := [root];
      BeginNext(0, baseSize);
      BlockAtIs(nodes, baseSize, 0, 0);
      assert nodes[..0] == [] && Contents([]) == [];
    }

    /** The stretches of the blocks that hold the next bytes to read, at most `len` of them. */
    method GetReadBuffers(len: nat) returns (buffers: seq<Segment>, n: nat)
      requires Valid()
      ensures n == if len > size - position then size - position else len
      ensures Spans(nodes, baseSize, buffers, position, n)
      ensures forall g <- buffers :: g.off + g.len <= g.ptr.Length
      ensures Gather(buffers) == Unread()[..n]
    {
      hide Begin, BlockAt, Contents;
      n := if len > size - position then size - position else len;
      if n == 0 {
        buffers := [];
        Gathers(buffers, n);
        return;
      }
      CursorAt();
      buffers := Segments(cur, position % baseSize, n, nodes, baseSize, position / baseSize);
      Gathers(buffers, n);
    }

    lemma Gathers(buffers: seq<Segment>, n: nat)
      requires Valid() && n <= size - position && Spans(nodes, baseSize, buffers, position, n)
      ensures forall g <- buffers :: g.off + g.len <= g.ptr.Length
      ensures Gather(buffers) == Unread()[..n]
    {
      ContentsBacked(nodes, baseSize);
      BytesLength();
      hide Begin, BlockAt, Contents, Backed, Spans, Gather;
      GatherIsRead(nodes, baseSize, buffers, position, n);
      SliceOfSlice(Bytes(), position, size, 0, n);
    }

    /** The same from another position on. The number of bytes is limited as at the current one, so from a later
        position they may go beyond the size; beyond the capacity there are no blocks for the code to look at. */
    method GetReadBuffersAt(len: nat, from: nat) returns (buffers: seq<Segment>, n: nat)
      requires Valid() && (var k := (if len > size - position then size - position else len); k > 0 ==> from + k <= capacity)
      ensures n == if len > size - position then size - position else len
      ensures Spans(nodes, baseSize, buffers, from, n)
    {
      hide Begin, BlockAt;
      n := if len > size - position then size - position else len;
      if n == 0 {
        return [], 0;
      }
      BlockBelow(from, |nodes|, baseSize);
      BlockOf(from, baseSize);
      var npos, count := from % baseSize, from / baseSize;
      var at := root;
      ghost var k: nat := 0;
      while count > 0
        invariant 0 <= count && k + count == from / baseSize && k < |nodes| && at == nodes[k]
      {
        at := at.next;
        count := count - 1;
        k := k + 1;
      }
      buffers := Segments(at, npos, n, nodes, baseSize, k);
    }

    /** Makes room for `len` bytes and gives the stretches of the blocks where they will go. */
    method GetWriteBuffers(len: nat) returns (buffers: seq<Segment>)
      requires Valid()
      modifies this`capacity, this`cur, this`nodes, nodes
      ensures Valid() && Extends(old(nodes), nodes) && old(Bytes()) <= Bytes()
      ensures old(capacity) <= capacity && position + len <= capacity
      ensures capacity == old(capacity) || capacity < position + len + baseSize
      ensures Spans(nodes, baseSize, buffers, position, len)
    {
      hide Begin, BlockAt, Contents;
      NoBuffers(root, nodes);
      if len == 0 {
        return [];
      }
      AddCapacity(len);
      CursorAt();
      NoBuffers(root, nodes);
      buffers := Segments(cur, position % baseSize, len, nodes, baseSize, position / baseSize);
    }

    /** What a socket stream does to receive into the array: `data`, of which there are at most `length`
        bytes, goes into the write buffers, and the position moves past it. The effect is that of `Write`. */
    method Receive(length: nat, data: seq<Byte>)
      requires Valid() && 0 < |data| <= length
      modifies this, nodes, Buffers(nodes)
      ensures Valid() && root == old(root) && littleEndian == old(littleEndian)
      ensures Extends(old(nodes), nodes) && old(capacity) <= capacity < old(capacity) + length + baseSize
      ensures position == old(position) + |data| && size == (if position > old(size) then position else old(size))
      ensures Overwritten(old(Bytes()), Bytes(), old(position), data)
    {
      hide Begin, BlockAt, Contents, Splice, Spans;
      NoBuffers(root, nodes);
      ContentsLength(nodes, baseSize);
      var buffers := GetWriteBuffers(length);
      NoBuffers(root, nodes);
      ContentsLength(nodes, baseSize);
      ghost var s := Bytes();
      Scatter(buffers, data, nodes, baseSize, position, length);
      SpliceOverwrites(old(Bytes()), s, old(position), data);
      var ok := SetPosition(position + |data|);
    }

    lemma BytesLength()
      requires Valid()
      ensures |Bytes()| == capacity
    {
      ContentsLength(nodes, baseSize);
    }

    // -------------------------------------------------------------- values

    /** The bytes from the position to the size. */
    ghost function Unread(): (s: seq<Byte>)
      requires Valid()
      reads this, nodes, Buffers(nodes)
      ensures |s| == size - position
    {
      ContentsLength(nodes, baseSize);
      Bytes()[position..size]
    }

    /** Unsigned words of one byte are written as they are, wider ones swapped if the orders differ. */
    method WriteFix(w: nat, v: nat)
      requires Valid() && w >= 1 && v < Range(w)
      modifies this, nodes, Buffers(nodes)
      ensures Wrote(Fixed(old(littleEndian), w, v))
    {
      hide Fixed, InMemory, ByteSwap, ByteArray.Wrote;
      var word := v;
      if w > 1 && littleEndian != hostLittle {
        word := ByteSwap(w, v);
      }
      assert InMemory(hostLittle, w, word) == Fixed(littleEndian, w, v) by {
        SwapMeetsOrder(hostLittle, littleEndian, w, v);
        if w == 1 {
          OneByteOrder(hostLittle, littleEndian, v);
        }
      }
      Write(InMemory(hostLittle, w, word));
    }

    method ReadFix(w: nat) returns (r: Result<nat>)
      requires Valid() && w >= 1
      modifies this`position, this`cur
      ensures Valid()
      ensures match ReadFixed(littleEndian, w, old(Unread()))
              case Short => r.OutOfRange? && position == old(position)
              case Got(v, n) => r == Ok(v) && position == old(position) + n && Unread() == old(Unread())[n..]
    {
      hide FromMemory, ByteSwap;
      NoBuffers(root, nodes);
      ghost var u := Unread();
      var d := Read(w);
      if d.OutOfRange? {
        return OutOfRange;
      }
      assert d.value == u[..w];
      var word := FromMemory(hostLittle, d.value);
      if w > 1 && littleEndian != hostLittle {
        word := ByteSwap(w, word);
      }
      assert word == FixedValue(littleEndian, d.value) by {
        SwapMeetsOrderBack(hostLittle, littleEndian, d.value);
        if w == 1 {
          OneByteValue(hostLittle, littleEndian, d.value);
        }
      }
      return Ok(word);
    }

    /** Varints of 32- and 64-bit words; a scratch buffer of 5 or 10 bytes is enough. */
    method WriteUint(w: nat, v: nat)
      requires Valid() && (w == 4 || w == 8) && v < Range(w)
      modifies this, nodes, Buffers(nodes)
      ensures Wrote(Varint(v))
    {
      hide ByteArray.Wrote, Range;
      var tmp: seq<Byte>, val := [], v;
      ScratchIsEnough(w, v);
      while val >= 0x80
        invariant 0 <= val && |tmp| + |Varint(val)| <= (if w == 4 then 5 else 10) && Varint(v) == tmp + Varint(val)
        decreases val
      {
        assert Varint(val) == [val % 128 + 128] + Varint(val / 128);
        tmp := tmp + [val % 128 + 128];
        val := val / 128;
      }
      tmp := tmp + [val];
      Write(tmp);
    }

    /** Reads bytes until one has no continuation bit or the word is full. When the bytes run out, those read
        so far stay read. */
    method ReadUint(w: nat) returns (r: Result<nat>)
      requires Valid() && (w == 4 || w == 8)
      modifies this`position, this`cur
      ensures Valid()
      ensures match ReadVarint(8 * w, 0, old(Unread()))
              case Short => r.OutOfRange? && position == size
              case Got(v, n) => r == Ok(v) && position == old(position) + n && Unread() == old(Unread())[n..]
    {
      hide Range, Part, ReadVarint, FixedValue, ByteArray.Unread;
      NoBuffers(root, nodes);
      ghost var u := Unread();
      var result: nat, i: nat := 0, 0;
      ghost var k: nat := 0;
      NotYet(ReadVarint(8 * w, 0, u));
      while i < 8 * w
        invariant Valid() && position == old(position) + k && size == old(size)
        invariant k <= |u| && Unread() == u[k..]
        invariant ReadVarint(8 * w, 0, u) == After(result, k, ReadVarint(8 * w, i, Unread()))
        decreases 8 * w + 7 - i
      {
        ghost var rest := Unread();
        var b := ReadByte();
        if b.OutOfRange? {
          NoByte(8 * w, i);
          return OutOfRange;
        }
        NextByte(8 * w, i, rest);
        result := result + Part(b.value, i, 8 * w);
        k := k + 1;
        if b.value < 0x80 {
          return Ok(result);
        }
        i := i + 7;
      }
      FullWord(8 * w, i, Unread());
      return Ok(result);
    }

    method WriteInt(w: nat, v: int)
      requires Valid() && (w == 4 || w == 8) && IsSigned(w, v)
      modifies this, nodes, Buffers(nodes)
      ensures Wrote(Varint(Zigzag(w, v)))
    {
      WriteUint(w, Zigzag(w, v));
    }

    method ReadInt(w: nat) returns (r: Result<int>)
      requires Valid() && (w == 4 || w == 8)
      modifies this`position, this`cur
      ensures Valid()
      ensures match ReadVarint(8 * w, 0, old(Unread()))
              case Short => r.OutOfRange? && position == size
              case Got(v, n) =>
                r == Ok(Unzigzag(w, v % Range(w))) && position == old(position) + n && Unread() == old(Unread())[n..]
    {
      hide ReadVarint, Range;
      var d := ReadUint(w);
      if d.OutOfRange? {
        return OutOfRange;
      }
      return Ok(Unzigzag(w, d.value % Range(w)));
    }

    /** The length in `w` bytes, cut to that width, and the string. */
    method WriteStringFix(w: nat, str: seq<Byte>)
      requires Valid() && (w == 2 || w == 4 || w == 8)
      modifies this, nodes, Buffers(nodes)
      ensures Wrote(Fixed(old(littleEndian), w, |str| % Range(w)) + str)
    {
      hide Begin, BlockAt, Contents, Overwritten, Range, Fixed, Linked;
      ghost var s, p := Bytes(), position;
      WriteFix(w, |str| % Range(w));
      ghost var t := Bytes();
      Write(str);
      OverwrittenTwice(s, t, Bytes(), p, Fixed(littleEndian, w, |str| % Range(w)), str);
    }

    method WriteStringVint(str: seq<Byte>)
      requires Valid() && |str| < Range(8)
      modifies this, nodes, Buffers(nodes)
      ensures Wrote(Varint(|str|) + str)
    {
      hide Begin, BlockAt, Contents, Overwritten, Range, Varint, Linked;
      ghost var s, p := Bytes(), position;
      WriteUint(8, |str|);
      ghost var t := Bytes();
      Write(str);
      OverwrittenTwice(s, t, Bytes(), p, Varint(|str|), str);
    }

    /** Reads a string after its length has been read; an empty one needs a current block. */
    method ReadRest(len: nat) returns (r: Result<seq<Byte>>)
      requires Valid() && (len > 0 || position < capacity)
      modifies this`position, this`cur
      ensures Valid()
      ensures if |old(Unread())| < len then r.OutOfRange? && position == old(position)
              else r == Ok(old(Unread())[..len]) && position == old(position) + len && Unread() == old(Unread())[len..]
    {
      hide Begin, BlockAt, Contents;
      NoBuffers(root, nodes);
      r := Read(len);
    }

    method ReadStringFix(w: nat) returns (r: Result<seq<Byte>>)
      requires Valid() && (w == 2 || w == 4 || w == 8)
      requires ReadFixed(littleEndian, w, Unread()) == Got(0, w) ==> position + w < capacity
      modifies this`position, this`cur
      ensures Valid()
      ensures match ReadText(Str(w), ReadFixed(littleEndian, w, old(Unread())), old(Unread()))
              case Short => r.OutOfRange?
              case Got(v, n) =>
                v.Text? && r == Ok(v.s) && position == old(position) + n && n <= |old(Unread())| && Unread() == old(Unread())[n..]
    {
      hide Begin, BlockAt, Contents, ReadFixed;
      NoBuffers(root, nodes);
      ghost var u := Unread();
      var len := ReadFix(w);
      if len.OutOfRange? {
        return OutOfRange;
      }
      r := ReadRest(len.value);
      if |u[w..]| >= len.value {
        assert u[w..][..len.value] == u[w..w + len.value];
      }
    }

    method ReadStringVint() returns (r: Result<seq<Byte>>)
      requires Valid()
      requires var d := ReadVarint(64, 0, Unread()); d.Got? && d.value == 0 ==> position + d.used < capacity
      modifies this`position, this`cur
      ensures Valid()
      ensures match ReadText(StrVar, ReadVarint(64, 0, old(Unread())), old(Unread()))
              case Short => r.OutOfRange?
              case Got(v, n) =>
                v.Text? && r == Ok(v.s) && position == old(position) + n && n <= |old(Unread())| && Unread() == old(Unread())[n..]
    {
      hide Begin, BlockAt, Contents, ReadVarint;
      NoBuffers(root, nodes);
      ghost var u := Unread();
      var len := ReadUint(8);
      if len.OutOfRange? {
        return OutOfRange;
      }
      ghost var d := ReadVarint(64, 0, u);
      r := ReadRest(len.value);
      if |u[d.used..]| >= len.value {
        assert u[d.used..][..len.value] == u[d.used..d.used + len.value];
      }
    }

    /** readFixUint8. */
    method ReadByte() returns (r: Result<Byte>)
      requires Valid()
      modifies this`position, this`cur
      ensures Valid()
      ensures if old(Unread()) == [] then r.OutOfRange? && position == old(position)
              else r == Ok(old(Unread())[0]) && position == old(position) + 1 && Unread() == old(Unread())[1..]
    {
      hide Begin, BlockAt, Contents;
      NoBuffers(root, nodes);
      ghost var u := Unread();
      var b := Read(1);
      if b.OutOfRange? {
        return OutOfRange;
      }
      assert b.value[0] == u[0];
      return Ok(b.value[0]);
    }
  }

  lemma OverwrittenTwice(s: seq<Byte>, t: seq<Byte>, u: seq<Byte>, p: nat, a: seq<Byte>, b: seq<Byte>)
    requires Overwritten(s, t, p, a) && Overwritten(t, u, p + |a|, b)
    ensures Overwritten(s, u, p, a + b)
  {}

  lemma NotYet(d: Decoded<nat>)
    ensures After(0, 0, d) == d
  {}

  lemma NoByte(bits: nat, i: nat)
    requires i < bits
    ensures ReadVarint(bits, i, []) == Short
  {}

  lemma NextByte(bits: nat, i: nat, s: seq<Byte>)
    requires i < bits && |s| > 0
    ensures forall acc: nat, k: nat :: After(acc, k, ReadVarint(bits, i, s)) ==
              if s[0] < 128 then Got(acc + Part(s[0], i, bits), k + 1)
              else After(acc + Part(s[0], i, bits), k + 1, ReadVarint(bits, i + 7, s[1..]))
  {}

  lemma FullWord(bits: nat, i: nat, s: seq<Byte>)
    requires i >= bits
    ensures ReadVarint(bits, i, s) == Got(0, 0)
  {}

  /** What a reader that has read `k` bytes and collected `acc` will have read in all. */
  function After(acc: nat, k: nat, d: Decoded<nat>): Decoded<nat> {
    match d
    case Short => Short
    case Got(v, n) => Got(acc + v, k + n)
  }

  lemma OneByteOrder(hostLittle: bool, little: bool, v: nat)
    requires v < Range(1)
    ensures InMemory(hostLittle, 1, v) == Fixed(little, 1, v)
  {}

  lemma OneByteValue(hostLittle: bool, little: bool, s: seq<Byte>)
    requires |s| == 1
    ensures FromMemory(hostLittle, s) == FixedValue(little, s) == s[0]
  {}

  lemma ScratchIsEnough(w: nat, v: nat)
    requires (w == 4 || w == 8) && v < Range(w)
    ensures |Varint(v)| <= if w == 4 then 5 else 10
  {
    RangeIsPow2(w);
    hide Range, Pow2;
    Pow2Grows(8 * w, if w == 4 then 35 else 70);
    VarintLength(v, if w == 4 then 5 else 10);
  }

  /** The old list of blocks with perhaps some new ones at its end. */
  twostate predicate Extends(before: seq<Node>, new after: seq<Node>) {
    before <= after && forall i :: |before| <= i < |after| ==> fresh(after[i]) && fresh(after[i].ptr)
  }

  /** Of the bytes `s`, exactly those from position `p` on that `buf` covers are overwritten; there may be
      new ones at the end. */
  predicate Overwritten(s: seq<Byte>, t: seq<Byte>, p: nat, buf: seq<Byte>) {
    && |s| <= |t| && p <= |s| && p + |buf| <= |t|
    && t[..p] == s[..p]
    && t[p..p + |buf|] == buf
    && (forall i :: p + |buf| <= i < |s| ==> t[i] == s[i])
  }

  lemma NothingOverwritten(s: seq<Byte>, p: nat)
    requires p <= |s|
    ensures Overwritten(s, s, p, [])
  {}

  lemma OverwrittenLonger(r: seq<Byte>, s: seq<Byte>, t: seq<Byte>, p: nat, buf: seq<Byte>)
    requires r <= s && p <= |r| && Overwritten(s, t, p, buf)
    ensures Overwritten(r, t, p, buf)
  {}

  lemma SpliceOverwrites(s: seq<Byte>, t: seq<Byte>, p: nat, buf: seq<Byte>)
    requires s <= t && p <= |s| && p + |buf| <= |t|
    ensures Overwritten(s, Splice(t, p, buf), p, buf)
  {}
}
