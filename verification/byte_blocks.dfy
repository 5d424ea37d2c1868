/** The blocks of a byte array: a singly linked list of nodes that each own a buffer of the same size. The
    bytes of a list of nodes are the buffers one after the other. */
module ByteBlocks {

  type Byte = x: int | 0 <= x < 256

  // ---------------------------------------------------------------- positions and blocks

  /** Where block `k` begins. */
  function Begin(k: nat, b: nat): nat {
    k * b
  }

  lemma BeginNext(k: nat, b: nat)
    ensures Begin(k + 1, b) == Begin(k, b) + b
    ensures Begin(0, b) == 0
  {}

  lemma {:induction false} BeginOrder(i: nat, j: nat, b: nat)
    requires i < j
    ensures Begin(i, b) + b <= Begin(j, b)
    decreases j
  {
    BeginNext(j - 1, b);
    if i < j - 1 {
      BeginOrder(i, j - 1, b);
    }
  }

  /** Block `p / b` is the one that holds position `p`, at offset `p % b`. */
  lemma BlockOf(p: nat, b: nat)
    requires b > 0
    ensures p / b >= 0 && 0 <= p % b < b
    ensures p == Begin(p / b, b) + p % b
  {}

  lemma BlockUnique(p: nat, k: nat, b: nat)
    requires Begin(k, b) <= p < Begin(k, b) + b
    ensures p / b == k && p % b == p - Begin(k, b)
  {
    hide Begin;
    BlockOf(p, b);
    if p / b < k {
      BeginOrder(p / b, k, b);
    } else if k < p / b {
      BeginOrder(k, p / b, b);
    }
  }

  lemma BlockBelow(p: nat, n: nat, b: nat)
    requires b > 0 && p < Begin(n, b)
    ensures p / b < n
  {}

  // ---------------------------------------------------------------- nodes

  class Node {
    const ptr: array<Byte>
    var next: Node?

    constructor (s: nat)
      ensures ptr.Length == s && next == null && fresh(ptr)
    {
      ptr := new Byte[s];
      next := null;
    }
  }

  ghost function Buffers(ns: seq<Node>): set<object> {
    set n <- ns :: n.ptr as object
  }

  /** `ns` is a list, from its first node on, of distinct nodes with distinct buffers of size `b`. */
  ghost predicate Linked(ns: seq<Node>, b: nat)
    reads ns
  {
    && (forall i :: 0 <= i < |ns| ==> ns[i].ptr.Length == b)
    && (forall i, j :: 0 <= i < j < |ns| ==> ns[i] != ns[j] && ns[i].ptr != ns[j].ptr)
    && (forall i :: 0 <= i < |ns| - 1 ==> ns[i].next != null && ns[i].next == ns[i + 1])
    && (|ns| > 0 ==> ns[|ns| - 1].next == null)
  }

  /** `s` is what the buffers of `ns` hold. */
  ghost predicate Backed(ns: seq<Node>, b: nat, s: seq<Byte>)
    reads Buffers(ns)
  {
    |s| == Begin(|ns|, b) && forall k :: 0 <= k < |ns| ==> Holds(ns[k], k, b, s)
  }

  ghost predicate Holds(n: Node, k: nat, b: nat, s: seq<Byte>)
    reads n.ptr
  {
    n.ptr.Length == b && Begin(k, b) + b <= |s| && n.ptr[..] == s[Begin(k, b)..Begin(k, b) + b]
  }

  /** The block that holds position `p`, or null when there is none. */
  ghost function BlockAt(ns: seq<Node>, b: nat, p: nat): Node?
    requires b > 0
  {
    var k := p / b;
    if 0 <= k < |ns| then ns[k] else null
  }

  lemma BlockAtIs(ns: seq<Node>, b: nat, p: nat, k: nat)
    requires Begin(k, b) <= p < Begin(k, b) + b
    ensures BlockAt(ns, b, p) == (if k < |ns| then ns[k] else null) && p % b == p - Begin(k, b)
  {
    BlockUnique(p, k, b);
  }

  lemma BlockKept(before: seq<Node>, ns: seq<Node>, b: nat, p: nat)
    requires b > 0 && before <= ns && p <= Begin(|before|, b)
    ensures p < Begin(|before|, b) ==> BlockAt(ns, b, p) == BlockAt(before, b, p)
    ensures p == Begin(|before|, b) ==> BlockAt(ns, b, p) == if |before| < |ns| then ns[|before|] else null
  {
    if p < Begin(|before|, b) {
      BlockBelow(p, |before|, b);
      BlockOf(p, b);
    } else {
      BlockUnique(p, |before|, b);
    }
  }

  /** How many blocks it takes to hold `n` bytes. */
  function BlocksFor(n: nat, b: nat): nat
    requires b > 0
  {
    BlockOf(n, b);
    if n % b != 0 then n / b + 1 else n / b
  }

  /** Enough blocks, and not one too many. */
  lemma BlocksEnough(n: nat, b: nat, k: nat)
    requires b > 0
    ensures Begin(k, b) + n <= Begin(k + BlocksFor(n, b), b) < Begin(k, b) + n + b
  {}

  ghost function Contents(ns: seq<Node>): seq<Byte>
    reads Buffers(ns)
  {
    if |ns| == 0 then [] else
      assert forall n <- ns[..|ns| - 1] :: n in ns;
      Contents(ns[..|ns| - 1]) + ns[|ns| - 1].ptr[..]
  }

  lemma {:induction false} ContentsBacked(ns: seq<Node>, b: nat)
    requires forall i :: 0 <= i < |ns| ==> ns[i].ptr.Length == b
    ensures Backed(ns, b, Contents(ns))
    decreases |ns|
  {
    if |ns| == 0 {
      BeginNext(0, b);
    } else {
      var n := |ns| - 1;
      ContentsBacked(ns[..n], b);
      BeginNext(n, b);
      hide Begin;
      forall k | 0 <= k < |ns| ensures Holds(ns[k], k, b, Contents(ns)) {
        if k < n {
          assert ns[..n][k] == ns[k];
          assert Holds(ns[k], k, b, Contents(ns[..n]));
        }
      }
    }
  }

  lemma {:induction false} BackedIsContents(ns: seq<Node>, b: nat, s: seq<Byte>)
    requires Backed(ns, b, s)
    ensures s == Contents(ns)
    decreases |ns|
  {
    if |ns| == 0 {
      BeginNext(0, b);
    } else {
      var n := |ns| - 1;
      BeginNext(n, b);
      var t := s[..Begin(n, b)];
      hide Begin;
      forall k | 0 <= k < n ensures Holds(ns[..n][k], k, b, t) {
        assert Holds(ns[k], k, b, s);
        BeginOrder(k, n, b);
        assert t[Begin(k, b)..Begin(k, b) + b] == s[Begin(k, b)..Begin(k, b) + b];
      }
      BackedIsContents(ns[..n], b, t);
      assert Holds(ns[n], n, b, s);
      assert s == t + s[Begin(n, b)..];
    }
  }

  // ---------------------------------------------------------------- overwriting

  /** `s` with the bytes from position `p` on replaced by `t`. */
  function Splice(s: seq<Byte>, p: nat, t: seq<Byte>): (r: seq<Byte>)
    requires p + |t| <= |s|
    ensures |r| == |s|
  {
    s[..p] + t + s[p + |t|..]
  }

  lemma SpliceSplice(s: seq<Byte>, p: nat, t: seq<Byte>, u: seq<Byte>)
    requires p + |t| + |u| <= |s|
    ensures Splice(Splice(s, p, t), p + |t|, u) == Splice(s, p, t + u)
  {}

  lemma ContentsLength(ns: seq<Node>, b: nat)
    requires forall i :: 0 <= i < |ns| ==> ns[i].ptr.Length == b
    ensures |Contents(ns)| == Begin(|ns|, b)
  {}

  lemma BackedSlice(ns: seq<Node>, b: nat, s: seq<Byte>, k: nat, o: nat, n: nat)
    requires Backed(ns, b, s) && k < |ns| && o + n <= b
    ensures ns[k].ptr.Length == b && Begin(k, b) + o + n <= |s|
    ensures ns[k].ptr[o..o + n] == s[Begin(k, b) + o..Begin(k, b) + o + n]
  {
    hide Begin;
    assert Holds(ns[k], k, b, s);
    assert ns[k].ptr[..][o..o + n] == ns[k].ptr[o..o + n];
    SliceOfSlice(s, Begin(k, b), Begin(k, b) + b, o, n);
  }

  lemma SliceOfSlice(s: seq<Byte>, x: nat, y: nat, o: nat, n: nat)
    requires x <= y <= |s| && o + n <= y - x
    ensures s[x..y][o..o + n] == s[x + o..x + o + n]
  {
    var t, u := s[x..y][o..o + n], s[x + o..x + o + n];
    assert |t| == |u| && forall i :: 0 <= i < n ==> t[i] == u[i];
  }

  lemma SpliceNothing(s: seq<Byte>, p: nat)
    requires p <= |s|
    ensures Splice(s, p, []) == s
  {}

  lemma SpliceElsewhere(s: seq<Byte>, p: nat, t: seq<Byte>, x: nat, y: nat)
    requires p + |t| <= |s| && x <= y <= |s| && (y <= p || p + |t| <= x)
    ensures Splice(s, p, t)[x..y] == s[x..y]
  {}

  lemma SpliceInside(s: seq<Byte>, p: nat, t: seq<Byte>, x: nat, y: nat)
    requires x <= p && p + |t| <= y <= |s|
    ensures Splice(s, p, t)[x..y] == Splice(s[x..y], p - x, t)
  {}

  lemma SpliceIs(s: seq<Byte>, p: nat, t: seq<Byte>, r: seq<Byte>)
    requires p + |t| <= |s| == |r|
    requires forall i :: 0 <= i < |t| ==> r[p + i] == t[i]
    requires forall i :: 0 <= i < p || p + |t| <= i < |s| ==> r[i] == s[i]
    ensures r == Splice(s, p, t)
  {}

  lemma {:induction false} ContentsAppend(ns: seq<Node>, ms: seq<Node>)
    ensures Contents(ns + ms) == Contents(ns) + Contents(ms)
    decreases |ms|
  {
    if |ms| == 0 {
      assert ns + ms == ns;
    } else {
      assert (ns + ms)[..|ns + ms| - 1] == ns + ms[..|ms| - 1];
      ContentsAppend(ns, ms[..|ms| - 1]);
    }
  }

  /** memcpy into a block. */
  method CopyInto(ptr: array<Byte>, npos: nat, buf: seq<Byte>, ghost ns: seq<Node>, ghost b: nat, ghost k: nat, ghost s: seq<Byte>)
    requires Linked(ns, b) && Backed(ns, b, s) && k < |ns| && ns[k].ptr == ptr && npos + |buf| <= b
    modifies ptr
    ensures Begin(k, b) + npos + |buf| <= |s| && Backed(ns, b, Splice(s, Begin(k, b) + npos, buf))
  {
    assert Holds(ns[k], k, b, s);
    forall i | 0 <= i < |buf| {
      ptr[npos + i] := buf[i];
    }
    ghost var t := Splice(s, Begin(k, b) + npos, buf);
    hide Begin, Splice;
    assert ptr[..] == Splice(old(ptr[..]), npos, buf) by { SpliceIs(old(ptr[..]), npos, buf, ptr[..]); }
    SpliceInside(s, Begin(k, b) + npos, buf, Begin(k, b), Begin(k, b) + b);
    forall j | 0 <= j < |ns| ensures Holds(ns[j], j, b, t) {
      assert old(Holds(ns[j], j, b, s));
      if j < k {
        BeginOrder(j, k, b);
        SpliceElsewhere(s, Begin(k, b) + npos, buf, Begin(j, b), Begin(j, b) + b);
      } else if k < j {
        BeginOrder(k, j, b);
        SpliceElsewhere(s, Begin(k, b) + npos, buf, Begin(j, b), Begin(j, b) + b);
      }
    }
  }

  // ---------------------------------------------------------------- scatter and gather

  /** A stretch of a buffer, as the I/O calls take it. */
  datatype Segment = Segment(ptr: array<Byte>, off: nat, len: nat)

  /** `g` is a non-empty stretch of one block that stands for the bytes from position `p` on. */
  ghost predicate Aliases(ns: seq<Node>, b: nat, g: Segment, p: nat) {
    exists k :: 0 <= k < |ns| && InBlock(ns[k], k, b, g, p)
  }

  ghost predicate InBlock(n: Node, k: nat, b: nat, g: Segment, p: nat) {
    g.ptr == n.ptr && n.ptr.Length == b && 0 < g.len && g.off + g.len <= b && Begin(k, b) + g.off == p
  }

  /** The segments are non-empty and stand, one after the other, for the `n` bytes from position `p` on. */
  ghost predicate Spans(ns: seq<Node>, b: nat, gs: seq<Segment>, p: nat, n: nat)
    decreases |gs|
  {
    if |gs| == 0 then n == 0 else
      var g := gs[|gs| - 1];
      g.len <= n && Aliases(ns, b, g, p + n - g.len) && Spans(ns, b, gs[..|gs| - 1], p, n - g.len)
  }

  ghost function Gather(gs: seq<Segment>): seq<Byte>
    requires forall g <- gs :: g.off + g.len <= g.ptr.Length
    reads set g <- gs :: g.ptr
    decreases |gs|
  {
    if |gs| == 0 then [] else
      var g := gs[|gs| - 1];
      assert forall h <- gs[..|gs| - 1] :: h in gs;
      Gather(gs[..|gs| - 1]) + g.ptr[g.off..g.off + g.len]
  }

  /** What the segments hold is what copying out would give. */
  lemma {:induction false} GatherIsRead(ns: seq<Node>, b: nat, gs: seq<Segment>, p: nat, n: nat)
    requires Spans(ns, b, gs, p, n) && Backed(ns, b, Contents(ns)) && p <= |Contents(ns)|
    ensures forall g <- gs :: 0 < g.len && g.off + g.len <= g.ptr.Length && g.ptr in Buffers(ns)
    ensures p + n <= |Contents(ns)| && Gather(gs) == Contents(ns)[p..p + n]
    decreases |gs|
  {
    if |gs| > 0 {
      hide Begin, Backed, Contents, InBlock;
      var i := |gs| - 1;
      var g, q := gs[i], p + n - gs[i].len;
      GatherIsRead(ns, b, gs[..i], p, n - g.len);
      LastSegment(ns, b, g, q, Contents(ns));
      assert forall h <- gs :: h in gs[..i] || h == g;
      var s := Contents(ns);
      assert s[p..p + n] == s[p..q] + s[q..p + n];
    }
  }

  lemma LastSegment(ns: seq<Node>, b: nat, g: Segment, p: nat, s: seq<Byte>)
    requires Aliases(ns, b, g, p) && Backed(ns, b, s)
    ensures 0 < g.len && g.off + g.len <= g.ptr.Length && g.ptr in Buffers(ns) && p + g.len <= |s|
    ensures g.ptr[g.off..g.off + g.len] == s[p..p + g.len]
  {
    hide Begin, Backed;
    var k :| 0 <= k < |ns| && InBlock(ns[k], k, b, g, p);
    BackedSlice(ns, b, s, k, g.off, g.len);
  }

  lemma SpansSnoc(ns: seq<Node>, b: nat, gs: seq<Segment>, p: nat, n: nat, g: Segment, k: nat)
    requires Spans(ns, b, gs, p, n) && k < |ns| && InBlock(ns[k], k, b, g, p + n)
    ensures Spans(ns, b, gs + [g], p, n + g.len)
  {}

  lemma NoSegments(ns: seq<Node>, b: nat, p: nat)
    ensures Spans(ns, b, [], p, 0)
  {}

  /** The segments from the block `at` on, offset `npos`, for `n` bytes. */
  method Segments(at: Node, npos: nat, n: nat, ghost ns: seq<Node>, ghost b: nat, ghost k0: nat) returns (gs: seq<Segment>)
    requires Linked(ns, b) && k0 < |ns| && at == ns[k0] && npos < b && Begin(k0, b) + npos + n <= Begin(|ns|, b)
    ensures Spans(ns, b, gs, Begin(k0, b) + npos, n)
  {
    hide Begin, Spans;
    ghost var p := Begin(k0, b) + npos;
    NoSegments(ns, b, p);
    var cur, off, ncap, left := at, npos, at.ptr.Length - npos, n;
    ghost var k: nat := k0;
    gs := [];
    while left > 0
      invariant 0 <= left <= n && Spans(ns, b, gs, p, n - left)
      invariant left > 0 ==> k < |ns| && cur == ns[k] && p + n - left == Begin(k, b) + off && ncap == b - off && 0 <= off < b
      decreases left
    {
      BeginNext(k, b);
      var g;
      if ncap >= left {
        g := Segment(cur.ptr, off, left);
        left := 0;
      } else {
        g := Segment(cur.ptr, off, ncap);
        left := left - ncap;
      }
      SpansSnoc(ns, b, gs, p, n - left - g.len, g, k);
      gs := gs + [g];
      if left > 0 {
        assert k + 1 < |ns|;
        cur := cur.next;
        ncap := cur.ptr.Length;
        off := 0;
        k := k + 1;
      }
    }
  }

  function Total(gs: seq<Segment>): nat
    decreases |gs|
  {
    if |gs| == 0 then 0 else Total(gs[..|gs| - 1]) + gs[|gs| - 1].len
  }

  lemma {:induction false} SpansPrefix(ns: seq<Node>, b: nat, gs: seq<Segment>, p: nat, n: nat, i: nat)
    requires Spans(ns, b, gs, p, n) && i <= |gs|
    ensures n == Total(gs) && Total(gs[..i]) <= n && Spans(ns, b, gs[..i], p, Total(gs[..i]))
    decreases |gs|
  {
    if i < |gs| {
      var m := |gs| - 1;
      SpansPrefix(ns, b, gs[..m], p, n - gs[m].len, i);
      assert gs[..m][..i] == gs[..i];
    } else {
      assert gs[..i] == gs;
      if |gs| > 0 {
        SpansPrefix(ns, b, gs[..i - 1], p, n - gs[i - 1].len, i - 1);
      }
    }
  }

  lemma SpansNext(ns: seq<Node>, b: nat, gs: seq<Segment>, p: nat, n: nat, i: nat)
    requires Spans(ns, b, gs, p, n) && i < |gs|
    ensures Total(gs[..i + 1]) == Total(gs[..i]) + gs[i].len <= n && Aliases(ns, b, gs[i], p + Total(gs[..i]))
  {
    assert gs[..i + 1][..i] == gs[..i];
    SpansPrefix(ns, b, gs, p, n, i + 1);
  }

  lemma {:induction false} TotalOrder(gs: seq<Segment>, i: nat, j: nat)
    requires i < j <= |gs|
    ensures Total(gs[..i]) + gs[i].len <= Total(gs[..j])
    decreases j
  {
    assert gs[..j][..j - 1] == gs[..j - 1];
    if i < j - 1 {
      TotalOrder(gs, i, j - 1);
    }
  }

  /** No byte of a buffer belongs to two segments, and within a buffer they come in order. */
  lemma SegmentsApart(ns: seq<Node>, b: nat, gs: seq<Segment>, p: nat, n: nat, i: nat, j: nat)
    requires Linked(ns, b) && Spans(ns, b, gs, p, n) && i < j < |gs|
    ensures 0 < gs[i].len && 0 < gs[j].len
    ensures gs[i].ptr != gs[j].ptr || gs[i].off + gs[i].len <= gs[j].off
  {
    hide Begin;
    SpansNext(ns, b, gs, p, n, i);
    SpansNext(ns, b, gs, p, n, j);
    TotalOrder(gs, i, j);
    var k :| 0 <= k < |ns| && InBlock(ns[k], k, b, gs[i], p + Total(gs[..i]));
    var l :| 0 <= l < |ns| && InBlock(ns[l], l, b, gs[j], p + Total(gs[..j]));
  }

  /** Writing the next `m` bytes of `t` after the first `d` of them. */
  lemma SpliceNext(s: seq<Byte>, p: nat, t: seq<Byte>, d: nat, m: nat)
    requires d + m <= |t| && p + |t| <= |s|
    ensures Splice(Splice(s, p, t[..d]), p + d, t[d..d + m]) == Splice(s, p, t[..d + m])
  {
    hide Splice;
    SpliceSplice(s, p, t[..d], t[d..d + m]);
    assert t[..d] + t[d..d + m] == t[..d + m];
  }

  /** A receiving I/O call: puts `data` into the segments, first to last, as far as it goes. */
  method Scatter(gs: seq<Segment>, data: seq<Byte>, ghost ns: seq<Node>, ghost b: nat, ghost p: nat, ghost n: nat)
    requires Linked(ns, b) && Spans(ns, b, gs, p, n) && |data| <= n && p + n <= |Contents(ns)|
    modifies Buffers(ns)
    ensures Contents(ns) == Splice(old(Contents(ns)), p, data)
  {
    hide Begin, Contents, Splice, Backed, Spans;
    ghost var s := Contents(ns);
    ContentsBacked(ns, b);
    SpliceNothing(s, p);
    var i, d := 0, 0;
    assert gs[..0] == [] && data[..0] == [];
    SpansPrefix(ns, b, gs, p, n, |gs|);
    while i < |gs| && d < |data|
      invariant 0 <= i <= |gs| && 0 <= d <= |data| && (d == |data| || d == Total(gs[..i]))
      invariant Backed(ns, b, Splice(s, p, data[..d]))
    {
      var g := gs[i];
      SpansNext(ns, b, gs, p, n, i);
      ghost var k :| 0 <= k < |ns| && InBlock(ns[k], k, b, g, p + d);
      var m := if g.len <= |data| - d then g.len else |data| - d;
      ghost var t := Splice(s, p, data[..d]);
      CopyInto(g.ptr, g.off, data[d..d + m], ns, b, k, t);
      SpliceNext(s, p, data, d, m);
      d := d + m;
      i := i + 1;
    }
    assert gs[..|gs|] == gs;
    assert data[..d] == data;
    BackedIsContents(ns, b, Splice(s, p, data));
  }
}
