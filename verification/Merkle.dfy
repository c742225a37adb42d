/**
 * The Merkle root over block hashes (`src/metainfo.rs`), for any hash
 * function: the level-by-level computation is the root of one fixed tree, and
 * a root pins down the data of its length up to an explicit collision.
 */
module Merkle {
  import opened Common

  type Digest = d: Bytes | |d| == 32 witness EIGHT + EIGHT + EIGHT + EIGHT

  const EIGHT: Bytes := [0, 0, 0, 0, 0, 0, 0, 0]
  const ZERO: Digest := EIGHT + EIGHT + EIGHT + EIGHT
  const BLOCK_LEN: nat := 16384

  // ---------------------------------------------------------------------
  // Level by level
  // ---------------------------------------------------------------------

  function Input(a: Digest, b: Digest): Bytes {
    a + b
  }

  function Parent(sha: Bytes -> Digest, a: Digest, b: Digest): Digest {
    sha(Input(a, b))
  }

  /** Pairs are hashed together; a lone last child moves up unchanged. */
  function Above(sha: Bytes -> Digest, level: seq<Digest>): (r: seq<Digest>)
    ensures |r| == (|level| + 1) / 2
    decreases |level|
  {
    if |level| <= 1 then level
    else [Parent(sha, level[0], level[1])] + Above(sha, level[2..])
  }

  function Root(sha: Bytes -> Digest, leaves: seq<Digest>): Digest
    decreases |leaves|
  {
    if |leaves| == 0 then ZERO
    else if |leaves| == 1 then leaves[0]
    else Root(sha, Above(sha, leaves))
  }

  lemma {:induction false} AboveAppends(sha: Bytes -> Digest, a: seq<Digest>, b: seq<Digest>)
    requires |a| % 2 == 0
    ensures Above(sha, a + b) == Above(sha, a) + Above(sha, b)
    decreases |a|
  {
    if a == [] {
      assert a + b == b;
    } else {
      assert (a + b)[2..] == a[2..] + b;
      AboveAppends(sha, a[2..], b);
    }
  }

  method MerkleRoot(sha: Bytes -> Digest, leaves: seq<Digest>) returns (root: Digest)
    ensures root == Root(sha, leaves)
  {
    if |leaves| == 0 {
      return ZERO;
    }
    var level := leaves;
    while |level| > 1
      invariant |level| >= 1
      invariant Root(sha, level) == Root(sha, leaves)
      decreases |level|
    {
      level := NextLevel(sha, level);
    }
    root := level[0];
  }

  method NextLevel(sha: Bytes -> Digest, level: seq<Digest>) returns (next: seq<Digest>)
    ensures next == Above(sha, level)
  {
    next := [];
    var i := 0;
    ghost var rest := level;
    while i < |level|
      invariant rest == level[Min(i, |level|)..]
      invariant next + Above(sha, rest) == Above(sha, level)
      decreases |level| - i
    {
      ghost var was := next + Above(sha, rest);
      if i + 1 < |level| {
        assert Above(sha, rest) == [Parent(sha, level[i], level[i + 1])] + Above(sha, rest[2..]);
        next := next + [Parent(sha, level[i], level[i + 1])];
        rest := rest[2..];
        assert next + Above(sha, rest) == was;
      } else {
        assert Above(sha, rest) == [level[i]];
        next := next + [level[i]];
        rest := [];
        assert next + Above(sha, rest) == was;
      }
      i := i + 2;
    }
  }

  // ---------------------------------------------------------------------
  // One tree
  // ---------------------------------------------------------------------

  /** The largest power of two below n. */
  function Split(n: nat): (k: nat)
    requires n >= 2
    ensures 1 <= k < n <= 2 * k
    ensures n > 2 ==> k % 2 == 0
  {
    if n == 2 then 1 else 2 * Split((n + 1) / 2)
  }

  /** The root of the tree whose left part is the largest perfect one that leaves something over. */
  function TreeRoot(sha: Bytes -> Digest, leaves: seq<Digest>): Digest
    requires leaves != []
    decreases |leaves|
  {
    if |leaves| == 1 then leaves[0]
    else
      var k := Split(|leaves|);
      Parent(sha, TreeRoot(sha, leaves[..k]), TreeRoot(sha, leaves[k..]))
  }

  lemma {:induction false} AboveKeepsTree(sha: Bytes -> Digest, leaves: seq<Digest>)
    requires leaves != []
    ensures TreeRoot(sha, Above(sha, leaves)) == TreeRoot(sha, leaves)
    decreases |leaves|
  {
    var n := |leaves|;
    if n == 2 {
      assert Above(sha, leaves) == [Parent(sha, leaves[0], leaves[1])];
    } else if n > 2 {
      var k := Split(n);
      var a, b := leaves[..k], leaves[k..];
      assert leaves == a + b;
      AboveAppends(sha, a, b);
      AboveKeepsTree(sha, a);
      AboveKeepsTree(sha, b);
      var up := Above(sha, leaves);
      assert Split(|up|) == k / 2 == |Above(sha, a)|;
      assert up[..k / 2] == Above(sha, a) && up[k / 2..] == Above(sha, b);
    }
  }

  /** Hashing level by level, lone children promoted, is the root of that one tree. */
  lemma {:induction false} LevelsAreTree(sha: Bytes -> Digest, leaves: seq<Digest>)
    requires leaves != []
    ensures Root(sha, leaves) == TreeRoot(sha, leaves)
    decreases |leaves|
  {
    if |leaves| > 1 {
      LevelsAreTree(sha, Above(sha, leaves));
      AboveKeepsTree(sha, leaves);
    }
  }

  predicate IsPowerOfTwo(n: nat) {
    n == 1 || (n > 0 && n % 2 == 0 && IsPowerOfTwo(n / 2))
  }

  lemma {:induction false} SplitIsPower(n: nat)
    requires n >= 2
    ensures IsPowerOfTwo(Split(n)) && Split(n) < n <= 2 * Split(n)
  {
    if n > 2 {
      SplitIsPower((n + 1) / 2);
      assert 2 * Split((n + 1) / 2) / 2 == Split((n + 1) / 2);
    }
  }

  /** There is only one power of two between half of n and n. */
  lemma {:induction false} PowerIsUnique(n: nat, j: nat, k: nat)
    requires IsPowerOfTwo(j) && IsPowerOfTwo(k) && j < n <= 2 * j && k < n <= 2 * k
    ensures j == k
  {
    if j > 1 && k > 1 {
      PowerIsUnique((n + 1) / 2, j / 2, k / 2);
    }
  }

  /**
   * The root of one leaf is the leaf; the root of more is the digest of the
   * two roots, left then right, of the first k leaves and of the others, where
   * k is the power of two below their number that is at least half of it.
   */
  lemma RootSplits(sha: Bytes -> Digest, leaves: seq<Digest>, k: nat)
    requires leaves != []
    requires |leaves| >= 2 ==> IsPowerOfTwo(k) && k < |leaves| <= 2 * k
    ensures |leaves| == 1 ==> Root(sha, leaves) == leaves[0]
    ensures |leaves| >= 2 ==>
      var left: Bytes, right: Bytes := Root(sha, leaves[..k]), Root(sha, leaves[k..]);
      Root(sha, leaves) == sha(left + right)
  {
    if |leaves| >= 2 {
      SplitIsPower(|leaves|);
      PowerIsUnique(|leaves|, k, Split(|leaves|));
      LevelsAreTree(sha, leaves);
      LevelsAreTree(sha, leaves[..k]);
      LevelsAreTree(sha, leaves[k..]);
      hide Root, Split;
    }
  }

  // ---------------------------------------------------------------------
  // What is hashed
  // ---------------------------------------------------------------------

  /** x is hashed to get from one level to the next. */
  predicate PairHashes(level: seq<Digest>, x: Bytes)
    decreases |level|
  {
    |level| >= 2 && (x == Input(level[0], level[1]) || PairHashes(level[2..], x))
  }

  /** x is hashed to compute the root. */
  predicate Hashes(sha: Bytes -> Digest, leaves: seq<Digest>, x: Bytes)
    decreases |leaves|
  {
    |leaves| >= 2 && (PairHashes(leaves, x) || Hashes(sha, Above(sha, leaves), x))
  }

  /** x stands at an inner node of the tree. */
  predicate TreeHashes(sha: Bytes -> Digest, leaves: seq<Digest>, x: Bytes)
    requires leaves != []
    decreases |leaves|
  {
    |leaves| >= 2 &&
    var k := Split(|leaves|);
    var a, b := leaves[..k], leaves[k..];
    x == Input(TreeRoot(sha, a), TreeRoot(sha, b)) || TreeHashes(sha, a, x) || TreeHashes(sha, b, x)
  }

  lemma {:induction false} PairHashesAppend(a: seq<Digest>, b: seq<Digest>, x: Bytes)
    requires |a| % 2 == 0
    ensures PairHashes(a + b, x) <==> PairHashes(a, x) || PairHashes(b, x)
    decreases |a|
  {
    if a == [] {
      assert a + b == b;
    } else {
      assert (a + b)[2..] == a[2..] + b;
      PairHashesAppend(a[2..], b, x);
    }
  }

  lemma NodeHashes(sha: Bytes -> Digest, a: seq<Digest>, b: seq<Digest>, x: Bytes)
    requires a != [] && b != [] && |a| == Split(|a| + |b|)
    ensures TreeHashes(sha, a + b, x)
      <==> x == Input(TreeRoot(sha, a), TreeRoot(sha, b)) || TreeHashes(sha, a, x) || TreeHashes(sha, b, x)
  {
    hide TreeRoot, Input, Split;
    assert (a + b)[..|a|] == a && (a + b)[|a|..] == b;
  }

  lemma SplitHalves(n: nat)
    requires n > 2
    ensures Split((n + 1) / 2) == Split(n) / 2 && (n + 1) / 2 == Split(n) / 2 + (n - Split(n) + 1) / 2
  {
  }

  /** The lowest inner nodes of the tree are the pairs of its leaves, the others are those of the tree above. */
  lemma {:induction false} AboveKeepsHashes(sha: Bytes -> Digest, leaves: seq<Digest>, x: Bytes)
    requires leaves != []
    ensures TreeHashes(sha, leaves, x) <==> PairHashes(leaves, x) || TreeHashes(sha, Above(sha, leaves), x)
    decreases |leaves|
  {
    hide TreeHashes, TreeRoot, PairHashes, Above, Split, Input;
    if |leaves| <= 2 {
      TwoHashes(sha, leaves, x);
    } else {
      var k := Split(|leaves|);
      var a, b := leaves[..k], leaves[k..];
      assert leaves == a + b;
      SplitHalves(|leaves|);
      AboveAppends(sha, a, b);
      NodeHashes(sha, a, b, x);
      NodeHashes(sha, Above(sha, a), Above(sha, b), x);
      PairHashesAppend(a, b, x);
      AboveKeepsHashes(sha, a, x);
      AboveKeepsHashes(sha, b, x);
      AboveKeepsTree(sha, a);
      AboveKeepsTree(sha, b);
    }
  }

  lemma TwoHashes(sha: Bytes -> Digest, leaves: seq<Digest>, x: Bytes)
    requires 1 <= |leaves| <= 2
    ensures TreeHashes(sha, leaves, x) <==> PairHashes(leaves, x) || TreeHashes(sha, Above(sha, leaves), x)
  {
    assert |Above(sha, leaves)| == 1;
    if |leaves| == 2 {
      assert Split(2) == 1;
      assert TreeRoot(sha, leaves[..1]) == leaves[0] && TreeRoot(sha, leaves[1..]) == leaves[1];
      hide TreeRoot, Above, Split, Input;
      assert !TreeHashes(sha, leaves[..1], x) && !TreeHashes(sha, leaves[1..], x);
      assert !PairHashes(leaves[2..], x);
    }
  }

  /** Level by level, exactly the inner nodes of the tree are hashed. */
  lemma {:induction false} LevelsHashTree(sha: Bytes -> Digest, leaves: seq<Digest>, x: Bytes)
    requires leaves != []
    ensures Hashes(sha, leaves, x) <==> TreeHashes(sha, leaves, x)
    decreases |leaves|
  {
    if |leaves| > 1 {
      LevelsHashTree(sha, Above(sha, leaves), x);
      AboveKeepsHashes(sha, leaves, x);
    }
  }

  // ---------------------------------------------------------------------
  // Collisions
  // ---------------------------------------------------------------------

  predicate Collides(sha: Bytes -> Digest, x: Bytes, y: Bytes) {
    x != y && sha(x) == sha(y)
  }

  /** Two different leaf lists of one length and one root: here is where the hash collides. */
  function TreeCollision(sha: Bytes -> Digest, p: seq<Digest>, q: seq<Digest>): (hit: (Bytes, Bytes))
    requires |p| == |q| > 0 && p != q && TreeRoot(sha, p) == TreeRoot(sha, q)
    ensures Collides(sha, hit.0, hit.1)
    ensures TreeHashes(sha, p, hit.0) && TreeHashes(sha, q, hit.1)
    decreases |p|
  {
    if |p| == 1 then
      assert false; ([], [])
    else
      var k := Split(|p|);
      var pl, pr, ql, qr := p[..k], p[k..], q[..k], q[k..];
      assert p == pl + pr && q == ql + qr;
      var a, b := TreeRoot(sha, pl), TreeRoot(sha, pr);
      var c, d := TreeRoot(sha, ql), TreeRoot(sha, qr);
      if a != c || b != d then
        SamePair(a, b, c, d);
        (Input(a, b), Input(c, d))
      else if pl != ql then TreeCollision(sha, pl, ql)
      else TreeCollision(sha, pr, qr)
  }

  lemma SamePair(a: Digest, b: Digest, c: Digest, d: Digest)
    ensures Input(a, b) == Input(c, d) <==> a == c && b == d
  {
    assert a == (a + b)[..32] && b == (a + b)[32..];
    assert c == (c + d)[..32] && d == (c + d)[32..];
  }

  /** Two different leaf lists of one length and one root: two inputs hashed on the way collide. */
  function RootCollision(sha: Bytes -> Digest, p: seq<Digest>, q: seq<Digest>): (hit: (Bytes, Bytes))
    requires |p| == |q| && p != q && Root(sha, p) == Root(sha, q)
    ensures Collides(sha, hit.0, hit.1)
    ensures Hashes(sha, p, hit.0) && Hashes(sha, q, hit.1)
  {
    LevelsAreTree(sha, p);
    LevelsAreTree(sha, q);
    var hit := TreeCollision(sha, p, q);
    LevelsHashTree(sha, p, hit.0);
    LevelsHashTree(sha, q, hit.1);
    hit
  }

  /** A root binds the leaf list among all lists of its length, unless what is hashed for the two collides. */
  lemma RootBinds(sha: Bytes -> Digest, p: seq<Digest>, q: seq<Digest>)
    requires |p| == |q| && Root(sha, p) == Root(sha, q)
    ensures p == q || exists x, y :: Hashes(sha, p, x) && Hashes(sha, q, y) && Collides(sha, x, y)
  {
    if p != q {
      var hit := RootCollision(sha, p, q);
      assert Hashes(sha, p, hit.0) && Hashes(sha, q, hit.1);
    }
  }

  /** The length has to be known: an inner node passes for a leaf, with no collision at all. */
  lemma LengthMatters(sha: Bytes -> Digest, a: Digest, b: Digest)
    ensures Root(sha, [a, b]) == Root(sha, [Parent(sha, a, b)])
  {
    assert Above(sha, [a, b]) == [Parent(sha, a, b)];
  }

  // ---------------------------------------------------------------------
  // Verifying a piece
  // ---------------------------------------------------------------------

  function Chunks(data: Bytes): (r: seq<Bytes>)
    ensures |r| == (|data| + BLOCK_LEN - 1) / BLOCK_LEN
  {
    if data == [] then []
    else if |data| <= BLOCK_LEN then [data]
    else [data[..BLOCK_LEN]] + Chunks(data[BLOCK_LEN..])
  }

  lemma FirstChunk(data: Bytes)
    requires data != []
    ensures |Chunks(data)| > 0 && Chunks(data)[0] == data[..Min(BLOCK_LEN, |data|)]
    ensures |data| > BLOCK_LEN ==> Chunks(data) == [data[..BLOCK_LEN]] + Chunks(data[BLOCK_LEN..])
  {
    if |data| <= BLOCK_LEN {
      assert data[..|data|] == data;
    }
  }

  lemma {:induction false} ChunkFrom(data: Bytes, i: nat, lo: nat, hi: nat)
    requires lo == i * BLOCK_LEN < |data| && hi == Min(lo + BLOCK_LEN, |data|)
    ensures i < |Chunks(data)| && Chunks(data)[i] == data[lo..hi]
    decreases i
  {
    hide Chunks;
    FirstChunk(data);
    if i > 0 {
      var rest := data[BLOCK_LEN..];
      ChunkFrom(rest, i - 1, lo - BLOCK_LEN, hi - BLOCK_LEN);
      ShiftedSlice(data, BLOCK_LEN, lo, hi);
    }
  }

  /** The i-th block is the i-th 16 KiB of the piece, the last one what is left. */
  lemma ChunkIs(data: Bytes, i: nat)
    requires i * BLOCK_LEN < |data|
    ensures i < |Chunks(data)| && Chunks(data)[i] == data[i * BLOCK_LEN..Min((i + 1) * BLOCK_LEN, |data|)]
  {
    hide Chunks;
    ChunkFrom(data, i, i * BLOCK_LEN, Min((i + 1) * BLOCK_LEN, |data|));
  }

  lemma ShiftedSlice(data: Bytes, n: nat, lo: nat, hi: nat)
    requires n <= lo <= hi <= |data|
    ensures data[n..][lo - n..hi - n] == data[lo..hi]
  {
  }

  function Digests(sha: Bytes -> Digest, blocks: seq<Bytes>): (r: seq<Digest>)
    ensures |r| == |blocks|
    ensures forall i :: 0 <= i < |r| ==> r[i] == sha(blocks[i])
  {
    seq(|blocks|, i requires 0 <= i < |blocks| => sha(blocks[i]))
  }

  datatype Verdict = Verified | WrongLength | Mismatch

  const U32: nat := 0x1_0000_0000

  /** What passes for a piece: the length, as far as 32 bits tell, and the root of the block hashes. */
  predicate Passes(sha: Bytes -> Digest, data: Bytes, len: nat, wanted: Digest) {
    |data| % U32 == len && Root(sha, Digests(sha, Chunks(data))) == wanted
  }

  /** The v2 half of piece verification. */
  method VerifyPiece(sha: Bytes -> Digest, data: Bytes, len: nat, wanted: Digest) returns (v: Verdict)
    ensures v.Verified? <==> Passes(sha, data, len, wanted)
    ensures v.WrongLength? <==> |data| % U32 != len
  {
    if |data| % U32 != len {
      return WrongLength;
    }
    var root := MerkleRoot(sha, Digests(sha, Chunks(data)));
    v := if root != wanted then Mismatch else Verified;
  }

  /** Different data of one length differ in some block. */
  lemma {:induction false} ChunksAreFaithful(p: Bytes, q: Bytes)
    requires |p| == |q| && Chunks(p) == Chunks(q)
    ensures p == q
    decreases |p|
  {
    if p == [] || |p| <= BLOCK_LEN {
      if p != [] {
        assert p == Chunks(p)[0] && q == Chunks(q)[0];
      }
    } else {
      assert p[..BLOCK_LEN] == Chunks(p)[0] && q[..BLOCK_LEN] == Chunks(q)[0];
      assert Chunks(p[BLOCK_LEN..]) == Chunks(p)[1..] && Chunks(q[BLOCK_LEN..]) == Chunks(q)[1..];
      ChunksAreFaithful(p[BLOCK_LEN..], q[BLOCK_LEN..]);
      assert p == p[..BLOCK_LEN] + p[BLOCK_LEN..] && q == q[..BLOCK_LEN] + q[BLOCK_LEN..];
    }
  }

  /** x is hashed to verify a piece: a block, or an inner node over the blocks' digests. */
  predicate PieceHashes(sha: Bytes -> Digest, data: Bytes, x: Bytes) {
    x in Chunks(data) || Hashes(sha, Digests(sha, Chunks(data)), x)
  }

  /** Two pieces that pass for the same piece are the same bytes, or two inputs hashed to verify them collide. */
  function PieceCollision(sha: Bytes -> Digest, p: Bytes, q: Bytes, len: nat, wanted: Digest): (hit: (Bytes, Bytes))
    requires Passes(sha, p, len, wanted) && Passes(sha, q, len, wanted)
    requires |p| < U32 && |q| < U32 && p != q
    ensures Collides(sha, hit.0, hit.1)
    ensures PieceHashes(sha, p, hit.0) && PieceHashes(sha, q, hit.1)
  {
    var a, b := Chunks(p), Chunks(q);
    var c, d := Digests(sha, a), Digests(sha, b);
    if c != d then RootCollision(sha, c, d)
    else
      ChunksDiffer(p, q);
      var i := FirstDifference(a, b, 0);
      assert sha(a[i]) == c[i] == d[i] == sha(b[i]);
      (a[i], b[i])
  }

  lemma ChunksDiffer(p: Bytes, q: Bytes)
    requires |p| == |q| && p != q
    ensures Chunks(p) != Chunks(q)
  {
    if Chunks(p) == Chunks(q) {
      ChunksAreFaithful(p, q);
    }
  }

  function FirstDifference(a: seq<Bytes>, b: seq<Bytes>, i: nat): (j: nat)
    requires |a| == |b| && a != b && i <= |a| && a[..i] == b[..i]
    ensures j < |a| && a[j] != b[j]
    decreases |a| - i
  {
    assert a[..|a|] == a && b[..|b|] == b;
    if a[i] != b[i] then i
    else
      assert a[..i + 1] == a[..i] + [a[i]] && b[..i + 1] == b[..i] + [b[i]];
      FirstDifference(a, b, i + 1)
  }

  /** What passes for a piece is pinned down, unless two inputs hashed on the way collide. */
  lemma VerifiedPieceIsPinned(sha: Bytes -> Digest, p: Bytes, q: Bytes, len: nat, wanted: Digest)
    requires Passes(sha, p, len, wanted) && Passes(sha, q, len, wanted)
    requires |p| < U32 && |q| < U32
    ensures p == q || exists x, y :: PieceHashes(sha, p, x) && PieceHashes(sha, q, y) && Collides(sha, x, y)
  {
    hide Passes, PieceHashes, Collides;
    if p != q {
      var hit := PieceCollision(sha, p, q, len, wanted);
      assert PieceHashes(sha, p, hit.0) && PieceHashes(sha, q, hit.1);
    }
  }
}
