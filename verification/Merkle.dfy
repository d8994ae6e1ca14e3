/** The block-authentication Merkle scheme: sorted block references are cut into chunks of 100, each chunk
    is hashed together with its index, and the leaves are folded pairwise, an odd last node being paired
    with itself. */
module Merkle {
  import opened Prelude
  import opened Hashing
  import Evidence

  const CHUNK_SIZE: nat := 100

  datatype Chunk = Chunk(index: nat, references: seq<BlockRef>, proof: seq<Hash>)

  // ── Chunking ──────────────────────────────────────────────────────────

  /** `slice::chunks`: pieces of `n`, the last one possibly shorter. */
  function Chunks<T>(s: seq<T>, n: nat): seq<seq<T>>
    requires n > 0
  {
    if s == [] then []
    else if |s| <= n then [s]
    else [s[..n]] + Chunks(s[n..], n)
  }

  /** Concatenating the chunks gives the list back, and every chunk has between 1 and `n` elements. */
  lemma {:induction false} ChunksPartition<T>(s: seq<T>, n: nat)
    requires n > 0
    ensures Concat(Chunks(s, n)) == s
    ensures forall i :: 0 <= i < |Chunks(s, n)| ==> 1 <= |Chunks(s, n)[i]| <= n
    ensures Chunks(s, n) == [] <==> s == []
    ensures |Chunks(s, n)| <= |s|
  {
    if |s| > n {
      ChunksPartition(s[n..], n);
      assert s == s[..n] + s[n..];
      assert Chunks(s, n)[1..] == Chunks(s[n..], n);
    } else if s != [] {
      assert [s][1..] == [];
      assert Concat([s]) == s + Concat<T>([]);
    }
  }

  /** Chunk `i` is the slice that starts at `n * i`. */
  lemma {:induction false} ChunkAt<T>(s: seq<T>, n: nat, i: nat)
    requires n > 0 && i < |Chunks(s, n)|
    ensures n * i < |s|
    ensures Chunks(s, n)[i] == s[n * i..Min(n * i + n, |s|)]
  {
    if |s| > n && i > 0 {
      ChunkAt(s[n..], n, i - 1);
      var lo, hi := n * (i - 1), Min(n * (i - 1) + n, |s| - n);
      assert n * i == n + lo;
      assert Chunks(s, n)[i] == Chunks(s[n..], n)[i - 1] == s[n..][lo..hi] == s[n + lo..n + hi];
    } else {
      assert n * 0 == 0;
    }
  }

  /** There are as many chunks as the length needs: `c` with `n * (c - 1) < |s| <= n * c`. */
  lemma {:induction false} ChunkCount<T>(s: seq<T>, n: nat)
    requires n > 0
    ensures n * |Chunks(s, n)| < |s| + n && |s| <= n * |Chunks(s, n)|
  {
    if |s| > n {
      ChunkCount(s[n..], n);
      assert n * |Chunks(s, n)| == n * |Chunks(s[n..], n)| + n;
    } else if s != [] {
      assert n * |Chunks(s, n)| == n;
    }
  }

  /** Chunking distributes over a split at a multiple of the chunk size. */
  lemma {:induction false} ChunksConcat<T>(a: seq<T>, b: seq<T>, n: nat, k: nat)
    requires n > 0 && |a| == n * k
    ensures Chunks(a + b, n) == Chunks(a, n) + Chunks(b, n)
    ensures |Chunks(a, n)| == k
    decreases k
  {
    if k == 0 {
      assert a + b == b;
    } else {
      assert n * k == n + n * (k - 1);
      ChunksConcat(a[n..], b, n, k - 1);
      if b == [] {
        assert a + b == a;
      } else if |a| == n {
        assert (a + b)[..n] == a && (a + b)[n..] == b;
        assert n * (k - 1) == 0;
        assert k == 1;
      } else {
        assert (a + b)[..n] == a[..n] && (a + b)[n..] == a[n..] + b;
      }
    }
  }

  // ── Leaves, root and proofs as functions ──────────────────────────────

  /** The cast `index as u32`. */
  function CastU32(n: nat): nat {
    if n < U32_LIMIT then n else n % U32_LIMIT
  }

  /** The leaf binds the chunk's index, cast to `u32`. */
  function Leaf(index: nat, references: seq<BlockRef>): Hash {
    LeafHash(CastU32(index), references)
  }

  function Leaves(refs: seq<BlockRef>): (r: seq<Hash>)
    ensures |r| == |Chunks(refs, CHUNK_SIZE)|
    ensures forall i :: 0 <= i < |r| ==> r[i] == Leaf(i, Chunks(refs, CHUNK_SIZE)[i])
  {
    var chunks := Chunks(refs, CHUNK_SIZE);
    seq(|chunks|, i requires 0 <= i < |chunks| => Leaf(i, chunks[i]))
  }

  /** One level up; the odd last node is paired with itself. */
  function Parents(level: seq<Hash>): (r: seq<Hash>)
    ensures |r| == (|level| + 1) / 2
    ensures forall i :: 0 <= i < |r| ==>
      r[i] == NodeHash(level[2 * i], if 2 * i + 1 < |level| then level[2 * i + 1] else level[2 * i])
  {
    seq((|level| + 1) / 2, i requires 0 <= i < (|level| + 1) / 2 =>
      NodeHash(level[2 * i], if 2 * i + 1 < |level| then level[2 * i + 1] else level[2 * i]))
  }

  function Root(level: seq<Hash>): Hash
    requires level != []
    decreases |level|
  {
    if |level| == 1 then level[0] else Root(Parents(level))
  }

  function Sibling(level: seq<Hash>, index: nat): Hash
    requires index < |level|
  {
    if index % 2 == 1 then level[index - 1]
    else if index + 1 < |level| then level[index + 1]
    else level[index]
  }

  function Proof(level: seq<Hash>, index: nat): seq<Hash>
    requires index < |level|
    decreases |level|
  {
    if |level| == 1 then [] else [Sibling(level, index)] + Proof(Parents(level), index / 2)
  }

  function Fold(hash: Hash, index: nat, proof: seq<Hash>): Hash
    decreases |proof|
  {
    if proof == [] then hash
    else Fold(if index % 2 == 0 then NodeHash(hash, proof[0]) else NodeHash(proof[0], hash), index / 2, proof[1..])
  }

  predicate ValidRefs(refs: seq<BlockRef>) {
    && refs != []
    && (forall i :: 0 <= i < |refs| ==> refs[i].blockHash != ZeroHash)
    && (forall i :: 0 <= i < |refs| - 1 ==> refs[i].number < refs[i + 1].number)
  }

  predicate Accepts(root: Hash, chunk: Chunk) {
    && root != ZeroHash
    && |chunk.references| <= CHUNK_SIZE
    && ValidRefs(chunk.references)
    && Fold(Leaf(chunk.index, chunk.references), chunk.index, chunk.proof) == root
  }

  function EmittedChunk(refs: seq<BlockRef>, i: nat): Chunk
    requires i < |Chunks(refs, CHUNK_SIZE)|
  {
    Chunk(CastU32(i), Chunks(refs, CHUNK_SIZE)[i], Proof(Leaves(refs), i))
  }

  // ── The loops of the original ─────────────────────────────────────────

  method MerkleRoot(leaves: seq<Hash>) returns (root: Option<Hash>)
    ensures root == if leaves == [] then None else Some(Root(leaves))
  {
    var level := leaves;
    if level == [] {
      return None;
    }
    while |level| > 1
      invariant level != []
      invariant Root(level) == Root(leaves)
      decreases |level|
    {
      level := Parents(level);
    }
    return Some(level[0]);
  }

  method MerkleProof(leaves: seq<Hash>, leafIndex: nat) returns (proof: seq<Hash>)
    requires leafIndex < |leaves|
    ensures proof == Proof(leaves, leafIndex)
  {
    var level: seq<Hash>, index: nat := leaves, leafIndex;
    proof := [];
    while |level| > 1
      invariant index < |level|
      invariant proof + Proof(level, index) == Proof(leaves, leafIndex)
      decreases |level|
    {
      proof := proof + [Sibling(level, index)];
      level := Parents(level);
      index := index / 2;
    }
  }

  method VerifyBlockAuthenticationChunk(root: Hash, chunk: Chunk) returns (ok: bool)
    ensures ok == Accepts(root, chunk)
    ensures ok <==>
      && root != ZeroHash && 1 <= |chunk.references| <= 100
      && (forall r :: r in chunk.references ==> r.blockHash != ZeroHash)
      && (forall i, j :: 0 <= i < j < |chunk.references| ==> chunk.references[i].number < chunk.references[j].number)
      && Fold(LeafHash(CastU32(chunk.index), chunk.references), chunk.index, chunk.proof) == root
  {
    ValidRefsIff(chunk.references);
    if root == ZeroHash || |chunk.references| > CHUNK_SIZE || !ValidRefs(chunk.references) {
      return false;
    }
    var hash, index := Leaf(chunk.index, chunk.references), chunk.index;
    var k := 0;
    while k < |chunk.proof|
      invariant 0 <= k <= |chunk.proof|
      invariant Fold(hash, index, chunk.proof[k..]) ==
        Fold(Leaf(chunk.index, chunk.references), chunk.index, chunk.proof)
    {
      var sibling := chunk.proof[k];
      hash := if index % 2 == 0 then NodeHash(hash, sibling) else NodeHash(sibling, hash);
      index := index / 2;
      k := k + 1;
    }
    return hash == root;
  }

  method BlockAuthenticationChunks(refs: seq<BlockRef>) returns (r: Result<seq<Chunk>>)
    ensures r.Ok? <==> ValidRefs(refs)
    ensures r.Ok? <==>
      && refs != [] && (forall r :: r in refs ==> r.blockHash != ZeroHash)
      && forall i, j :: 0 <= i < j < |refs| ==> refs[i].number < refs[j].number
    ensures r.Ok? ==> |r.value| == |Chunks(refs, CHUNK_SIZE)|
    ensures r.Ok? ==> forall i :: 0 <= i < |r.value| ==> r.value[i] == EmittedChunk(refs, i)
  {
    ValidRefsIff(refs);
    if refs == [] {
      return Err("seller proof: no block references");
    }
    if !ValidRefs(refs) {
      return Err("seller proof: invalid block references");
    }
    var chunks := Chunks(refs, CHUNK_SIZE);
    var leaves := Leaves(refs);
    var out := [];
    for i := 0 to |chunks|
      invariant |out| == i
      invariant forall k :: 0 <= k < i ==> out[k] == EmittedChunk(refs, k)
    {
      var proof := MerkleProof(leaves, i);
      out := out + [Chunk(CastU32(i), chunks[i], proof)];
    }
    return Ok(out);
  }

  // ── The tree from the top ─────────────────────────────────────────────

  /** Node `i` at height `h` over the leaves, from the top down: the hash of its two children, left before right, the
      left one standing in for a right one that would begin past the last leaf. */
  ghost function NodeAt(leaves: seq<Hash>, h: nat, i: nat): Hash
    requires i * Power(2, h) < |leaves|
    decreases h
  {
    if h == 0 then leaves[i]
    else
      HalfPower(h, i);
      var left := NodeAt(leaves, h - 1, 2 * i);
      NodeHash(left, if (2 * i + 1) * Power(2, h - 1) < |leaves| then NodeAt(leaves, h - 1, 2 * i + 1) else left)
  }

  lemma HalfPower(h: nat, i: nat)
    requires h > 0
    ensures (2 * i) * Power(2, h - 1) == i * Power(2, h)
  {
    TwiceHalf(i, Power(2, h - 1));
  }

  lemma TwiceHalf(i: nat, p: nat)
    ensures (2 * i) * p == i * (2 * p)
  {
  }

  lemma InLevel(n: nat, h: nat, i: nat)
    ensures i * Power(2, h) < (n + 1) / 2 <==> i * Power(2, h + 1) < n
  {
    HalfPower(h + 1, i);
    DoubleIt(i, Power(2, h));
    UnderHalf(i * Power(2, h), n);
  }

  lemma DoubleIt(i: nat, p: nat)
    ensures i * (2 * p) == 2 * (i * p)
  {
  }

  lemma UnderHalf(x: nat, n: nat)
    ensures x < (n + 1) / 2 <==> 2 * x < n
  {
  }

  lemma NodeUp(leaves: seq<Hash>, h: nat, i: nat)
    requires h > 0 && i * Power(2, h) < |leaves|
    ensures (2 * i) * Power(2, h - 1) < |leaves|
    ensures var left := NodeAt(leaves, h - 1, 2 * i);
      NodeAt(leaves, h, i) == NodeHash(
        left, if (2 * i + 1) * Power(2, h - 1) < |leaves| then NodeAt(leaves, h - 1, 2 * i + 1) else left)
  {
    HalfPower(h, i);
  }

  lemma LevelOne(leaves: seq<Hash>, i: nat)
    requires i < |Parents(leaves)|
    ensures i * Power(2, 0) < |Parents(leaves)| && i * Power(2, 1) < |leaves|
    ensures NodeAt(Parents(leaves), 0, i) == NodeAt(leaves, 1, i)
  {
    assert Power(2, 0) == 1 && Power(2, 1) == 2;
    NodeUp(leaves, 1, i);
    assert (2 * i + 1) * Power(2, 0) == 2 * i + 1;
  }

  /** Level by level: the nodes at height `h` over the parents are those one higher over the leaves. */
  lemma {:induction false} LevelUp(leaves: seq<Hash>, h: nat, i: nat)
    requires i * Power(2, h) < |Parents(leaves)|
    ensures i * Power(2, h + 1) < |leaves| && NodeAt(Parents(leaves), h, i) == NodeAt(leaves, h + 1, i)
    decreases h
  {
    InLevel(|leaves|, h, i);
    if h == 0 {
      assert Power(2, 0) == 1;
      LevelOne(leaves, i);
    } else {
      NodeUp(Parents(leaves), h, i);
      NodeUp(leaves, h + 1, i);
      hide NodeAt, Power;
      LevelUp(leaves, h - 1, 2 * i);
      InLevel(|leaves|, h - 1, 2 * i + 1);
      if (2 * i + 1) * Power(2, h - 1) < |Parents(leaves)| {
        LevelUp(leaves, h - 1, 2 * i + 1);
      }
    }
  }

  /** The root is the node at the top, whatever nodes were paired with themselves on the way. */
  lemma {:induction false} RootIsTop(leaves: seq<Hash>)
    requires leaves != []
    ensures Root(leaves) == NodeAt(leaves, Height(|leaves|), 0)
    decreases |leaves|
  {
    if |leaves| > 1 {
      RootIsTop(Parents(leaves));
      LevelUp(leaves, Height(|Parents(leaves)|), 0);
    }
  }

  /** Up to five leaves, for example. */
  lemma RootOfTwo(a: Hash, b: Hash)
    ensures Root([a]) == a && Root([a, b]) == NodeHash(a, b)
  {
    assert Parents([a, b]) == [NodeHash(a, b)];
  }

  lemma RootOfThree(a: Hash, b: Hash, c: Hash)
    ensures Root([a, b, c]) == NodeHash(NodeHash(a, b), NodeHash(c, c))
  {
    assert Parents([a, b, c]) == [NodeHash(a, b), NodeHash(c, c)];
    RootUp([a, b, c]);
    RootOfTwo(NodeHash(a, b), NodeHash(c, c));
  }

  lemma RootOfFive(a: Hash, b: Hash, c: Hash, d: Hash, e: Hash)
    ensures Root([a, b, c, d, e])
      == NodeHash(NodeHash(NodeHash(a, b), NodeHash(c, d)), NodeHash(NodeHash(e, e), NodeHash(e, e)))
  {
    assert Parents([a, b, c, d, e]) == [NodeHash(a, b), NodeHash(c, d), NodeHash(e, e)];
    RootUp([a, b, c, d, e]);
    RootOfThree(NodeHash(a, b), NodeHash(c, d), NodeHash(e, e));
  }

  /** Valid references are at least one, strictly ascending by number, with no zero hash. */
  lemma ValidRefsIff(refs: seq<BlockRef>)
    ensures ValidRefs(refs) <==>
      && refs != [] && (forall r :: r in refs ==> r.blockHash != ZeroHash)
      && forall i, j :: 0 <= i < j < |refs| ==> refs[i].number < refs[j].number
  {
    if ValidRefs(refs) {
      ValidIsStrictlySorted(refs);
    }
    assert (forall r :: r in refs ==> r.blockHash != ZeroHash) ==> forall i :: 0 <= i < |refs| ==> refs[i] in refs;
  }

  // ── Completeness ──────────────────────────────────────────────────────

  /** The proof built for position `index` folds back to the root. */
  lemma {:induction false} ProofFolds(level: seq<Hash>, index: nat)
    requires index < |level|
    ensures Fold(level[index], index, Proof(level, index)) == Root(level)
    decreases |level|
  {
    if |level| > 1 {
      var sibling := Sibling(level, index);
      var parent := if index % 2 == 0 then NodeHash(level[index], sibling) else NodeHash(sibling, level[index]);
      assert Parents(level)[index / 2] == parent;
      ProofFolds(Parents(level), index / 2);
      assert Proof(level, index)[1..] == Proof(Parents(level), index / 2);
    }
  }

  // ── Soundness: the atoms of a hash term ───────────────────────────────

  /** The non-node subterms reachable through inner nodes. */
  ghost function Atoms(h: Hash): set<Hash> {
    match h
    case NodeHash(l, r) => Atoms(l) + Atoms(r)
    case _ => {h}
  }

  ghost function AtomsOf(level: seq<Hash>): set<Hash> {
    set i, a | 0 <= i < |level| && a in Atoms(level[i]) :: a
  }

  lemma {:induction false} FoldKeepsAtoms(hash: Hash, index: nat, proof: seq<Hash>)
    ensures Atoms(hash) <= Atoms(Fold(hash, index, proof))
    decreases |proof|
  {
    if proof != [] {
      FoldKeepsAtoms(if index % 2 == 0 then NodeHash(hash, proof[0])
        else NodeHash(proof[0], hash), index / 2, proof[1..]);
    }
  }

  lemma ParentsKeepAtoms(level: seq<Hash>)
    ensures AtomsOf(Parents(level)) == AtomsOf(level)
  {
    forall a | a in AtomsOf(level)
      ensures a in AtomsOf(Parents(level))
    {
      var i :| 0 <= i < |level| && a in Atoms(level[i]);
      assert a in Atoms(Parents(level)[i / 2]);
    }
    forall a | a in AtomsOf(Parents(level))
      ensures a in AtomsOf(level)
    {
      var i :| 0 <= i < |Parents(level)| && a in Atoms(Parents(level)[i]);
      assert a in Atoms(level[2 * i]) || (2 * i + 1 < |level| && a in Atoms(level[2 * i + 1]));
    }
  }

  /** Whatever the height and the duplications, the atoms of a root are exactly those of its leaves. */
  lemma {:induction false} RootAtoms(level: seq<Hash>)
    requires level != []
    ensures Atoms(Root(level)) == AtomsOf(level)
    decreases |level|
  {
    if |level| > 1 {
      ParentsKeepAtoms(level);
      RootAtoms(Parents(level));
    }
  }

  lemma LeavesAreAtoms(refs: seq<BlockRef>)
    ensures forall h :: h in AtomsOf(Leaves(refs)) <==> h in Leaves(refs)
  {
    var leaves := Leaves(refs);
    assert forall i :: 0 <= i < |leaves| ==> Atoms(leaves[i]) == {leaves[i]};
  }

  // ── Main results ──────────────────────────────────────────────────────

  ghost predicate CountFits(refs: seq<BlockRef>) {
    |Chunks(refs, CHUNK_SIZE)| <= U32_LIMIT
  }

  ghost predicate AcceptedByRoot(refs: seq<BlockRef>, index: nat, references: seq<BlockRef>)
    requires refs != []
  {
    exists proof :: Accepts(Root(Leaves(refs)), Chunk(index, references, proof))
  }

  lemma RootIsNotZero(refs: seq<BlockRef>)
    requires refs != []
    ensures Root(Leaves(refs)) != ZeroHash
  {
    ChunksPartition(refs, CHUNK_SIZE);
    RootAtoms(Leaves(refs));
    LeavesAreAtoms(refs);
    assert ZeroHash !in Leaves(refs);
  }

  lemma {:induction false} SortedFar(refs: seq<BlockRef>, i: nat, j: nat)
    requires ValidRefs(refs) && i < j < |refs|
    ensures refs[i].number < refs[j].number
    decreases j - i
  {
    if i + 1 < j {
      SortedFar(refs, i, j - 1);
    }
  }

  lemma ChunkIsValid(refs: seq<BlockRef>, i: nat)
    requires ValidRefs(refs) && i < |Chunks(refs, CHUNK_SIZE)|
    ensures ValidRefs(Chunks(refs, CHUNK_SIZE)[i]) && |Chunks(refs, CHUNK_SIZE)[i]| <= CHUNK_SIZE
  {
    ChunksPartition(refs, CHUNK_SIZE);
    ChunkAt(refs, CHUNK_SIZE, i);
    SliceIsValid(refs, CHUNK_SIZE * i, Min(CHUNK_SIZE * i + CHUNK_SIZE, |refs|));
  }

  lemma SliceIsValid(refs: seq<BlockRef>, lo: nat, hi: nat)
    requires ValidRefs(refs) && lo < hi <= |refs|
    ensures ValidRefs(refs[lo..hi])
  {
    var s := refs[lo..hi];
    forall k | 0 <= k < |s| - 1
      ensures s[k].number < s[k + 1].number
    {
      assert s[k] == refs[lo + k] && s[k + 1] == refs[lo + k + 1];
    }
  }

  /** Soundness: whatever index and proof are presented, an accepted leaf is one of the leaves. */
  lemma AcceptedIsLeaf(refs: seq<BlockRef>, chunk: Chunk)
    requires refs != [] && Leaves(refs) != []
    requires Accepts(Root(Leaves(refs)), chunk)
    ensures Leaf(chunk.index, chunk.references) in Leaves(refs)
  {
    var leaf := Leaf(chunk.index, chunk.references);
    FoldKeepsAtoms(leaf, chunk.index, chunk.proof);
    assert leaf in Atoms(leaf);
    RootAtoms(Leaves(refs));
    LeavesAreAtoms(refs);
  }

  /** Completeness: the proof built for a position is accepted when the index cast loses nothing. */
  lemma EmittedIsAccepted(refs: seq<BlockRef>, i: nat)
    requires ValidRefs(refs) && i < |Chunks(refs, CHUNK_SIZE)| && i < U32_LIMIT
    ensures Leaves(refs) != []
    ensures Accepts(Root(Leaves(refs)), EmittedChunk(refs, i))
  {
    ChunkIsValid(refs, i);
    RootIsNotZero(refs);
    ProofFolds(Leaves(refs), i);
  }

  // ── The shape of a root ───────────────────────────────────────────────

  /** A term whose paths to its non-node subterms all have length `n`. */
  ghost predicate Perfect(h: Hash, n: nat) {
    match h
    case NodeHash(l, r) => n > 0 && Perfect(l, n - 1) && Perfect(r, n - 1)
    case _ => n == 0
  }

  /** How many levels lie above a level of `n` nodes. */
  ghost function Height(n: nat): nat
    requires n > 0
  {
    if n == 1 then 0 else Height((n + 1) / 2) + 1
  }

  /** Odd nodes or not, every level is folded up to one perfect term. */
  lemma {:induction false} RootPerfect(level: seq<Hash>, n: nat)
    requires level != [] && forall i :: 0 <= i < |level| ==> Perfect(level[i], n)
    ensures Perfect(Root(level), n + Height(|level|))
    decreases |level|
  {
    if |level| > 1 {
      RootPerfect(Parents(level), n + 1);
    }
  }

  lemma {:induction false} FoldPerfect(hash: Hash, index: nat, proof: seq<Hash>, n: nat)
    requires Perfect(Fold(hash, index, proof), n)
    ensures |proof| <= n && Perfect(hash, n - |proof|)
    decreases |proof|
  {
    if proof != [] {
      var up := if index % 2 == 0 then NodeHash(hash, proof[0]) else NodeHash(proof[0], hash);
      FoldPerfect(up, index / 2, proof[1..], n);
    }
  }

  /** A proof as long as the tree is high shows the node at the position it claims. */
  lemma {:induction false} FoldPosition(level: seq<Hash>, hash: Hash, index: nat, proof: seq<Hash>)
    requires index < |level| && |proof| == Height(|level|) && Fold(hash, index, proof) == Root(level)
    ensures hash == level[index]
    decreases |level|
  {
    if |level| > 1 {
      var up := if index % 2 == 0 then NodeHash(hash, proof[0]) else NodeHash(proof[0], hash);
      FoldPosition(Parents(level), up, index / 2, proof[1..]);
    }
  }

  /** Whatever the number of chunks, an accepted proof shows the leaf at its own position. */
  lemma AcceptedIsAtPosition(refs: seq<BlockRef>, chunk: Chunk)
    requires chunk.index < |Leaves(refs)| && Accepts(Root(Leaves(refs)), chunk)
    ensures Leaf(chunk.index, chunk.references) == Leaves(refs)[chunk.index]
  {
    var leaves, leaf := Leaves(refs), Leaf(chunk.index, chunk.references);
    RootPerfect(leaves, 0);
    FoldPerfect(leaf, chunk.index, chunk.proof, Height(|leaves|));
    FoldPosition(leaves, leaf, chunk.index, chunk.proof);
  }

  /** Soundness and completeness: some proof, of any length, makes the verifier accept `(index, references)`
      against the root of a valid list if and only if that pair is one of the chunks. The index is a `u32`. */
  lemma ChunkAcceptedIff(refs: seq<BlockRef>, index: nat, references: seq<BlockRef>)
    requires ValidRefs(refs) && index < U32_LIMIT
    ensures AcceptedByRoot(refs, index, references)
      <==> index < |Chunks(refs, CHUNK_SIZE)| && references == Chunks(refs, CHUNK_SIZE)[index]
  {
    ChunksPartition(refs, CHUNK_SIZE);
    if index < |Chunks(refs, CHUNK_SIZE)| && references == Chunks(refs, CHUNK_SIZE)[index] {
      EmittedIsAccepted(refs, index);
      assert Accepts(Root(Leaves(refs)), Chunk(index, references, Proof(Leaves(refs), index)));
    }
    if AcceptedByRoot(refs, index, references) {
      var proof :| Accepts(Root(Leaves(refs)), Chunk(index, references, proof));
      var chunk := Chunk(index, references, proof);
      if index < |Chunks(refs, CHUNK_SIZE)| {
        AcceptedIsAtPosition(refs, chunk);
      } else {
        AcceptedIsLeaf(refs, chunk);
        LeafPosition(refs, index, references);
      }
    }
  }

  /** A leaf names its own position. */
  lemma LeafPosition(refs: seq<BlockRef>, index: nat, references: seq<BlockRef>)
    requires CountFits(refs) && index < U32_LIMIT
    requires Leaf(index, references) in Leaves(refs)
    ensures index < |Chunks(refs, CHUNK_SIZE)| && references == Chunks(refs, CHUNK_SIZE)[index]
  {
    var j :| 0 <= j < |Leaves(refs)| && Leaves(refs)[j] == Leaf(index, references);
    assert Leaves(refs)[j] == Leaf(j, Chunks(refs, CHUNK_SIZE)[j]);
    assert CastU32(j) == CastU32(index);
    assert j == index;
  }

  /** The root commits to the whole list: valid lists with equal roots are equal, although odd nodes are duplicated
      and the two trees could have had different heights. */
  lemma RootInjective(a: seq<BlockRef>, b: seq<BlockRef>)
    requires ValidRefs(a) && ValidRefs(b) && Root(Leaves(a)) == Root(Leaves(b))
    ensures a == b
  {
    ChunksPartition(a, CHUNK_SIZE);
    ChunksPartition(b, CHUNK_SIZE);
    RootAtoms(Leaves(a));
    RootAtoms(Leaves(b));
    LeavesAreAtoms(a);
    LeavesAreAtoms(b);
    MembersOfSubset(a, b);
    MembersOfSubset(b, a);
    ValidIsStrictlySorted(a);
    ValidIsStrictlySorted(b);
    Evidence.StrictlySortedUnique(a, b);
  }

  lemma ValidIsStrictlySorted(refs: seq<BlockRef>)
    requires ValidRefs(refs)
    ensures Evidence.StrictlySorted(refs)
  {
    forall i, j | 0 <= i < j < |refs|
      ensures refs[i].number < refs[j].number
    {
      SortedFar(refs, i, j);
    }
  }

  lemma {:induction false} InConcat<T>(parts: seq<seq<T>>, x: T)
    ensures x in Concat(parts) <==> exists i :: 0 <= i < |parts| && x in parts[i]
  {
    if parts != [] {
      InConcat(parts[1..], x);
      if exists i :: 0 <= i < |parts| && x in parts[i] {
        var i :| 0 <= i < |parts| && x in parts[i];
        assert i > 0 ==> x in parts[1..][i - 1];
      }
      if x in Concat(parts[1..]) {
        var i :| 0 <= i < |parts[1..]| && x in parts[1..][i];
        assert x in parts[i + 1];
      }
    }
  }

  lemma MembersOfSubset(a: seq<BlockRef>, b: seq<BlockRef>)
    requires forall h :: h in Leaves(a) ==> h in Leaves(b)
    ensures forall r :: r in a ==> r in b
  {
    forall r | r in a
      ensures r in b
    {
      ChunksPartition(a, CHUNK_SIZE);
      ChunksPartition(b, CHUNK_SIZE);
      InConcat(Chunks(a, CHUNK_SIZE), r);
      InConcat(Chunks(b, CHUNK_SIZE), r);
      var i :| 0 <= i < |Chunks(a, CHUNK_SIZE)| && r in Chunks(a, CHUNK_SIZE)[i];
      assert Leaves(a)[i] in Leaves(b);
      var j :| 0 <= j < |Leaves(b)| && Leaves(b)[j] == Leaves(a)[i];
      assert Chunks(b, CHUNK_SIZE)[j] == Chunks(a, CHUNK_SIZE)[i];
    }
  }

  /** Up to 2^32 chunks this holds of arbitrary lists, in any order and with repetitions. */
  lemma RootInjectiveOnAnyLists(a: seq<BlockRef>, b: seq<BlockRef>)
    requires a != [] && b != [] && CountFits(a) && CountFits(b)
    requires Root(Leaves(a)) == Root(Leaves(b))
    ensures a == b
  {
    ChunksPartition(a, CHUNK_SIZE);
    ChunksPartition(b, CHUNK_SIZE);
    RootAtoms(Leaves(a));
    RootAtoms(Leaves(b));
    LeavesAreAtoms(a);
    LeavesAreAtoms(b);
    ChunksOfSubset(a, b);
    ChunksOfSubset(b, a);
    assert Chunks(a, CHUNK_SIZE) == Chunks(b, CHUNK_SIZE);
  }

  lemma ChunksOfSubset(a: seq<BlockRef>, b: seq<BlockRef>)
    requires CountFits(a) && CountFits(b)
    requires forall h :: h in Leaves(a) ==> h in Leaves(b)
    ensures Chunks(a, CHUNK_SIZE) <= Chunks(b, CHUNK_SIZE)
  {
    var ca, cb := Chunks(a, CHUNK_SIZE), Chunks(b, CHUNK_SIZE);
    forall i | 0 <= i < |ca|
      ensures i < |cb| && ca[i] == cb[i]
    {
      assert Leaves(a)[i] in Leaves(a);
      LeafPosition(b, i, ca[i]);
    }
    if |ca| > 0 {
      var last := |ca| - 1;
      assert last < |cb| && ca[last] == cb[last];
    }
  }

  /** Of arbitrary lists it does not hold beyond: with parts of 2^32 chunks each, `x y z` and `x y z z` have one root.
      The second list repeats references, so it is not valid and no root of it is ever committed. */
  lemma UnsortedRootsCollide(x: seq<BlockRef>, y: seq<BlockRef>, z: seq<BlockRef>)
    requires |x| == |y| == |z| == CHUNK_SIZE * U32_LIMIT
    ensures x + y + z != x + y + z + z && !ValidRefs(x + y + z + z)
    ensures Root(Leaves(x + y + z)) == Root(Leaves(x + y + z + z))
  {
    LeavesConcat(x, y, 1);
    LeavesConcat(x + y, z, 2);
    LeavesConcat(x + y + z, z, 3);
    assert |Leaves(x)| == |Leaves(y)| == |Leaves(z)| == Power(2, 32) by {
      ChunksConcat(x, [], CHUNK_SIZE, U32_LIMIT);
      ChunksConcat(y, [], CHUNK_SIZE, U32_LIMIT);
      ChunksConcat(z, [], CHUNK_SIZE, U32_LIMIT);
      Pow2At32();
    }
    OddTripleDuplicates(Leaves(x + y), Leaves(z), 32);
    Repeats(x + y, z);
  }

  lemma Repeats(w: seq<BlockRef>, z: seq<BlockRef>)
    requires z != []
    ensures !ValidRefs(w + z + z)
  {
    var refs := w + z + z;
    if ValidRefs(refs) {
      assert refs[|w|] == z[0] == refs[|w| + |z|];
      SortedFar(refs, |w|, |w| + |z|);
    }
  }

  lemma Pow2At32()
    ensures Power(2, 32) == U32_LIMIT
  {
    assert Power(2, 8) == 0x100;
    assert Power(2, 16) == 0x1_0000;
    assert Power(2, 24) == 0x100_0000;
  }

  /** The leaves of a list that follows whole blocks of 2^32 chunks carry the same indices again. */
  lemma LeavesConcat(a: seq<BlockRef>, b: seq<BlockRef>, m: nat)
    requires |a| == CHUNK_SIZE * (U32_LIMIT * m)
    ensures Leaves(a + b) == Leaves(a) + Leaves(b)
  {
    ChunksConcat(a, b, CHUNK_SIZE, U32_LIMIT * m);
    forall i: nat
      ensures CastU32(U32_LIMIT * m + i) == CastU32(i)
    {
      ModShift(i, m);
    }
  }

  lemma {:induction false} ModShift(i: nat, m: nat)
    ensures (U32_LIMIT * m + i) % U32_LIMIT == i % U32_LIMIT
    decreases m
  {
    if m > 0 {
      ModShift(i, m - 1);
      assert U32_LIMIT * m + i == U32_LIMIT * (m - 1) + i + U32_LIMIT;
    }
  }

  /** Two full subtrees `w`, then a third `z`: repeating `z` does not change the root. */
  lemma {:induction false} OddTripleDuplicates(w: seq<Hash>, z: seq<Hash>, k: nat)
    requires |w| == 2 * |z| && |z| == Power(2, k) && z != []
    ensures Root(w + z) == Root(w + z + z)
    decreases k
  {
    hide Parents, Root, Power;
    PowerOfTwo(k);
    if k == 0 {
      OddTripleLevel(w, z);
    } else {
      var t, pw, pz := w + z, Parents(w), Parents(z);
      assert |pw| == 2 * |pz| && |pz| == Power(2, k - 1);
      ParentsConcat(w, z);
      ParentsConcat(t, z);
      RootUp(t);
      RootUp(t + z);
      OddTripleDuplicates(pw, pz, k - 1);
    }
  }

  lemma PowerOfTwo(k: nat)
    ensures Power(2, k) == (if k == 0 then 1 else 2 * Power(2, k - 1)) >= 1
    decreases k
  {
    if k > 0 {
      PowerOfTwo(k - 1);
    }
  }

  lemma OddTripleLevel(w: seq<Hash>, z: seq<Hash>)
    requires |w| == 2 && |z| == 1
    ensures Root(w + z) == Root(w + z + z)
  {
    var up := [NodeHash(w[0], w[1]), NodeHash(z[0], z[0])];
    assert Parents(w + z) == up;
    assert Parents(w + z + z) == up;
  }

  lemma RootUp(level: seq<Hash>)
    requires |level| > 1
    ensures Root(level) == Root(Parents(level))
  {
  }

  lemma ParentsConcat(a: seq<Hash>, b: seq<Hash>)
    requires |a| % 2 == 0
    ensures Parents(a + b) == Parents(a) + Parents(b)
  {
  }

  // ── The u32 index cast is what bounds both results ────────────────────

  ghost function Leftmost(h: Hash): Hash {
    match h
    case NodeHash(l, _) => Leftmost(l)
    case _ => h
  }

  lemma {:induction false} FoldAtZeroKeepsLeftmost(hash: Hash, proof: seq<Hash>)
    ensures Leftmost(Fold(hash, 0, proof)) == Leftmost(hash)
    decreases |proof|
  {
    if proof != [] {
      FoldAtZeroKeepsLeftmost(NodeHash(hash, proof[0]), proof[1..]);
    }
  }

  lemma {:induction false} RootLeftmost(level: seq<Hash>)
    requires level != []
    ensures Leftmost(Root(level)) == Leftmost(level[0])
    decreases |level|
  {
    if |level| > 1 {
      RootLeftmost(Parents(level));
    }
  }

  /** Every chunk the host emits is accepted if and only if the chunk count fits a `u32`: the first chunk past
      2^32 is emitted under index 0 and no proof can place it there. */
  lemma EmittedChunksAcceptedIff(refs: seq<BlockRef>)
    requires ValidRefs(refs)
    ensures (forall i :: 0 <= i < |Chunks(refs, CHUNK_SIZE)| ==> Accepts(Root(Leaves(refs)), EmittedChunk(refs, i)))
      <==> CountFits(refs)
  {
    ChunksPartition(refs, CHUNK_SIZE);
    if CountFits(refs) {
      forall i | 0 <= i < |Chunks(refs, CHUNK_SIZE)|
        ensures Accepts(Root(Leaves(refs)), EmittedChunk(refs, i))
      {
        EmittedIsAccepted(refs, i);
      }
    } else {
      TruncatedIsRejected(refs);
    }
  }

  lemma TruncatedIsRejected(refs: seq<BlockRef>)
    requires ValidRefs(refs) && !CountFits(refs)
    ensures !Accepts(Root(Leaves(refs)), EmittedChunk(refs, U32_LIMIT))
  {
    var chunk := EmittedChunk(refs, U32_LIMIT);
    if Accepts(Root(Leaves(refs)), chunk) {
      FoldAtZeroKeepsLeftmost(Leaf(0, chunk.references), chunk.proof);
      RootLeftmost(Leaves(refs));
      ChunksPartition(refs, CHUNK_SIZE);
      ChunkAt(refs, CHUNK_SIZE, 0);
      ChunkAt(refs, CHUNK_SIZE, U32_LIMIT);
      SortedFar(refs, 0, CHUNK_SIZE * U32_LIMIT);
      assert false;
    }
  }
}
