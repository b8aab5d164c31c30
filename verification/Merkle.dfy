/** Merkle trees: the miner's in-place fold, the explorer's level-by-level builder and their one root. */
module Merkle {
  import opened Numerals
  import opened Wrappers
  import Hex

  type Bytes = seq<Byte>

  // ---------------------------------------------------------------- specification

  /** Number of nodes k levels above n leaves. */
  function Width(n: nat, k: nat): (w: nat)
    ensures n > 0 ==> w > 0
    ensures w <= n
  {
    if k == 0 then n else (Width(n, k - 1) + 1) / 2
  }

  /** Node i of level k, straight from the leaves: a missing right child is its left sibling. */
  function Node(H: Bytes -> Digest, leaves: seq<Bytes>, k: nat, i: nat): Bytes
    requires i < Width(|leaves|, k)
  {
    if k == 0 then leaves[i]
    else
      var right := if 2 * i + 1 < Width(|leaves|, k - 1) then 2 * i + 1 else 2 * i;
      H(Node(H, leaves, k - 1, 2 * i) + Node(H, leaves, k - 1, right))
  }

  /** How often a row of n nodes is halved until one is left. */
  function Height(n: nat): (h: nat)
    ensures h == 0 <==> n <= 1
  {
    if n <= 1 then 0 else 1 + Height((n + 1) / 2)
  }

  lemma {:induction false} WidthShift(n: nat, k: nat)
    ensures Width(n, k + 1) == Width((n + 1) / 2, k)
  {
    if k > 0 {
      WidthShift(n, k - 1);
    }
  }

  lemma {:induction false} WidthAtHeight(n: nat)
    requires n > 0
    ensures Width(n, Height(n)) == 1
    ensures forall k :: 0 <= k < Height(n) ==> Width(n, k) > 1
  {
    if n > 1 {
      var half := (n + 1) / 2;
      WidthAtHeight(half);
      WidthShift(n, Height(half));
      forall k | 0 <= k < Height(n) ensures Width(n, k) > 1 {
        if k > 0 { WidthShift(n, k - 1); }
      }
    }
  }

  function Root(H: Bytes -> Digest, leaves: seq<Bytes>): Bytes
    requires |leaves| > 0
  {
    WidthAtHeight(|leaves|);
    Node(H, leaves, Height(|leaves|), 0)
  }

  function Row(H: Bytes -> Digest, leaves: seq<Bytes>, k: nat): (row: seq<Bytes>)
    ensures |row| == Width(|leaves|, k)
    ensures forall i :: 0 <= i < |row| ==> row[i] == Node(H, leaves, k, i)
  {
    seq(Width(|leaves|, k), i requires 0 <= i < Width(|leaves|, k) => Node(H, leaves, k, i))
  }

  // ---------------------------------------------------------------- the miner's fold

  /** The loop that overwrites the front of the tree with the next row. The spare slot for an odd row is
      all the room it needs beyond the leaves. */
  method FoldInPlace(H: Bytes -> Digest, tree: array<Digest>, count: nat)
    requires 0 < count <= tree.Length
    requires count > 1 && count % 2 != 0 ==> count < tree.Length
    modifies tree
    ensures tree[0] == Root(H, old(tree[..count]))
  {
    ghost var leaves: seq<Bytes> := tree[..count];
    hide Node, Width, Height;
    forall i | 0 <= i < count ensures tree[i] == Node(H, leaves, 0, i) {
      NodeUnfolds(H, leaves, 0, i);
    }
    var n := count;
    ghost var k := 0;
    WidthAtHeight(count);
    WidthStep(count, 0);
    while n > 1
      invariant n == Width(count, k) && 0 < n <= count && k <= Height(count)
      invariant n > 1 && n % 2 != 0 ==> n < tree.Length
      invariant forall i :: 0 <= i < n ==> tree[i] == Node(H, leaves, k, i)
      decreases n
    {
      WidthStep(count, k);
      if n % 2 != 0 {
        tree[n] := tree[n - 1];
        n := n + 1;
      }
      n := n / 2;
      PairRow(H, tree, n, leaves, k);
      k := k + 1;
    }
    if k < Height(count) {
      assert false;
    }
  }

  lemma WidthStep(n: nat, k: nat)
    ensures Width(n, 0) == n && Width(n, k + 1) == (Width(n, k) + 1) / 2
  {
  }

  /** The inner loop: node i is written only after its children 2i and 2i + 1 have been read. */
  method PairRow(H: Bytes -> Digest, tree: array<Digest>, n: nat, ghost leaves: seq<Bytes>, ghost k: nat)
    requires 2 * n <= tree.Length && n == Width(|leaves|, k + 1)
    requires forall i :: 0 <= i < Width(|leaves|, k) ==> tree[i] == Node(H, leaves, k, i)
    requires Width(|leaves|, k) < 2 * n ==> tree[2 * n - 1] == Node(H, leaves, k, 2 * n - 2)
    modifies tree
    ensures forall i :: 0 <= i < n ==> tree[i] == Node(H, leaves, k + 1, i)
  {
    hide Node;
    for i := 0 to n
      invariant forall j :: 0 <= j < i ==> tree[j] == Node(H, leaves, k + 1, j)
      invariant forall j :: i <= j < Width(|leaves|, k) ==> tree[j] == Node(H, leaves, k, j)
      invariant i < n && Width(|leaves|, k) < 2 * n ==> tree[2 * n - 1] == Node(H, leaves, k, 2 * n - 2)
    {
      NodeUnfolds(H, leaves, k + 1, i);
      var left: Bytes, right: Bytes := tree[2 * i], tree[2 * i + 1];
      tree[i] := H(left + right);
    }
  }

  /** A node is a leaf, or made from its children. */
  lemma NodeUnfolds(H: Bytes -> Digest, leaves: seq<Bytes>, k: nat, i: nat)
    requires i < Width(|leaves|, k)
    ensures k == 0 ==> i < |leaves| && Node(H, leaves, k, i) == leaves[i]
    ensures k > 0 ==>
      && 2 * i < Width(|leaves|, k - 1)
      && Node(H, leaves, k, i)
         == H(Node(H, leaves, k - 1, 2 * i)
              + Node(H, leaves, k - 1, if 2 * i + 1 < Width(|leaves|, k - 1) then 2 * i + 1 else 2 * i))
  {
  }

  // ---------------------------------------------------------------- the two trees of a block template

  /** The number of slots the miner allocates for n leaves: n rounded up to even. */
  function EvenSlots(n: nat): nat { (n + 1) / 2 * 2 }

  /** Block Merkle root from the coinbase bytes and the transaction ids. */
  method BlockMerkleRoot(H: Bytes -> Digest, coinbase: Bytes, txids: seq<Digest>) returns (root: Digest)
    ensures root == Root(H, [H(coinbase)] + txids)
  {
    var txCount := |txids|;
    var tree := new Digest[EvenSlots(1 + txCount)](_ => seq(32, _ => 0));
    tree[0] := H(coinbase);
    for i := 0 to txCount
      invariant tree[0] == H(coinbase)
      invariant forall j :: 0 <= j < i ==> tree[1 + j] == txids[j]
    {
      tree[1 + i] := txids[i];
    }
    assert tree[..1 + txCount] == [H(coinbase)] + txids;
    FoldInPlace(H, tree, 1 + txCount);
    root := tree[0];
  }

  const ZERO_DIGEST: Digest := seq(32, _ => 0)

  /** The commitment output's hash: the witness root, whose first leaf is zero, with a zero reserved value. */
  method WitnessCommitment(H: Bytes -> Digest, wtxids: seq<Digest>) returns (commitment: Digest)
    ensures commitment == H(Root(H, [seq(32, _ => 0)] + wtxids) + seq(32, _ => 0))
  {
    var txCount := |wtxids|;
    var wtree := new Digest[txCount + 2](_ => ZERO_DIGEST);
    for i := 0 to txCount
      invariant wtree[0] == ZERO_DIGEST
      invariant forall j :: 0 <= j < i ==> wtree[1 + j] == wtxids[j]
    {
      wtree[1 + i] := wtxids[i];
    }
    assert wtree[..1 + txCount] == [ZERO_DIGEST] + wtxids;
    FoldInPlace(H, wtree, txCount + 1);
    wtree[1] := ZERO_DIGEST;
    var left: Bytes, right: Bytes := wtree[0], wtree[1];
    commitment := H(left + right);
  }

  // ---------------------------------------------------------------- the explorer's levels

  datatype MerkleError = NoTransactions | InvalidTxid(txid: string)

  /** Root and levels in hex. */
  datatype MerkleTree = MerkleTree(root: string, levels: seq<seq<string>>)

  predicate AllHex(txids: seq<string>) { forall i :: 0 <= i < |txids| ==> Hex.IsHex(txids[i]) }

  function HexRow(row: seq<Bytes>): (r: seq<string>)
    ensures |r| == |row| && forall i :: 0 <= i < |r| ==> r[i] == Hex.EncodeToString(row[i])
  {
    seq(|row|, i requires 0 <= i < |row| => Hex.EncodeToString(row[i]))
  }

  function LeavesOf(txids: seq<string>): (leaves: seq<Bytes>)
    requires AllHex(txids)
    ensures |leaves| == |txids| && forall i :: 0 <= i < |leaves| ==> leaves[i] == Hex.HexBytes(txids[i])
  {
    seq(|txids|, i requires 0 <= i < |txids| => Hex.HexBytes(txids[i]))
  }

  /** All rows from the leaves up to the root. */
  function Levels(H: Bytes -> Digest, leaves: seq<Bytes>): (rows: seq<seq<Bytes>>)
    ensures |rows| == Height(|leaves|) + 1 && forall k :: 0 <= k < |rows| ==> rows[k] == Row(H, leaves, k)
  {
    seq(Height(|leaves|) + 1, k requires 0 <= k => Row(H, leaves, k))
  }

  /** The levels over the decoded transaction ids, in hex; the first id that is no hex is the error. */
  method CalculateMerkleTree(H: Bytes -> Digest, txids: seq<string>) returns (r: Result<MerkleTree, MerkleError>)
    ensures r.Success? <==> txids != [] && AllHex(txids)
    ensures txids == [] ==> r == Failure(NoTransactions)
    ensures txids != [] && r.Failure? ==>
      exists i :: 0 <= i < |txids| && r.error == InvalidTxid(txids[i]) && !Hex.IsHex(txids[i]) && AllHex(txids[..i])
    ensures r.Success? ==>
      var leaves := LeavesOf(txids);
      && |r.value.levels| == |Levels(H, leaves)|
      && (forall k :: 0 <= k < |r.value.levels| ==> r.value.levels[k] == HexRow(Levels(H, leaves)[k]))
      && r.value.root == Hex.EncodeToString(Root(H, leaves))
  {
    if |txids| == 0 {
      return Failure(NoTransactions);
    }
    var leaves: seq<Bytes> := [];
    for i := 0 to |txids|
      invariant AllHex(txids[..i]) && leaves == LeavesOf(txids[..i])
    {
      if !Hex.IsHex(txids[i]) {
        return Failure(InvalidTxid(txids[i]));
      }
      leaves := leaves + [Hex.HexBytes(txids[i])];
      assert txids[..i + 1] == txids[..i] + [txids[i]];
      assert AllHex(txids[..i + 1]);
    }
    assert txids[..|txids|] == txids;
    var allLevels := BuildLevels(H, leaves);
    var levels: seq<seq<string>> := [];
    for k := 0 to |allLevels|
      invariant |levels| == k && forall j :: 0 <= j < k ==> levels[j] == HexRow(allLevels[j])
    {
      levels := levels + [HexRow(allLevels[k])];
    }
    return Success(MerkleTree(levels[|levels| - 1][0], levels));
  }

  method BuildLevels(H: Bytes -> Digest, leaves: seq<Bytes>) returns (allLevels: seq<seq<Bytes>>)
    requires leaves != []
    ensures allLevels == Levels(H, leaves) && allLevels[|allLevels| - 1] == [Root(H, leaves)]
  {
    WidthAtHeight(|leaves|);
    assert Row(H, leaves, 0) == leaves;
    var currentLevel := leaves;
    allLevels := [leaves];
    ghost var k := 0;
    while |currentLevel| > 1
      invariant k <= Height(|leaves|) && currentLevel == Row(H, leaves, k)
      invariant |allLevels| == k + 1 && forall j :: 0 <= j <= k ==> allLevels[j] == Row(H, leaves, j)
      decreases |currentLevel|
    {
      var nextLevel := NextLevel(H, currentLevel, leaves, k);
      k := k + 1;
      allLevels := allLevels + [nextLevel];
      currentLevel := nextLevel;
    }
    assert k == Height(|leaves|);
    assert allLevels == Levels(H, leaves);
  }

  method NextLevel(H: Bytes -> Digest, currentLevel: seq<Bytes>, ghost leaves: seq<Bytes>, ghost k: nat)
    returns (nextLevel: seq<Bytes>)
    requires currentLevel == Row(H, leaves, k)
    ensures nextLevel == Row(H, leaves, k + 1)
  {
    nextLevel := [];
    var i := 0;
    while i < |currentLevel|
      invariant i == 2 * |nextLevel| && |nextLevel| <= Width(|leaves|, k + 1)
      invariant forall j :: 0 <= j < |nextLevel| ==> nextLevel[j] == Node(H, leaves, k + 1, j)
    {
      var hash1 := currentLevel[i];
      var hash2 := if i + 1 < |currentLevel| then currentLevel[i + 1] else hash1;
      nextLevel := nextLevel + [H(hash1 + hash2)];
      i := i + 2;
    }
  }

  // ---------------------------------------------------------------- facts about the root

  lemma PairedWidth(H: Bytes -> Digest, leaves: seq<Bytes>, k: nat)
    ensures Width(|Row(H, leaves, 1)|, k) == Width(|leaves|, k + 1)
  {
    assert Width(|leaves|, 1) == (|leaves| + 1) / 2;
    WidthShift(|leaves|, k);
  }

  /** The tree over the second row is the upper part of the tree over the leaves. */
  lemma {:induction false} NodeShift(H: Bytes -> Digest, leaves: seq<Bytes>, k: nat, i: nat)
    requires i < Width(|leaves|, k + 1)
    ensures i < Width(|Row(H, leaves, 1)|, k)
    ensures Node(H, Row(H, leaves, 1), k, i) == Node(H, leaves, k + 1, i)
  {
    PairedWidth(H, leaves, k);
    hide Row, Node, Width;
    if k == 0 {
      NodeUnfolds(H, Row(H, leaves, 1), 0, i);
    } else {
      PairedWidth(H, leaves, k - 1);
      NodeUnfolds(H, leaves, k + 1, i);
      NodeUnfolds(H, Row(H, leaves, 1), k, i);
      NodeShift(H, leaves, k - 1, 2 * i);
      if 2 * i + 1 < Width(|leaves|, k) {
        NodeShift(H, leaves, k - 1, 2 * i + 1);
      }
    }
  }

  /** The usual recursive reading: one leaf is its own root, otherwise the root of the paired row. */
  lemma RootUnfolds(H: Bytes -> Digest, leaves: seq<Bytes>)
    requires |leaves| > 0
    ensures |leaves| == 1 ==> Root(H, leaves) == leaves[0]
    ensures |leaves| > 1 ==> |Row(H, leaves, 1)| > 0 && Root(H, leaves) == Root(H, Row(H, leaves, 1))
  {
    WidthAtHeight(|leaves|);
    if |leaves| > 1 {
      assert Width(|leaves|, 1) == (|leaves| + 1) / 2;
      NodeShift(H, leaves, Height(|leaves|) - 1, 0);
    }
  }

  /** A row hashed in pairs, an odd last element with itself. */
  function Paired(H: Bytes -> Digest, row: seq<Bytes>): (r: seq<Bytes>)
    ensures |r| == (|row| + 1) / 2
  {
    seq((|row| + 1) / 2, i requires 0 <= i < (|row| + 1) / 2 =>
      if 2 * i + 1 < |row| then H(row[2 * i] + row[2 * i + 1]) else H(row[2 * i] + row[2 * i]))
  }

  lemma RowIsPaired(H: Bytes -> Digest, leaves: seq<Bytes>)
    ensures Row(H, leaves, 1) == Paired(H, leaves)
  {
    assert Width(|leaves|, 1) == (|leaves| + 1) / 2;
    forall i | 0 <= i < (|leaves| + 1) / 2 ensures Row(H, leaves, 1)[i] == Paired(H, leaves)[i] {
      NodeUnfolds(H, leaves, 1, i);
      NodeUnfolds(H, leaves, 0, 2 * i);
      if 2 * i + 1 < |leaves| { NodeUnfolds(H, leaves, 0, 2 * i + 1); }
    }
  }

  /** The other half of the pair at every level above element i. */
  function Branch(H: Bytes -> Digest, row: seq<Bytes>, i: nat): (siblings: seq<Bytes>)
    requires i < |row|
    decreases |row|
  {
    if |row| == 1 then []
    else [Sibling(row, i)] + Branch(H, Paired(H, row), i / 2)
  }

  function Sibling(row: seq<Bytes>, i: nat): Bytes
    requires i < |row|
  {
    if i % 2 == 1 then row[i - 1] else if i + 1 < |row| then row[i + 1] else row[i]
  }

  /** Hashing upwards: the siblings stand to the right where the bit of the index is 0, and to the left where it
      is 1. */
  function Climb(H: Bytes -> Digest, x: Bytes, i: nat, siblings: seq<Bytes>): Bytes
    decreases |siblings|
  {
    if siblings == [] then x
    else Climb(H, if i % 2 == 0 then H(x + siblings[0]) else H(siblings[0] + x), i / 2, siblings[1..])
  }

  /** Every leaf leads to the root: hashed with the siblings of its branch from the bottom up, with as many steps as
      the tree is high, it gives the root of the tree. */
  lemma {:induction false} BranchProves(H: Bytes -> Digest, leaves: seq<Bytes>, i: nat)
    requires i < |leaves|
    ensures |Branch(H, leaves, i)| == Height(|leaves|)
    ensures Climb(H, leaves[i], i, Branch(H, leaves, i)) == Root(H, leaves)
    decreases |leaves|
  {
    hide Root, Row, Branch, Climb, Paired;
    RootUnfolds(H, leaves);
    BranchStep(H, leaves, i);
    if |leaves| > 1 {
      RowIsPaired(H, leaves);
      BranchProves(H, Paired(H, leaves), i / 2);
    }
  }

  lemma BranchStep(H: Bytes -> Digest, row: seq<Bytes>, i: nat)
    requires i < |row|
    ensures |row| == 1 ==> Branch(H, row, i) == [] && Climb(H, row[i], i, []) == row[i]
    ensures |row| > 1 ==>
      var above, branch := Paired(H, row), Branch(H, row, i);
      && i / 2 < |above| && |branch| == 1 + |Branch(H, above, i / 2)|
      && Climb(H, row[i], i, branch) == Climb(H, above[i / 2], i / 2, Branch(H, above, i / 2))
  {
    if |row| > 1 {
      hide Paired, Climb;
      var above, sibling := Paired(H, row), Sibling(row, i);
      PairOf(H, row, i);
      ClimbOne(H, row[i], i, sibling, Branch(H, above, i / 2));
    }
  }

  /** An element and its sibling, in the order of the row, make the element above them. */
  lemma PairOf(H: Bytes -> Digest, row: seq<Bytes>, i: nat)
    requires i < |row|
    ensures i / 2 < |Paired(H, row)|
    ensures Paired(H, row)[i / 2] == if i % 2 == 0 then H(row[i] + Sibling(row, i)) else H(Sibling(row, i) + row[i])
  {
    if i % 2 == 0 {
      assert 2 * (i / 2) == i;
    } else {
      assert 2 * (i / 2) + 1 == i;
    }
  }

  lemma ClimbOne(H: Bytes -> Digest, x: Bytes, i: nat, sibling: Bytes, rest: seq<Bytes>)
    ensures Climb(H, x, i, [sibling] + rest)
         == Climb(H, if i % 2 == 0 then H(x + sibling) else H(sibling + x), i / 2, rest)
  {
    assert ([sibling] + rest)[1..] == rest;
  }

  /** Repeating the last leaf of an odd row leaves the root unchanged. */
  lemma DuplicatedTail(H: Bytes -> Digest, leaves: seq<Bytes>)
    requires |leaves| > 1 && |leaves| % 2 == 1
    ensures Root(H, leaves + [leaves[|leaves| - 1]]) == Root(H, leaves)
  {
    var longer := leaves + [leaves[|leaves| - 1]];
    RootUnfolds(H, leaves);
    RootUnfolds(H, longer);
    assert Width(|leaves|, 1) == Width(|longer|, 1) == (|leaves| + 1) / 2;
    forall i | 0 <= i < |Row(H, leaves, 1)| ensures Row(H, leaves, 1)[i] == Row(H, longer, 1)[i] {
      assert Node(H, longer, 0, 2 * i) == Node(H, leaves, 0, 2 * i);
      NodeUnfolds(H, leaves, 1, i);
      NodeUnfolds(H, longer, 1, i);
    }
    assert Row(H, leaves, 1) == Row(H, longer, 1);
  }

  /** The miner's fold over a block gives the root of its leaves; given the same leaves in hex, the explorer's levels
      are their rows, the last of which holds that root alone. */
  method RootsAgree(H: Bytes -> Digest, coinbase: Bytes, txids: seq<Digest>) returns (root: Digest, tree: MerkleTree)
    ensures root == Root(H, [H(coinbase)] + txids) && tree.root == Hex.EncodeToString(root)
    ensures |tree.levels| == Height(1 + |txids|) + 1 && tree.levels[|tree.levels| - 1] == [tree.root]
    ensures forall k :: 0 <= k < |tree.levels| ==> tree.levels[k] == HexRow(Row(H, [H(coinbase)] + txids, k))
  {
    var leaves: seq<Bytes> := [H(coinbase)] + txids;
    var ids := HexRow(leaves);
    forall i | 0 <= i < |leaves| ensures Hex.IsHex(ids[i]) && Hex.HexBytes(ids[i]) == leaves[i] {
      Hex.HexRoundTrip(leaves[i]);
    }
    assert LeavesOf(ids) == leaves;
    root := BlockMerkleRoot(H, coinbase, txids);
    var r := CalculateMerkleTree(H, ids);
    tree := r.value;
    WidthAtHeight(|leaves|);
  }
}
