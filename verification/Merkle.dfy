/** The Merkle tree of blockchain/src/merkle.ts. The Keccak hash is a parameter: nothing is assumed about it
    except that it writes 32 bytes in lower-case hexadecimal, and where a theorem needs two nodes with equal
    hashes to be equal, it names the two different preimages instead. */
module Merkle {
  import opened Hexadecimal
  import opened Powers
  import opened Wrappers

  predicate IsHexDigit(c: char) { '0' <= c <= '9' || 'a' <= c <= 'f' || 'A' <= c <= 'F' }

  predicate IsHex32(s: string) {
    |s| == 66 && s[0] == '0' && s[1] == 'x' && forall i :: 2 <= i < 66 ==> IsHexDigit(s[i])
  }

  type Hex32 = s: string | IsHex32(s)
    witness seq(66, i => if i == 1 then 'x' else '0')

  function LowerChar(c: char): char {
    if 'A' <= c <= 'Z' then (c as int - 'A' as int + 'a' as int) as char else c
  }

  function Lower(s: Hex32): (r: Hex32) {
    seq(66, i requires 0 <= i < 66 => LowerChar(s[i]))
  }

  /** Values already in lower case, as hash results and stored nodes are. */
  type Node = s: Hex32 | Lower(s) == s
    witness seq(66, i => if i == 1 then 'x' else '0')

  /** keccak256 on packed bytes, both written in hexadecimal. */
  type Hash = string -> Node

  lemma LowerTwice(s: Hex32)
    ensures Lower(Lower(s)) == Lower(s)
  {
  }

  function LowerNode(s: Hex32): (r: Node) {
    LowerTwice(s);
    Lower(s)
  }

  // ---- hashing a pair ----

  /** Two 32-byte values packed without their prefixes. */
  function Pack(a: Hex32, b: Hex32): string { a[2..] + b[2..] }

  function SortedPack(left: Hex32, right: Hex32): string {
    var a, b := Lower(left), Lower(right);
    if LexLe(a, b) then Pack(a, b) else Pack(b, a)
  }

  function HashPair(h: Hash, left: Hex32, right: Hex32): Node { h(SortedPack(left, right)) }

  /** Pair hashing ignores the order and the letter case of its arguments. */
  lemma HashPairCommutes(h: Hash, left: Hex32, right: Hex32)
    ensures HashPair(h, left, right) == HashPair(h, right, left)
    ensures HashPair(h, Lower(left), Lower(right)) == HashPair(h, left, right)
  {
    LexOrder(Lower(left), Lower(right));
    LowerTwice(left);
    LowerTwice(right);
  }

  lemma PackInjective(a: Hex32, b: Hex32, c: Hex32, d: Hex32)
    requires Pack(a, b) == Pack(c, d)
    ensures a == c && b == d
  {
    assert Pack(a, b)[..64] == a[2..] && Pack(c, d)[..64] == c[2..];
    assert Pack(a, b)[64..] == b[2..] && Pack(c, d)[64..] == d[2..];
    assert a == "0x" + a[2..] && b == "0x" + b[2..] && c == "0x" + c[2..] && d == "0x" + d[2..];
  }

  /** Equal preimages come from the same two nodes, in one order or the other. */
  lemma SamePreimage(a: Node, b: Node, c: Node, d: Node)
    requires SortedPack(a, b) == SortedPack(c, d)
    ensures (a == c && b == d) || (a == d && b == c)
  {
    hide Pack, LexLe;
    var (p, q) := if LexLe(a, b) then (a, b) else (b, a);
    var (r, s) := if LexLe(c, d) then (c, d) else (d, c);
    PackInjective(p, q, r, s);
  }

  // ---- what is hashed ----

  lemma NodesAreLowerHex(a: Node)
    ensures IsLowerHex(a[2..])
  {
    forall i | 2 <= i < 66 ensures '0' <= a[i] <= '9' || 'a' <= a[i] <= 'f' {
      assert IsHexDigit(a[i]) && LowerChar(a[i]) == Lower(a)[i] == a[i];
    }
  }

  /** p holds the values of l and r as 64 lower-case digits each, the smaller value first. */
  predicate OrderedPair(p: string, l: Hex32, r: Hex32) {
    && |p| == 128 && IsLowerHex(p) && Number(p[..64]) <= Number(p[64..])
    && ((Number(p[..64]) == Number(l[2..]) && Number(p[64..]) == Number(r[2..]))
        || (Number(p[..64]) == Number(r[2..]) && Number(p[64..]) == Number(l[2..])))
  }

  lemma {:induction false} SameDigitsSameNumber(a: string, b: string)
    requires |a| == |b| && forall i :: 0 <= i < |a| ==> Digit(a[i]) == Digit(b[i])
    ensures Number(a) == Number(b)
  {
    if a != "" {
      SameDigitsSameNumber(a[1..], b[1..]);
    }
  }

  /** Lower case changes no digit. */
  lemma LowerKeepsNumber(s: Hex32)
    ensures Number(Lower(s)[2..]) == Number(s[2..])
  {
    forall i | 2 <= i < 66 ensures Digit(Lower(s)[i]) == Digit(s[i]) {
      assert IsHexDigit(s[i]);
    }
    SameDigitsSameNumber(Lower(s)[2..], s[2..]);
  }

  lemma PackedPair(a: Node, b: Node)
    requires LexLe(a, b)
    ensures OrderedPair(Pack(a, b), a, b)
  {
    var p := Pack(a, b);
    assert p[..64] == a[2..] && p[64..] == b[2..];
    NodesAreLowerHex(a);
    NodesAreLowerHex(b);
    assert forall i :: 0 <= i < 128 ==> p[i] == if i < 64 then a[2..][i] else b[2..][i - 64];
    NodeLexIsNumeric(a, b);
  }

  lemma NodeLexIsNumeric(a: Node, b: Node)
    ensures LexLe(a, b) <==> Number(a[2..]) <= Number(b[2..])
  {
    NodesAreLowerHex(a);
    NodesAreLowerHex(b);
    LexIsNumeric(a[2..], b[2..]);
    assert a[1..][1..] == a[2..] && b[1..][1..] == b[2..];
    assert LexLe(a, b) == LexLe(a[1..], b[1..]);
    assert LexLe(a[1..], b[1..]) == LexLe(a[2..], b[2..]);
  }

  /** A pair is hashed as its two values in ascending order; there is exactly one such text. */
  lemma HashPairPreimage(h: Hash, l: Hex32, r: Hex32, p: string)
    ensures OrderedPair(SortedPack(l, r), l, r)
    ensures OrderedPair(p, l, r) ==> p == SortedPack(l, r) && HashPair(h, l, r) == h(p)
  {
    var a, b := LowerNode(l), LowerNode(r);
    LexOrder(a, b);
    LowerKeepsNumber(l);
    LowerKeepsNumber(r);
    if LexLe(a, b) {
      PackedPair(a, b);
    } else {
      PackedPair(b, a);
    }
    hide SortedPack, Number, LexLe, Lower;
    if OrderedPair(p, l, r) {
      OnePairText(p, SortedPack(l, r), l, r);
    }
  }

  lemma OnePairText(p: string, q: string, l: Hex32, r: Hex32)
    requires OrderedPair(p, l, r) && OrderedPair(q, l, r)
    ensures p == q
  {
    hide Number;
    NumberDetermines(p[..64], q[..64]);
    NumberDetermines(p[64..], q[64..]);
    assert p == p[..64] + p[64..] && q == q[..64] + q[64..];
  }

  /** Two different preimages with one hash. */
  predicate Collision(h: Hash, c: (string, string)) { c.0 != c.1 && h(c.0) == h(c.1) }

  // ---- the layers ----

  /** The index paired with index i in a layer of n nodes: its neighbour, or i itself at an odd end. */
  function SiblingIndex(n: nat, i: nat): (s: nat)
    requires i < n
    ensures s < n && s / 2 == i / 2
  {
    var s := if i % 2 == 0 then i + 1 else i - 1;
    if s < n then s else i
  }

  function Sibling(layer: seq<Node>, i: nat): Node
    requires i < |layer|
  {
    layer[SiblingIndex(|layer|, i)]
  }

  function NextLayer(h: Hash, layer: seq<Node>): (next: seq<Node>)
    ensures |next| == (|layer| + 1) / 2
  {
    seq((|layer| + 1) / 2, j requires 0 <= j < (|layer| + 1) / 2 => HashPair(h, layer[2 * j], Sibling(layer, 2 * j)))
  }

  function Layers(h: Hash, layer: seq<Node>): (layers: seq<seq<Node>>)
    requires layer != []
    ensures |layers| > 0
    decreases |layer|
  {
    if |layer| == 1 then [layer] else [layer] + Layers(h, NextLayer(h, layer))
  }

  predicate Above(h: Hash, layers: seq<seq<Node>>, m: nat)
    requires m + 1 < |layers|
  {
    |layers[m]| > 1 && layers[m + 1] == NextLayer(h, layers[m])
  }

  /** Layers of one tree, leaves first, root last. */
  ghost predicate IsTree(h: Hash, layers: seq<seq<Node>>) {
    |layers| > 0 && |layers[|layers| - 1]| == 1
    && forall m: nat :: m + 1 < |layers| ==> Above(h, layers, m)
  }

  function Depth(layers: seq<seq<Node>>): nat
    requires |layers| > 0
  {
    |layers| - 1
  }

  function Root(layers: seq<seq<Node>>): Node
    requires |layers| > 0 && |layers[|layers| - 1]| == 1
  {
    layers[|layers| - 1][0]
  }

  lemma {:induction false} LayersFormTree(h: Hash, layer: seq<Node>)
    requires layer != []
    ensures IsTree(h, Layers(h, layer)) && Layers(h, layer)[0] == layer
    decreases |layer|
  {
    if |layer| > 1 {
      var layers, rest := Layers(h, layer), Layers(h, NextLayer(h, layer));
      LayersFormTree(h, NextLayer(h, layer));
      forall m: nat | m + 1 < |layers| ensures Above(h, layers, m) {
        if m > 0 {
          assert Above(h, rest, m - 1);
        }
      }
    }
  }

  /** How many halvings, rounding up, take n to 1. */
  function CeilLog2(n: nat): nat
    requires n > 0
  {
    if n == 1 then 0 else 1 + CeilLog2((n + 1) / 2)
  }

  lemma {:induction false} CeilLog2Bounds(n: nat)
    requires n > 0
    ensures n <= Pow2(CeilLog2(n))
    ensures n > 1 ==> Pow2(CeilLog2(n) - 1) < n
  {
    if n > 1 {
      CeilLog2Bounds((n + 1) / 2);
    }
  }

  lemma {:induction false} DepthIsCeilLog2(h: Hash, layer: seq<Node>)
    requires layer != []
    ensures Depth(Layers(h, layer)) == CeilLog2(|layer|)
    decreases |layer|
  {
    if |layer| > 1 {
      DepthIsCeilLog2(h, NextLayer(h, layer));
    }
  }

  /** Each node is the hash of its two children in ascending order; an odd last child is its own partner. */
  lemma NodeIsHash(h: Hash, layers: seq<seq<Node>>, m: nat, j: nat, p: string)
    requires IsTree(h, layers) && m + 1 < |layers| && j < |layers[m + 1]|
    ensures |layers[m + 1]| == (|layers[m]| + 1) / 2
    ensures var l, r := layers[m][2 * j], layers[m][if 2 * j + 1 < |layers[m]| then 2 * j + 1 else 2 * j];
      OrderedPair(p, l, r) ==> layers[m + 1][j] == h(p)
  {
    hide OrderedPair, HashPair;
    assert Above(h, layers, m);
    HashPairPreimage(h, layers[m][2 * j], Sibling(layers[m], 2 * j), p);
  }

  /** The root over two leaves. */
  lemma TwoLeafRoot(h: Hash, a: Node, b: Node, p: string)
    requires |p| == 128 && {p[..64], p[64..]} == {a[2..], b[2..]} && Number(p[..64]) <= Number(p[64..])
    ensures var layers := Layers(h, [a, b]);
      IsTree(h, layers) && |layers| == 2 && Root(layers) == h(p)
  {
    NodesAreLowerHex(a);
    NodesAreLowerHex(b);
    var x, y := p[..64], p[64..];
    assert x in {a[2..], b[2..]} && y in {a[2..], b[2..]} && a[2..] in {x, y} && b[2..] in {x, y};
    assert forall i :: 0 <= i < 128 ==> p[i] == if i < 64 then x[i] else y[i - 64];
    LayersFormTree(h, [a, b]);
    var layers := Layers(h, [a, b]);
    DepthIsCeilLog2(h, [a, b]);
    hide Number, Layers;
    NodeIsHash(h, layers, 0, 0, p);
  }

  // ---- the code ----

  datatype Tree = Tree(root: Node, leaves: seq<Node>, layers: seq<seq<Node>>)

  function LowerLeaves(leaves: seq<Hex32>): (r: seq<Node>)
    ensures |r| == |leaves|
  {
    seq(|leaves|, i requires 0 <= i < |leaves| => LowerNode(leaves[i]))
  }

  lemma LeavesKeepNumbers(leaves: seq<Hex32>)
    ensures forall i :: 0 <= i < |leaves| ==> Number(LowerLeaves(leaves)[i][2..]) == Number(leaves[i][2..])
  {
    hide Number;
    forall i | 0 <= i < |leaves| ensures Number(LowerLeaves(leaves)[i][2..]) == Number(leaves[i][2..]) {
      LowerKeepsNumber(leaves[i]);
    }
  }

  method NextLayerOf(h: Hash, current: seq<Node>) returns (next: seq<Node>)
    ensures next == NextLayer(h, current)
  {
    next := [];
    var i := 0;
    while i < |current|
      invariant i % 2 == 0 && i <= |current| + 1
      invariant next == NextLayer(h, current)[..i / 2]
    {
      if i + 1 < |current| {
        next := next + [HashPair(h, current[i], current[i + 1])];
      } else {
        next := next + [HashPair(h, current[i], current[i])];
      }
      i := i + 2;
    }
  }

  lemma LayersUnfold(h: Hash, layer: seq<Node>)
    requires layer != []
    ensures Layers(h, layer) == if |layer| == 1 then [layer] else [layer] + Layers(h, NextLayer(h, layer))
  {
  }

  lemma TreeRoot(h: Hash, layers: seq<seq<Node>>)
    requires IsTree(h, layers)
    ensures |layers| > 0 && |layers[|layers| - 1]| == 1
  {
  }

  lemma NextLayerSize(h: Hash, xs: seq<Node>)
    ensures |NextLayer(h, xs)| == (|xs| + 1) / 2
  {
  }

  method BuildMerkleTree(h: Hash, leaves: seq<Hex32>) returns (r: Result<Tree, string>)
    ensures r.Err? <==> leaves == []
    ensures r.Ok? ==> r.value.leaves == LowerLeaves(leaves) && r.value.layers == Layers(h, r.value.leaves)
    ensures r.Ok? ==> IsTree(h, r.value.layers) && r.value.root == Root(r.value.layers)
    ensures r.Ok? ==>
              && |r.value.leaves| == |leaves|
              && forall i :: 0 <= i < |leaves| ==> Number(r.value.leaves[i][2..]) == Number(leaves[i][2..])
  {
    LeavesKeepNumbers(leaves);
    hide NextLayer, LowerLeaves, Layers, IsTree, Number;
    if |leaves| == 0 {
      return Err("Merkle tree requires at least one message leaf");
    }
    var layers := [LowerLeaves(leaves)];
    LayersFormTree(h, layers[0]);
    TreeRoot(h, Layers(h, layers[0]));
    ghost var whole := Layers(h, layers[0]);
    while |layers[|layers| - 1]| > 1
      invariant |layers| > 0 && layers[|layers| - 1] != [] && layers[0] == LowerLeaves(leaves)
      invariant whole == layers[..|layers| - 1] + Layers(h, layers[|layers| - 1])
      decreases |layers[|layers| - 1]|
    {
      var next := NextLayerOf(h, layers[|layers| - 1]);
      LayersUnfold(h, layers[|layers| - 1]);
      NextLayerSize(h, layers[|layers| - 1]);
      layers := layers + [next];
    }
    LayersUnfold(h, layers[|layers| - 1]);
    assert whole == layers;
    r := Ok(Tree(layers[|layers| - 1][0], layers[0], layers));
  }

  /** Halving index once per layer stays inside the layers. */
  predicate Reaches(layers: seq<seq<Node>>, index: nat) {
    |layers| > 0 && index < |layers[0]| && (|layers| > 1 ==> Reaches(layers[1..], index / 2))
  }

  /** The siblings on the way up from node index of the first layer. */
  function ProofFrom(layers: seq<seq<Node>>, index: nat): (proof: seq<Node>)
    requires Reaches(layers, index)
    ensures |proof| == |layers| - 1
  {
    if |layers| == 1 then [] else [Sibling(layers[0], index)] + ProofFrom(layers[1..], index / 2)
  }

  method GetProof(h: Hash, tree: Tree, leafIndex: int) returns (r: Result<seq<Node>, string>)
    requires IsTree(h, tree.layers) && |tree.leaves| == |tree.layers[0]|
    ensures r.Ok? <==> 0 <= leafIndex < |tree.leaves|
    ensures r.Ok? ==> Reaches(tree.layers, leafIndex) && r.value == ProofFrom(tree.layers, leafIndex)
  {
    if leafIndex < 0 || leafIndex >= |tree.leaves| {
      return Err("Leaf index out of range");
    }
    var proof: seq<Node> := [];
    var index: nat := leafIndex;
    TreeReaches(h, tree.layers, index);
    assert tree.layers[0..] == tree.layers;
    for layer := 0 to |tree.layers| - 1
      invariant Reaches(tree.layers[layer..], index)
      invariant proof + ProofFrom(tree.layers[layer..], index) == ProofFrom(tree.layers, leafIndex)
    {
      ghost var rest := tree.layers[layer..];
      assert rest[0] == tree.layers[layer] && rest[1..] == tree.layers[layer + 1..];
      var layerNodes := tree.layers[layer];
      var siblingIndex := if index % 2 == 0 then index + 1 else index - 1;
      if siblingIndex < |layerNodes| {
        proof := proof + [layerNodes[siblingIndex]];
      } else {
        proof := proof + [layerNodes[index]];
      }
      index := index / 2;
    }
    r := Ok(proof);
  }

  /** The running hash after all siblings of proof. */
  function Fold(h: Hash, v: Node, proof: seq<Hex32>): Node
    decreases |proof|
  {
    if proof == [] then v else Fold(h, HashPair(h, v, proof[0]), proof[1..])
  }

  predicate Verifies(h: Hash, root: Hex32, leaf: Hex32, proof: seq<Hex32>) {
    Fold(h, LowerNode(leaf), proof) == Lower(root)
  }

  /** Root and leaf are compared in any letter case. */
  lemma VerifiesInAnyCase(h: Hash, root: Hex32, root2: Hex32, leaf: Hex32, leaf2: Hex32, proof: seq<Hex32>)
    requires Number(root[2..]) == Number(root2[2..]) && Number(leaf[2..]) == Number(leaf2[2..])
    ensures Verifies(h, root, leaf, proof) == Verifies(h, root2, leaf2, proof)
  {
    SameNumberSameLower(root, root2);
    SameNumberSameLower(leaf, leaf2);
    hide Fold, Number, Lower;
  }

  lemma SameNumberSameLower(s: Hex32, t: Hex32)
    requires Number(s[2..]) == Number(t[2..])
    ensures LowerNode(s) == LowerNode(t) == Lower(t) == Lower(s)
  {
    var a, b := LowerNode(s), LowerNode(t);
    LowerKeepsNumber(s);
    LowerKeepsNumber(t);
    NodesAreLowerHex(a);
    NodesAreLowerHex(b);
    hide Number, Lower;
    NumberDetermines(a[2..], b[2..]);
    assert a == a[..2] + a[2..] && b == b[..2] + b[2..] && a[..2] == b[..2] by {
      assert a[0] == '0' && a[1] == 'x' && b[0] == '0' && b[1] == 'x';
    }
  }

  /** verifyMerkleProof, and verifyProof of a built tree with that tree's root. */
  method VerifyMerkleProof(h: Hash, root: Hex32, leaf: Hex32, proof: seq<Hex32>) returns (ok: bool)
    ensures ok == Verifies(h, root, leaf, proof)
  {
    hide HashPair, Lower;
    var computed: Hex32 := Lower(leaf);
    LowerTwice(leaf);
    assert proof[0..] == proof;
    for i := 0 to |proof|
      invariant Lower(computed) == computed
      invariant Fold(h, computed, proof[i..]) == Fold(h, LowerNode(leaf), proof)
    {
      HashPairCommutes(h, computed, proof[i]);
      PairOfLowered(h, computed, proof[i]);
      assert proof[i..][1..] == proof[i + 1..];
      computed := HashPair(h, computed, Lower(proof[i]));
    }
    ok := Lower(computed) == Lower(root);
  }

  lemma PairOfLowered(h: Hash, left: Hex32, right: Hex32)
    ensures HashPair(h, left, Lower(right)) == HashPair(h, left, right)
  {
    LowerTwice(right);
  }

  // ---- completeness ----

  /** The index k layers above index. */
  function Up(index: nat, k: nat): nat { if k == 0 then index else Up(index / 2, k - 1) }

  lemma {:induction false} UpIsDivision(index: nat, k: nat)
    ensures Up(index, k) == index / Pow2(k)
  {
    if k > 0 {
      UpIsDivision(index / 2, k - 1);
      HalvedDivision(index, Pow2(k - 1));
    }
  }

  lemma {:induction false} TreeTail(h: Hash, layers: seq<seq<Node>>, m: nat)
    requires IsTree(h, layers) && m < |layers|
    ensures IsTree(h, layers[m..])
  {
    var rest := layers[m..];
    forall k: nat | k + 1 < |rest| ensures Above(h, rest, k) {
      assert Above(h, layers, m + k);
    }
  }

  lemma {:induction false} TreeReaches(h: Hash, layers: seq<seq<Node>>, index: nat)
    requires IsTree(h, layers) && index < |layers[0]|
    ensures Reaches(layers, index)
    decreases |layers|
  {
    if |layers| > 1 {
      assert Above(h, layers, 0);
      TreeTail(h, layers, 1);
      TreeReaches(h, layers[1..], index / 2);
    }
  }

  /** Hashing a node with its sibling gives the node above, from either side. */
  lemma SiblingsHashUp(h: Hash, layer: seq<Node>, i: nat)
    requires i < |layer|
    ensures HashPair(h, layer[i], Sibling(layer, i)) == NextLayer(h, layer)[i / 2]
  {
    hide HashPair;
    HashPairCommutes(h, layer[i], Sibling(layer, i));
  }

  /** The running hash after k siblings is node i / 2^k of layer k. */
  lemma {:induction false} FoldClimbs(h: Hash, layers: seq<seq<Node>>, i: nat, k: nat)
    requires IsTree(h, layers) && i < |layers[0]| && k < |layers|
    ensures Reaches(layers, i) && Up(i, k) < |layers[k]|
    ensures Fold(h, layers[0][i], ProofFrom(layers, i)[..k]) == layers[k][Up(i, k)]
    decreases k
  {
    hide Sibling, NextLayer, HashPair;
    TreeReaches(h, layers, i);
    if k > 0 {
      var proof, rest := ProofFrom(layers, i), layers[1..];
      assert Above(h, layers, 0);
      TreeTail(h, layers, 1);
      FoldClimbs(h, rest, i / 2, k - 1);
      SiblingsHashUp(h, layers[0], i);
      assert proof[..k][1..] == ProofFrom(rest, i / 2)[..k - 1];
    }
  }

  /** Every node of a tree verifies with the siblings above it; the proof of a node of layer m has one
      entry per layer above it. */
  lemma NodeVerifies(h: Hash, layers: seq<seq<Node>>, m: nat, i: nat)
    requires IsTree(h, layers) && m < |layers| && i < |layers[m]|
    ensures Reaches(layers[m..], i)
    ensures |ProofFrom(layers[m..], i)| == Depth(layers) - m
    ensures Verifies(h, Root(layers), layers[m][i], ProofFrom(layers[m..], i))
  {
    var rest := layers[m..];
    TreeTail(h, layers, m);
    FoldClimbs(h, rest, i, |rest| - 1);
    assert ProofFrom(rest, i)[..|rest| - 1] == ProofFrom(rest, i);
  }

  /** Completeness: every leaf, in any letter case, verifies with its proof of ceil(log2 n) siblings. */
  lemma LeafVerifies(h: Hash, leaves: seq<Hex32>, i: nat)
    requires i < |leaves|
    ensures IsTree(h, Layers(h, LowerLeaves(leaves))) && Reaches(Layers(h, LowerLeaves(leaves)), i)
    ensures var layers := Layers(h, LowerLeaves(leaves));
      |ProofFrom(layers, i)| == CeilLog2(|leaves|) && Verifies(h, Root(layers), leaves[i], ProofFrom(layers, i))
  {
    var layers := Layers(h, LowerLeaves(leaves));
    LayersFormTree(h, LowerLeaves(leaves));
    DepthIsCeilLog2(h, LowerLeaves(leaves));
    NodeVerifies(h, layers, 0, i);
    assert layers[0..] == layers;
    LowerTwice(leaves[i]);
  }

  // ---- soundness ----

  lemma {:induction false} FoldLast(h: Hash, v: Node, proof: seq<Hex32>)
    requires proof != []
    ensures Fold(h, v, proof) == HashPair(h, Fold(h, v, proof[..|proof| - 1]), proof[|proof| - 1])
    decreases |proof|
  {
    hide HashPair;
    if |proof| > 1 {
      FoldLast(h, HashPair(h, v, proof[0]), proof[1..]);
      assert proof[1..][..|proof| - 2] == proof[..|proof| - 1][1..];
    }
  }

  lemma {:induction false} FoldSplit(h: Hash, v: Node, proof: seq<Hex32>, k: nat)
    requires k <= |proof|
    ensures Fold(h, v, proof) == Fold(h, Fold(h, v, proof[..k]), proof[k..])
    decreases k
  {
    hide HashPair;
    if k == 0 {
      assert proof[0..] == proof;
    } else {
      FoldSplit(h, HashPair(h, v, proof[0]), proof[1..], k - 1);
      assert proof[1..][..k - 1] == proof[..k][1..] && proof[1..][k - 1..] == proof[k..];
    }
  }

  lemma ChildrenInRange(h: Hash, layers: seq<seq<Node>>, m: nat, j: nat)
    requires IsTree(h, layers) && 0 < m < |layers| && j < |layers[m]|
    ensures 2 * j < |layers[m - 1]|
    ensures layers[m][j] == HashPair(h, layers[m - 1][2 * j], Sibling(layers[m - 1], 2 * j))
  {
    hide HashPair, Sibling;
    assert Above(h, layers, m - 1);
  }

  /** Walks down from node j of layer m beside a proof run that ended there, to the first level where the
      run hashed a different preimage than the tree did; None when there is none. */
  function ForgedPreimage(h: Hash, layers: seq<seq<Node>>, m: nat, j: nat, v: Node, proof: seq<Hex32>):
      Option<(string, string)>
    requires IsTree(h, layers) && |proof| <= m < |layers| && j < |layers[m]|
    decreases m
  {
    if proof == [] then None
    else
      ChildrenInRange(h, layers, m, j);
      var run := proof[..|proof| - 1];
      var computed, below := Fold(h, v, run), layers[m - 1];
      var p := SortedPack(computed, proof[|proof| - 1]);
      var q := SortedPack(below[2 * j], Sibling(below, 2 * j));
      if p != q then Some((p, q))
      else if computed == below[2 * j] then ForgedPreimage(h, layers, m - 1, 2 * j, v, run)
      else ForgedPreimage(h, layers, m - 1, SiblingIndex(|below|, 2 * j), v, run)
  }

  /** A run of k siblings that ends at node j of layer m started at a node of layer m - k below node j, or
      two preimages collide. */
  lemma {:induction false} RunStartsInTree(h: Hash, layers: seq<seq<Node>>, m: nat, j: nat, v: Node, proof: seq<Hex32>)
    requires IsTree(h, layers) && |proof| <= m < |layers| && j < |layers[m]|
    requires Fold(h, v, proof) == layers[m][j]
    ensures match ForgedPreimage(h, layers, m, j, v, proof)
            case None =>
              exists i: nat :: i < |layers[m - |proof|]| && layers[m - |proof|][i] == v && Up(i, |proof|) == j
            case Some(c) => Collision(h, c)
    decreases m
  {
    hide SortedPack, Fold, SiblingIndex;
    if proof == [] {
      assert Fold(h, v, []) == v by { FoldEmpty(h, v); }
      assert Up(j, 0) == j;
    } else {
      var k := |proof|;
      var run, below := proof[..k - 1], layers[m - 1];
      var computed := Fold(h, v, run);
      ChildrenInRange(h, layers, m, j);
      FoldLast(h, v, proof);
      var p := SortedPack(computed, proof[k - 1]);
      var q := SortedPack(below[2 * j], Sibling(below, 2 * j));
      if p == q {
        PairOfLowered2(computed, proof[k - 1]);
        SamePreimage(computed, LowerNode(proof[k - 1]), below[2 * j], Sibling(below, 2 * j));
        var child := if computed == below[2 * j] then 2 * j else SiblingIndex(|below|, 2 * j);
        RunStartsInTree(h, layers, m - 1, child, v, run);
        if ForgedPreimage(h, layers, m - 1, child, v, run).None? {
          var i: nat :| i < |layers[m - k]| && layers[m - k][i] == v && Up(i, k - 1) == child;
          UpOnce(i, k);
        }
      }
    }
  }

  lemma FoldEmpty(h: Hash, v: Node)
    ensures Fold(h, v, []) == v
  {
  }

  lemma PairOfLowered2(left: Hex32, right: Hex32)
    ensures SortedPack(left, LowerNode(right)) == SortedPack(left, right)
  {
    LowerTwice(right);
  }

  lemma {:induction false} UpOnce(i: nat, k: nat)
    requires k > 0
    ensures Up(i, k) == Up(i, k - 1) / 2
  {
    if k > 1 {
      UpOnce(i / 2, k - 1);
    }
  }

  /** How much of a proof is longer than the tree is deep. */
  function Excess(layers: seq<seq<Node>>, proof: seq<Hex32>): (e: nat)
    requires |layers| > 0
    ensures e <= |proof| && |proof| - e <= Depth(layers)
  {
    if |proof| > Depth(layers) then |proof| - Depth(layers) else 0
  }

  /** Soundness. A value that verifies with at most as many siblings as the tree is deep is a node of the
      layer that many below the root, so a leaf when the numbers are equal; with a longer proof it is the
      running hash after the surplus that is a leaf. Otherwise the two preimages named collide. */
  lemma VerifiedValueIsNode(h: Hash, leaves: seq<Hex32>, value: Hex32, proof: seq<Hex32>)
    requires leaves != []
    requires IsTree(h, Layers(h, LowerLeaves(leaves)))
    requires Verifies(h, Root(Layers(h, LowerLeaves(leaves))), value, proof)
    ensures var layers := Layers(h, LowerLeaves(leaves));
      var e := Excess(layers, proof);
      var start := Fold(h, LowerNode(value), proof[..e]);
      match ForgedPreimage(h, layers, Depth(layers), 0, start, proof[e..])
      case None => start in layers[Depth(layers) - |proof[e..]|]
      case Some(c) => Collision(h, c)
    ensures |proof| <= Depth(Layers(h, LowerLeaves(leaves))) ==> Fold(h, LowerNode(value), proof[..0]) == Lower(value)
  {
    hide Fold, Layers;
    var layers := Layers(h, LowerLeaves(leaves));
    var e := Excess(layers, proof);
    FoldSplit(h, LowerNode(value), proof, e);
    FoldEmpty(h, LowerNode(value));
    RootIsLower(layers);
    RunStartsInTree(h, layers, Depth(layers), 0, Fold(h, LowerNode(value), proof[..e]), proof[e..]);
  }

  lemma RootIsLower(layers: seq<seq<Node>>)
    requires |layers| > 0 && |layers[|layers| - 1]| == 1
    ensures Lower(Root(layers)) == Root(layers)
  {
  }

  // ---- binding ----

  /** Node i of layer m of one tree and node j of layer m of another head the same tree of leaves, up to
      exchanging children. */
  predicate SameTree(a: seq<seq<Node>>, b: seq<seq<Node>>, m: nat, i: nat, j: nat)
    requires m < |a| && m < |b|
    decreases m
  {
    i < |a[m]| && j < |b[m]| &&
    if m == 0 then a[0][i] == b[0][j]
    else
      2 * i < |a[m - 1]| && 2 * j < |b[m - 1]| &&
      var s, t := SiblingIndex(|a[m - 1]|, 2 * i), SiblingIndex(|b[m - 1]|, 2 * j);
      (SameTree(a, b, m - 1, 2 * i, 2 * j) && SameTree(a, b, m - 1, s, t))
      || (SameTree(a, b, m - 1, 2 * i, t) && SameTree(a, b, m - 1, s, 2 * j))
  }

  /** The partner of node 2 * i under node i of layer m. */
  function OtherChild(h: Hash, layers: seq<seq<Node>>, m: nat, i: nat): (s: nat)
    requires IsTree(h, layers) && 0 < m < |layers| && i < |layers[m]|
    ensures 2 * i < |layers[m - 1]| && s < |layers[m - 1]| && s == SiblingIndex(|layers[m - 1]|, 2 * i)
  {
    ChildrenInRange(h, layers, m, i);
    SiblingIndex(|layers[m - 1]|, 2 * i)
  }

  /** What is hashed over nodes i and s of a layer. */
  function ChildPreimage(layer: seq<Node>, i: nat, s: nat): string
    requires i < |layer| && s < |layer|
  {
    SortedPack(layer[i], layer[s])
  }

  /** Walks down two nodes side by side to the first place where their children are not the same pair. */
  function FirstDifference(h: Hash, a: seq<seq<Node>>, b: seq<seq<Node>>, m: nat, i: nat, j: nat):
      Option<(string, string)>
    requires IsTree(h, a) && IsTree(h, b) && m < |a| && m < |b| && i < |a[m]| && j < |b[m]|
    decreases m
  {
    if m == 0 then None
    else
      var s, t := OtherChild(h, a, m, i), OtherChild(h, b, m, j);
      var c, d := a[m - 1], b[m - 1];
      var p, q := ChildPreimage(c, 2 * i, s), ChildPreimage(d, 2 * j, t);
      if p != q then Some((p, q))
      else
        var straight := c[2 * i] == d[2 * j] && c[s] == d[t];
        match FirstDifference(h, a, b, m - 1, 2 * i, if straight then 2 * j else t)
        case Some(x) => Some(x)
        case None => FirstDifference(h, a, b, m - 1, s, if straight then t else 2 * j)
  }

  /** Equal nodes head the same tree, or two preimages collide. */
  lemma {:induction false} EqualNodesSameTree(h: Hash, a: seq<seq<Node>>, b: seq<seq<Node>>, m: nat, i: nat, j: nat)
    requires IsTree(h, a) && IsTree(h, b) && m < |a| && m < |b| && i < |a[m]| && j < |b[m]|
    requires a[m][i] == b[m][j]
    ensures match FirstDifference(h, a, b, m, i, j)
            case None => SameTree(a, b, m, i, j)
            case Some(c) => Collision(h, c)
    decreases m
  {
    hide SortedPack, SiblingIndex;
    if m > 0 {
      ChildrenInRange(h, a, m, i);
      ChildrenInRange(h, b, m, j);
      var c, d := a[m - 1], b[m - 1];
      var s, t := SiblingIndex(|c|, 2 * i), SiblingIndex(|d|, 2 * j);
      if SortedPack(c[2 * i], c[s]) == SortedPack(d[2 * j], d[t]) {
        SamePreimage(c[2 * i], c[s], d[2 * j], d[t]);
        var straight := c[2 * i] == d[2 * j] && c[s] == d[t];
        EqualNodesSameTree(h, a, b, m - 1, 2 * i, if straight then 2 * j else t);
        EqualNodesSameTree(h, a, b, m - 1, s, if straight then t else 2 * j);
      }
    }
  }

  lemma {:induction false} SameTreeEqualNodes(h: Hash, a: seq<seq<Node>>, b: seq<seq<Node>>, m: nat, i: nat, j: nat)
    requires IsTree(h, a) && IsTree(h, b) && m < |a| && m < |b|
    requires SameTree(a, b, m, i, j)
    ensures a[m][i] == b[m][j]
    decreases m
  {
    hide HashPair, SiblingIndex;
    if m > 0 {
      ChildrenInRange(h, a, m, i);
      ChildrenInRange(h, b, m, j);
      var c, d := a[m - 1], b[m - 1];
      var s, t := SiblingIndex(|c|, 2 * i), SiblingIndex(|d|, 2 * j);
      HashPairCommutes(h, c[2 * i], c[s]);
      if SameTree(a, b, m - 1, 2 * i, 2 * j) && SameTree(a, b, m - 1, s, t) {
        SameTreeEqualNodes(h, a, b, m - 1, 2 * i, 2 * j);
        SameTreeEqualNodes(h, a, b, m - 1, s, t);
      } else {
        SameTreeEqualNodes(h, a, b, m - 1, 2 * i, t);
        SameTreeEqualNodes(h, a, b, m - 1, s, 2 * j);
      }
    }
  }

  /** A leaf below a node of one tree lies below the matching node of the other. */
  lemma {:induction false} SameTreeSameLeaf(h: Hash, a: seq<seq<Node>>, b: seq<seq<Node>>, m: nat, i: nat, j: nat,
      k: nat)
    requires IsTree(h, a) && IsTree(h, b) && m < |a| && m < |b|
    requires SameTree(a, b, m, i, j) && k < |a[0]| && Up(k, m) == i
    ensures a[0][k] in b[0]
    decreases m
  {
    if m > 0 {
      hide SiblingIndex;
      UpOnce(k, m);
      var child := Up(k, m - 1);
      UpInRange(h, a, k, m - 1);
      var s, t := SiblingIndex(|a[m - 1]|, 2 * i), SiblingIndex(|b[m - 1]|, 2 * j);
      assert child == 2 * i || child == 2 * i + 1;
      assert child == 2 * i + 1 ==> s == child by { SiblingOfEven(|a[m - 1]|, i); }
      if SameTree(a, b, m - 1, child, 2 * j) {
        SameTreeSameLeaf(h, a, b, m - 1, child, 2 * j, k);
      } else {
        SameTreeSameLeaf(h, a, b, m - 1, child, t, k);
      }
    }
  }

  lemma SiblingOfEven(n: nat, i: nat)
    requires 2 * i < n
    ensures SiblingIndex(n, 2 * i) == if 2 * i + 1 < n then 2 * i + 1 else 2 * i
  {
  }

  lemma {:induction false} UpInRange(h: Hash, layers: seq<seq<Node>>, i: nat, m: nat)
    requires IsTree(h, layers) && i < |layers[0]| && m < |layers|
    ensures Up(i, m) < |layers[m]|
  {
    if m > 0 {
      UpInRange(h, layers, i, m - 1);
      UpOnce(i, m);
      assert Above(h, layers, m - 1);
    }
  }

  lemma {:induction false} SameTreeSymmetric(a: seq<seq<Node>>, b: seq<seq<Node>>, m: nat, i: nat, j: nat)
    requires m < |a| && m < |b| && SameTree(a, b, m, i, j)
    ensures SameTree(b, a, m, j, i)
    decreases m
  {
    if m > 0 {
      hide SiblingIndex;
      var s, t := SiblingIndex(|a[m - 1]|, 2 * i), SiblingIndex(|b[m - 1]|, 2 * j);
      if SameTree(a, b, m - 1, 2 * i, 2 * j) && SameTree(a, b, m - 1, s, t) {
        SameTreeSymmetric(a, b, m - 1, 2 * i, 2 * j);
        SameTreeSymmetric(a, b, m - 1, s, t);
      } else {
        SameTreeSymmetric(a, b, m - 1, 2 * i, t);
        SameTreeSymmetric(a, b, m - 1, s, 2 * j);
      }
    }
  }

  function Set(s: seq<Node>): set<Node> { set x | x in s }

  /** Binding. When one tree is k layers deeper than another, their roots are equal when, and (unless the two
      preimages named collide) only when, layer k of the deeper one and the leaves of the other head the same
      tree up to exchanging children; then the layer and the leaves are the same set. */
  lemma RootBindsLayer(h: Hash, xs: seq<Node>, ys: seq<Node>, k: nat)
    requires xs != [] && ys != [] && CeilLog2(|xs|) == CeilLog2(|ys|) + k
    ensures var a, b := Layers(h, xs), Layers(h, ys);
      var d := CeilLog2(|ys|);
      IsTree(h, a) && IsTree(h, b) && Depth(a) == d + k && Depth(b) == d && IsTree(h, a[k..])
      && (SameTree(a[k..], b, d, 0, 0) ==> Root(a) == Root(b) && Set(a[k]) == Set(ys))
      && (Root(a) == Root(b) ==>
            match FirstDifference(h, a[k..], b, d, 0, 0)
            case None => SameTree(a[k..], b, d, 0, 0)
            case Some(c) => Collision(h, c))
  {
    hide Layers, FirstDifference, SameTree;
    var a, b := Layers(h, xs), Layers(h, ys);
    LayersFormTree(h, xs);
    LayersFormTree(h, ys);
    DepthIsCeilLog2(h, xs);
    DepthIsCeilLog2(h, ys);
    TreeTail(h, a, k);
    var top, d := a[k..], Depth(b);
    if SameTree(top, b, d, 0, 0) {
      SameTreeEqualNodes(h, top, b, d, 0, 0);
      SameTreeSymmetric(top, b, d, 0, 0);
      LeavesIncluded(h, top, b);
      LeavesIncluded(h, b, top);
    }
    if Root(a) == Root(b) {
      EqualNodesSameTree(h, top, b, d, 0, 0);
    }
  }

  /** Binding at equal depth: equal roots bind the set of leaves. */
  lemma RootBindsLeaves(h: Hash, xs: seq<Node>, ys: seq<Node>)
    requires xs != [] && ys != [] && CeilLog2(|xs|) == CeilLog2(|ys|)
    ensures var a, b := Layers(h, xs), Layers(h, ys);
      var d := CeilLog2(|xs|);
      IsTree(h, a) && IsTree(h, b) && Depth(a) == Depth(b) == d
      && (SameTree(a, b, d, 0, 0) ==> Root(a) == Root(b) && Set(xs) == Set(ys))
      && (Root(a) == Root(b) ==>
            match FirstDifference(h, a, b, d, 0, 0)
            case None => SameTree(a, b, d, 0, 0)
            case Some(c) => Collision(h, c))
  {
    hide Layers, FirstDifference, SameTree;
    RootBindsLayer(h, xs, ys, 0);
    assert Layers(h, xs)[0..] == Layers(h, xs);
    LayersFormTree(h, xs);
  }

  lemma LeavesIncluded(h: Hash, a: seq<seq<Node>>, b: seq<seq<Node>>)
    requires IsTree(h, a) && IsTree(h, b) && Depth(a) == Depth(b) && SameTree(a, b, Depth(a), 0, 0)
    ensures Set(a[0]) <= Set(b[0])
  {
    hide SameTree;
    forall x | x in a[0] ensures x in b[0] {
      var k: nat :| k < |a[0]| && a[0][k] == x;
      UpInRange(h, a, k, Depth(a));
      SameTreeSameLeaf(h, a, b, Depth(a), 0, 0, k);
    }
  }

  /** No more than a layer is bound at unequal depths: any layer of a tree, taken as leaves, has the tree's root. */
  lemma {:induction false} LayerHasSameRoot(h: Hash, xs: seq<Node>, k: nat)
    requires xs != [] && k < |Layers(h, xs)|
    ensures Layers(h, xs)[k] != [] && Layers(h, Layers(h, xs)[k]) == Layers(h, xs)[k..]
    ensures IsTree(h, Layers(h, xs)) && IsTree(h, Layers(h, Layers(h, xs)[k]))
    ensures Root(Layers(h, Layers(h, xs)[k])) == Root(Layers(h, xs))
    decreases |xs|
  {
    hide NextLayer;
    LayersFormTree(h, xs);
    if k == 0 {
      assert Layers(h, xs)[0..] == Layers(h, xs);
    } else {
      var rest := Layers(h, NextLayer(h, xs));
      assert Layers(h, xs)[k] == rest[k - 1] && Layers(h, xs)[k..] == rest[k - 1..];
      NextLayerSize(h, xs);
      LayerHasSameRoot(h, NextLayer(h, xs), k - 1);
    }
  }
}
