/** The conversation tree of blockchain/src/conversation.ts: sort, hash the leaves, build the tree. */
module Conversation {
  import opened Merkle
  import opened Wrappers

  datatype AnchoredMessage = AnchoredMessage(messageId: string, plaintext: string, createdAt: Option<string>)

  /** The UTF-8 bytes of a string, in hexadecimal. */
  type Utf8 = string -> string

  /** localeCompare: negative, zero or positive. */
  type Collation = (string, string) -> int

  // ---- the comparator ----

  /** Neither missing nor the empty string. */
  predicate Dated(m: AnchoredMessage) { m.createdAt.Some? && m.createdAt.value != "" }

  function Compare(cmp: Collation, a: AnchoredMessage, b: AnchoredMessage): int {
    if Dated(a) && Dated(b) && a.createdAt.value != b.createdAt.value then cmp(a.createdAt.value, b.createdAt.value)
    else cmp(a.messageId, b.messageId)
  }

  /** A collation orders strings consistently; it may treat different strings as equal. */
  ghost predicate IsCollation(cmp: Collation) {
    && (forall s, t :: cmp(s, t) <= 0 <==> cmp(t, s) >= 0)
    && (forall s, t, u :: cmp(s, t) <= 0 && cmp(t, u) <= 0 ==> cmp(s, u) <= 0)
  }

  predicate TransitiveOn(cmp: Collation, a: AnchoredMessage, b: AnchoredMessage, c: AnchoredMessage) {
    Compare(cmp, a, b) <= 0 && Compare(cmp, b, c) <= 0 ==> Compare(cmp, a, c) <= 0
  }

  ghost predicate Transitive(cmp: Collation, ms: seq<AnchoredMessage>) {
    forall a, b, c :: a in ms && b in ms && c in ms ==> TransitiveOn(cmp, a, b, c)
  }

  /** The collation tells different timestamps of the list apart, as it does for ISO 8601 strings. */
  ghost predicate SeparatesDates(cmp: Collation, ms: seq<AnchoredMessage>) {
    forall a, b :: a in ms && b in ms && Dated(a) && Dated(b) && cmp(a.createdAt.value, b.createdAt.value) == 0
      ==> a.createdAt.value == b.createdAt.value
  }

  function DatedPattern(ms: seq<AnchoredMessage>): (p: seq<bool>)
    ensures |p| == |ms|
  {
    seq(|ms|, i requires 0 <= i < |ms| => Dated(ms[i]))
  }

  /** All messages carry a timestamp, or at most one does. */
  predicate SafePattern(p: seq<bool>) {
    (forall i :: 0 <= i < |p| ==> p[i]) || (forall i, j :: 0 <= i < |p| && 0 <= j < |p| && p[i] && p[j] ==> i == j)
  }

  lemma AllDatedTransitive(cmp: Collation, ms: seq<AnchoredMessage>, a: AnchoredMessage, b: AnchoredMessage,
                           c: AnchoredMessage)
    requires IsCollation(cmp) && SeparatesDates(cmp, ms)
    requires a in ms && b in ms && c in ms && Dated(a) && Dated(b) && Dated(c)
    ensures TransitiveOn(cmp, a, b, c)
  {
  }

  /** Sound half: in a safe pattern the comparator is transitive. */
  lemma SafePatternTransitive(cmp: Collation, ms: seq<AnchoredMessage>)
    requires IsCollation(cmp) && SeparatesDates(cmp, ms) && SafePattern(DatedPattern(ms))
    ensures Transitive(cmp, ms)
  {
    hide SeparatesDates, Compare;
    forall a, b, c | a in ms && b in ms && c in ms ensures TransitiveOn(cmp, a, b, c) {
      var i :| 0 <= i < |ms| && ms[i] == a;
      var j :| 0 <= j < |ms| && ms[j] == b;
      var k :| 0 <= k < |ms| && ms[k] == c;
      var p := DatedPattern(ms);
      if p[i] && p[j] && p[k] {
        AllDatedTransitive(cmp, ms, a, b, c);
      } else {
        assert p[i] && p[j] ==> i == j;
        assert p[i] && p[k] ==> i == k;
        assert p[j] && p[k] ==> j == k;
        FewDatedTransitive(cmp, a, b, c);
      }
    }
  }

  lemma FewDatedTransitive(cmp: Collation, a: AnchoredMessage, b: AnchoredMessage, c: AnchoredMessage)
    requires IsCollation(cmp)
    requires Dated(a) && Dated(b) ==> a == b
    requires Dated(a) && Dated(c) ==> a == c
    requires Dated(b) && Dated(c) ==> b == c
    ensures TransitiveOn(cmp, a, b, c)
  {
  }

  /** The other half: two dated messages and an undated one can form a cycle. */
  function Cyclic(i: int, j: int, m: int, dated: bool): AnchoredMessage {
    if m == i then AnchoredMessage("1", "", Some("2"))
    else if m == j then AnchoredMessage("3", "", Some("1"))
    else AnchoredMessage("2", "", if dated then Some("3") else None)
  }

  lemma CyclicThree(cmp: Collation, i: int, j: int, k: int)
    requires IsCollation(cmp) && cmp("1", "2") < 0 && cmp("2", "3") < 0 && i != j && k != i && k != j
    ensures !TransitiveOn(cmp, Cyclic(i, j, i, true), Cyclic(i, j, k, false), Cyclic(i, j, j, true))
  {
  }

  lemma CyclicDates(cmp: Collation, i: int, j: int, m: int, n: int, p: bool, q: bool)
    requires IsCollation(cmp) && cmp("1", "2") < 0 && cmp("2", "3") < 0
    requires Dated(Cyclic(i, j, m, p)) && Dated(Cyclic(i, j, n, q))
    requires cmp(Cyclic(i, j, m, p).createdAt.value, Cyclic(i, j, n, q).createdAt.value) == 0
    ensures Cyclic(i, j, m, p).createdAt == Cyclic(i, j, n, q).createdAt
  {
    assert cmp("2", "1") > 0 && cmp("3", "2") > 0 && cmp("1", "3") <= 0 && cmp("3", "1") >= 0;
    assert cmp("3", "1") <= 0 && cmp("1", "2") <= 0 ==> cmp("3", "2") <= 0;
  }

  /** A list with a given unsafe pattern on which the comparator is not transitive. */
  function CyclicList(i: int, j: int, p: seq<bool>): (ms: seq<AnchoredMessage>)
    ensures |ms| == |p|
  {
    seq(|p|, m requires 0 <= m < |p| => Cyclic(i, j, m, p[m]))
  }

  lemma UnsafePatternFails(cmp: Collation, p: seq<bool>) returns (ms: seq<AnchoredMessage>)
    requires IsCollation(cmp) && cmp("1", "2") < 0 && cmp("2", "3") < 0 && !SafePattern(p)
    ensures DatedPattern(ms) == p && SeparatesDates(cmp, ms) && !Transitive(cmp, ms)
  {
    hide IsCollation, Compare;
    var i, j :| 0 <= i < |p| && 0 <= j < |p| && p[i] && p[j] && i != j;
    var k :| 0 <= k < |p| && !p[k];
    ms := CyclicList(i, j, p);
    CyclicThree(cmp, i, j, k);
    assert !TransitiveOn(cmp, ms[i], ms[k], ms[j]);
    forall x, y | x in ms && y in ms && Dated(x) && Dated(y) && cmp(x.createdAt.value, y.createdAt.value) == 0
      ensures x.createdAt.value == y.createdAt.value
    {
      var m :| 0 <= m < |p| && ms[m] == x;
      var n :| 0 <= n < |p| && ms[n] == y;
      CyclicDates(cmp, i, j, m, n, p[m], p[n]);
    }
  }

  /** The comparator is transitive on every list with a given pattern of timestamps exactly when the pattern
      is safe: all messages dated, or at most one. */
  lemma TransitiveExactlyOnSafePatterns(cmp: Collation, p: seq<bool>)
    requires IsCollation(cmp) && cmp("1", "2") < 0 && cmp("2", "3") < 0
    ensures (forall ms :: DatedPattern(ms) == p && SeparatesDates(cmp, ms) ==> Transitive(cmp, ms)) <==> SafePattern(p)
  {
    hide IsCollation, SeparatesDates, Transitive;
    if SafePattern(p) {
      forall ms | DatedPattern(ms) == p && SeparatesDates(cmp, ms) ensures Transitive(cmp, ms) {
        SafePatternTransitive(cmp, ms);
      }
    } else {
      var ms := UnsafePatternFails(cmp, p);
    }
  }

  // ---- sorting ----

  /** What Array.sort returns for a consistent comparator. */
  ghost predicate IsSorting(cmp: Collation, input: seq<AnchoredMessage>, output: seq<AnchoredMessage>) {
    && multiset(input) == multiset(output)
    && forall i, j :: 0 <= i < j < |output| ==> Compare(cmp, output[i], output[j]) <= 0
  }

  ghost predicate DistinctIds(ms: seq<AnchoredMessage>) {
    forall i, j :: 0 <= i < |ms| && 0 <= j < |ms| && ms[i].messageId == ms[j].messageId ==> i == j
  }

  /** The comparator never calls two different messages of the list equal. */
  ghost predicate Separates(cmp: Collation, ms: seq<AnchoredMessage>) {
    forall a, b :: a in ms && b in ms && Compare(cmp, a, b) == 0 ==> a == b
  }

  lemma SeparatedByIds(cmp: Collation, ms: seq<AnchoredMessage>)
    requires SeparatesDates(cmp, ms) && DistinctIds(ms)
    requires forall a, b :: a in ms && b in ms && cmp(a.messageId, b.messageId) == 0 ==> a.messageId == b.messageId
    ensures Separates(cmp, ms)
  {
    forall a, b | a in ms && b in ms && Compare(cmp, a, b) == 0 ensures a == b {
      assert a.messageId == b.messageId;
      var i :| 0 <= i < |ms| && ms[i] == a;
      var j :| 0 <= j < |ms| && ms[j] == b;
    }
  }

  /** Two sortings of the same messages start with the same message. */
  lemma SortingHead(cmp: Collation, s: seq<AnchoredMessage>, t: seq<AnchoredMessage>)
    requires IsCollation(cmp) && Separates(cmp, s) && s != [] && t != []
    requires IsSorting(cmp, s, s) && IsSorting(cmp, t, t) && multiset(s) == multiset(t)
    ensures s[0] == t[0]
  {
    hide Compare, IsCollation;
    assert s[0] in multiset(t) && t[0] in multiset(s);
    var i :| 0 <= i < |s| && s[i] == t[0];
    var j :| 0 <= j < |t| && t[j] == s[0];
    if i > 0 && j > 0 {
      assert Compare(cmp, s[0], s[i]) <= 0 && Compare(cmp, t[0], t[j]) <= 0;
      CompareFlips(cmp, s[0], t[0]);
    }
  }

  lemma TailSorted(cmp: Collation, s: seq<AnchoredMessage>)
    requires IsSorting(cmp, s, s) && s != []
    ensures IsSorting(cmp, s[1..], s[1..])
  {
    hide Compare;
    forall i, j | 0 <= i < j < |s[1..]| ensures Compare(cmp, s[1..][i], s[1..][j]) <= 0 {
      assert Compare(cmp, s[i + 1], s[j + 1]) <= 0;
    }
  }

  lemma EqualTails(s: seq<AnchoredMessage>, t: seq<AnchoredMessage>)
    requires multiset(s) == multiset(t) && s != [] && t != [] && s[0] == t[0]
    ensures multiset(s[1..]) == multiset(t[1..])
  {
    assert s == [s[0]] + s[1..] && t == [t[0]] + t[1..];
    assert multiset(s) == multiset{s[0]} + multiset(s[1..]);
    assert multiset(t) == multiset{t[0]} + multiset(t[1..]);
    assert multiset(s[1..]) == multiset(s) - multiset{s[0]};
    assert multiset(t[1..]) == multiset(t) - multiset{t[0]};
  }

  /** Two sortings of the same messages are the same sequence. */
  lemma {:induction false} SortingUnique(cmp: Collation, s: seq<AnchoredMessage>, t: seq<AnchoredMessage>)
    requires IsCollation(cmp) && Separates(cmp, s)
    requires IsSorting(cmp, s, s) && IsSorting(cmp, t, t) && multiset(s) == multiset(t)
    ensures s == t
    decreases |s|
  {
    hide Compare, IsCollation, IsSorting;
    assert |s| == |multiset(s)| == |multiset(t)| == |t|;
    if s != [] {
      SortingHead(cmp, s, t);
      TailSorted(cmp, s);
      TailSorted(cmp, t);
      EqualTails(s, t);
      SortingUnique(cmp, s[1..], t[1..]);
      assert s == [s[0]] + s[1..] && t == [t[0]] + t[1..];
    }
  }

  lemma CompareFlips(cmp: Collation, a: AnchoredMessage, b: AnchoredMessage)
    requires IsCollation(cmp) && Compare(cmp, a, b) <= 0 && Compare(cmp, b, a) <= 0
    ensures Compare(cmp, a, b) == 0
  {
  }

  // ---- the tree ----

  function HashMessageLeaf(h: Hash, utf8: Utf8, messageId: string, plaintext: string): Node {
    h(LeafPreimage(h, utf8, messageId, plaintext))
  }

  /** The packed bytes a leaf hashes: the id, then the 32-byte hash of the text. */
  function LeafPreimage(h: Hash, utf8: Utf8, messageId: string, plaintext: string): string {
    utf8(messageId) + h(utf8(plaintext))[2..]
  }

  function LeafOf(h: Hash, utf8: Utf8, m: AnchoredMessage): Node { HashMessageLeaf(h, utf8, m.messageId, m.plaintext) }

  function LeavesOf(h: Hash, utf8: Utf8, ms: seq<AnchoredMessage>): (leaves: seq<Node>)
    ensures |leaves| == |ms|
  {
    seq(|ms|, i requires 0 <= i < |ms| => LeafOf(h, utf8, ms[i]))
  }

  datatype ConversationTree = ConversationTree(orderedMessages: seq<AnchoredMessage>, tree: Tree)

  /** sort stands for Array.sort with the comparator above; whatever that comparator says, it returns a
      rearrangement of its input. */
  method BuildConversationMerkleTree(h: Hash, utf8: Utf8, sort: seq<AnchoredMessage> -> seq<AnchoredMessage>,
      messages: seq<AnchoredMessage>) returns (r: Result<ConversationTree, string>)
    requires multiset(sort(messages)) == multiset(messages)
    ensures r.Err? <==> messages == []
    ensures r.Ok? ==> r.value.orderedMessages == sort(messages)
    ensures r.Ok? ==> IsConversation(h, utf8, r.value)
    ensures r.Ok? ==> var c := r.value;
      && |c.tree.leaves| == |c.orderedMessages|
      && forall i :: 0 <= i < |c.tree.leaves| ==>
           c.tree.leaves[i] == h(utf8(c.orderedMessages[i].messageId) + h(utf8(c.orderedMessages[i].plaintext))[2..])
  {
    hide Layers;
    if |messages| == 0 {
      return Err("Conversation must contain at least one message");
    }
    var ordered := sort(messages);
    assert |ordered| == |multiset(ordered)| == |messages|;
    var leaves := LeavesOf(h, utf8, ordered);
    NodesStayLower(leaves);
    var tree := BuildMerkleTree(h, leaves);
    r := Ok(ConversationTree(ordered, tree.value));
  }

  /** The tree is the one built over the leaves of the ordered messages. */
  ghost predicate IsConversation(h: Hash, utf8: Utf8, c: ConversationTree) {
    && c.orderedMessages != []
    && c.tree.leaves == LeavesOf(h, utf8, c.orderedMessages)
    && c.tree.layers == Layers(h, c.tree.leaves)
    && IsTree(h, c.tree.layers)
    && c.tree.root == Root(c.tree.layers)
  }

  lemma NodesStayLower(leaves: seq<Node>)
    ensures LowerLeaves(leaves) == leaves
  {
  }

  /** findIndex: the first message with this id, or -1. */
  function IndexOf(ms: seq<AnchoredMessage>, messageId: string): (i: int)
    ensures i == -1 ==> forall m :: m in ms ==> m.messageId != messageId
    ensures i != -1 ==> 0 <= i < |ms| && ms[i].messageId == messageId
    ensures i != -1 ==> forall k :: 0 <= k < i ==> ms[k].messageId != messageId
  {
    if ms == [] then -1
    else if ms[0].messageId == messageId then 0
    else
      var rest := IndexOf(ms[1..], messageId);
      if rest == -1 then -1 else rest + 1
  }

  method GetProofForMessage(h: Hash, utf8: Utf8, c: ConversationTree, messageId: string)
    returns (r: Result<seq<Node>, string>)
    requires IsConversation(h, utf8, c)
    ensures r.Err? <==> forall m :: m in c.orderedMessages ==> m.messageId != messageId
    ensures r.Ok? ==> var i := IndexOf(c.orderedMessages, messageId);
      i >= 0 && Reaches(c.tree.layers, i) && r.value == ProofFrom(c.tree.layers, i)
  {
    hide Layers, LeafOf;
    LayersFormTree(h, c.tree.leaves);
    var index := IndexOf(c.orderedMessages, messageId);
    if index < 0 {
      return Err("Message not in conversation tree");
    }
    r := GetProof(h, c.tree, index);
  }

  method VerifyMessage(h: Hash, utf8: Utf8, c: ConversationTree, messageId: string, plaintext: string,
      proof: seq<Hex32>) returns (ok: bool)
    ensures ok == MessageVerifies(h, utf8, c, messageId, plaintext, proof)
  {
    ok := VerifyMerkleProof(h, c.tree.root, HashMessageLeaf(h, utf8, messageId, plaintext), proof);
  }

  predicate MessageVerifies(h: Hash, utf8: Utf8, c: ConversationTree, messageId: string, plaintext: string,
      proof: seq<Hex32>)
  {
    Verifies(h, c.tree.root, HashMessageLeaf(h, utf8, messageId, plaintext), proof)
  }

  // ---- what the tree promises ----

  /** Completeness: in a conversation with distinct ids every message verifies with the proof looked up by
      its id, whatever order the sort left the messages in. */
  lemma EveryMessageVerifies(h: Hash, utf8: Utf8, c: ConversationTree, m: AnchoredMessage)
    requires IsConversation(h, utf8, c) && DistinctIds(c.orderedMessages) && m in c.orderedMessages
    ensures var i := IndexOf(c.orderedMessages, m.messageId);
      i >= 0 && Reaches(c.tree.layers, i)
      && |ProofFrom(c.tree.layers, i)| == CeilLog2(|c.orderedMessages|)
      && MessageVerifies(h, utf8, c, m.messageId, m.plaintext, ProofFrom(c.tree.layers, i))
  {
    hide Layers, Verifies, ProofFrom, Reaches;
    var i := IndexOf(c.orderedMessages, m.messageId);
    var k :| 0 <= k < |c.orderedMessages| && c.orderedMessages[k] == m;
    assert c.orderedMessages[i] == m;
    NodesStayLower(c.tree.leaves);
    LeafVerifies(h, c.tree.leaves, i);
  }

  /** Where two runs of one proof first hash different preimages to one value; None when they never do. */
  function RunDifference(h: Hash, v: Node, w: Node, proof: seq<Hex32>): Option<(string, string)>
    decreases |proof|
  {
    if proof == [] then None
    else
      var p, q := SortedPack(v, proof[0]), SortedPack(w, proof[0]);
      if p != q && h(p) == h(q) then Some((p, q))
      else RunDifference(h, HashPair(h, v, proof[0]), HashPair(h, w, proof[0]), proof[1..])
  }

  /** Runs of one proof that end alike started alike, or two preimages collide. */
  lemma {:induction false} EqualRunsStartEqual(h: Hash, v: Node, w: Node, proof: seq<Hex32>)
    requires Fold(h, v, proof) == Fold(h, w, proof)
    ensures match RunDifference(h, v, w, proof)
            case None => v == w
            case Some(c) => Collision(h, c)
    decreases |proof|
  {
    hide SortedPack;
    if proof != [] {
      EqualRunsStartEqual(h, HashPair(h, v, proof[0]), HashPair(h, w, proof[0]), proof[1..]);
      if SortedPack(v, proof[0]) == SortedPack(w, proof[0]) {
        PairOfLowered2(v, proof[0]);
        PairOfLowered2(w, proof[0]);
        SamePreimage(v, LowerNode(proof[0]), w, LowerNode(proof[0]));
      }
    }
  }

  /** Ids may repeat: the proof looked up by a message's id verifies the message exactly when the first message
      with that id has the same leaf, or two named preimages collide. */
  lemma LookedUpProofVerifies(h: Hash, utf8: Utf8, c: ConversationTree, m: AnchoredMessage)
    requires IsConversation(h, utf8, c) && m in c.orderedMessages
    ensures var i := IndexOf(c.orderedMessages, m.messageId);
      i >= 0 && Reaches(c.tree.layers, i)
      && var proof := ProofFrom(c.tree.layers, i);
      var verifies, same := MessageVerifies(h, utf8, c, m.messageId, m.plaintext, proof),
                            LeafOf(h, utf8, m) == LeafOf(h, utf8, c.orderedMessages[i]);
      (same ==> verifies)
      && (verifies ==>
            match RunDifference(h, LeafOf(h, utf8, m), LeafOf(h, utf8, c.orderedMessages[i]), proof)
            case None => same
            case Some(x) => Collision(h, x))
  {
    hide Layers, Verifies, ProofFrom, Reaches, RunDifference;
    var i := IndexOf(c.orderedMessages, m.messageId);
    NodesStayLower(c.tree.leaves);
    LeafVerifies(h, c.tree.leaves, i);
    var proof := ProofFrom(c.tree.layers, i);
    var first := c.orderedMessages[i];
    VerifiesMeans(h, c.tree.root, LeafOf(h, utf8, m), proof);
    VerifiesMeans(h, c.tree.root, LeafOf(h, utf8, first), proof);
    if Fold(h, LeafOf(h, utf8, m), proof) == Fold(h, LeafOf(h, utf8, first), proof) {
      EqualRunsStartEqual(h, LeafOf(h, utf8, m), LeafOf(h, utf8, first), proof);
    }
  }

  lemma VerifiesMeans(h: Hash, root: Node, leaf: Node, proof: seq<Hex32>)
    ensures Verifies(h, root, leaf, proof) <==> Fold(h, leaf, proof) == root
  {
  }

  ghost predicate Injective(utf8: Utf8) { forall s, t :: utf8(s) == utf8(t) ==> s == t }

  /** Where two equal leaves hashed something different. */
  function LeafDifference(h: Hash, utf8: Utf8, a: AnchoredMessage, b: AnchoredMessage): Option<(string, string)> {
    var p, q := LeafPreimage(h, utf8, a.messageId, a.plaintext), LeafPreimage(h, utf8, b.messageId, b.plaintext);
    if p != q then Some((p, q))
    else if utf8(a.plaintext) != utf8(b.plaintext) then Some((utf8(a.plaintext), utf8(b.plaintext)))
    else None
  }

  /** A leaf fixes its message's id and text, or two preimages collide. */
  lemma LeafBindsMessage(h: Hash, utf8: Utf8, a: AnchoredMessage, b: AnchoredMessage)
    requires Injective(utf8) && LeafOf(h, utf8, a) == LeafOf(h, utf8, b)
    ensures match LeafDifference(h, utf8, a, b)
            case None => a.messageId == b.messageId && a.plaintext == b.plaintext
            case Some(c) => Collision(h, c)
  {
    var p, q := LeafPreimage(h, utf8, a.messageId, a.plaintext), LeafPreimage(h, utf8, b.messageId, b.plaintext);
    if p == q {
      var n := |utf8(a.messageId)|;
      assert |h(utf8(a.plaintext))[2..]| == 64 && |h(utf8(b.plaintext))[2..]| == 64;
      assert p[..n] == utf8(a.messageId) && q[..n] == utf8(b.messageId);
      assert p[n..] == h(utf8(a.plaintext))[2..] && q[n..] == h(utf8(b.plaintext))[2..];
      var x, y := h(utf8(a.plaintext)), h(utf8(b.plaintext));
      assert x == "0x" + x[2..] && y == "0x" + y[2..];
    }
  }

  /** m has this id and text, unless the two preimages named collide. */
  predicate Matches(h: Hash, utf8: Utf8, messageId: string, plaintext: string, m: AnchoredMessage) {
    match LeafDifference(h, utf8, AnchoredMessage(messageId, plaintext, None), m)
    case Some(x) => Collision(h, x)
    case None => m.messageId == messageId && m.plaintext == plaintext
  }

  /** Soundness: a text that verifies with a proof as long as the tree is deep has the leaf of a message of
      the conversation, and then it is that message's id and text; otherwise an explicit pair collides. */
  lemma VerifiedMessageIsMember(h: Hash, utf8: Utf8, c: ConversationTree, messageId: string, plaintext: string,
      proof: seq<Hex32>)
    requires IsConversation(h, utf8, c) && Injective(utf8)
    requires |proof| == CeilLog2(|c.orderedMessages|)
    requires MessageVerifies(h, utf8, c, messageId, plaintext, proof)
    ensures |proof| == Depth(c.tree.layers)
    ensures match ForgedPreimage(h, c.tree.layers, |proof|, 0, HashMessageLeaf(h, utf8, messageId, plaintext), proof)
            case Some(x) => Collision(h, x)
            case None => exists m :: m in c.orderedMessages && Matches(h, utf8, messageId, plaintext, m)
  {
    hide Layers, Fold, LeafDifference, ForgedPreimage, LeafPreimage;
    var leaf := HashMessageLeaf(h, utf8, messageId, plaintext);
    DepthIsCeilLog2(h, c.tree.leaves);
    LayersFormTree(h, c.tree.leaves);
    RootIsLower(c.tree.layers);
    RunStartsInTree(h, c.tree.layers, |proof|, 0, leaf, proof);
    if ForgedPreimage(h, c.tree.layers, |proof|, 0, leaf, proof).None? {
      var i: nat :| i < |c.tree.leaves| && c.tree.leaves[i] == leaf;
      var m := c.orderedMessages[i];
      LeafBindsMessage(h, utf8, AnchoredMessage(messageId, plaintext, None), m);
      assert m in c.orderedMessages && Matches(h, utf8, messageId, plaintext, m);
    }
  }

  /** The root does not depend on the order the messages arrive in, when the comparator separates them and
      both runs sorted consistently. */
  lemma RootIgnoresInputOrder(h: Hash, utf8: Utf8, cmp: Collation, input1: seq<AnchoredMessage>,
      input2: seq<AnchoredMessage>, c1: ConversationTree, c2: ConversationTree)
    requires IsCollation(cmp) && Separates(cmp, input1) && multiset(input1) == multiset(input2)
    requires IsConversation(h, utf8, c1) && IsConversation(h, utf8, c2)
    requires IsSorting(cmp, input1, c1.orderedMessages) && IsSorting(cmp, input2, c2.orderedMessages)
    ensures c1.orderedMessages == c2.orderedMessages && c1.tree.root == c2.tree.root
  {
    hide Compare, Layers;
    var s, t := c1.orderedMessages, c2.orderedMessages;
    forall a | a in s ensures a in input1 {
      assert a in multiset(s);
    }
    SortingUnique(cmp, s, t);
  }

  /** What Array.sort returns for a comparator that is transitive on its input: a rearrangement in which no
      message compares greater than the next. */
  ghost predicate IsSorted(cmp: Collation, input: seq<AnchoredMessage>, output: seq<AnchoredMessage>) {
    && multiset(input) == multiset(output)
    && forall i :: 0 < i < |output| ==> Compare(cmp, output[i - 1], output[i]) <= 0
  }

  lemma SameMembers(a: seq<AnchoredMessage>, b: seq<AnchoredMessage>)
    requires multiset(a) == multiset(b)
    ensures forall m :: m in a <==> m in b
  {
    forall m ensures m in a <==> m in b {
      assert m in a <==> m in multiset(a);
      assert m in b <==> m in multiset(b);
    }
  }

  lemma {:induction false} NeighboursSuffice(cmp: Collation, ms: seq<AnchoredMessage>, i: nat, j: nat)
    requires Transitive(cmp, ms) && i < j < |ms|
    requires forall k :: 0 < k < |ms| ==> Compare(cmp, ms[k - 1], ms[k]) <= 0
    ensures Compare(cmp, ms[i], ms[j]) <= 0
  {
    hide Compare;
    if j > i + 1 {
      NeighboursSuffice(cmp, ms, i, j - 1);
      assert TransitiveOn(cmp, ms[i], ms[j - 1], ms[j]);
    }
  }

  lemma SortedPairwise(cmp: Collation, input: seq<AnchoredMessage>, output: seq<AnchoredMessage>)
    requires Transitive(cmp, input) && IsSorted(cmp, input, output)
    ensures IsSorting(cmp, input, output)
  {
    hide Compare;
    SameMembers(input, output);
    forall i, j | 0 <= i < j < |output| ensures Compare(cmp, output[i], output[j]) <= 0 {
      NeighboursSuffice(cmp, output, i, j);
    }
  }

  /** A conversation with distinct ids, all or at most one of them dated, has one root: whatever order the
      messages arrive in and however the sort arranges equals, when the collation tells ids and times apart. */
  lemma ConversationHasOneRoot(h: Hash, utf8: Utf8, cmp: Collation, input1: seq<AnchoredMessage>,
      input2: seq<AnchoredMessage>, c1: ConversationTree, c2: ConversationTree)
    requires IsCollation(cmp) && SeparatesDates(cmp, input1) && DistinctIds(input1)
    requires SafePattern(DatedPattern(input1)) && multiset(input1) == multiset(input2)
    requires forall a, b ::
      a in input1 && b in input1 && cmp(a.messageId, b.messageId) == 0 ==> a.messageId == b.messageId
    requires IsConversation(h, utf8, c1) && IsConversation(h, utf8, c2)
    requires IsSorted(cmp, input1, c1.orderedMessages) && IsSorted(cmp, input2, c2.orderedMessages)
    ensures c1.orderedMessages == c2.orderedMessages && c1.tree.root == c2.tree.root
  {
    hide Compare, IsConversation, SeparatesDates, DistinctIds, SafePattern, IsCollation, IsSorted, IsSorting;
    SafePatternTransitive(cmp, input1);
    SeparatedByIds(cmp, input1);
    SameMembers(input1, input2);
    SortedPairwise(cmp, input1, c1.orderedMessages);
    SortedPairwise(cmp, input2, c2.orderedMessages);
    RootIgnoresInputOrder(h, utf8, cmp, input1, input2, c1, c2);
  }

  /** In a sorted conversation of a safe pattern, dated messages of different times come oldest first, and all others
      by their ids. */
  lemma OldestFirst(cmp: Collation, input: seq<AnchoredMessage>, output: seq<AnchoredMessage>, i: nat, j: nat)
    requires IsCollation(cmp) && SeparatesDates(cmp, input) && SafePattern(DatedPattern(input))
    requires IsSorted(cmp, input, output) && i < j < |output|
    ensures var a, b := output[i], output[j];
      if a.createdAt.Some? && a.createdAt.value != "" && b.createdAt.Some? && b.createdAt.value != ""
         && a.createdAt != b.createdAt
      then cmp(a.createdAt.value, b.createdAt.value) < 0
      else cmp(a.messageId, b.messageId) <= 0
  {
    SafePatternTransitive(cmp, input);
    SortedPairwise(cmp, input, output);
    SameMembers(input, output);
    assert output[i] in input && output[j] in input;
    hide SafePattern, IsSorted, Transitive, DatedPattern, IsCollation;
  }
}
