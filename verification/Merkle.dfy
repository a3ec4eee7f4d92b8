/** Merkle roots and inclusion proofs over symbolic hashes, an odd last node being promoted. */
module Merkle {
  import opened Wrappers

  /** A free hash: distinct inputs hash to distinct values. */
  datatype Hash = Leaf(id: nat) | Node(left: Hash, right: Hash)

  /** The all-zero root of an empty tree. */
  const ZERO := Leaf(0)

  /** Pairs up neighbours; an odd last element moves up unchanged. */
  function NextLevel(level: seq<Hash>): (r: seq<Hash>)
    ensures |r| == (|level| + 1) / 2
  {
    if |level| <= 1 then level else [Node(level[0], level[1])] + NextLevel(level[2..])
  }

  function Root(level: seq<Hash>): Hash
    requires level != []
    decreases |level|
  {
    if |level| == 1 then level[0] else Root(NextLevel(level))
  }

  function ComputeRoot(leaves: seq<Hash>): Hash {
    if leaves == [] then ZERO else Root(leaves)
  }

  /** The sibling of position `idx`, when its chunk has two elements. */
  function Sibling(level: seq<Hash>, idx: nat): seq<Hash> {
    if idx / 2 * 2 + 1 < |level| then [level[if idx % 2 == 0 then idx + 1 else idx - 1]] else []
  }

  function Proof(level: seq<Hash>, idx: nat): seq<Hash>
    decreases |level|
  {
    if |level| <= 1 then [] else Sibling(level, idx) + Proof(NextLevel(level), idx / 2)
  }

  /** `verify_proof`'s walk: every sibling is hashed in on the right. */
  function Fold(current: Hash, proof: seq<Hash>): Hash
    decreases |proof|
  {
    if proof == [] then current else Fold(Node(current, proof[0]), proof[1..])
  }

  lemma {:induction false} NextLevelAt(level: seq<Hash>, i: nat)
    requires i < (|level| + 1) / 2
    ensures NextLevel(level)[i] == if 2 * i + 1 < |level| then Node(level[2 * i], level[2 * i + 1]) else level[2 * i]
  {
    if i > 0 {
      NextLevelAt(level[2..], i - 1);
    }
  }

  /** One level up, seen from position `idx`. */
  lemma Climb(level: seq<Hash>, idx: nat)
    requires idx < |level| && |level| > 1
    ensures Root(level) == Root(NextLevel(level)) && idx / 2 < |NextLevel(level)| == (|level| + 1) / 2
    ensures var p, rest := Proof(level, idx), Proof(NextLevel(level), idx / 2);
      if idx % 2 == 0 && idx + 1 == |level| then
        p == rest && NextLevel(level)[idx / 2] == level[idx]
      else
        && p != [] && p[1..] == rest
        && p[0] == level[if idx % 2 == 0 then idx + 1 else idx - 1]
        && NextLevel(level)[idx / 2] == if idx % 2 == 0 then Node(level[idx], p[0]) else Node(p[0], level[idx])
  {
    assert Root(level) == Root(NextLevel(level));
    ParentAt(level, idx);
    ProofAt(level, idx);
    hide *;
  }

  lemma Halves(idx: nat)
    ensures idx == idx / 2 * 2 + idx % 2
  {
  }

  lemma ParentAt(level: seq<Hash>, idx: nat)
    requires idx < |level|
    ensures idx / 2 < |NextLevel(level)|
    ensures NextLevel(level)[idx / 2] ==
      if idx % 2 == 1 then Node(level[idx - 1], level[idx])
      else if idx + 1 < |level| then Node(level[idx], level[idx + 1])
      else level[idx]
  {
    Halves(idx);
    NextLevelAt(level, idx / 2);
    hide NextLevel;
  }

  lemma ProofAt(level: seq<Hash>, idx: nat)
    requires idx < |level| && |level| > 1
    ensures var p, rest := Proof(level, idx), Proof(NextLevel(level), idx / 2);
      if idx % 2 == 0 && idx + 1 == |level| then p == rest
      else p != [] && p[1..] == rest && p[0] == level[if idx % 2 == 0 then idx + 1 else idx - 1]
  {
    Halves(idx);
    var rest := Proof(NextLevel(level), idx / 2);
    assert Proof(level, idx) == Sibling(level, idx) + rest;
    hide Proof;
    hide NextLevel;
    var sib := Sibling(level, idx);
    if idx % 2 == 0 && idx + 1 == |level| {
      assert sib == [] && sib + rest == rest;
    } else {
      assert |sib| == 1 && (sib + rest)[1..] == rest;
    }
  }

  // ---------------------------------------------------------------- replaying a proof by position

  /** Replays a proof with the side given by the index, skipping levels where the node is promoted. */
  function Replay(current: Hash, proof: seq<Hash>, idx: nat, n: nat): Option<Hash>
    decreases n
  {
    if n <= 1 then (if proof == [] then Some(current) else None)
    else if idx % 2 == 0 && idx + 1 >= n then Replay(current, proof, idx / 2, (n + 1) / 2)
    else if proof == [] then None
    else
      var parent := if idx % 2 == 0 then Node(current, proof[0]) else Node(proof[0], current);
      Replay(parent, proof[1..], idx / 2, (n + 1) / 2)
  }

  /** For every tree and position, replaying the generated proof by position reaches the root. */
  lemma {:induction false} ReplayReachesRoot(level: seq<Hash>, idx: nat)
    requires idx < |level|
    ensures Replay(level[idx], Proof(level, idx), idx, |level|) == Some(Root(level))
    decreases |level|
  {
    if |level| > 1 {
      Climb(level, idx);
      ReplayReachesRoot(NextLevel(level), idx / 2);
      hide Proof;
      hide Root;
      hide NextLevel;
    }
  }

  /** And only the genuine leaf does. */
  lemma {:induction false} ReplayBindsLeaf(level: seq<Hash>, idx: nat, claimed: Hash)
    requires idx < |level|
    ensures Replay(claimed, Proof(level, idx), idx, |level|) == Some(Root(level)) ==> claimed == level[idx]
    decreases |level|
  {
    if |level| > 1 {
      Climb(level, idx);
      var p := Proof(level, idx);
      hide Proof;
      hide Root;
      hide NextLevel;
      if idx % 2 == 0 && idx + 1 == |level| {
        ReplayBindsLeaf(NextLevel(level), idx / 2, claimed);
      } else {
        ReplayBindsLeaf(NextLevel(level), idx / 2, if idx % 2 == 0 then Node(claimed, p[0]) else Node(p[0], claimed));
      }
    }
  }

  // ---------------------------------------------------------------- what verify_proof accepts

  /** At every level where the node on the path is a right child, it equals its sibling. */
  predicate RightStepsAreTwins(level: seq<Hash>, idx: nat)
    requires idx < |level|
    decreases |level|
  {
    |level| <= 1 ||
    ((idx % 2 == 1 ==> level[idx - 1] == level[idx]) && RightStepsAreTwins(NextLevel(level), idx / 2))
  }

  /** The path from position `idx` of `n` has no right child: only left or promoted nodes. */
  predicate NoRightStep(n: nat, idx: nat)
    decreases n
  {
    n <= 1 || (idx % 2 == 0 && NoRightStep((n + 1) / 2, idx / 2))
  }

  /** Only the first leaf has such a path: a promoted node is a right child further up. */
  lemma {:induction false} NoRightStepIsFirst(n: nat, idx: nat)
    requires idx < n
    ensures NoRightStep(n, idx) <==> idx == 0
    decreases n
  {
    if n > 1 {
      NoRightStepIsFirst((n + 1) / 2, idx / 2);
    }
  }

  /** `verify_proof` accepts a generated proof exactly for the leaf itself and a path without real right steps. */
  lemma {:induction false} VerifyAcceptsExactly(level: seq<Hash>, idx: nat, claimed: Hash)
    requires idx < |level|
    ensures Fold(claimed, Proof(level, idx)) == Root(level) <==> claimed == level[idx] && RightStepsAreTwins(level, idx)
    decreases |level|
  {
    if |level| > 1 {
      Climb(level, idx);
      var p, next := Proof(level, idx), NextLevel(level);
      assert RightStepsAreTwins(level, idx) <==>
        (idx % 2 == 1 ==> level[idx - 1] == level[idx]) && RightStepsAreTwins(next, idx / 2);
      hide Proof;
      hide Root;
      hide NextLevel;
      hide RightStepsAreTwins;
      if idx % 2 == 0 && idx + 1 == |level| {
        VerifyAcceptsExactly(next, idx / 2, claimed);
      } else {
        VerifyAcceptsExactly(next, idx / 2, Node(claimed, p[0]));
      }
    }
  }

  lemma {:induction false} NoRightStepIsAccepted(level: seq<Hash>, idx: nat)
    requires idx < |level| && NoRightStep(|level|, idx)
    ensures RightStepsAreTwins(level, idx)
    decreases |level|
  {
    if |level| > 1 {
      NoRightStepIsAccepted(NextLevel(level), idx / 2);
    }
  }

  /** The generated proof of the first leaf is accepted in every tree. */
  lemma FirstLeafIsAccepted(level: seq<Hash>)
    requires level != []
    ensures Fold(level[0], Proof(level, 0)) == ComputeRoot(level)
  {
    NoRightStepIsFirst(|level|, 0);
    NoRightStepIsAccepted(level, 0);
    VerifyAcceptsExactly(level, 0, level[0]);
  }

  /** The leaf identifiers below a hash. */
  function Atoms(h: Hash): set<nat> {
    match h
    case Leaf(id) => {id}
    case Node(l, r) => Atoms(l) + Atoms(r)
  }

  lemma {:induction false} AtomsNonempty(h: Hash)
    ensures Atoms(h) != {}
  {
    match h
    case Leaf(id) => assert id in Atoms(h);
    case Node(l, r) => AtomsNonempty(l);
  }

  ghost predicate Separate(level: seq<Hash>) {
    forall i, j :: 0 <= i < j < |level| ==> Atoms(level[i]) !! Atoms(level[j])
  }

  lemma SeparateLifts(level: seq<Hash>)
    requires Separate(level)
    ensures Separate(NextLevel(level))
  {
    var next := NextLevel(level);
    forall i, j | 0 <= i < j < |next| ensures Atoms(next[i]) !! Atoms(next[j]) {
      NextLevelAt(level, i);
      NextLevelAt(level, j);
      assert Atoms(level[2 * i]) !! Atoms(level[2 * j]) && Atoms(level[2 * i + 1]) !! Atoms(level[2 * j]);
      if 2 * j + 1 < |level| {
        assert Atoms(level[2 * i]) !! Atoms(level[2 * j + 1]) && Atoms(level[2 * i + 1]) !! Atoms(level[2 * j + 1]);
      }
    }
  }

  lemma {:induction false} SeparateHasNoTwins(level: seq<Hash>, idx: nat)
    requires idx < |level| && Separate(level)
    ensures RightStepsAreTwins(level, idx) <==> NoRightStep(|level|, idx)
    decreases |level|
  {
    if |level| > 1 {
      SeparateLifts(level);
      SeparateHasNoTwins(NextLevel(level), idx / 2);
      if idx % 2 == 1 {
        AtomsNonempty(level[idx]);
        assert Atoms(level[idx - 1]) !! Atoms(level[idx]);
      }
    }
  }

  /** For distinct leaves `verify_proof` accepts the generated proof of the first leaf and of no other. */
  lemma VerifyOfDistinctLeaves(ids: seq<nat>, idx: nat)
    requires idx < |ids| && forall i, j :: 0 <= i < j < |ids| ==> ids[i] != ids[j]
    ensures var leaves := seq(|ids|, i requires 0 <= i < |ids| => Leaf(ids[i]));
      Fold(leaves[idx], Proof(leaves, idx)) == ComputeRoot(leaves) <==> idx == 0
  {
    var leaves := seq(|ids|, i requires 0 <= i < |ids| => Leaf(ids[i]));
    assert Separate(leaves);
    VerifyAcceptsExactly(leaves, idx, leaves[idx]);
    SeparateHasNoTwins(leaves, idx);
    NoRightStepIsFirst(|ids|, idx);
  }

  /** In particular it rejects the second of two distinct leaves, whose proof is genuine. */
  lemma SecondLeafRejected(a: nat, b: nat)
    requires a != b
    ensures var leaves := [Leaf(a), Leaf(b)];
      && Fold(leaves[1], Proof(leaves, 1)) != ComputeRoot(leaves)
      && Replay(leaves[1], Proof(leaves, 1), 1, 2) == Some(ComputeRoot(leaves))
  {
    var leaves := [Leaf(a), Leaf(b)];
    VerifyAcceptsExactly(leaves, 1, leaves[1]);
    ReplayReachesRoot(leaves, 1);
  }

  // ---------------------------------------------------------------- size and binding

  function Pow2(k: nat): nat {
    if k == 0 then 1 else 2 * Pow2(k - 1)
  }

  /** A proof has at most as many hashes as the tree has levels: any k with 2^k at least the leaf count bounds it. */
  lemma {:induction false} ProofIsLogarithmic(level: seq<Hash>, idx: nat, k: nat)
    requires |level| <= Pow2(k)
    ensures |Proof(level, idx)| <= k
    decreases |level|
  {
    if |level| > 1 {
      ProofIsLogarithmic(NextLevel(level), idx / 2, k - 1);
    }
  }

  lemma {:induction false} NextLevelInjective(a: seq<Hash>, b: seq<Hash>)
    requires |a| == |b| && NextLevel(a) == NextLevel(b)
    ensures a == b
  {
    forall i | 0 <= i < |a| ensures a[i] == b[i] {
      NextLevelAt(a, i / 2);
      NextLevelAt(b, i / 2);
    }
  }

  /** Two leaf lists of the same length with the same root are the same list. */
  lemma {:induction false} RootBindsLeaves(a: seq<Hash>, b: seq<Hash>)
    requires |a| == |b| && ComputeRoot(a) == ComputeRoot(b)
    ensures a == b
    decreases |a|
  {
    if |a| == 1 {
      assert a == [a[0]] && b == [b[0]];
    } else if |a| > 1 {
      RootBindsLeaves(NextLevel(a), NextLevel(b));
      NextLevelInjective(a, b);
    }
  }

  /** Across lengths it does not bind: an inner node passes for a leaf, and so does the empty tree's root. */
  lemma LengthIsNotBound(a: Hash, b: Hash)
    ensures ComputeRoot([a, b]) == ComputeRoot([Node(a, b)])
    ensures ComputeRoot([]) == ComputeRoot([ZERO]) == Leaf(0)
  {
    assert NextLevel([a, b]) == [Node(a, b)];
  }

  /** The leaf identifiers below a hash and below a level, from left to right. */
  function Flat(h: Hash): seq<nat> {
    match h
    case Leaf(id) => [id]
    case Node(l, r) => Flat(l) + Flat(r)
  }

  function FlatLevel(level: seq<Hash>): seq<nat> {
    if level == [] then [] else Flat(level[0]) + FlatLevel(level[1..])
  }

  lemma {:induction false} NextLevelKeepsFlat(level: seq<Hash>)
    ensures FlatLevel(NextLevel(level)) == FlatLevel(level)
  {
    if |level| > 1 {
      NextLevelKeepsFlat(level[2..]);
      var pair := Node(level[0], level[1]);
      assert NextLevel(level)[1..] == NextLevel(level[2..]) && level[1..][1..] == level[2..];
      calc {
        FlatLevel(NextLevel(level));
        Flat(pair) + FlatLevel(level[2..]);
        (Flat(level[0]) + Flat(level[1])) + FlatLevel(level[2..]);
        Flat(level[0]) + (Flat(level[1]) + FlatLevel(level[2..]));
        FlatLevel(level);
      }
    }
  }

  lemma {:induction false} RootKeepsFlat(level: seq<Hash>)
    requires level != []
    ensures Flat(Root(level)) == FlatLevel(level)
    decreases |level|
  {
    if |level| == 1 {
      assert FlatLevel(level[1..]) == [];
    } else {
      RootKeepsFlat(NextLevel(level));
      NextLevelKeepsFlat(level);
    }
  }

  /** Hashes of data, none of them of two other hashes. */
  predicate AllLeaves(level: seq<Hash>) {
    forall h <- level :: h.Leaf?
  }

  lemma {:induction false} FlatOfLeaves(level: seq<Hash>)
    requires AllLeaves(level)
    ensures |FlatLevel(level)| == |level|
    ensures forall i :: 0 <= i < |level| ==> level[i] == Leaf(FlatLevel(level)[i])
  {
    if level != [] {
      FlatOfLeaves(level[1..]);
    }
  }

  /** The list that the root of `leaves` stands for: the empty list has the root of one zero leaf. */
  function Padded(leaves: seq<Hash>): seq<Hash> {
    if leaves == [] then [ZERO] else leaves
  }

  /** Among lists of genuine leaves of any lengths the root binds the whole list, save that the empty list
      passes for a zero leaf. */
  lemma RootBindsGenuineLeaves(a: seq<Hash>, b: seq<Hash>)
    requires AllLeaves(a) && AllLeaves(b)
    ensures ComputeRoot(a) == ComputeRoot(b) <==> Padded(a) == Padded(b)
  {
    RootKeepsFlat(Padded(a));
    RootKeepsFlat(Padded(b));
    FlatOfLeaves(Padded(a));
    FlatOfLeaves(Padded(b));
    assert ComputeRoot(a) == Root(Padded(a)) && ComputeRoot(b) == Root(Padded(b));
    hide FlatLevel;
  }

  lemma {:induction false} RootOfManyIsNode(level: seq<Hash>)
    requires |level| > 1
    ensures Root(level).Node?
    decreases |level|
  {
    if |level| == 2 {
      assert NextLevel(level) == [Node(level[0], level[1])];
    } else {
      RootOfManyIsNode(NextLevel(level));
    }
  }

  ghost predicate OnlyListWithItsRoot(leaves: seq<Hash>) {
    forall other :: other != [] && ComputeRoot(other) == ComputeRoot(leaves) ==> other == leaves
  }

  /** Where inner nodes may pass for leaves, the root binds a nonempty list exactly when it is a single leaf. */
  lemma BoundAloneExactly(leaves: seq<Hash>)
    requires leaves != []
    ensures OnlyListWithItsRoot(leaves) <==> |leaves| == 1 && leaves[0].Leaf?
  {
    if |leaves| > 1 {
      assert ComputeRoot([Root(leaves)]) == ComputeRoot(leaves);
    } else if leaves[0].Node? {
      LengthIsNotBound(leaves[0].left, leaves[0].right);
      assert leaves == [leaves[0]];
    } else {
      forall other | other != [] && ComputeRoot(other) == ComputeRoot(leaves) ensures other == leaves {
        if |other| > 1 {
          RootOfManyIsNode(other);
        }
      }
    }
  }

  // ---------------------------------------------------------------- the loops

  method ComputeRootLoop(leaves: seq<Hash>) returns (root: Hash)
    ensures root == ComputeRoot(leaves)
  {
    if leaves == [] {
      return ZERO;
    }
    if |leaves| == 1 {
      return leaves[0];
    }
    var level := leaves;
    while |level| > 1
      invariant level != [] && Root(level) == Root(leaves)
      decreases |level|
    {
      level := PairUp(level);
    }
    root := level[0];
  }

  /** The inner loop over chunks of two. */
  method PairUp(level: seq<Hash>) returns (nextLevel: seq<Hash>)
    ensures nextLevel == NextLevel(level)
  {
    hide NextLevel;
    nextLevel := [];
    for i := 0 to (|level| + 1) / 2
      invariant nextLevel == NextLevel(level)[..i]
    {
      NextLevelAt(level, i);
      nextLevel := nextLevel + [if 2 * i + 1 < |level| then Node(level[2 * i], level[2 * i + 1]) else level[2 * i]];
    }
  }

  method GenerateProof(leaves: seq<Hash>, index: nat) returns (proof: seq<Hash>)
    ensures proof == Proof(leaves, index)
  {
    proof := [];
    var level := leaves;
    var idx: nat := index;
    while |level| > 1
      invariant proof + Proof(level, idx) == Proof(leaves, index)
      decreases |level|
    {
      var nextLevel, found := PairUpWatching(level, idx);
      proof := proof + found;
      level := nextLevel;
      idx := idx / 2;
    }
  }

  /** The same loop, picking up the sibling of position `idx` on the way. */
  method PairUpWatching(level: seq<Hash>, idx: nat) returns (nextLevel: seq<Hash>, found: seq<Hash>)
    ensures nextLevel == NextLevel(level) && found == Sibling(level, idx)
  {
    hide NextLevel;
    nextLevel, found := [], [];
    for i := 0 to (|level| + 1) / 2
      invariant nextLevel == NextLevel(level)[..i]
      invariant found == if idx / 2 < i then Sibling(level, idx) else []
    {
      NextLevelAt(level, i);
      if 2 * i + 1 < |level| {
        nextLevel := nextLevel + [Node(level[2 * i], level[2 * i + 1])];
        if i == idx / 2 {
          found := found + [level[if idx % 2 == 0 then 2 * i + 1 else 2 * i]];
        }
      } else {
        nextLevel := nextLevel + [level[2 * i]];
      }
    }
  }

  method VerifyProof(leaf: Hash, proof: seq<Hash>, root: Hash) returns (ok: bool)
    ensures ok <==> Fold(leaf, proof) == root
  {
    var current := leaf;
    for i := 0 to |proof|
      invariant Fold(current, proof[i..]) == Fold(leaf, proof)
    {
      assert proof[i..][1..] == proof[i + 1..];
      current := Node(current, proof[i]);
    }
    ok := current == root;
  }
}
