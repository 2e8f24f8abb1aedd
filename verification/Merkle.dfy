/**
 Merkle batches: the level-by-level tree with sorted pairs and promoted odd
 nodes, its inclusion proofs, and the verifier.

 The hash is an arbitrary function on byte strings. Soundness therefore does
 not assume it is ideal: a proof for a leaf outside the batch makes the hash
 collide on two different byte strings, one hashed by the builder and one by
 the verifier.
 */
module Merkle {
  import opened Base
  import opened Bytes

  /** A 32-byte digest. */
  type Digest = d: seq<byte> | |d| == 32 witness seq(32, _ => 0)

  type Hash = seq<byte> -> Digest

  const MAX_MERKLE_PROOF_DEPTH := 32

  /** Byte-wise lexicographic order. */
  predicate LexLeq(a: seq<byte>, b: seq<byte>) {
    a == [] || (b != [] && (a[0] < b[0] || (a[0] == b[0] && LexLeq(a[1..], b[1..]))))
  }

  lemma {:induction false} LexTotal(a: seq<byte>, b: seq<byte>)
    ensures LexLeq(a, b) || LexLeq(b, a)
    ensures LexLeq(a, b) && LexLeq(b, a) ==> a == b
  {
    if a != [] && b != [] && a[0] == b[0] {
      LexTotal(a[1..], b[1..]);
      if a[1..] == b[1..] { assert a == [a[0]] + a[1..] && b == [b[0]] + b[1..]; }
    }
  }

  /** On digests that is the order of the numbers they denote. */
  lemma {:induction false} LexIsNumeric(a: seq<byte>, b: seq<byte>)
    requires |a| == |b|
    ensures LexLeq(a, b) <==> BigEndian(a) <= BigEndian(b)
  {
    if a != [] {
      var p := Pow(256, |a| - 1);
      assert a == [a[0]] + a[1..] && b == [b[0]] + b[1..];
      BigEndianLead(a[0], a[1..]);
      BigEndianLead(b[0], b[1..]);
      BigEndianUpper(a[1..]);
      BigEndianUpper(b[1..]);
      LexIsNumeric(a[1..], b[1..]);
      if a[0] < b[0] { LeadDecides(a[0], b[0], p); }
      if b[0] < a[0] { LeadDecides(b[0], a[0], p); }
    }
  }

  lemma LeadDecides(x: nat, y: nat, p: nat)
    requires x < y
    ensures x * p + p <= y * p
  {
    assert (x + 1) * p <= y * p;
  }

  function LeafHash(h: Hash, data: seq<byte>): Digest {
    h([0] + data)
  }

  /** The bytes hashed for a pair: domain tag, then the smaller digest first. */
  function PairBytes(a: Digest, b: Digest): seq<byte> {
    if LexLeq(a, b) then [1] + a + b else [1] + b + a
  }

  lemma PairOrder(a: Digest, b: Digest)
    ensures PairBytes(a, b) == if BigEndian(a) <= BigEndian(b) then [1] + a + b else [1] + b + a
  {
    LexIsNumeric(a, b);
  }

  function NodeHash(h: Hash, a: Digest, b: Digest): Digest {
    h(PairBytes(a, b))
  }

  lemma PairSymmetric(a: Digest, b: Digest)
    ensures PairBytes(a, b) == PairBytes(b, a)
  {
    LexTotal(a, b);
  }

  /** The pair can be read back from its bytes, up to order. */
  lemma PairInjective(a: Digest, b: Digest, c: Digest, d: Digest)
    requires PairBytes(a, b) == PairBytes(c, d)
    ensures a == c || a == d
  {
    var x, y := PairBytes(a, b), PairBytes(c, d);
    assert x[1..33] == y[1..33] && x[33..65] == y[33..65];
    assert (x[1..33] == a && x[33..65] == b) || (x[1..33] == b && x[33..65] == a);
    assert (y[1..33] == c && y[33..65] == d) || (y[1..33] == d && y[33..65] == c);
  }

  /** The hash confuses a string of `xs` with a different one of `ys`. */
  ghost predicate Clash(h: Hash, xs: set<seq<byte>>, ys: set<seq<byte>>) {
    exists x, y :: x in xs && y in ys && x != y && h(x) == h(y)
  }

  // --------------------------------------------------------- the tree, as a spec

  /** Node `i` of the next level: a hashed pair, or a promoted odd node. */
  function Parent(h: Hash, level: seq<Digest>, i: nat): Digest
    requires 2 * i < |level|
  {
    if 2 * i + 1 < |level| then NodeHash(h, level[2 * i], level[2 * i + 1]) else level[2 * i]
  }

  function Next(h: Hash, level: seq<Digest>): (next: seq<Digest>)
    ensures |next| == (|level| + 1) / 2
    ensures forall i :: 0 <= i < |next| ==> next[i] == Parent(h, level, i)
  {
    seq((|level| + 1) / 2, i requires 0 <= i < (|level| + 1) / 2 => Parent(h, level, i))
  }

  function Root(h: Hash, level: seq<Digest>): Digest
    requires level != []
    decreases |level|
  {
    if |level| == 1 then level[0] else Root(h, Next(h, level))
  }

  function LeafLevel(h: Hash, leaves: seq<seq<byte>>): (level: seq<Digest>)
    ensures |level| == |leaves|
    ensures forall i :: 0 <= i < |leaves| ==> level[i] == h([0] + leaves[i])
  {
    seq(|leaves|, i requires 0 <= i < |leaves| => LeafHash(h, leaves[i]))
  }

  /** The sibling of position `pos`; a promoted node has none. */
  function Siblings(level: seq<Digest>, pos: nat): seq<Digest>
    requires pos < |level|
  {
    if pos % 2 == 1 then [level[pos - 1]] else if pos + 1 < |level| then [level[pos + 1]] else []
  }

  function Path(h: Hash, level: seq<Digest>, pos: nat): seq<Digest>
    requires pos < |level|
    decreases |level|
  {
    if |level| == 1 then [] else Siblings(level, pos) + Path(h, Next(h, level), pos / 2)
  }

  /** What the verifier computes. */
  function Fold(h: Hash, digest: Digest, proof: seq<Digest>): Digest {
    if proof == [] then digest else NodeHash(h, Fold(h, digest, proof[..|proof| - 1]), proof[|proof| - 1])
  }

  lemma {:induction false} FoldConcat(h: Hash, digest: Digest, p: seq<Digest>, q: seq<Digest>)
    ensures Fold(h, digest, p + q) == Fold(h, Fold(h, digest, p), q)
  {
    if q == [] {
      assert p + q == p;
    } else {
      FoldConcat(h, digest, p, q[..|q| - 1]);
      assert (p + q)[..|p + q| - 1] == p + q[..|q| - 1];
    }
  }

  // ------------------------------------------------------------- completeness

  /** One step of a proof climbs one level, promotion included. */
  lemma Climb(h: Hash, level: seq<Digest>, pos: nat)
    requires pos < |level|
    ensures pos / 2 < |Next(h, level)|
    ensures Fold(h, level[pos], Siblings(level, pos)) == Next(h, level)[pos / 2]
  {
    var s := Siblings(level, pos);
    if s != [] {
      assert s[..0] == [];
      assert Fold(h, level[pos], s) == NodeHash(h, level[pos], s[0]);
      PairSymmetric(level[pos], s[0]);
    }
  }

  /** Every proof of the tree folds to the root. */
  lemma {:induction false} Complete(h: Hash, level: seq<Digest>, pos: nat)
    requires pos < |level|
    ensures Fold(h, level[pos], Path(h, level, pos)) == Root(h, level)
    decreases |level|
  {
    if |level| > 1 {
      Climb(h, level, pos);
      Complete(h, Next(h, level), pos / 2);
      FoldConcat(h, level[pos], Siblings(level, pos), Path(h, Next(h, level), pos / 2));
    }
  }

  function Pow2(k: nat): nat {
    if k == 0 then 1 else 2 * Pow2(k - 1)
  }

  /** A level and the one above it have the same root. */
  lemma RootOfNext(h: Hash, level: seq<Digest>)
    requires level != []
    ensures Root(h, level) == Root(h, Next(h, level))
  {
    if |level| == 1 { assert Next(h, level) == level; }
  }

  /** The next level of a level cut at an even place is cut at half of it. */
  lemma NextCut(h: Hash, level: seq<Digest>, k: nat)
    requires 2 * k <= |level|
    ensures Next(h, level)[..k] == Next(h, level[..2 * k])
    ensures Next(h, level)[k..] == Next(h, level[2 * k..])
  {
    hide NodeHash;
    var left, right, next := level[..2 * k], level[2 * k..], Next(h, level);
    forall i | 0 <= i < k ensures next[..k][i] == Next(h, left)[i] {
      assert next[i] == Parent(h, level, i) == Parent(h, left, i);
    }
    forall i | 0 <= i < |Next(h, right)| ensures next[k..][i] == Next(h, right)[i] {
      assert next[k + i] == Parent(h, level, k + i);
      assert right[2 * i] == level[2 * (k + i)];
    }
    assert |next[k..]| == |Next(h, right)|;
  }

  /** The tree from above: it splits after the largest power of two below its size,
      and hashes the two roots, the smaller number first. */
  lemma {:induction false} RootSplits(h: Hash, level: seq<Digest>, j: nat)
    requires Pow2(j) < |level| <= Pow2(j + 1)
    ensures var a, b := Root(h, level[..Pow2(j)]), Root(h, level[Pow2(j)..]);
            Root(h, level) == h(if BigEndian(a) <= BigEndian(b) then [1] + a + b else [1] + b + a)
    decreases j
  {
    var k := Pow2(j);
    if j == 0 {
      assert Next(h, level) == [NodeHash(h, level[0], level[1])];
      assert level[..1] == [level[0]] && level[1..] == [level[1]];
      PairOrder(level[0], level[1]);
    } else {
      RootSplits(h, Next(h, level), j - 1);
      NextCut(h, level, Pow2(j - 1));
      RootOfNext(h, level);
      RootOfNext(h, level[..k]);
      RootOfNext(h, level[k..]);
    }
  }

  /** A proof has at most ceil(log2 n) steps: no more than any k with n <= 2^k. */
  lemma {:induction false} PathDepth(h: Hash, level: seq<Digest>, pos: nat, k: nat)
    requires pos < |level| <= Pow2(k)
    ensures |Path(h, level, pos)| <= k
    decreases k
  {
    if |level| > 1 { PathDepth(h, Next(h, level), pos / 2, k - 1); }
  }

  // ---------------------------------------------------------------- soundness

  /** The strings hashed for the nodes right above a level. */
  ghost function LevelInputs(level: seq<Digest>): set<seq<byte>> {
    set i | 0 <= i < |level| / 2 :: PairBytes(level[2 * i], level[2 * i + 1])
  }

  /** The strings hashed for all nodes above a level. */
  ghost function NodeInputs(h: Hash, level: seq<Digest>): set<seq<byte>>
    decreases |level|
  {
    LevelInputs(level) + (if |level| > 1 then NodeInputs(h, Next(h, level)) else {})
  }

  /** The strings hashed to build the tree of a batch. */
  ghost function BuilderInputs(h: Hash, leaves: seq<seq<byte>>): set<seq<byte>> {
    (set i | 0 <= i < |leaves| :: [0] + leaves[i]) + NodeInputs(h, LeafLevel(h, leaves))
  }

  /** The string hashed at step `i` of a proof. */
  ghost function StepInput(h: Hash, digest: Digest, proof: seq<Digest>, i: nat): seq<byte>
    requires i < |proof|
  {
    PairBytes(Fold(h, digest, proof[..i]), proof[i])
  }

  ghost function StepInputs(h: Hash, digest: Digest, proof: seq<Digest>): set<seq<byte>> {
    set i | 0 <= i < |proof| :: StepInput(h, digest, proof, i)
  }

  /** The strings hashed to verify a leaf with a proof. */
  ghost function VerifierInputs(h: Hash, data: seq<byte>, proof: seq<Digest>): set<seq<byte>> {
    {[0] + data} + StepInputs(h, LeafHash(h, data), proof)
  }

  lemma FoldStep(h: Hash, digest: Digest, proof: seq<Digest>, i: nat)
    requires i < |proof|
    ensures Fold(h, digest, proof[..i + 1]) == h(StepInput(h, digest, proof, i))
    ensures StepInput(h, digest, proof, i) in StepInputs(h, digest, proof)
  {
    assert proof[..i + 1][..i] == proof[..i];
  }

  lemma PairIsNodeInput(h: Hash, level: seq<Digest>, i: nat)
    requires 2 * i + 1 < |level|
    ensures PairBytes(level[2 * i], level[2 * i + 1]) in NodeInputs(h, level)
  {
    hide PairBytes, NodeHash;
    assert i < |level| / 2;
    assert PairBytes(level[2 * i], level[2 * i + 1]) in LevelInputs(level);
  }

  /** A leaf's string and a pair's string differ in their tag. */
  lemma LeafIsNoPair(data: seq<byte>, a: Digest, b: Digest)
    ensures [0] + data != PairBytes(a, b)
  {
    assert ([0] + data)[0] != PairBytes(a, b)[0];
  }

  /** A proof whose first `n` steps fold into a level folds, cut shorter still,
      into the level below. */
  lemma Descend(h: Hash, level: seq<Digest>, data: seq<byte>, proof: seq<Digest>, n: nat, i: nat)
    returns (m: nat, j: nat)
    requires n <= |proof| && i < |Next(h, level)| && Fold(h, LeafHash(h, data), proof[..n]) == Next(h, level)[i]
    ensures Clash(h, NodeInputs(h, level), VerifierInputs(h, data, proof))
            || (m <= |proof| && j < |level| && Fold(h, LeafHash(h, data), proof[..m]) == level[j])
  {
    m, j := n, 2 * i;
    if 2 * i + 1 < |level| {
      hide NodeInputs, PairBytes, Fold, StepInputs;
      var built := PairBytes(level[2 * i], level[2 * i + 1]);
      PairIsNodeInput(h, level, i);
      if n == 0 {
        LeafIsNoPair(data, level[2 * i], level[2 * i + 1]);
        FoldNone(h, LeafHash(h, data), proof);
        assert [0] + data in VerifierInputs(h, data, proof);
      } else {
        m := n - 1;
        FoldStep(h, LeafHash(h, data), proof, m);
        var below := Fold(h, LeafHash(h, data), proof[..m]);
        assert StepInput(h, LeafHash(h, data), proof, m) in VerifierInputs(h, data, proof);
        if PairBytes(below, proof[m]) == built {
          PairInjective(below, proof[m], level[2 * i], level[2 * i + 1]);
          if below == level[2 * i + 1] { j := 2 * i + 1; }
        }
      }
    }
  }

  lemma FoldNone(h: Hash, digest: Digest, proof: seq<Digest>)
    ensures Fold(h, digest, proof[..0]) == digest
  {}

  lemma {:induction false} DescendToLeaves(h: Hash, level: seq<Digest>, data: seq<byte>, proof: seq<Digest>)
    returns (m: nat, j: nat)
    requires level != [] && Fold(h, LeafHash(h, data), proof) == Root(h, level)
    ensures Clash(h, NodeInputs(h, level), VerifierInputs(h, data, proof))
            || (m <= |proof| && j < |level| && Fold(h, LeafHash(h, data), proof[..m]) == level[j])
    decreases |level|
  {
    if |level| == 1 {
      assert proof[..|proof|] == proof;
      return |proof|, 0;
    }
    m, j := DescendToLeaves(h, Next(h, level), data, proof);
    ClashMore(h, NodeInputs(h, Next(h, level)), NodeInputs(h, level), VerifierInputs(h, data, proof));
    if !Clash(h, NodeInputs(h, level), VerifierInputs(h, data, proof)) {
      m, j := Descend(h, level, data, proof, m, j);
    }
  }

  lemma ClashMore(h: Hash, xs: set<seq<byte>>, more: set<seq<byte>>, ys: set<seq<byte>>)
    requires xs <= more
    ensures Clash(h, xs, ys) ==> Clash(h, more, ys)
  {
    if Clash(h, xs, ys) {
      var x, y :| x in xs && y in ys && x != y && h(x) == h(y);
      assert x in more;
    }
  }

  /** Whatever folds to the root is a leaf of the batch, unless the hash confuses
      a string the builder hashed with another one the verifier hashed. */
  lemma Sound(h: Hash, leaves: seq<seq<byte>>, data: seq<byte>, proof: seq<Digest>)
    requires leaves != [] && Fold(h, LeafHash(h, data), proof) == Root(h, LeafLevel(h, leaves))
    ensures data in leaves || Clash(h, BuilderInputs(h, leaves), VerifierInputs(h, data, proof))
  {
    hide Root, Fold, PairBytes, NodeInputs, StepInputs, Clash, Next;
    var builder, verifier := BuilderInputs(h, leaves), VerifierInputs(h, data, proof);
    var m, j := DescendToLeaves(h, LeafLevel(h, leaves), data, proof);
    ClashMore(h, NodeInputs(h, LeafLevel(h, leaves)), builder, verifier);
    if !Clash(h, builder, verifier) {
      LeafMatches(h, leaves, data, proof, m, j);
    }
  }

  /** The first `m` steps fold to the hash of leaf `j`: then there are no steps,
      and the data is that leaf, unless the hash clashes. */
  lemma LeafMatches(h: Hash, leaves: seq<seq<byte>>, data: seq<byte>, proof: seq<Digest>, m: nat, j: nat)
    requires m <= |proof| && j < |leaves| && Fold(h, LeafHash(h, data), proof[..m]) == LeafHash(h, leaves[j])
    ensures data == leaves[j] || Clash(h, BuilderInputs(h, leaves), VerifierInputs(h, data, proof))
  {
    hide Fold, PairBytes, NodeInputs, StepInputs;
    var builder, verifier := BuilderInputs(h, leaves), VerifierInputs(h, data, proof);
    var built := [0] + leaves[j];
    assert built in builder && [0] + data in verifier;
    if m == 0 {
      FoldNone(h, LeafHash(h, data), proof);
      assert ([0] + data)[1..] == data && built[1..] == leaves[j];
    } else {
      FoldStep(h, LeafHash(h, data), proof, m - 1);
      var checked := StepInput(h, LeafHash(h, data), proof, m - 1);
      assert checked in verifier;
      LeafIsNoPair(leaves[j], Fold(h, LeafHash(h, data), proof[..m - 1]), proof[m - 1]);
      assert built != checked && h(built) == h(checked);
    }
  }

  // ---------------------------------------------------------------- the loops

  /** `merkle_root` */
  method MerkleRoot(h: Hash, leaves: seq<seq<byte>>) returns (root: Digest)
    requires leaves != []
    ensures root == Root(h, LeafLevel(h, leaves))
    ensures |leaves| == 1 ==> root == h([0] + leaves[0])
  {
    var level: seq<Digest> := LeafLevel(h, leaves);
    while |level| > 1
      invariant level != [] && Root(h, level) == Root(h, LeafLevel(h, leaves))
      decreases |level|
    {
      var next: seq<Digest> := [];
      var i := 0;
      while i < |level|
        invariant i == 2 * |next| && |next| <= |Next(h, level)|
        invariant next == Next(h, level)[..|next|]
      {
        if i + 1 < |level| {
          next := next + [NodeHash(h, level[i], level[i + 1])];
        } else {
          next := next + [level[i]];
        }
        i := i + 2;
      }
      assert next == Next(h, level);
      level := next;
    }
    root := level[0];
  }

  /** `verify_proof` */
  method VerifyProof(h: Hash, root: Digest, leaf: seq<byte>, proof: seq<Digest>) returns (ok: bool)
    ensures ok <==> Fold(h, LeafHash(h, leaf), proof) == root
  {
    var current := LeafHash(h, leaf);
    for i := 0 to |proof|
      invariant current == Fold(h, LeafHash(h, leaf), proof[..i])
    {
      assert proof[..i + 1][..i] == proof[..i];
      current := NodeHash(h, current, proof[i]);
    }
    assert proof[..|proof|] == proof;
    ok := current == root;
  }

  /** `verify_proof_with`: the bounded verifier the SAS contract exposes. */
  method VerifyProofWith(h: Hash, root: Digest, leaf: seq<byte>, siblings: seq<Digest>) returns (ok: bool)
    ensures ok <==> |siblings| <= 32 && Fold(h, LeafHash(h, leaf), siblings) == root
  {
    if |siblings| > MAX_MERKLE_PROOF_DEPTH { return false; }
    ok := VerifyProof(h, root, leaf, siblings);
  }

  /** The leaf loops inside one pair: note the sibling of every leaf that
      currently sits at either end, and move both to the parent. */
  method RecordPair(level: seq<Digest>, positions: seq<nat>, i: nat, parentPos: nat,
                    paths: seq<seq<Digest>>, moved: seq<nat>)
    returns (paths': seq<seq<Digest>>, moved': seq<nat>)
    requires |paths| == |positions| == |moved| && i + 1 < |level|
    ensures |paths'| == |moved'| == |positions|
    ensures forall j :: 0 <= j < |positions| ==>
              if positions[j] == i then paths'[j] == paths[j] + [level[i + 1]] && moved'[j] == parentPos
              else if positions[j] == i + 1 then paths'[j] == paths[j] + [level[i]] && moved'[j] == parentPos
              else paths'[j] == paths[j] && moved'[j] == moved[j]
  {
    paths', moved' := paths, moved;
    for j := 0 to |positions|
      invariant |paths'| == |moved'| == |positions|
      invariant forall m :: j <= m < |positions| ==> paths'[m] == paths[m] && moved'[m] == moved[m]
      invariant forall m :: 0 <= m < j ==>
                  if positions[m] == i then paths'[m] == paths[m] + [level[i + 1]] && moved'[m] == parentPos
                  else if positions[m] == i + 1 then paths'[m] == paths[m] + [level[i]] && moved'[m] == parentPos
                  else paths'[m] == paths[m] && moved'[m] == moved[m]
    {
      if positions[j] == i {
        paths', moved' := paths'[j := paths'[j] + [level[i + 1]]], moved'[j := parentPos];
      } else if positions[j] == i + 1 {
        paths', moved' := paths'[j := paths'[j] + [level[i]]], moved'[j := parentPos];
      }
    }
  }

  /** The leaf loop of a promoted node: its leaves move up without a sibling. */
  method RecordPromoted(positions: seq<nat>, i: nat, promotedPos: nat, moved: seq<nat>) returns (moved': seq<nat>)
    requires |positions| == |moved|
    ensures |moved'| == |positions|
    ensures forall j :: 0 <= j < |positions| ==> moved'[j] == if positions[j] == i then promotedPos else moved[j]
  {
    moved' := moved;
    for j := 0 to |positions|
      invariant |moved'| == |positions|
      invariant forall m :: j <= m < |positions| ==> moved'[m] == moved[m]
      invariant forall m :: 0 <= m < j ==> moved'[m] == if positions[m] == i then promotedPos else moved[m]
    {
      if positions[j] == i { moved' := moved'[j := promotedPos]; }
    }
  }

  /** One pass over a level. */
  method ContractLevel(h: Hash, level: seq<Digest>, positions: seq<nat>, paths: seq<seq<Digest>>)
    returns (next: seq<Digest>, moved: seq<nat>, paths': seq<seq<Digest>>)
    requires |paths| == |positions| && forall j :: 0 <= j < |positions| ==> positions[j] < |level|
    ensures next == Next(h, level) && |moved| == |paths'| == |positions|
    ensures forall j :: 0 <= j < |positions| ==> moved[j] == positions[j] / 2
    ensures forall j :: 0 <= j < |positions| ==> paths'[j] == paths[j] + Siblings(level, positions[j])
  {
    hide PairBytes, NodeHash;
    next, moved, paths' := [], seq(|positions|, _ => 0), paths;
    var i := 0;
    while i < |level|
      invariant i == 2 * |next| && |next| <= |Next(h, level)| && |moved| == |paths'| == |positions|
      invariant next == Next(h, level)[..|next|]
      invariant forall j :: 0 <= j < |positions| ==>
                  if positions[j] < i
                  then moved[j] == positions[j] / 2 && paths'[j] == paths[j] + Siblings(level, positions[j])
                  else paths'[j] == paths[j]
    {
      if i + 1 < |level| {
        paths', moved := RecordPair(level, positions, i, |next|, paths', moved);
        next := next + [NodeHash(h, level[i], level[i + 1])];
      } else {
        moved := RecordPromoted(positions, i, |next|, moved);
        next := next + [level[i]];
      }
      i := i + 2;
    }
  }

  /** `build_proofs` */
  method BuildProofs(h: Hash, leaves: seq<seq<byte>>) returns (proofs: seq<seq<Digest>>)
    ensures |proofs| == |leaves|
    ensures forall j :: 0 <= j < |leaves| ==> proofs[j] == Path(h, LeafLevel(h, leaves), j)
  {
    var n := |leaves|;
    var level: seq<Digest> := LeafLevel(h, leaves);
    ghost var level0 := level;
    var positions: seq<nat> := seq(n, (j: nat) => j);
    proofs := seq(n, _ => []);
    while |level| > 1
      invariant |positions| == |proofs| == n && (n > 0 ==> level != [])
      invariant forall j :: 0 <= j < n ==> positions[j] < |level|
      invariant forall j :: 0 <= j < n ==> proofs[j] + Path(h, level, positions[j]) == Path(h, level0, j)
      decreases |level|
    {
      ghost var before, at, below := proofs, positions, level;
      level, positions, proofs := ContractLevel(h, level, positions, proofs);
      forall j | 0 <= j < n
        ensures proofs[j] + Path(h, level, positions[j]) == Path(h, level0, j)
      {
        PathStep(h, below, at[j], before[j]);
      }
    }
    forall j | 0 <= j < n
      ensures proofs[j] == Path(h, level0, j)
    {
      assert proofs[j] + Path(h, level, positions[j]) == proofs[j];
    }
  }

  lemma PathStep(h: Hash, level: seq<Digest>, pos: nat, soFar: seq<Digest>)
    requires pos < |level| && |level| > 1
    ensures soFar + Path(h, level, pos) == (soFar + Siblings(level, pos)) + Path(h, Next(h, level), pos / 2)
  {
    Assoc(soFar, Siblings(level, pos), Path(h, Next(h, level), pos / 2));
  }

  /** Every built proof verifies, under the depth bound too for up to 2^32 leaves. */
  lemma BuiltProofVerifies(h: Hash, leaves: seq<seq<byte>>, j: nat)
    requires j < |leaves|
    ensures var proof := Path(h, LeafLevel(h, leaves), j);
            && Fold(h, LeafHash(h, leaves[j]), proof) == Root(h, LeafLevel(h, leaves))
            && (|leaves| <= Pow2(MAX_MERKLE_PROOF_DEPTH) ==> |proof| <= MAX_MERKLE_PROOF_DEPTH)
  {
    var level := LeafLevel(h, leaves);
    Complete(h, level, j);
    if |leaves| <= Pow2(MAX_MERKLE_PROOF_DEPTH) { PathDepth(h, level, j, MAX_MERKLE_PROOF_DEPTH); }
  }

  /** The proof of one leaf verifies no other data, unless the hash confuses a
      string hashed for the one with another hashed for the other. */
  lemma ProofIsForItsLeaf(h: Hash, leaves: seq<seq<byte>>, j: nat, data: seq<byte>)
    requires j < |leaves| && data != leaves[j]
    requires Fold(h, LeafHash(h, data), Path(h, LeafLevel(h, leaves), j)) == Root(h, LeafLevel(h, leaves))
    ensures var proof := Path(h, LeafLevel(h, leaves), j);
            Clash(h, VerifierInputs(h, data, proof), VerifierInputs(h, leaves[j], proof))
  {
    var proof := Path(h, LeafLevel(h, leaves), j);
    Complete(h, LeafLevel(h, leaves), j);
    assert proof[..|proof|] == proof;
    FoldInjective(h, data, leaves[j], proof, |proof|);
    assert ([0] + data)[1..] == data && ([0] + leaves[j])[1..] == leaves[j];
    assert [0] + data in VerifierInputs(h, data, proof) && [0] + leaves[j] in VerifierInputs(h, leaves[j], proof);
  }

  /** Folding the same proof over different leaves gives different results. */
  lemma {:induction false} FoldInjective(h: Hash, x: seq<byte>, y: seq<byte>, proof: seq<Digest>, n: nat)
    requires n <= |proof| && Fold(h, LeafHash(h, x), proof[..n]) == Fold(h, LeafHash(h, y), proof[..n])
    ensures LeafHash(h, x) == LeafHash(h, y) || Clash(h, VerifierInputs(h, x, proof), VerifierInputs(h, y, proof))
    decreases n
  {
    if n == 0 {
      FoldNone(h, LeafHash(h, x), proof);
      FoldNone(h, LeafHash(h, y), proof);
    } else {
      hide Fold, PairBytes, LeafHash, StepInputs;
      var a, b := StepInput(h, LeafHash(h, x), proof, n - 1), StepInput(h, LeafHash(h, y), proof, n - 1);
      FoldStep(h, LeafHash(h, x), proof, n - 1);
      FoldStep(h, LeafHash(h, y), proof, n - 1);
      assert a in VerifierInputs(h, x, proof) && b in VerifierInputs(h, y, proof);
      if a == b {
        SameSibling(Fold(h, LeafHash(h, x), proof[..n - 1]), Fold(h, LeafHash(h, y), proof[..n - 1]), proof[n - 1]);
        FoldInjective(h, x, y, proof, n - 1);
      }
    }
  }

  lemma SameSibling(x: Digest, y: Digest, s: Digest)
    ensures PairBytes(x, s) == PairBytes(y, s) ==> x == y
  {
    if PairBytes(x, s) == PairBytes(y, s) {
      PairInjective(x, s, y, s);
      PairInjective(y, s, x, s);
    }
  }
}
