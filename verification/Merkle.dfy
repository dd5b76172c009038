/** The Merkle tree: root, inclusion proofs, and what a root commits to
    (src/core.h:112-151).  An odd level duplicates its last node. */
module Merkle {
  import opened Basics
  import opened Codec
  import opened Pow

  datatype Step = Step(h: H256, left: bool)   // left: the sibling is on the left

  /** The 64 bytes hashed for an inner node. */
  function Pair(l: H256, r: H256): (s: Bytes)
    ensures |s| == 64
  {
    l + r
  }

  lemma {:induction false} PairInjective(a: H256, b: H256, c: H256, d: H256)
    ensures Pair(a, b) == Pair(c, d) ==> a == c && b == d
  {
    assert Pair(a, b)[..32] == a && Pair(a, b)[32..] == b;
    assert Pair(c, d)[..32] == c && Pair(c, d)[32..] == d;
  }

  function Parent(n: Net, l: H256, r: H256): H256 {
    n.hash(Pair(l, r))
  }

  /** The right child of node i of the next level: the node itself when it has no sibling. */
  function RightOf(l: seq<H256>, i: nat): H256
    requires 2 * i < |l|
  {
    if 2 * i + 1 < |l| then l[2 * i + 1] else l[2 * i]
  }

  function Up(n: Net, l: seq<H256>): (u: seq<H256>)
    ensures |u| == (|l| + 1) / 2
    ensures forall i :: 0 <= i < |u| ==> u[i] == Parent(n, l[2 * i], RightOf(l, i))
  {
    seq((|l| + 1) / 2, i requires 0 <= i < (|l| + 1) / 2 => Parent(n, l[2 * i], RightOf(l, i)))
  }

  function Root(n: Net, l: seq<H256>): H256
    decreases |l|
  {
    if l == [] then Zeros(32) else if |l| == 1 then l[0] else Root(n, Up(n, l))
  }

  function Depth(k: nat): nat {
    if k <= 1 then 0 else 1 + Depth((k + 1) / 2)
  }

  function Sibling(l: seq<H256>, idx: nat): H256
    requires idx < |l|
  {
    if idx % 2 == 1 then l[idx - 1] else if idx + 1 < |l| then l[idx + 1] else l[idx]
  }

  function Proof(n: Net, l: seq<H256>, idx: nat): seq<Step>
    requires idx < |l|
    decreases |l|
  {
    if |l| == 1 then []
    else [Step(Sibling(l, idx), idx % 2 == 1)] + Proof(n, Up(n, l), idx / 2)
  }

  /** The string hashed when a path at node x takes step s. */
  function Joined(x: H256, s: Step): Bytes {
    if s.left then Pair(s.h, x) else Pair(x, s.h)
  }

  function Apply(n: Net, leaf: H256, steps: seq<Step>): H256
    decreases |steps|
  {
    if steps == [] then leaf
    else n.hash(Joined(Apply(n, leaf, steps[..|steps| - 1]), steps[|steps| - 1]))
  }

  // ---------- completeness of proofs ----------

  lemma {:induction false} ApplyFirst(n: Net, leaf: H256, s: Step, steps: seq<Step>)
    ensures Apply(n, leaf, [s] + steps) == Apply(n, n.hash(Joined(leaf, s)), steps)
    decreases |steps|
  {
    if steps == [] {
      assert Apply(n, leaf, ([s] + [])[..0]) == leaf;
    } else {
      ApplyFirst(n, leaf, s, steps[..|steps| - 1]);
      assert ([s] + steps)[..|steps|] == [s] + steps[..|steps| - 1];
    }
  }

  lemma {:induction false} ApplyNothing(n: Net, leaf: H256)
    ensures Apply(n, leaf, []) == leaf
  {
  }

  lemma {:induction false} UpNode(n: Net, l: seq<H256>, idx: nat)
    requires idx < |l|
    ensures Up(n, l)[idx / 2] == n.hash(Joined(l[idx], Step(Sibling(l, idx), idx % 2 == 1)))
  {
    var i := idx / 2;
    if idx % 2 == 1 {
      assert idx == 2 * i + 1;
    } else {
      assert idx == 2 * i;
    }
  }

  /** Every leaf of every nonempty list has a proof of ceil(log2 n) steps that reaches the root. */
  lemma {:induction false} ProofReachesRoot(n: Net, l: seq<H256>, idx: nat)
    requires idx < |l|
    ensures Apply(n, l[idx], Proof(n, l, idx)) == Root(n, l)
    ensures |Proof(n, l, idx)| == Depth(|l|)
    decreases |l|
  {
    hide Up, Joined, Sibling, Apply;
    if |l| == 1 {
      ApplyNothing(n, l[idx]);
    } else {
      var u := Up(n, l);
      UpNode(n, l, idx);
      ProofReachesRoot(n, u, idx / 2);
      ApplyFirst(n, l[idx], Step(Sibling(l, idx), idx % 2 == 1), Proof(n, u, idx / 2));
    }
  }

  /** `Depth` is the ceiling of the binary logarithm. */
  lemma {:induction false} DepthIsCeilLog2(k: nat)
    requires k >= 1
    ensures k <= Pow2(Depth(k))
    ensures k > 1 ==> Pow2(Depth(k) - 1) < k
  {
    if k > 1 {
      DepthIsCeilLog2((k + 1) / 2);
    }
  }

  /** The tree written out for up to four leaves: pairs are hashed left to right, and a node
      without a partner is paired with itself. */
  lemma {:induction false} SmallTrees(n: Net, a: H256, b: H256, c: H256, d: H256)
    ensures Root(n, []) == Zeros(32) && Root(n, [a]) == a
    ensures Root(n, [a, b]) == n.hash(a + b)
    ensures Root(n, [a, b, c]) == n.hash(n.hash(a + b) + n.hash(c + c))
    ensures Root(n, [a, b, c, d]) == n.hash(n.hash(a + b) + n.hash(c + d))
    ensures Proof(n, [a, b], 0) == [Step(b, false)] && Proof(n, [a, b], 1) == [Step(a, true)]
    ensures Apply(n, a, [Step(b, false)]) == n.hash(a + b) && Apply(n, b, [Step(a, true)]) == n.hash(a + b)
  {
    assert Up(n, [a, b]) == [n.hash(a + b)];
    assert Up(n, [a, b, c]) == [n.hash(a + b), n.hash(c + c)];
    assert Up(n, [a, b, c, d]) == [n.hash(a + b), n.hash(c + d)];
    var x: H256, y: H256, z: H256 := n.hash(a + b), n.hash(c + c), n.hash(c + d);
    assert Up(n, [x, y]) == [n.hash(x + y)] && Up(n, [x, z]) == [n.hash(x + z)];
    RootUp(n, [a, b]);
    RootUp(n, [a, b, c]);
    RootUp(n, [a, b, c, d]);
    RootUp(n, [x, y]);
    RootUp(n, [x, z]);
    ApplyNothing(n, a);
    ApplyNothing(n, b);
    assert [Step(b, false)][..0] == [] && [Step(a, true)][..0] == [];
  }

  lemma {:induction false} RootUp(n: Net, l: seq<H256>)
    requires |l| > 1
    ensures Root(n, l) == Root(n, Up(n, l))
  {
  }

  // ---------- what is hashed ----------

  /** The 64-byte strings hashed in computing `Root(l)`. */
  ghost function InnerPre(n: Net, l: seq<H256>): set<Bytes>
    decreases |l|
  {
    if |l| <= 1 then {}
    else (set i: nat | i < (|l| + 1) / 2 :: Pair(l[2 * i], RightOf(l, i))) + InnerPre(n, Up(n, l))
  }

  /** `s` holds every string hashed in computing `Root(l)`. */
  ghost predicate Covers(n: Net, l: seq<H256>, s: set<Bytes>)
    decreases |l|
  {
    |l| > 1 ==>
      && (forall i :: 0 <= i < (|l| + 1) / 2 ==> Pair(l[2 * i], RightOf(l, i)) in s)
      && Covers(n, Up(n, l), s)
  }

  lemma {:induction false} InnerPreCovers(n: Net, l: seq<H256>, s: set<Bytes>)
    requires InnerPre(n, l) <= s
    ensures Covers(n, l, s)
    decreases |l|
  {
    if |l| > 1 {
      forall i | 0 <= i < (|l| + 1) / 2
        ensures Pair(l[2 * i], RightOf(l, i)) in s
      {
        assert Pair(l[2 * i], RightOf(l, i)) in InnerPre(n, l);
      }
      InnerPreCovers(n, Up(n, l), s);
    }
  }

  /** The strings hashed in walking a proof path. */
  ghost function PathPre(n: Net, leaf: H256, steps: seq<Step>): set<Bytes> {
    set j: nat | j < |steps| :: Joined(Apply(n, leaf, steps[..j]), steps[j])
  }

  /** Every element of `l` is the hash of some string of `s` that is not 64 bytes long. */
  ghost predicate Genuine(n: Net, l: seq<H256>, s: set<Bytes>) {
    forall x :: x in l ==> exists p :: p in s && |p| != 64 && n.hash(p) == x
  }

  ghost predicate Distinct(l: seq<H256>) {
    forall i, j :: 0 <= i < j < |l| ==> l[i] != l[j]
  }

  // ---------- soundness of proofs ----------

  lemma {:induction false} PairOf(n: Net, l: seq<H256>, i: nat, s: set<Bytes>)
    requires |l| > 1 && 2 * i < |l| && Covers(n, l, s)
    ensures Pair(l[2 * i], RightOf(l, i)) in s && Up(n, l)[i] == n.hash(Pair(l[2 * i], RightOf(l, i)))
  {
  }

  lemma {:induction false} CoversUp(n: Net, l: seq<H256>, s: set<Bytes>)
    requires |l| > 1 && Covers(n, l, s)
    ensures Covers(n, Up(n, l), s)
  {
  }

  lemma {:induction false} JoinedHolds(x: H256, step: Step, l: H256, r: H256)
    requires Joined(x, step) == Pair(l, r)
    ensures x == l || x == r
  {
    PairInjective(step.h, x, l, r);
    PairInjective(x, step.h, l, r);
  }

  lemma {:induction false} PathStep(n: Net, x: H256, steps: seq<Step>, j: nat)
    requires 0 < j <= |steps|
    ensures var joined := Joined(Apply(n, x, steps[..j - 1]), steps[j - 1]);
            joined in PathPre(n, x, steps) && Apply(n, x, steps[..j]) == n.hash(joined)
  {
    assert steps[..j][..j - 1] == steps[..j - 1];
  }

  /** `x` is the hash of an inner node among the strings of `s`. */
  ghost predicate Inner(n: Net, x: H256, s: set<Bytes>) {
    exists p :: p in s && |p| == 64 && n.hash(p) == x
  }

  lemma {:induction false} InnerNode(n: Net, l: seq<H256>, x: H256, s: set<Bytes>)
    requires |l| > 1 && Covers(n, l, s) && x in Up(n, l)
    ensures Inner(n, x, s)
  {
    hide Pair, Covers;
    var i :| 0 <= i < |Up(n, l)| && Up(n, l)[i] == x;
    PairOf(n, l, i, s);
  }

  /** One level down: a path that arrives at a node of the next level came through a node of
      this one. */
  lemma {:induction false} StepDown(n: Net, l: seq<H256>, x: H256, steps: seq<Step>, j: nat, s: set<Bytes>)
    requires |l| > 1 && 0 < j <= |steps| && Apply(n, x, steps[..j]) in Up(n, l)
    requires Covers(n, l, s) && PathPre(n, x, steps) <= s && NoCollision(n.hash, s)
    ensures Apply(n, x, steps[..j - 1]) in l
  {
    hide NoCollision, Pair, Covers, Apply, PathPre, Joined;
    var i :| 0 <= i < |Up(n, l)| && Up(n, l)[i] == Apply(n, x, steps[..j]);
    PairOf(n, l, i, s);
    PathStep(n, x, steps, j);
    var y := Apply(n, x, steps[..j - 1]);
    Same(n.hash, s, Joined(y, steps[j - 1]), Pair(l[2 * i], RightOf(l, i)));
    JoinedHolds(y, steps[j - 1], l[2 * i], RightOf(l, i));
  }

  /** A path to the root goes up one level a step: with at least as many steps as the tree is
      deep it passes through a leaf position that many steps before its end, and with fewer
      it starts at an inner node. */
  lemma {:induction false} PathEnters(n: Net, l: seq<H256>, x: H256, steps: seq<Step>, s: set<Bytes>)
    requires l != [] && Apply(n, x, steps) == Root(n, l)
    requires Covers(n, l, s) && PathPre(n, x, steps) <= s && NoCollision(n.hash, s)
    ensures |steps| >= Depth(|l|) ==> Apply(n, x, steps[..|steps| - Depth(|l|)]) in l
    ensures |steps| < Depth(|l|) ==> Inner(n, x, s)
    decreases |l|
  {
    hide NoCollision, Covers, Apply, PathPre, Inner, Up;
    assert steps[..|steps|] == steps;
    if |l| > 1 {
      var u := Up(n, l);
      UpSize(n, l);
      CoversUp(n, l, s);
      PathEnters(n, u, x, steps, s);
      var j := |steps| - Depth(|u|);
      if j > 0 {
        StepDown(n, l, x, steps, j, s);
      } else if j == 0 {
        ApplyNothing(n, x);
        assert steps[..0] == [];
        InnerNode(n, l, x, s);
      }
    }
  }

  lemma {:induction false} UpSize(n: Net, l: seq<H256>)
    requires |l| > 1
    ensures 0 < |Up(n, l)| < |l| && Depth(|l|) == 1 + Depth(|Up(n, l)|) && Root(n, l) == Root(n, Up(n, l))
  {
  }

  /** No path to the root of genuine leaves is longer than the tree is deep, and it starts at
      a leaf exactly when it is that long; a shorter one starts at an inner node. */
  lemma {:induction false} PathLength(n: Net, l: seq<H256>, x: H256, steps: seq<Step>, s: set<Bytes>)
    requires l != [] && Apply(n, x, steps) == Root(n, l)
    requires Genuine(n, l, s)
    requires Covers(n, l, s) && PathPre(n, x, steps) <= s && NoCollision(n.hash, s)
    ensures |steps| <= Depth(|l|)
    ensures x in l <==> |steps| == Depth(|l|)
    ensures |steps| < Depth(|l|) ==> Inner(n, x, s)
  {
    hide Covers, Apply, PathPre, Depth, Root;
    PathEnters(n, l, x, steps, s);
    var j := |steps| - Depth(|l|);
    if j > 0 {
      WalkedIsNotLeaf(n, l, x, steps, j, s);
    }
    ApplyNothing(n, x);
    assert steps[..0] == [];
  }

  /** Only leaves have proofs: if a genuine id reaches the root by any steps at all,
      it is one of the leaves, unless two of the strings hashed here collide. */
  lemma {:induction false} ProofSound(n: Net, l: seq<H256>, p: Bytes, steps: seq<Step>, s: set<Bytes>)
    requires l != [] && |p| != 64
    requires Apply(n, n.hash(p), steps) == Root(n, l)
    requires Genuine(n, l, s)
    requires p in s && Covers(n, l, s) && PathPre(n, n.hash(p), steps) <= s
    requires NoCollision(n.hash, s)
    ensures n.hash(p) in l
  {
    PathLength(n, l, n.hash(p), steps, s);
  }

  /** A node reached by walking at least one step is no genuine leaf. */
  lemma {:induction false} WalkedIsNotLeaf(n: Net, l: seq<H256>, x: H256, steps: seq<Step>, j: nat, s: set<Bytes>)
    requires 0 < j <= |steps|
    requires Genuine(n, l, s) && PathPre(n, x, steps) <= s && NoCollision(n.hash, s)
    ensures Apply(n, x, steps[..j]) !in l
  {
    PathStep(n, x, steps, j);
  }

  // ---------- a root binds its leaves ----------

  /** Lists that differ by the duplicated last leaf have the same root: without the
      distinctness of ids the root would not bind the list. */
  lemma {:induction false} PaddingAmbiguity(n: Net, l: seq<H256>)
    requires |l| > 1 && |l| % 2 == 1
    ensures Root(n, l + [l[|l| - 1]]) == Root(n, l)
  {
    var m := l + [l[|l| - 1]];
    assert Up(n, m) == Up(n, l);
  }

  /** The first node of every level, leaves first. */
  function Spine(n: Net, l: seq<H256>): (s: seq<H256>)
    requires l != []
    ensures |s| == Depth(|l|) + 1 && s[0] == l[0] && s[|s| - 1] == Root(n, l)
    decreases |l|
  {
    if |l| == 1 then l else [l[0]] + Spine(n, Up(n, l))
  }

  lemma {:induction false} SpineStep(n: Net, l: seq<H256>, k: nat, s: set<Bytes>) returns (right: H256)
    requires l != [] && 0 < k <= Depth(|l|) && Covers(n, l, s)
    ensures Spine(n, l)[k] == n.hash(Pair(Spine(n, l)[k - 1], right))
    ensures Pair(Spine(n, l)[k - 1], right) in s
    decreases |l|
  {
    hide Covers;
    var u := Up(n, l);
    if k == 1 {
      right := RightOf(l, 0);
      PairOf(n, l, 0, s);
    } else {
      CoversUp(n, l, s);
      right := SpineStep(n, u, k - 1, s);
    }
  }

  /** Leaves are told from inner nodes by the length of what was hashed. */
  lemma {:induction false} InnerIsNotLeaf(n: Net, l: seq<H256>, m: seq<H256>, k: nat, s: set<Bytes>)
    requires l != [] && m != [] && 0 < k <= Depth(|m|)
    requires Genuine(n, l, s) && Covers(n, m, s) && NoCollision(n.hash, s)
    ensures Spine(n, m)[k] != l[0]
  {
    hide Spine, Covers, Depth;
    var right := SpineStep(n, m, k, s);
    var y := Pair(Spine(n, m)[k - 1], right);
    assert l[0] in l;
    var p :| p in s && |p| != 64 && n.hash(p) == l[0];
    assert p != y && y in s;
  }

  /** Nodes of different height differ: going down from them, one side reaches a leaf first. */
  lemma {:induction false} HeightsDiffer(n: Net, l: seq<H256>, m: seq<H256>, i: nat, j: nat, s: set<Bytes>)
    requires l != [] && m != [] && i < j && i <= Depth(|l|) && j <= Depth(|m|)
    requires Genuine(n, l, s) && Covers(n, l, s) && Covers(n, m, s) && NoCollision(n.hash, s)
    ensures Spine(n, l)[i] != Spine(n, m)[j]
    decreases i
  {
    hide Spine, Covers, Depth, NoCollision, Pair, Genuine;
    if i == 0 {
      InnerIsNotLeaf(n, l, m, j, s);
    } else {
      var a := SpineStep(n, l, i, s);
      var b := SpineStep(n, m, j, s);
      var x, y := Pair(Spine(n, l)[i - 1], a), Pair(Spine(n, m)[j - 1], b);
      HeightsDiffer(n, l, m, i - 1, j - 1, s);
      PairInjective(Spine(n, l)[i - 1], a, Spine(n, m)[j - 1], b);
      if n.hash(x) == n.hash(y) {
        Same(n.hash, s, x, y);
      }
    }
  }

  lemma {:induction false} EqualDepth(n: Net, l: seq<H256>, m: seq<H256>, s: set<Bytes>)
    requires l != [] && m != [] && Root(n, l) == Root(n, m)
    requires Genuine(n, l, s) && Genuine(n, m, s)
    requires Covers(n, l, s) && Covers(n, m, s) && NoCollision(n.hash, s)
    ensures Depth(|l|) == Depth(|m|)
  {
    hide Spine, Covers, Depth, NoCollision, Genuine, Root;
    if Depth(|l|) < Depth(|m|) {
      HeightsDiffer(n, l, m, Depth(|l|), Depth(|m|), s);
    } else if Depth(|m|) < Depth(|l|) {
      HeightsDiffer(n, m, l, Depth(|m|), Depth(|l|), s);
    }
  }

  lemma {:induction false} UpDistinct(n: Net, l: seq<H256>, s: set<Bytes>)
    requires Distinct(l) && |l| > 1
    requires Covers(n, l, s) && NoCollision(n.hash, s)
    ensures Distinct(Up(n, l))
  {
    hide NoCollision, Pair;
    var u := Up(n, l);
    forall i, j | 0 <= i < j < |u|
      ensures u[i] != u[j]
    {
      PairOf(n, l, i, s);
      PairOf(n, l, j, s);
      var x, y := Pair(l[2 * i], RightOf(l, i)), Pair(l[2 * j], RightOf(l, j));
      PairInjective(l[2 * i], RightOf(l, i), l[2 * j], RightOf(l, j));
      if n.hash(x) == n.hash(y) {
        Same(n.hash, s, x, y);
      }
    }
  }

  /** With distinct elements the padding cannot hide a difference in length. */
  lemma {:induction false} SamePairs(l: seq<H256>, m: seq<H256>)
    requires |l| > 1 && |m| > 1 && (|l| + 1) / 2 == (|m| + 1) / 2
    requires Distinct(l) && Distinct(m)
    requires forall i :: 0 <= i < (|l| + 1) / 2 ==> l[2 * i] == m[2 * i] && RightOf(l, i) == RightOf(m, i)
    ensures l == m
  {
    var last := (|l| + 1) / 2 - 1;
    assert RightOf(l, last) == RightOf(m, last) && l[2 * last] == m[2 * last];
    assert |l| == |m|;
    forall k | 0 <= k < |l|
      ensures l[k] == m[k]
    {
      var i := k / 2;
      assert RightOf(l, i) == RightOf(m, i) && l[2 * i] == m[2 * i];
    }
  }

  lemma {:induction false} SameDepthBinding(n: Net, l: seq<H256>, m: seq<H256>, s: set<Bytes>)
    requires l != [] && m != [] && Depth(|l|) == Depth(|m|) && Root(n, l) == Root(n, m)
    requires Distinct(l) && Distinct(m)
    requires Covers(n, l, s) && Covers(n, m, s) && NoCollision(n.hash, s)
    ensures l == m
    decreases |l|
  {
    hide NoCollision, Pair, Distinct;
    if |l| > 1 {
      UpDistinct(n, l, s);
      UpDistinct(n, m, s);
      SameDepthBinding(n, Up(n, l), Up(n, m), s);
      forall i | 0 <= i < |Up(n, l)|
        ensures l[2 * i] == m[2 * i] && RightOf(l, i) == RightOf(m, i)
      {
        PairOf(n, l, i, s);
        PairOf(n, m, i, s);
        Same(n.hash, s, Pair(l[2 * i], RightOf(l, i)), Pair(m[2 * i], RightOf(m, i)));
        PairInjective(l[2 * i], RightOf(l, i), m[2 * i], RightOf(m, i));
      }
      SamePairs(l, m);
    }
  }

  /** Two lists of pairwise distinct genuine ids, of any lengths, with the same root are
      the same list, unless two of the strings hashed for them collide. */
  lemma {:induction false} RootBinds(n: Net, l: seq<H256>, m: seq<H256>, s: set<Bytes>)
    requires l != [] && m != [] && Root(n, l) == Root(n, m)
    requires Distinct(l) && Distinct(m)
    requires Genuine(n, l, s) && Genuine(n, m, s)
    requires Covers(n, l, s) && Covers(n, m, s) && NoCollision(n.hash, s)
    ensures l == m
  {
    EqualDepth(n, l, m, s);
    SameDepthBinding(n, l, m, s);
  }

  // ---------- the source's loops ----------

  /** A level of odd length is completed by a copy of its last node. */
  method Pad(level: seq<H256>) returns (lv: seq<H256>)
    requires level != []
    ensures |lv| == (|level| + 1) / 2 * 2
    ensures forall i :: 0 <= i < |level| ==> lv[i] == level[i]
    ensures forall i :: |level| <= i < |lv| ==> lv[i] == level[|level| - 1]
  {
    lv := level;
    if |lv| % 2 == 1 {
      lv := lv + [lv[|lv| - 1]];
    }
  }

  method NextLevel(n: Net, level: seq<H256>) returns (up: seq<H256>)
    requires |level| > 1
    ensures up == Up(n, level)
  {
    var lv := Pad(level);
    up := [];
    var i := 0;
    while i < |lv|
      invariant 0 <= i <= |lv| && i % 2 == 0
      invariant up == Up(n, level)[..i / 2]
    {
      up := up + [Parent(n, lv[i], lv[i + 1])];
      i := i + 2;
    }
  }

  method MerkleRoot(n: Net, leaves: seq<H256>) returns (root: H256)
    ensures root == Root(n, leaves)
  {
    if leaves == [] {
      return Zeros(32);
    }
    var level := leaves;
    while |level| > 1
      invariant level != [] && Root(n, level) == Root(n, leaves)
      decreases |level|
    {
      level := NextLevel(n, level);
    }
    root := level[0];
  }

  lemma {:induction false} ProofStep(n: Net, l: seq<H256>, idx: nat, s: Step)
    requires idx < |l| && |l| > 1
    requires s == Step(Sibling(l, idx), idx % 2 == 1)
    ensures idx / 2 < |Up(n, l)| && Proof(n, l, idx) == [s] + Proof(n, Up(n, l), idx / 2)
  {
  }

  /** The other half of a node's pair in the padded level. */
  method PaddedSibling(level: seq<H256>, idx: nat) returns (h: H256)
    requires idx < |level|
    ensures h == Sibling(level, idx)
  {
    var lv := Pad(level);
    h := lv[if idx % 2 == 1 then idx - 1 else idx + 1];
  }

  method MerkleProof(n: Net, leaves: seq<H256>, index: nat) returns (steps: seq<Step>)
    requires index < |leaves|
    ensures steps == Proof(n, leaves, index)
  {
    var level := leaves;
    var idx: nat := index;
    steps := [];
    while |level| > 1
      invariant idx < |level|
      invariant steps + Proof(n, level, idx) == Proof(n, leaves, index)
      decreases |level|
    {
      hide Proof, Up;
      var sibling := PaddedSibling(level, idx);
      var s := Step(sibling, idx % 2 == 1);
      ProofStep(n, level, idx, s);
      Onward(steps, s, Proof(n, Up(n, level), idx / 2));
      steps := steps + [s];
      level := NextLevel(n, level);
      idx := idx / 2;
    }
  }

  lemma {:induction false} Onward(done: seq<Step>, s: Step, rest: seq<Step>)
    ensures done + ([s] + rest) == done + [s] + rest
  {
  }

  method MerkleApply(n: Net, leaf: H256, steps: seq<Step>) returns (x: H256)
    ensures x == Apply(n, leaf, steps)
  {
    x := leaf;
    for i := 0 to |steps|
      invariant x == Apply(n, leaf, steps[..i])
    {
      assert steps[..i + 1][..i] == steps[..i];
      var s := steps[i];
      x := if s.left then Parent(n, s.h, x) else Parent(n, x, s.h);
    }
    assert steps[..|steps|] == steps;
  }
}
