/** The dense tree written out row by row, in bytes (src/pom.rs:590-642). */
module TreeShape {
  import opened Hashing
  import opened Halving
  import opened Merkle

  /** Node `i` of a row is the hash of the 64 bytes of its two children, left then right; a lone last child
  stands on both sides. */
  ghost predicate NodeOf(blake: Blake, below: seq<Digest>, i: nat, node: Digest)
    requires 2 * i < |below|
  {
    exists input: Bytes ::
      && |input| == 64 && input[..32] == below[2 * i]
      && input[32..] == below[if 2 * i + 1 < |below| then 2 * i + 1 else 2 * i]
      && node == blake(input)
  }

  ghost predicate RowOver(blake: Blake, below: seq<Digest>, row: seq<Digest>) {
    |row| == (|below| + 1) / 2 && forall i: nat | i < |row| :: NodeOf(blake, below, i, row[i])
  }

  /** Rows from the leaves to a single node. */
  ghost predicate IsTree(blake: Blake, leaves: seq<Digest>, rows: seq<seq<Digest>>) {
    && rows != [] && rows[0] == leaves && |rows[|rows| - 1]| == 1
    && (forall k: nat | k + 1 < |rows| :: |rows[k]| > 1 && RowOver(blake, rows[k], rows[k + 1]))
  }

  /** One step of a climb: the sibling goes left of an odd node and right of an even one. */
  ghost predicate StepsTo(blake: Blake, node: Digest, odd: bool, sibling: Digest, parent: Digest) {
    exists input: Bytes ::
      && |input| == 64 && parent == blake(input)
      && input[..32] == (if odd then sibling else node) && input[32..] == (if odd then node else sibling)
  }

  /** The nodes a path leads through; bit `k` of the index says on which side the climb is at level `k`. */
  ghost predicate IsClimb(blake: Blake, leaf: Digest, idx: nat, path: seq<Digest>, nodes: seq<Digest>) {
    && |nodes| == |path| + 1 && nodes[0] == leaf
    && forall k: nat | k < |path| :: StepsTo(blake, nodes[k], Shr(idx, k) % 2 == 1, path[k], nodes[k + 1])
  }

  // ---------------------------------------------------------------- proofs

  lemma {:induction false} ParentIsNode(blake: Blake, below: seq<Digest>, i: nat, node: Digest)
    requires 2 * i < |below|
    ensures NodeOf(blake, below, i, node) <==> node == Parent(blake, below, i)
  {
    var r := below[if 2 * i + 1 < |below| then 2 * i + 1 else 2 * i];
    OnlyInput(below[2 * i], r);
  }

  /** The input of a node is one byte string. */
  lemma {:induction false} OnlyInput(left: Digest, right: Digest)
    ensures forall input: Bytes ::
      |input| == 64 && input[..32] == left && input[32..] == right <==> input == PairInput(left, right)
  {
    forall input: Bytes | |input| == 64 && input[..32] == left && input[32..] == right
      ensures input == PairInput(left, right) {
      assert input == input[..32] + input[32..];
      var p := PairInput(left, right);
      assert p == p[..32] + p[32..];
    }
  }

  lemma {:induction false} NextIsRow(blake: Blake, below: seq<Digest>, row: seq<Digest>)
    ensures RowOver(blake, below, row) <==> row == NextLevel(blake, below)
  {
    forall i: nat | i < (|below| + 1) / 2
      ensures |row| == (|below| + 1) / 2 ==>
        (NodeOf(blake, below, i, row[i]) <==> row[i] == NextLevel(blake, below)[i])
    {
      if |row| == (|below| + 1) / 2 {
        ParentIsNode(blake, below, i, row[i]);
      }
    }
  }

  /** The root is the top node of every such tree. */
  lemma {:induction false} RootOfTree(blake: Blake, leaves: seq<Digest>, rows: seq<seq<Digest>>)
    requires leaves != [] && IsTree(blake, leaves, rows)
    ensures Root(blake, leaves) == rows[|rows| - 1][0]
    decreases |rows|
  {
    if |rows| > 1 {
      NextIsRow(blake, rows[0], rows[1]);
      var rest := rows[1..];
      forall k: nat | k + 1 < |rest| ensures |rest[k]| > 1 && RowOver(blake, rest[k], rest[k + 1]) {
        assert rest[k] == rows[k + 1] && rest[k + 1] == rows[k + 2];
      }
      RootOfTree(blake, rows[1], rest);
    }
  }

  /** And there is one. */
  lemma {:induction false} TreeExists(blake: Blake, leaves: seq<Digest>) returns (rows: seq<seq<Digest>>)
    requires leaves != []
    ensures IsTree(blake, leaves, rows)
    decreases |leaves|
  {
    if |leaves| == 1 {
      rows := [leaves];
    } else {
      var next := NextLevel(blake, leaves);
      var rest := TreeExists(blake, next);
      rows := [leaves] + rest;
      NextIsRow(blake, leaves, next);
      forall k: nat | k + 1 < |rows| ensures |rows[k]| > 1 && RowOver(blake, rows[k], rows[k + 1]) {
        assert k > 0 ==> rows[k] == rest[k - 1] && RowOver(blake, rest[k - 1], rest[k]);
      }
    }
  }

  /** A climb ends where the hashes written out end. */
  lemma {:induction false} ClimbIsClimb(blake: Blake, leaf: Digest, idx: nat, path: seq<Digest>, nodes: seq<Digest>)
    requires IsClimb(blake, leaf, idx, path, nodes)
    ensures Climb(blake, leaf, idx, path) == nodes[|path|]
    decreases |path|
  {
    if path != [] {
      assert StepsTo(blake, nodes[0], Shr(idx, 0) % 2 == 1, path[0], nodes[1]);
      if idx % 2 == 1 {
        OnlyInput(path[0], leaf);
      } else {
        OnlyInput(leaf, path[0]);
      }
      forall k: nat | k < |path[1..]|
        ensures StepsTo(blake, nodes[1..][k], Shr(idx / 2, k) % 2 == 1, path[1..][k], nodes[1..][k + 1])
      {
        assert StepsTo(blake, nodes[k + 1], Shr(idx, k + 1) % 2 == 1, path[k + 1], nodes[k + 2]);
      }
      ClimbIsClimb(blake, nodes[1], idx / 2, path[1..], nodes[1..]);
    }
  }

  /** Every climb can be written out. */
  lemma {:induction false} ClimbExists(blake: Blake, leaf: Digest, idx: nat, path: seq<Digest>)
    returns (nodes: seq<Digest>)
    ensures IsClimb(blake, leaf, idx, path, nodes)
    decreases |path|
  {
    if path == [] {
      nodes := [leaf];
    } else {
      var odd := idx % 2 == 1;
      var input := if odd then PairInput(path[0], leaf) else PairInput(leaf, path[0]);
      var rest := ClimbExists(blake, blake(input), idx / 2, path[1..]);
      nodes := [leaf] + rest;
      forall k: nat | k < |path| ensures StepsTo(blake, nodes[k], Shr(idx, k) % 2 == 1, path[k], nodes[k + 1]) {
        if k == 0 {
          assert StepsTo(blake, leaf, odd, path[0], blake(input));
        } else {
          assert StepsTo(blake, rest[k - 1], Shr(idx / 2, k - 1) % 2 == 1, path[1..][k - 1], rest[k]);
        }
      }
    }
  }
}
