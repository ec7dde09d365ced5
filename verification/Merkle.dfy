/**
 The Merkle tree of section 2.1 of RFC 6962, as the audit anchors use it.

 Hashing is ideal: a digest is the term it was computed from, so two digests are
 equal exactly when they were computed from equal inputs, and a leaf digest is
 never an interior digest. `Text` is any other string that may sit in a digest
 column or in a proof; whether it is a well-spelled digest is `IsDigest`.
 */
module Merkle {
  import opened Wrappers

  datatype Digest<T> =
    | Leaf(leaf: T)
    | Node(left: Digest<T>, right: Digest<T>)
    | Text(spelling: string)

  /** 64 lowercase hexadecimal characters. */
  predicate IsHex64(s: string) {
    |s| == 64 && forall i :: 0 <= i < |s| ==> '0' <= s[i] <= '9' || 'a' <= s[i] <= 'f'
  }

  /** What a verifier accepts as the spelling of a digest. */
  predicate IsDigest<T>(d: Digest<T>) {
    d.Text? ==> IsHex64(d.spelling)
  }

  ghost predicate IsPowerOfTwo(k: nat) {
    k == 1 || (k >= 2 && k % 2 == 0 && IsPowerOfTwo(k / 2))
  }

  /** The largest power of two strictly below `n`. */
  function SplitPoint(n: nat): (k: nat)
    requires n >= 2
    ensures IsPowerOfTwo(k) && k < n <= 2 * k
  {
    if n == 2 then 1 else 2 * SplitPoint((n + 1) / 2)
  }

  /** No other power of two qualifies, so the contract of `SplitPoint` names one number. */
  lemma {:induction false} SplitPointIsUnique(n: nat, k: nat)
    requires n >= 2 && IsPowerOfTwo(k) && k < n <= 2 * k
    ensures k == SplitPoint(n)
  {
    if k < SplitPoint(n) {
      PowersAreSpaced(k, SplitPoint(n));
    } else if SplitPoint(n) < k {
      PowersAreSpaced(SplitPoint(n), k);
    }
  }

  lemma {:induction false} PowersAreSpaced(j: nat, k: nat)
    requires IsPowerOfTwo(j) && IsPowerOfTwo(k) && j < k
    ensures 2 * j <= k
  {
    if j > 1 {
      PowersAreSpaced(j / 2, k / 2);
    }
  }

  /** The shifting loop that finds the split point. */
  method FindSplitPoint(n: nat) returns (k: nat)
    requires n >= 2
    ensures k == SplitPoint(n)
  {
    k := 1;
    while 2 * k < n
      invariant IsPowerOfTwo(k) && 1 <= k < n
    {
      k := 2 * k;
    }
    SplitPointIsUnique(n, k);
  }

  /** The tree hash over leaf digests. */
  function RootOf<T>(hashes: seq<Digest<T>>): Digest<T>
    requires hashes != []
    decreases |hashes|
  {
    if |hashes| == 1 then hashes[0]
    else
      var k := SplitPoint(|hashes|);
      Node(RootOf(hashes[..k]), RootOf(hashes[k..]))
  }

  function LeafHashes<T>(leaves: seq<T>): (hashes: seq<Digest<T>>)
    ensures |hashes| == |leaves|
    ensures forall i :: 0 <= i < |leaves| ==> hashes[i] == Leaf(leaves[i])
  {
    seq(|leaves|, i requires 0 <= i < |leaves| => Leaf(leaves[i]))
  }

  function MerkleRoot<T>(leaves: seq<T>): Digest<T>
    requires leaves != []
  {
    RootOf(LeafHashes(leaves))
  }

  /** Binding: one root commits to one list of leaves, its length and its order included. */
  lemma {:induction false} RootBinding<T>(xs: seq<T>, ys: seq<T>)
    requires xs != [] && ys != []
    requires MerkleRoot(xs) == MerkleRoot(ys)
    ensures xs == ys
    decreases |xs|
  {
    if |xs| > 1 && |ys| > 1 {
      var j, k := SplitPoint(|xs|), SplitPoint(|ys|);
      RootSplits(xs);
      RootSplits(ys);
      RootBinding(xs[..j], ys[..k]);
      RootBinding(xs[j..], ys[k..]);
      assert xs == xs[..j] + xs[j..] && ys == ys[..k] + ys[k..];
    } else if |xs| > 1 {
      RootSplits(xs);
    } else if |ys| > 1 {
      RootSplits(ys);
    }
  }

  lemma RootSplits<T>(xs: seq<T>)
    requires |xs| >= 2
    ensures var k := SplitPoint(|xs|);
            MerkleRoot(xs) == Node(MerkleRoot(xs[..k]), MerkleRoot(xs[k..]))
  {
    var k := SplitPoint(|xs|);
    assert LeafHashes(xs)[..k] == LeafHashes(xs[..k]);
    assert LeafHashes(xs)[k..] == LeafHashes(xs[k..]);
  }

  // ---------------------------------------------------------------- inclusion proofs

  /** The audit path of section 2.1.1: sibling digests, bottom up. */
  function Path<T>(hashes: seq<Digest<T>>, index: nat): (path: seq<Digest<T>>)
    requires index < |hashes|
    decreases |hashes|
  {
    if |hashes| == 1 then []
    else
      var k := SplitPoint(|hashes|);
      if index < k then Path(hashes[..k], index) + [RootOf(hashes[k..])]
      else Path(hashes[k..], index - k) + [RootOf(hashes[..k])]
  }

  function InclusionProof<T>(leaves: seq<T>, index: nat): Result<seq<Digest<T>>, string> {
    if index < |leaves| then Ok(Path(LeafHashes(leaves), index)) else Err("index out of range")
  }

  /** Joins a sibling above the digest reached so far, on the left or on the right. */
  function Above<T>(below: Option<Digest<T>>, sibling: Digest<T>, onLeft: bool): Option<Digest<T>> {
    if below.None? then None
    else if onLeft then Some(Node(sibling, below.value))
    else Some(Node(below.value, sibling))
  }

  /** The digest that a path leads to, read top down along the tree. None: the path does not fit. */
  function Ascend<T>(index: nat, size: nat, path: seq<Digest<T>>, d: Digest<T>): Option<Digest<T>>
    requires index < size
    decreases size
  {
    if size == 1 then (if path == [] then Some(d) else None)
    else if path == [] then None
    else
      var k, rest, sibling := SplitPoint(size), path[..|path| - 1], path[|path| - 1];
      if index < k then Above(Ascend(index, k, rest, d), sibling, false)
      else Above(Ascend(index - k, size - k, rest, d), sibling, true)
  }

  /** An honest tree is reached from a leaf digest along exactly one path, by exactly one leaf. */
  lemma {:induction false} AscendIsExact<T>(leaves: seq<T>, index: nat, path: seq<Digest<T>>, x: T)
    requires index < |leaves|
    ensures Ascend(index, |leaves|, path, Leaf(x)) == Some(MerkleRoot(leaves))
       <==> x == leaves[index] && path == Path(LeafHashes(leaves), index)
    decreases |leaves|
  {
    var hashes := LeafHashes(leaves);
    if |leaves| > 1 {
      var k := SplitPoint(|leaves|);
      RootSplits(leaves);
      assert hashes[..k] == LeafHashes(leaves[..k]) && hashes[k..] == LeafHashes(leaves[k..]);
      if path != [] {
        var rest := path[..|path| - 1];
        assert path == rest + [path[|path| - 1]];
        if index < k {
          AscendIsExact(leaves[..k], index, rest, x);
        } else {
          AscendIsExact(leaves[k..], index - k, rest, x);
        }
      }
    }
  }

  // ------------------------------------------------- the bit-shifting verification loop

  /** Drops trailing zero bits of `fn`, shifting `sn` along. */
  function StripZeros(fn: nat, sn: nat): (r: (nat, nat))
    decreases fn
  {
    if fn % 2 == 0 && fn != 0 then StripZeros(fn / 2, sn / 2) else (fn, sn)
  }

  /** How one turn of the loop shifts the two counters. */
  function Shift(fn: nat, sn: nat): (r: (nat, nat)) {
    var (f, s) := if fn % 2 == 0 && fn == sn then StripZeros(fn, sn) else (fn, sn);
    (f / 2, s / 2)
  }

  /** Which side the sibling joins on in one turn of the loop. */
  function Join<T>(fn: nat, sn: nat, sibling: Digest<T>, d: Digest<T>): Digest<T> {
    if fn % 2 == 1 || fn == sn then Node(sibling, d) else Node(d, sibling)
  }

  /** The loop, from any point on. None: the path has the wrong length. */
  function Climb<T>(fn: nat, sn: nat, path: seq<Digest<T>>, d: Digest<T>): Option<Digest<T>>
    decreases |path|
  {
    if path == [] then (if sn == 0 then Some(d) else None)
    else if sn == 0 then None
    else
      var (f, s) := Shift(fn, sn);
      Climb(f, s, path[1..], Join(fn, sn, path[0], d))
  }

  /** `verify_inclusion_proof`: refuses malformed input, never raises. */
  method VerifyInclusionProof<T(==)>(leaf: T, index: int, treeSize: int, proof: seq<Digest<T>>, root: Digest<T>)
    returns (ok: bool)
    ensures ok <==> 0 <= index < treeSize && IsDigest(root) && (forall d :: d in proof ==> IsDigest(d))
                    && Climb(index, treeSize - 1, proof, Leaf(leaf)) == Some(root)
  {
    if !(0 <= index < treeSize) { return false; }
    if !IsDigest(root) { return false; }
    if exists i :: 0 <= i < |proof| && !IsDigest(proof[i]) { return false; }
    var fn: nat, sn: nat := index, treeSize - 1;
    var computed := Leaf(leaf);
    ghost var result := Climb(index, treeSize - 1, proof, Leaf(leaf));
    for n := 0 to |proof|
      invariant Climb(fn, sn, proof[n..], computed) == result
    {
      assert proof[n..][1..] == proof[n + 1..];
      if sn == 0 { return false; }
      if fn % 2 == 1 || fn == sn {
        computed := Node(proof[n], computed);
        if fn % 2 == 0 {
          ghost var stripped := StripZeros(fn, sn);
          while fn % 2 == 0 && fn != 0
            invariant StripZeros(fn, sn) == stripped
          {
            fn, sn := fn / 2, sn / 2;
          }
        }
      } else {
        computed := Node(computed, proof[n]);
      }
      fn, sn := fn / 2, sn / 2;
    }
    return sn == 0 && computed == root;
  }

  /** Stripping does not notice a higher bit `k`, as long as a lower bit is set. */
  lemma {:induction false} StripIgnoresHighBit(f: nat, s: nat, k: nat) returns (j: nat)
    requires IsPowerOfTwo(k) && 0 < f <= s < k
    ensures IsPowerOfTwo(j) && j % 2 == 0
    ensures 0 < StripZeros(f, s).0 <= StripZeros(f, s).1 < j
    ensures StripZeros(f + k, s + k) == (StripZeros(f, s).0 + j, StripZeros(f, s).1 + j)
    decreases f
  {
    HighBitHalves(f, s, k);
    if f % 2 == 0 {
      j := StripIgnoresHighBit(f / 2, s / 2, k / 2);
    } else {
      j := k;
    }
  }

  /** Halving keeps a higher bit apart. */
  lemma HighBitHalves(f: nat, s: nat, k: nat)
    requires IsPowerOfTwo(k) && f <= s < k && 0 < s
    ensures k % 2 == 0 && (f + k) % 2 == f % 2 && (f + k) / 2 == f / 2 + k / 2 && (s + k) / 2 == s / 2 + k / 2
    ensures IsPowerOfTwo(k / 2) && f / 2 <= s / 2 < k / 2
  {
  }

  /** Stripping a lone high bit leaves 1. */
  lemma {:induction false} StripLoneBit(k: nat)
    requires IsPowerOfTwo(k)
    ensures StripZeros(k, k) == (1, 1)
  {
    if k > 1 { StripLoneBit(k / 2); }
  }

  /** Left of the split: the full subtree below bit `k` runs in step, and the last sibling joins on the right. */
  lemma {:induction false} ClimbLeft<T>(fn: nat, sn: nat, k: nat, path: seq<Digest<T>>, last: Digest<T>, d: Digest<T>)
    requires IsPowerOfTwo(k) && fn < k <= sn < 2 * k
    ensures Climb(fn, sn, path + [last], d) == Above(Climb(fn, k - 1, path, d), last, false)
    decreases |path|
  {
    if path == [] {
      assert ([] + [last])[1..] == [];
    } else {
      assert (path + [last])[1..] == path[1..] + [last];
      if k > 1 {
        var (f, s) := Shift(fn, sn);
        ClimbLeft(f, s, k / 2, path[1..], last, Join(fn, sn, path[0], d));
      }
    }
  }

  /** Right of the split: the subtree above bit `k` runs in step, and the last sibling joins on the left. */
  lemma {:induction false} ClimbRight<T>(fn: nat, sn: nat, k: nat, path: seq<Digest<T>>, last: Digest<T>, d: Digest<T>)
    requires IsPowerOfTwo(k) && k <= fn <= sn < 2 * k
    ensures Climb(fn, sn, path + [last], d) == Above(Climb(fn - k, sn - k, path, d), last, true)
    decreases |path|
  {
    if sn == k {
      ClimbLoneBit(k, path, last, d);
    } else {
      var (f, s) := Shift(fn, sn);
      var j := ShiftKeepsHighBit(fn, sn, k);
      if path == [] {
        ClimbTooShort(fn, sn, k, last, d);
      } else {
        ClimbRight(f, s, j, path[1..], last, Join(fn, sn, path[0], d));
        JoinIgnoresHighBit(fn, sn, k, path[0], d);
        ClimbRightTurn(fn, sn, fn - k, sn - k, f, s, j, path, last, d, Join(fn, sn, path[0], d));
      }
    }
  }

  lemma JoinIgnoresHighBit<T>(fn: nat, sn: nat, k: nat, sibling: Digest<T>, d: Digest<T>)
    requires IsPowerOfTwo(k) && k <= fn <= sn && k < sn < 2 * k
    ensures Join(fn, sn, sibling, d) == Join(fn - k, sn - k, sibling, d)
  {
    HighBitHalves(fn - k, sn - k, k);
  }

  /** When the counters with and without the high bit shift alike, the claim for one turn less carries over. */
  lemma ClimbRightTurn<T>(
      fn: nat, sn: nat, low: nat, high: nat, f: nat, s: nat, j: nat, path: seq<Digest<T>>, last: Digest<T>, d: Digest<T>,
      e: Digest<T>)
    requires path != [] && sn > 0 && high > 0 && j <= f <= s
    requires Shift(fn, sn) == (f, s) && Shift(low, high) == (f - j, s - j)
    requires Join(fn, sn, path[0], d) == e == Join(low, high, path[0], d)
    requires Climb(f, s, path[1..] + [last], e) == Above(Climb(f - j, s - j, path[1..], e), last, true)
    ensures Climb(fn, sn, path + [last], d) == Above(Climb(low, high, path, d), last, true)
  {
    ClimbTurn(low, high, path, d);
    var all := path + [last];
    assert all[1..] == path[1..] + [last] && all[0] == path[0];
    ClimbTurn(fn, sn, all, d);
  }

  lemma ClimbTurn<T>(fn: nat, sn: nat, path: seq<Digest<T>>, d: Digest<T>)
    requires path != [] && sn > 0
    ensures var (f, s) := Shift(fn, sn); Climb(fn, sn, path, d) == Climb(f, s, path[1..], Join(fn, sn, path[0], d))
  {
  }

  /** One sibling does not reach the root when a turn leaves the counter above 0. */
  lemma ClimbTooShort<T>(fn: nat, sn: nat, k: nat, last: Digest<T>, d: Digest<T>)
    requires k <= fn <= sn && k < sn && Shift(fn, sn).1 > 0
    ensures Climb(fn, sn, [] + [last], d) == Above(Climb(fn - k, sn - k, [], d), last, true)
  {
    assert ([] + [last])[1..] == [];
  }

  /** The last leaf, alone right of the split, needs the one sibling and no other. */
  lemma ClimbLoneBit<T>(k: nat, path: seq<Digest<T>>, last: Digest<T>, d: Digest<T>)
    requires IsPowerOfTwo(k)
    ensures Climb(k, k, path + [last], d) == Above(Climb(0, 0, path, d), last, true)
  {
    var all := path + [last];
    assert Shift(k, k) == (0, 0) by {
      StripLoneBit(k);
    }
    assert Climb(k, k, all, d) == Climb(0, 0, all[1..], Join(k, k, all[0], d));
    if path == [] {
      assert all[1..] == [];
    } else {
      assert all[1..] == path[1..] + [last];
    }
  }

  /** A turn shifts the high bit `k` without disturbing what is below it. */
  lemma ShiftKeepsHighBit(fn: nat, sn: nat, k: nat) returns (j: nat)
    requires IsPowerOfTwo(k) && k <= fn <= sn < 2 * k && k < sn
    ensures IsPowerOfTwo(j)
    ensures var low := Shift(fn - k, sn - k);
            Shift(fn, sn) == (low.0 + j, low.1 + j) && low.0 <= low.1 < j
  {
    HighBitHalves(fn - k, sn - k, k);
    if fn % 2 == 0 && fn == sn {
      var i := StripIgnoresHighBit(fn - k, sn - k, k);
      j := i / 2;
      SumHalves(StripZeros(fn - k, sn - k), i);
    } else {
      j := k / 2;
    }
  }

  lemma SumHalves(low: (nat, nat), i: nat)
    requires IsPowerOfTwo(i) && i % 2 == 0 && low.0 <= low.1 < i
    ensures (low.0 + i) / 2 == low.0 / 2 + i / 2 && (low.1 + i) / 2 == low.1 / 2 + i / 2
    ensures IsPowerOfTwo(i / 2) && low.0 / 2 <= low.1 / 2 < i / 2
  {
  }

  /** The bottom-up loop computes what the tree prescribes top down. */
  lemma {:induction false} ClimbIsAscend<T>(index: nat, size: nat, path: seq<Digest<T>>, d: Digest<T>)
    requires index < size
    ensures Climb(index, size - 1, path, d) == Ascend(index, size, path, d)
    decreases size
  {
    if size > 1 && path != [] {
      var k, rest, last := SplitPoint(size), path[..|path| - 1], path[|path| - 1];
      assert path == rest + [last];
      if index < k {
        ClimbIsAscend(index, k, rest, d);
        AscendLeft(index, size, k, rest, last, d);
      } else {
        ClimbIsAscend(index - k, size - k, rest, d);
        AscendRight(index, size, k, rest, last, d);
      }
    }
  }

  lemma AscendLeft<T>(index: nat, size: nat, k: nat, rest: seq<Digest<T>>, last: Digest<T>, d: Digest<T>)
    requires size > 1 && k == SplitPoint(size) && index < k
    requires Climb(index, k - 1, rest, d) == Ascend(index, k, rest, d)
    ensures Climb(index, size - 1, rest + [last], d) == Ascend(index, size, rest + [last], d)
  {
    ClimbLeft(index, size - 1, k, rest, last, d);
    assert (rest + [last])[..|rest|] == rest;
  }

  lemma AscendRight<T>(index: nat, size: nat, k: nat, rest: seq<Digest<T>>, last: Digest<T>, d: Digest<T>)
    requires size > 1 && k == SplitPoint(size) && k <= index < size
    requires Climb(index - k, size - k - 1, rest, d) == Ascend(index - k, size - k, rest, d)
    ensures Climb(index, size - 1, rest + [last], d) == Ascend(index, size, rest + [last], d)
  {
    ClimbRight(index, size - 1, k, rest, last, d);
    assert (rest + [last])[..|rest|] == rest;
  }

  /**
   Sound and complete: against the root of `leaves`, the verifier accepts a leaf at
   an index exactly when it is the leaf there and the proof is the honest one.
   */
  lemma InclusionProofIsExact<T>(leaves: seq<T>, leaf: T, index: nat, proof: seq<Digest<T>>)
    requires index < |leaves|
    ensures Climb(index, |leaves| - 1, proof, Leaf(leaf)) == Some(MerkleRoot(leaves))
       <==> leaf == leaves[index] && InclusionProof(leaves, index) == Ok(proof)
  {
    ClimbIsAscend(index, |leaves|, proof, Leaf(leaf));
    AscendIsExact(leaves, index, proof, leaf);
  }

  /** A digest is spelled with 64 digits, by code point. */
  lemma SpellingIff<T>(s: string)
    ensures IsDigest<T>(Text(s)) <==>
              |s| == 64 && forall i :: 0 <= i < |s| ==> 48 <= s[i] as int <= 57 || 97 <= s[i] as int <= 102
  {
  }

  lemma {:induction false} RootIsDigest<T>(hashes: seq<Digest<T>>)
    requires hashes != [] && forall h :: h in hashes ==> IsDigest(h)
    ensures IsDigest(RootOf(hashes))
  {
    if |hashes| == 1 {
      assert hashes[0] in hashes;
    }
  }

  lemma {:induction false} PathIsDigests<T>(hashes: seq<Digest<T>>, index: nat)
    requires index < |hashes| && forall h :: h in hashes ==> IsDigest(h)
    ensures forall d :: d in Path(hashes, index) ==> IsDigest(d)
    decreases |hashes|
  {
    if |hashes| > 1 {
      var k := SplitPoint(|hashes|);
      RootIsDigest(hashes[..k]);
      RootIsDigest(hashes[k..]);
      if index < k {
        PathIsDigests(hashes[..k], index);
      } else {
        PathIsDigests(hashes[k..], index - k);
      }
    }
  }

  /** The honest proof of a leaf is well spelled, so nothing but its content decides. */
  lemma HonestIsWellSpelled<T>(leaves: seq<T>, index: nat)
    requires index < |leaves|
    ensures IsDigest(MerkleRoot(leaves))
    ensures InclusionProof(leaves, index).Ok? && forall d :: d in InclusionProof(leaves, index).value ==> IsDigest(d)
  {
    RootIsDigest(LeafHashes(leaves));
    PathIsDigests(LeafHashes(leaves), index);
  }
}
