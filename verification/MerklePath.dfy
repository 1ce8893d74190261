/** TSC Merkle proofs and their conversion to BRC-74 paths
    (internal/spv/fetcher.go, internal/wallet/scanner.go). */
module MerklePath {
  import opened Numbers
  import opened Wrappers
  import Hex

  /** Double SHA-256 of two concatenated nodes, left abstract. */
  type Combine = (Hash, Hash) -> Hash

  // -------------------------------------------------- trees and TSC proofs

  /** The level above: an odd last node is paired with itself. */
  function Parents(h2: Combine, level: seq<Hash>): (p: seq<Hash>)
    ensures |p| == (|level| + 1) / 2
  {
    seq<Hash>((|level| + 1) / 2, i requires 0 <= i < (|level| + 1) / 2 =>
      h2(level[2 * i], if 2 * i + 1 < |level| then level[2 * i + 1] else level[2 * i]))
  }

  function Root(h2: Combine, level: seq<Hash>): Hash
    requires level != []
    decreases |level|
  {
    if |level| == 1 then level[0] else Root(h2, Parents(h2, level))
  }

  /** offset ^ 1 */
  function Sibling(offset: nat): nat {
    if offset % 2 == 0 then offset + 1 else offset - 1
  }

  /** A hash as proofs display it: hex of the reversed bytes. */
  function Display(h: Hash): string {
    Hex.Encode(Reversed(h))
  }

  /** The sibling a proof lists for one node: "*" when the node is paired with itself. */
  function TscNode(level: seq<Hash>, index: nat): string {
    if Sibling(index) < |level| then Display(level[Sibling(index)]) else "*"
  }

  /** The nodes of the TSC proof of a leaf, bottom to top. */
  function TscNodes(h2: Combine, level: seq<Hash>, index: nat): seq<string>
    decreases |level|
  {
    if |level| <= 1 then [] else [TscNode(level, index)] + TscNodes(h2, Parents(h2, level), index / 2)
  }

  // -------------------------------------------------------- the conversion

  datatype PathElement = PathElement(offset: nat, hash: Option<Hash>, txid: bool, duplicate: bool)

  method ReverseBytes(b: array<byte>)
    modifies b
    ensures b[..] == Reversed(old(b[..]))
  {
    var i, j := 0, b.Length - 1;
    while i < j
      invariant 0 <= i <= j + 1 <= b.Length && j == b.Length - 1 - i
      invariant forall k :: 0 <= k < i || j < k < b.Length ==> b[k] == old(b[b.Length - 1 - k])
      invariant forall k :: i <= k <= j ==> b[k] == old(b[k])
    {
      b[i], b[j] := b[j], b[i];
      i, j := i + 1, j - 1;
    }
  }

  /** chainhash.NewHash: nil unless there are 32 bytes. */
  function NewHash(b: seq<byte>): Option<Hash> {
    if |b| == 32 then Some(b) else None
  }

  /** tscNodeToElement */
  function Element(node: string, offset: nat): PathElement {
    if node == "*" then PathElement(offset, None, false, true)
    else PathElement(offset, NewHash(Reversed(Hex.Decode(node).0)), false, false)
  }

  method TscNodeToElement(node: string, offset: nat) returns (e: PathElement)
    ensures e.offset == offset && !e.txid && (e.duplicate <==> node == "*")
    ensures e.hash.Some? <==> node != "*" && |Hex.Decode(node).0| == 32
    ensures e.hash.Some? ==> Reversed(e.hash.value) == Hex.Decode(node).0
    ensures e == Element(node, offset)
  {
    if node == "*" {
      return PathElement(offset, None, false, true);
    }
    var decoded := Hex.Decode(node).0;
    ReversedTwice(decoded);
    var nodeBytes := new byte[|decoded|](i requires 0 <= i < |decoded| => decoded[i]);
    assert nodeBytes[..] == decoded;
    ReverseBytes(nodeBytes);
    e := PathElement(offset, NewHash(nodeBytes[..]), false, false);
  }

  /** Level 0: the transaction and its sibling, lower offset first. */
  function BottomLevel(txid: Hash, node: string, offset: nat): seq<PathElement> {
    var self, sibling := PathElement(offset, Some(txid), true, false), Element(node, Sibling(offset));
    if offset < Sibling(offset) then [self, sibling] else [sibling, self]
  }

  /** Levels above 0: the sibling alone. */
  function UpperLevels(nodes: seq<string>, offset: nat): (levels: seq<seq<PathElement>>)
    ensures |levels| == |nodes|
  {
    if nodes == [] then [] else [[Element(nodes[0], Sibling(offset))]] + UpperLevels(nodes[1..], offset / 2)
  }

  function Path(txid: Hash, nodes: seq<string>, index: nat): seq<seq<PathElement>> {
    if nodes == [] then [] else [BottomLevel(txid, nodes[0], index)] + UpperLevels(nodes[1..], index / 2)
  }

  // The path begins with the bottom level and goes on one level at a time.
  lemma PathBegins(txid: Hash, nodes: seq<string>, index: nat)
    ensures nodes == [] ==> Path(txid, nodes, index) == []
    ensures nodes != [] ==>
      Path(txid, nodes, index) == [BottomLevel(txid, nodes[0], index)] + UpperLevels(nodes[1..], index / 2)
  {
  }

  lemma PathGoesOn(done: seq<seq<PathElement>>, nodes: seq<string>, level: nat, offset: nat)
    requires level <= |nodes|
    ensures level == |nodes| ==> done + UpperLevels(nodes[level..], offset) == done
    ensures level < |nodes| ==>
      done + UpperLevels(nodes[level..], offset) ==
      done + [[Element(nodes[level], Sibling(offset))]] + UpperLevels(nodes[level + 1..], offset / 2)
  {
    if level < |nodes| {
      assert nodes[level..][1..] == nodes[level + 1..];
    }
  }

  /** The loop of fetchMerkleProofFromWoC. */
  method TscToPath(txid: Hash, nodes: seq<string>, index: nat) returns (levels: seq<seq<PathElement>>)
    ensures levels == Path(txid, nodes, index)
  {
    hide Element, Sibling, Path, UpperLevels;
    var treeHeight := |nodes|;
    var path := new seq<PathElement>[treeHeight](_ => []);
    var offset := index;
    PathBegins(txid, nodes, index);
    for level := 0 to treeHeight
      invariant level == 0 ==> offset == index
      invariant level > 0 ==> path[..level] + UpperLevels(nodes[level..], offset) == Path(txid, nodes, index)
    {
      var sibOffset := Sibling(offset);
      var sibling := TscNodeToElement(nodes[level], sibOffset);
      ghost var before := path[..level];
      if level == 0 {
        var self := PathElement(offset, Some(txid), true, false);
        path[0] := if offset < sibOffset then [self, sibling] else [sibling, self];
      } else {
        PathGoesOn(before, nodes, level, offset);
        path[level] := [sibling];
      }
      offset := offset / 2;
      assert path[..level + 1] == before + [path[level]];
    }
    PathGoesOn(path[..], nodes, treeHeight, offset);
    assert path[..treeHeight] == path[..];
    levels := path[..];
  }

  // ------------------------------------------------ the BRC-74 root

  /** The first element of a level that satisfies the search, by hash or by offset. */
  function FindHash(level: seq<PathElement>, h: Hash): Option<PathElement> {
    if level == [] then None else if level[0].hash == Some(h) then Some(level[0]) else FindHash(level[1..], h)
  }

  function FindOffset(level: seq<PathElement>, offset: nat): Option<PathElement> {
    if level == [] then None else if level[0].offset == offset then Some(level[0]) else FindOffset(level[1..], offset)
  }

  /** One level of the root calculation: the working hash joined with the element at the sibling offset. */
  function Join(h2: Combine, level: seq<PathElement>, index: nat, working: Hash): Option<Hash> {
    match FindOffset(level, Sibling(index))
    case None => None
    case Some(leaf) =>
      if leaf.duplicate then Some(h2(working, working))
      else if leaf.hash.None? then None
      else if Sibling(index) % 2 != 0 then Some(h2(working, leaf.hash.value))
      else Some(h2(leaf.hash.value, working))
  }

  function Climb(h2: Combine, levels: seq<seq<PathElement>>, index: nat, working: Hash): Option<Hash> {
    if levels == [] then Some(working)
    else
      match Join(h2, levels[0], index, working)
      case None => None
      case Some(next) => Climb(h2, levels[1..], index / 2, next)
  }

  /** The root calculation of BRC-74: find the txid in level 0, then hash with one sibling a level. */
  function ComputeRoot(h2: Combine, levels: seq<seq<PathElement>>, txid: Hash): Option<Hash> {
    if levels == [] then None
    else
      match FindHash(levels[0], txid)
      case None => None
      case Some(leaf) => Climb(h2, levels, leaf.offset, txid)
  }

  // ------------------------------------------------------ what it returns

  lemma SiblingLaws(offset: nat)
    ensures Sibling(Sibling(offset)) == offset && Sibling(offset) != offset
    ensures Sibling(offset) / 2 == offset / 2
    ensures Sibling(offset) == if offset % 2 == 0 then 2 * (offset / 2) + 1 else 2 * (offset / 2)
  {
  }

  lemma ReversedTwice(b: seq<byte>)
    ensures Reversed(Reversed(b)) == b
  {
  }

  /** A node survives its trip through display form. */
  lemma ElementOfDisplay(h: Hash, offset: nat)
    ensures Element(Display(h), offset) == PathElement(offset, Some(h), false, false)
  {
    Hex.EncodeDecode(Reversed(h));
    ReversedTwice(h);
    assert |Display(h)| == 64;
  }

  // Joining a node with what its proof lists gives its parent.
  lemma JoinGivesParent(h2: Combine, level: seq<Hash>, index: nat, elements: seq<PathElement>)
    requires |level| > 1 && index < |level|
    requires FindOffset(elements, Sibling(index)) == Some(Element(TscNode(level, index), Sibling(index)))
    ensures Join(h2, elements, index, level[index]) == Some(Parents(h2, level)[index / 2])
  {
    SiblingLaws(index);
    if Sibling(index) < |level| {
      ElementOfDisplay(level[Sibling(index)], Sibling(index));
    }
  }

  lemma {:induction false} ClimbReachesRoot(h2: Combine, level: seq<Hash>, index: nat)
    requires level != [] && index < |level|
    ensures Climb(h2, UpperLevels(TscNodes(h2, level, index), index), index, level[index]) == Some(Root(h2, level))
    decreases |level|
  {
    if |level| > 1 {
      var node := TscNode(level, index);
      JoinGivesParent(h2, level, index, [Element(node, Sibling(index))]);
      ClimbReachesRoot(h2, Parents(h2, level), index / 2);
      assert TscNodes(h2, level, index)[1..] == TscNodes(h2, Parents(h2, level), index / 2);
      var levels := UpperLevels(TscNodes(h2, level, index), index);
      assert levels[1..] == UpperLevels(TscNodes(h2, Parents(h2, level), index / 2), index / 2);
    }
  }

  // The txid is found at its own offset, or at its sibling's when the two
  // leaves are equal; either way the first join is the same.
  lemma BottomJoin(h2: Combine, level: seq<Hash>, index: nat)
    requires |level| > 1 && index < |level|
    ensures var bottom := BottomLevel(level[index], TscNode(level, index), index);
            var leaf := FindHash(bottom, level[index]);
            && leaf.Some? && leaf.value.offset / 2 == index / 2
            && Join(h2, bottom, leaf.value.offset, level[index]) == Some(Parents(h2, level)[index / 2])
  {
    var bottom := BottomLevel(level[index], TscNode(level, index), index);
    SiblingLaws(index);
    assert FindOffset(bottom, Sibling(index)) == Some(Element(TscNode(level, index), Sibling(index)));
    JoinGivesParent(h2, level, index, bottom);
    if Sibling(index) < |level| {
      ElementOfDisplay(level[Sibling(index)], Sibling(index));
    }
    assert bottom[1..][0] == bottom[1];
    if index % 2 == 1 && level[Sibling(index)] == level[index] {
      assert FindHash(bottom, level[index]) == Some(bottom[0]);
      assert FindOffset(bottom, index) == Some(bottom[1]);
    }
  }

  /** Converting the TSC proof of any leaf gives a path whose BRC-74 root is the tree's root. */
  lemma ConversionKeepsRoot(h2: Combine, leaves: seq<Hash>, index: nat)
    requires |leaves| >= 2 && index < |leaves|
    ensures ComputeRoot(h2, Path(leaves[index], TscNodes(h2, leaves, index), index), leaves[index]) ==
            Some(Root(h2, leaves))
  {
    var nodes := TscNodes(h2, leaves, index);
    var levels := Path(leaves[index], nodes, index);
    BottomJoin(h2, leaves, index);
    ClimbReachesRoot(h2, Parents(h2, leaves), index / 2);
    assert nodes[1..] == TscNodes(h2, Parents(h2, leaves), index / 2);
    assert levels[1..] == UpperLevels(nodes[1..], index / 2);
  }

  /** index >> k */
  function Halved(index: nat, k: nat): nat {
    if k == 0 then index else Halved(index / 2, k - 1)
  }

  lemma {:induction false} UpperElements(nodes: seq<string>, offset: nat, k: nat)
    requires k < |nodes|
    ensures UpperLevels(nodes, offset)[k] == [Element(nodes[k], Sibling(Halved(offset, k)))]
  {
    hide Element, Sibling;
    if k > 0 {
      UpperElements(nodes[1..], offset / 2, k - 1);
    }
  }

  /** One level a node; level 0 sorted by offset, level k holding the sibling of index >> k. */
  lemma PathShape(txid: Hash, nodes: seq<string>, index: nat, k: nat)
    requires k < |nodes|
    ensures var path := Path(txid, nodes, index);
            && |path| == |nodes|
            && (k == 0 ==> |path[0]| == 2 && path[0][0].offset < path[0][1].offset)
            && (k == 0 ==> {path[0][0].offset, path[0][1].offset} == {index, Sibling(index)})
            && (k > 0 ==> |path[k]| == 1 && path[k][0].offset == Sibling(Halved(index, k)))
  {
    if k > 0 {
      UpperElements(nodes[1..], index / 2, k - 1);
    }
  }

  /** Exactly one element of the path is marked as the transaction, the one at the transaction's own offset on level 0,
      and it holds the txid; every level also holds its node of the proof. */
  lemma TransactionIsMarked(txid: Hash, nodes: seq<string>, index: nat, k: nat, e: PathElement)
    requires k < |nodes|
    ensures var path := Path(txid, nodes, index);
            && |path| == |nodes|
            && (e in path[k] && e.txid <==> k == 0 && e == PathElement(index, Some(txid), true, false))
            && (e in path[k] && !e.txid <==> e == Element(nodes[k], Sibling(Halved(index, k))))
  {
    SiblingLaws(index);
    if k > 0 {
      UpperElements(nodes[1..], index / 2, k - 1);
    }
  }
}
