/** Which peer is responsible for a hashed key (praxis2/src/neighbour.c). */
module Intervals {
  import opened Words

  /** The test as the code writes it. */
  predicate PeerIsResponsible(predId: uint16, peerId: uint16, hashId: uint16) {
    if predId > peerId && hashId > predId then true
    else if hashId <= peerId && hashId > predId then true
    else false
  }

  /** Clockwise distance on the circle of 16-bit ids. */
  function Clockwise(from: uint16, to: uint16): uint16 {
    (to - from) % 0x1_0000
  }

  /** The half-open circular interval from the predecessor (excluded) to the peer (included). */
  predicate InArc(predId: uint16, peerId: uint16, hashId: uint16) {
    0 < Clockwise(predId, hashId) <= Clockwise(predId, peerId)
  }

  /** The code's test misses exactly the lower part of the interval that wraps around zero. */
  lemma CodeDiffersExactly(predId: uint16, peerId: uint16, hashId: uint16)
    ensures PeerIsResponsible(predId, peerId, hashId) ==> InArc(predId, peerId, hashId)
    ensures InArc(predId, peerId, hashId) && !PeerIsResponsible(predId, peerId, hashId)
      <==> predId > peerId && hashId <= peerId
  {
    assert Clockwise(predId, hashId) ==
      if predId <= hashId then hashId - predId else hashId - predId + 0x1_0000;
    assert Clockwise(predId, peerId) ==
      if predId <= peerId then peerId - predId else peerId - predId + 0x1_0000;
  }

  // ---------- a ring of peers ----------

  /** At least two peers with distinct ids, listed in ascending order. */
  predicate Ring(ids: seq<uint16>) {
    |ids| >= 2 && forall i, j :: 0 <= i < j < |ids| ==> ids[i] < ids[j]
  }

  function Succ(n: nat, i: nat): nat
    requires i < n
  {
    if i + 1 == n then 0 else i + 1
  }

  function Pred(n: nat, i: nat): nat
    requires i < n
  {
    if i == 0 then n - 1 else i - 1
  }

  predicate Responsible(ids: seq<uint16>, i: nat, h: uint16)
    requires i < |ids|
  {
    PeerIsResponsible(ids[Pred(|ids|, i)], ids[i], h)
  }

  predicate CircularlyResponsible(ids: seq<uint16>, i: nat, h: uint16)
    requires i < |ids|
  {
    InArc(ids[Pred(|ids|, i)], ids[i], h)
  }

  /** The hashes above the smallest id. */
  predicate Covered(ids: seq<uint16>, h: uint16)
    requires |ids| > 0
  {
    h > ids[0]
  }

  /** The first id at or after `h` on the circle: the least index with `h <= id`, else 0. */
  function FirstFrom(ids: seq<uint16>, i: nat, h: uint16): (k: nat)
    requires i <= |ids|
    ensures i <= k <= |ids|
    ensures forall j :: i <= j < k ==> ids[j] < h
    ensures k < |ids| ==> h <= ids[k]
    decreases |ids| - i
  {
    if i == |ids| || h <= ids[i] then i else FirstFrom(ids, i + 1, h)
  }

  function Owner(ids: seq<uint16>, h: uint16): (o: nat)
    requires |ids| > 0
    ensures o < |ids|
  {
    var k := FirstFrom(ids, 0, h);
    if k == |ids| then 0 else k
  }

  /** With the circular interval every hash has exactly one responsible peer: its owner. */
  lemma OneCircularOwner(ids: seq<uint16>, i: nat, h: uint16)
    requires Ring(ids) && i < |ids|
    ensures CircularlyResponsible(ids, i, h) <==> i == Owner(ids, h)
  {
    var p := Pred(|ids|, i);
    CodeDiffersExactly(ids[p], ids[i], h);
    assert i == 0 ==> forall j :: 0 <= j < |ids| ==> ids[j] <= ids[p];
    var k := FirstFrom(ids, 0, h);
    if k < |ids| {
      assert i < k ==> ids[i] < h;
      assert k < i ==> ids[k] <= ids[p];
    }
  }

  /** As written, responsibility covers exactly the hashes above the smallest id, disjointly. */
  lemma OneOwnerIfCovered(ids: seq<uint16>, i: nat, h: uint16)
    requires Ring(ids) && i < |ids|
    ensures Responsible(ids, i, h) <==> Covered(ids, h) && i == Owner(ids, h)
  {
    OneCircularOwner(ids, i, h);
    CodeDiffersExactly(ids[Pred(|ids|, i)], ids[i], h);
    if i == 0 {
      assert ids[0] < ids[|ids| - 1];
    } else {
      assert ids[i - 1] < ids[i] && ids[0] <= ids[i - 1];
    }
    if h <= ids[0] {
      assert FirstFrom(ids, 0, h) == 0;
    }
  }

  /** A hash has a responsible peer exactly when it is covered. */
  lemma SomeoneResponsibleExactly(ids: seq<uint16>, h: uint16)
    requires Ring(ids)
    ensures (exists i :: 0 <= i < |ids| && Responsible(ids, i, h)) <==> Covered(ids, h)
  {
    OneOwnerIfCovered(ids, Owner(ids, h), h);
    forall i | 0 <= i < |ids|
      ensures Responsible(ids, i, h) ==> Covered(ids, h)
    {
      OneOwnerIfCovered(ids, i, h);
    }
  }

  // ---------- distances along the ring ----------

  /** The number of successor links from peer `i` to peer `j`. */
  function Dist(n: nat, i: nat, j: nat): (d: nat)
    requires i < n && j < n
    ensures d < n
  {
    if i <= j then j - i else j - i + n
  }

  /** The peer that is `links` successors on from peer `i`. */
  function Walk(n: nat, i: nat, links: nat): (j: nat)
    requires i < n
    ensures j < n
  {
    if links == 0 then i else Succ(n, Walk(n, i, links - 1))
  }
}
