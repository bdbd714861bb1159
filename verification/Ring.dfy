/** A doubly linked ring over small numbers, as the buffer list of kernel/bio.c. */
module Ring {

  function Nx(ring: seq<nat>, i: nat): nat
    requires i < |ring|
  {
    if i + 1 == |ring| then 0 else i + 1
  }

  ghost predicate LinkAt(ring: seq<nat>, next: seq<nat>, prev: seq<nat>, i: nat)
    requires i < |ring|
  {
    && ring[i] < |next| && ring[Nx(ring, i)] < |prev|
    && next[ring[i]] == ring[Nx(ring, i)] && prev[ring[Nx(ring, i)]] == ring[i]
  }

  /** The links run round `ring`, both ways, and `ring` lists every number below `|next|` once. */
  ghost predicate Linked(ring: seq<nat>, next: seq<nat>, prev: seq<nat>) {
    && |ring| > 0 && |next| == |prev|
    && (forall i, j :: 0 <= i < j < |ring| ==> ring[i] != ring[j])
    && (forall i :: 0 <= i < |ring| ==> ring[i] < |next|)
    && (forall i: nat :: i < |ring| ==> LinkAt(ring, next, prev, i))
  }

  function Without(ring: seq<nat>, p: nat): seq<nat>
    requires p < |ring|
  {
    ring[..p] + ring[p + 1..]
  }

  // Taking one element out of the ring.
  lemma Unlink(ring: seq<nat>, next: seq<nat>, prev: seq<nat>, p: nat)
    requires Linked(ring, next, prev) && 1 <= p < |ring|
    ensures var b := ring[p];
      && b < |next| && prev[b] < |next| && next[b] < |prev|
      && Linked(Without(ring, p), next[prev[b] := next[b]], prev[next[b] := prev[b]])
  {
    var b := ring[p];
    assert LinkAt(ring, next, prev, p - 1) && LinkAt(ring, next, prev, p);
    var r, next', prev' := Without(ring, p), next[prev[b] := next[b]], prev[next[b] := prev[b]];
    forall i: nat | i < |r|
      ensures LinkAt(r, next', prev', i)
    {
      var j := if i < p then i else i + 1;
      assert r[i] == ring[j] && LinkAt(ring, next, prev, j);
      if i + 1 == p {
        assert r[Nx(r, i)] == ring[Nx(ring, p)];
      } else {
        assert r[Nx(r, i)] == ring[Nx(ring, j)];
        assert ring[j] != ring[p - 1];
        assert ring[Nx(ring, j)] != ring[Nx(ring, p)];
      }
    }
  }

  // Putting an element that is not in the ring right behind its first element.
  lemma Push(ring: seq<nat>, next: seq<nat>, prev: seq<nat>, b: nat)
    requires Linked(ring, next, prev) && b < |next| && b !in ring
    ensures ring[0] < |next| && next[ring[0]] < |prev|
    ensures Linked([ring[0], b] + ring[1..], next[b := next[ring[0]]][ring[0] := b],
                   prev[b := ring[0]][next[ring[0]] := b])
  {
    var h := ring[0];
    assert LinkAt(ring, next, prev, 0);
    var r, next', prev' := [h, b] + ring[1..], next[b := next[h]][h := b], prev[b := h][next[h] := b];
    forall i: nat | i < |r|
      ensures LinkAt(r, next', prev', i)
    {
      if i == 0 {
      } else if i == 1 {
        assert r[Nx(r, 1)] == ring[Nx(ring, 0)];
      } else {
        assert r[i] == ring[i - 1] && LinkAt(ring, next, prev, i - 1);
        assert r[Nx(r, i)] == ring[Nx(ring, i - 1)];
        assert ring[0] != ring[i - 1];
        assert ring[Nx(ring, i - 1)] != ring[Nx(ring, 0)];
      }
    }
  }
}
