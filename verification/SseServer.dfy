/**
The storage server: a map from labels to entries, filled and read in batches.
*/
module SseServer {
  import opened Options
  import opened ByteBuffers
  import opened IndexRuns
  import opened Messages

  /** Reading a batch of labels: one entry after the other, or the server's exit at the first missing one. */
  function Fetch(index: map<Bytes, Bytes>, labels: seq<Bytes>): Option<seq<Bytes>>
    decreases |labels|
  {
    if |labels| == 0 then Some([])
    else
      var n := |labels| - 1;
      match Fetch(index, labels[..n])
      case None => None
      case Some(found) => if labels[n] in index then Some(found + [index[labels[n]]]) else None
  }

  lemma {:induction false} FetchExact(index: map<Bytes, Bytes>, labels: seq<Bytes>)
    ensures Fetch(index, labels).Some? <==> forall i :: 0 <= i < |labels| ==> labels[i] in index
    ensures Fetch(index, labels).Some? ==>
              var found := Fetch(index, labels).value;
              && |found| == |labels|
              && forall i :: 0 <= i < |labels| ==> labels[i] in index && found[i] == index[labels[i]]
    decreases |labels|
  {
    if |labels| == 0 {
    } else {
      FetchExact(index, labels[..|labels| - 1]);
    }
  }

  /** The pairs in the buffer of an add request. */
  function PairsIn(buffer: Bytes, n: nat): (p: seq<Pair>)
    requires PAIR_SIZE * n <= |buffer|
    ensures |p| == n
  {
    seq(n, i requires 0 <= i < n =>
      var block := BlockAt(buffer, PAIR_SIZE, n, i);
      Pair(block[..HASH_SIZE], block[HASH_SIZE..]))
  }

  class Server {
    var index: map<Bytes, Bytes>
    ghost var batches: seq<seq<Pair>> // history: the add requests received

    /** Labels and entries have their fixed sizes. */
    ghost predicate Valid()
      reads this
    {
      forall l :: l in index ==> |l| == HASH_SIZE && |index[l]| == ENTRY_SIZE
    }

    constructor ()
      ensures Valid() && index == map[] && batches == []
    {
      index := map[];
      batches := [];
    }

    /** OP_UEE_ADD: stores the pairs of the buffer in order. */
    method Add(nrLabels: nat, buffer: Bytes)
      requires Valid() && PAIR_SIZE * nrLabels <= |buffer|
      modifies this
      ensures Valid()
      ensures index == InsertAll(old(index), PairsIn(buffer, nrLabels))
      ensures batches == old(batches) + [PairsIn(buffer, nrLabels)]
    {
      ghost var pairs := PairsIn(buffer, nrLabels);
      for i := 0 to nrLabels
        invariant index == InsertAll(old(index), pairs[..i])
        invariant batches == old(batches) && Valid()
      {
        Slot(PAIR_SIZE, i, nrLabels);
        var l := buffer[PAIR_SIZE * i..PAIR_SIZE * i + HASH_SIZE];
        var d := buffer[PAIR_SIZE * i + HASH_SIZE..PAIR_SIZE * i + PAIR_SIZE];
        assert l == pairs[i].key && d == pairs[i].entry;
        index := index[l := d];
        assert pairs[..i + 1][..i] == pairs[..i];
      }
      assert pairs[..nrLabels] == pairs;
      batches := batches + [pairs];
    }

    /** OP_UEE_SEARCH: copies the entries of all labels into the reply, or exits on a label it does not have. */
    method Search(nrLabels: nat, labels: Bytes) returns (reply: Option<Bytes>)
      requires HASH_SIZE * nrLabels <= |labels|
      ensures var found := Fetch(index, Blocks(labels, HASH_SIZE, nrLabels));
              reply == match found case None => None case Some(entries) => Some(Flatten(entries))
    {
      hide Fetch, Flatten, BlockAt;
      ghost var wanted := Blocks(labels, HASH_SIZE, nrLabels);
      ghost var entries: seq<Bytes> := [];
      var buffer: Bytes := [];
      FetchNone(index, wanted);
      for i := 0 to nrLabels
        invariant Fetch(index, wanted[..i]) == Some(entries) && buffer == Flatten(entries)
      {
        LabelAt(labels, nrLabels, i);
        FetchNext(index, wanted, i, entries);
        var l := labels[HASH_SIZE * i..HASH_SIZE * i + HASH_SIZE];
        if l !in index {
          return None;
        }
        FlattenSnoc(entries, index[l]);
        entries := entries + [index[l]];
        buffer := buffer + index[l];
      }
      assert wanted[..nrLabels] == wanted;
      return Some(buffer);
    }
  }

  lemma LabelAt(labels: Bytes, n: nat, i: nat)
    requires HASH_SIZE * n <= |labels| && i < n
    ensures 0 <= HASH_SIZE * i <= HASH_SIZE * i + HASH_SIZE <= |labels|
    ensures Blocks(labels, HASH_SIZE, n)[i] == labels[HASH_SIZE * i..HASH_SIZE * i + HASH_SIZE]
  {
    Slot(HASH_SIZE, i, n);
  }

  lemma FetchNone(index: map<Bytes, Bytes>, labels: seq<Bytes>)
    ensures Fetch(index, labels[..0]) == Some([]) && Flatten([]) == []
  {
  }

  /** The loop exits at the first label that is missing, so that the whole batch has no answer then. */
  lemma FetchNext(index: map<Bytes, Bytes>, labels: seq<Bytes>, i: nat, found: seq<Bytes>)
    requires i < |labels| && Fetch(index, labels[..i]) == Some(found)
    ensures labels[i] in index ==> Fetch(index, labels[..i + 1]) == Some(found + [index[labels[i]]])
    ensures labels[i] !in index ==> Fetch(index, labels).None?
  {
    if labels[i] in index {
      assert labels[..i + 1][..i] == labels[..i];
    } else {
      FetchExact(index, labels);
    }
  }
}
