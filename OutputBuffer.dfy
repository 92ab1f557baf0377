/**
 * The output buffer of `read_files` (Ray's `BlockOutputBuffer`, which is
 * not part of this model's sources): it gathers the records of the blocks
 * it is given and hands them back as blocks of more than the target size,
 * and after `finalize` hands back what is left as one last block. Sizes
 * are counted in records.
 */
module OutputBuffer {
  import opened Seqs
  import opened Records

  class BlockOutputBuffer {
    const targetMaxBlockSize: nat
    var pending: seq<Record>
    var finalized: bool
    /** Every record added so far, in order. */
    ghost var added: seq<Record>
    /** Every block handed back so far, in order. */
    ghost var emitted: seq<Chunk>

    /** Nothing is lost, duplicated or reordered, and no block handed back is empty. */
    ghost predicate Valid()
      reads this
    {
      && Flatten(emitted) + pending == added
      && (forall i :: 0 <= i < |emitted| ==> emitted[i] != [])
    }

    constructor (targetMaxBlockSize: nat)
      ensures Valid()
      ensures this.targetMaxBlockSize == targetMaxBlockSize
      ensures pending == [] && !finalized && added == [] && emitted == []
    {
      this.targetMaxBlockSize := targetMaxBlockSize;
      pending := [];
      finalized := false;
      added := [];
      emitted := [];
    }

    /** Takes in one block's records. */
    method AddBlock(block: Chunk)
      requires Valid() && !finalized
      modifies this
      ensures Valid()
      ensures pending == old(pending) + block && added == old(added) + block
      ensures emitted == old(emitted) && finalized == old(finalized)
    {
      pending := pending + block;
      added := added + block;
    }

    /** A block is ready: more than the target is pending, or the input has ended and anything is pending. */
    predicate HasNext()
      reads this
      ensures HasNext() ==> pending != []
      ensures !finalized && |pending| > targetMaxBlockSize ==> HasNext()
      ensures !finalized && |pending| <= targetMaxBlockSize ==> !HasNext()
      ensures finalized && pending != [] ==> HasNext()
    {
      if finalized then |pending| > 0 else |pending| > targetMaxBlockSize
    }

    /** Hands back every pending record as one block. */
    method Next() returns (block: Chunk)
      requires Valid() && HasNext()
      modifies this
      ensures Valid()
      ensures block == old(pending) && block != []
      ensures pending == [] && emitted == old(emitted) + [block]
      ensures added == old(added) && finalized == old(finalized)
    {
      block := pending;
      FlattenAppend(emitted, [block]);
      FlattenSingle(block);
      emitted := emitted + [block];
      pending := [];
    }

    /** Marks the end of the input. */
    method Finalize()
      requires Valid()
      modifies this
      ensures Valid() && finalized
      ensures pending == old(pending) && added == old(added) && emitted == old(emitted)
    {
      finalized := true;
    }
  }
}
