/** Where new blocks come from. */
module BlockSupply {
  datatype Error = EOK | EIO | ENOSPC | EINVAL

  /** The block allocator as its callers see it: the blocks it will hand out, in order. */
  class BlockSource {
    var supply: seq<nat>

    constructor (supply: seq<nat>)
      ensures this.supply == supply
    {
      this.supply := supply;
    }

    method Alloc() returns (err: Error, blk: nat)
      modifies this
      ensures if old(supply) == [] then err == ENOSPC && supply == [] else err == EOK && [blk] + supply == old(supply)
    {
      if supply == [] {
        return ENOSPC, 0;
      }
      err, blk, supply := EOK, supply[0], supply[1..];
    }
  }
}
