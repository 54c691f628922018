/** The blob records in memory and their reference counts. */
module BlobPools {
  import opened Types
  import opened Data
  import opened BlobBooks

  /** The abstract value of a pointer to a blob. */
  ghost function Val(bp: Blob?): Value {
    if bp == null then None else Some(bp.bid)
  }

  /** All blobs ever created, by id; `refs` are their refcnt fields. */
  class Pool {
    ghost var all: seq<Blob>
    ghost var refs: seq<nat>

    constructor ()
      ensures Ok() && all == [] && refs == []
    {
      all, refs := [], [];
    }

    ghost predicate Ok()
      reads this`all, this`refs, all`refcnt
    {
      && |all| == |refs|
      && forall i | 0 <= i < |all| :: all[i].bid == i && all[i].refcnt == refs[i] &&
           all[i].prefix == all[i].content + [0]
    }

    ghost predicate Has(bp: Blob?)
      reads this`all
    {
      bp != null ==> bp.bid < |all| && all[bp.bid] == bp
    }

    /** blob_create. */
    method BlobCreate(bytes: Bytes) returns (bp: Blob)
      requires Ok()
      modifies this`all, this`refs
      ensures Ok() && fresh(bp) && bp.content == bytes && bp.refcnt == 1
      ensures all == old(all) + [bp] && refs == old(refs) + [1] && Has(bp)
    {
      bp := new Blob(|all|, bytes);
      all, refs := all + [bp], refs + [1];
    }

    /** blob_ref. */
    method BlobRef(bp: Blob?)
      requires Ok() && Has(bp)
      modifies this`refs, all`refcnt
      ensures Ok() && refs == RefBlob(old(refs), Val(bp))
    {
      if bp != null {
        bp.Ref();
        refs := RefBlob(refs, Val(bp));
      }
    }

    /** blob_unref, for whoever holds a reference. */
    method BlobUnref(bp: Blob?)
      requires Ok() && Has(bp) && (bp != null ==> refs[bp.bid] > 0)
      modifies this`refs, all`refcnt
      ensures Ok() && refs == UnrefBlob(old(refs), Val(bp))
    {
      if bp != null {
        var freed := bp.Unref();
        refs := UnrefBlob(refs, Val(bp));
      }
    }

    /** key_dispose. */
    method KeyDispose(kp: StoredKey)
      requires Ok() && Has(kp.blob) && refs[kp.blob.bid] > 0
      modifies this`refs, all`refcnt
      ensures Ok() && refs == UnrefBlob(old(refs), Some(kp.blob.bid))
    {
      var freed := kp.Dispose();
      refs := UnrefBlob(refs, Some(kp.blob.bid));
    }
  }
}
