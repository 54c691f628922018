/** Values shared by every part of the transactional object store. */
module Types {
  datatype Option<+T> = None | Some(value: T)

  /** TRANS_STATUS. */
  datatype Status = Pending | Committed | Aborted

  /** A transaction, named by its position in the order of creation.  Unlike the numeric id that the
      transaction manager hands out, a name is never given to a second transaction. */
  type Tid = nat

  newtype Byte = b: int | 0 <= b < 256
  type Bytes = seq<Byte>

  /** Keys are compared by content. */
  type Key = Bytes

  /** A blob is immutable once created, so the store only ever moves references to it. */
  type BlobId = nat
  type Value = Option<BlobId>

  datatype Version = Version(creator: Tid, value: Value)
}
