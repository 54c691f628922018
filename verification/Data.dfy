/** Blobs and keys: hashing, comparison and reference counting. */
module Data {
  import opened Types

  const NUM_BUCKETS: nat := 8

  // ----- Hashing and comparing content

  /** What strlen finds: the position of the first zero byte. */
  function ZeroAt(b: Bytes): (n: nat)
    ensures n <= |b|
  {
    if b == [] || b[0] == 0 then 0 else 1 + ZeroAt(b[1..])
  }

  /** blob_hash, of the content: the `prefix` it scans is the content followed by a zero byte. */
  function Hash(content: Bytes): nat {
    ZeroAt(content + [0]) % NUM_BUCKETS
  }

  /** memcmp of equally many bytes. */
  function MemCmp(a: Bytes, b: Bytes): int
    requires |a| == |b|
  {
    if a == [] then 0
    else if a[0] == b[0] then MemCmp(a[1..], b[1..])
    else if a[0] < b[0] then -1 else 1
  }

  function BlobCompare(a: Bytes, b: Bytes): int {
    if |a| == |b| then MemCmp(a, b) else -1
  }

  /** key_compare, of keys given by hash and content. */
  function KeyCompare(h1: nat, a: Bytes, h2: nat, b: Bytes): int {
    if h1 == h2 then BlobCompare(a, b) else -1
  }

  lemma {:induction false} MemCmpZero(a: Bytes, b: Bytes)
    requires |a| == |b|
    ensures MemCmp(a, b) == 0 <==> a == b
  {
    if a != [] {
      MemCmpZero(a[1..], b[1..]);
      if a[0] == b[0] {
        assert a == [a[0]] + a[1..] && b == [b[0]] + b[1..];
      }
    }
  }

  /** The scan stops at the first zero byte of the content, or at the one appended to it; bytes after the
      first zero do not matter to the hash. */
  lemma {:induction false} HashStopsAtZero(content: Bytes)
    ensures TextLength(content, ZeroAt(content + [0]))
    ensures Hash(content) < NUM_BUCKETS
  {
    if content != [] && content[0] != 0 {
      assert (content + [0])[1..] == content[1..] + [0];
      HashStopsAtZero(content[1..]);
    }
  }

  /** `n` bytes precede the first zero byte, that of the content or the one appended to it. */
  predicate TextLength(content: Bytes, n: nat) {
    n <= |content| && (forall i | 0 <= i < n :: content[i] != 0) && (n == |content| || content[n] == 0)
  }

  /** The hash is that length modulo 8. */
  lemma HashIsLength(content: Bytes, n: nat)
    requires TextLength(content, n)
    ensures Hash(content) == n % 8
  {
    FirstZero(content + [0], n);
  }

  /** Two keys compare equal exactly when their sizes and all their bytes agree. */
  lemma KeyCompareZero(a: Bytes, b: Bytes)
    ensures KeyCompare(Hash(a), a, Hash(b), b) == 0 <==> a == b
  {
    if |a| == |b| { MemCmpZero(a, b); }
  }

  /** Keys that differ only after a zero byte share a bucket and still compare unequal. */
  lemma EmbeddedZero(pre: Bytes, a: Bytes, b: Bytes)
    requires a != b
    ensures Hash(pre + [0] + a) == Hash(pre + [0] + b)
    ensures KeyCompare(Hash(pre + [0] + a), pre + [0] + a, Hash(pre + [0] + b), pre + [0] + b) != 0
  {
    ZeroInside(pre, a);
    ZeroInside(pre, b);
    var x, y := pre + [0] + a, pre + [0] + b;
    assert x != y by { assert x[|pre| + 1..] == a && y[|pre| + 1..] == b; }
    KeyCompareZero(x, y);
  }

  lemma {:induction false} ZeroInside(pre: Bytes, a: Bytes)
    ensures ZeroAt(pre + [0] + a + [0]) == ZeroAt(pre + [0])
  {
    if pre != [] && pre[0] != 0 {
      assert (pre + [0] + a + [0])[1..] == pre[1..] + [0] + a + [0];
      assert (pre + [0])[1..] == pre[1..] + [0];
      ZeroInside(pre[1..], a);
    }
  }

  // ----- Blobs

  class Blob {
    ghost const bid: BlobId
    const content: Bytes
    const prefix: Bytes
    var refcnt: nat

    /** blob_create: one reference, the caller's. */
    constructor (ghost bid: BlobId, bytes: Bytes)
      ensures this.bid == bid && content == bytes && prefix == bytes + [0] && refcnt == 1
    {
      this.bid, content, prefix := bid, bytes, bytes + [0];
      refcnt := 0;
      new;
      Ref();
    }

    /** blob_ref. */
    method Ref()
      modifies this`refcnt
      ensures refcnt == old(refcnt) + 1
    {
      refcnt := refcnt + 1;
    }

    /** blob_unref: only whoever holds a reference may drop it; the blob is freed when none is left. */
    method Unref() returns (freed: bool)
      requires refcnt > 0
      modifies this`refcnt
      ensures refcnt == old(refcnt) - 1
      ensures freed <==> old(refcnt) == 1
    {
      refcnt := refcnt - 1;
      freed := refcnt == 0;
    }

    /** blob_hash: strlen of the prefix, modulo the number of buckets. */
    method ComputeHash() returns (h: nat)
      requires prefix == content + [0]
      ensures h == Hash(content)
      ensures forall n: nat | TextLength(content, n) :: h == n % 8
    {
      var n := 0;
      while prefix[n] != 0
        invariant 0 <= n <= |content|
        invariant forall i | 0 <= i < n :: prefix[i] != 0
        decreases |content| - n
      {
        n := n + 1;
      }
      FirstZero(prefix, n);
      h := n % NUM_BUCKETS;
      forall m: nat | TextLength(content, m) ensures h == m % 8 {
        HashIsLength(content, m);
      }
    }
  }

  class StoredKey {
    const blob: Blob
    const hash: nat

    /** What the key is compared by. */
    function Content(): Bytes {
      blob.content
    }

    /** The hash is that of the content. */
    ghost predicate Hashed() {
      hash == Hash(blob.content)
    }

    /** key_create: the key inherits the caller's reference to the blob. */
    constructor (bp: Blob)
      requires bp.prefix == bp.content + [0]
      ensures blob == bp && Hashed()
      ensures forall n: nat | TextLength(bp.content, n) :: hash == n % 8
    {
      var h := bp.ComputeHash();
      blob, hash := bp, h;
    }

    /** key_dispose: the inherited reference is given back. */
    method Dispose() returns (freed: bool)
      requires blob.refcnt > 0
      modifies blob`refcnt
      ensures blob.refcnt == old(blob.refcnt) - 1 && (freed <==> old(blob.refcnt) == 1)
    {
      freed := blob.Unref();
    }

    /** key_compare. */
    method Compare(other: StoredKey) returns (r: int)
      requires Hashed() && other.Hashed()
      ensures r == 0 <==> blob.content == other.blob.content
    {
      KeyCompareZero(blob.content, other.blob.content);
      r := KeyCompare(hash, blob.content, other.hash, other.blob.content);
    }
  }

  lemma {:induction false} FirstZero(b: Bytes, n: nat)
    requires n < |b| && b[n] == 0 && forall i | 0 <= i < n :: b[i] != 0
    ensures ZeroAt(b) == n
  {
    if n > 0 {
      FirstZero(b[1..], n - 1);
    }
  }
}
