/** The page-length arithmetic, of which the repository has several copies in 64-bit words. */
module Paging {
  import opened Bytes
  import opened Evidence

  // Subtraction as Go computes it on uint64.
  function WrappingSub(a: uint64, b: uint64): uint64 {
    if a >= b then a - b else ((a as int - b as int) + 0x1_0000_0000_0000_0000) as uint64
  }

  // The daemon's: subtract first, and mend the wrapped difference.
  function ServerLength(total: uint64, offset: uint64, limit: uint64): uint64 {
    var wrapped := WrappingSub(total, offset);
    var length := if offset >= total then 0 else wrapped;
    if limit != 0 && limit < length then limit else length
  }

  // The client's: subtract only when there is something to read.
  function ClientExpected(total: uint64, offset: uint64, limit: uint64): uint64 {
    var expected := if offset < total then total - offset else 0;
    if limit != 0 && limit < expected then limit else expected
  }

  // The store's: return early past the end.
  function StoreRemaining(total: uint64, offset: uint64, limit: uint64): uint64 {
    if offset >= total then 0
    else
      var remaining := total - offset;
      if limit != 0 && limit < remaining then limit else remaining
  }

  // The three lengths are one, for all 64-bit words, although one of them is computed by wrapping around.
  lemma LengthsAgree(total: uint64, offset: uint64, limit: uint64)
    ensures ServerLength(total, offset, limit) == ClientExpected(total, offset, limit)
    ensures ServerLength(total, offset, limit) == StoreRemaining(total, offset, limit)
    ensures ServerLength(total, offset, limit) as nat == PageLength(total as nat, offset as nat, limit as nat)
  {
    assert offset < total ==> WrappingSub(total, offset) == total - offset;
  }
}
