/** Outcomes of the canister's operations. A trap aborts the whole message and
    rolls back every state change it made; a guard rejection never starts it. */
module Outcomes {

  /** Why a call did not produce a value. */
  datatype Fault =
    | Unauthorized           // the `is_authorized` guard rejected the caller
    | RandomnessUnavailable  // the `raw_rand` call of `select` failed
    | MaxHistoryExceeded     // a re-add of a juror whose history already has MAX_HISTORY entries
    | AmountExceedsPool      // `sample` asked for more indices than the pool has
    | EmptyPool              // `Uniform::new(0, 0)` panics: the pool is empty
    | MissingSeed            // `expand` of a block whose `rand` is None
    | MalformedSeed          // a seed that is not 32 bytes (`raw_rand` output, or `rand` in `expand`)
    | BlockOutOfRange        // `get_block` beyond the pending batch
    | SliceOutOfRange        // a slice `v[a..b]` with a > b or b > |v|
    | CertificatePathMissing // the certificate has no certified_data for this canister
    | CertifiedDataMismatch  // the certificate certifies a different root
    | PrincipalNotFound      // `deauthorize` of a principal that is not in AUTH

  datatype Result<+T> = Ok(value: T) | Err(fault: Fault)

  datatype Option<+T> = None | Some(value: T)
}
