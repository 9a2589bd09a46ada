/** Shared value types: optional values, results with the system's error kinds,
    identifiers, bytes and the fault parameters that stand for failing I/O. */
module Values {

  datatype Option<+T> = None | Some(value: T)

  /** Error kinds. The first two are what the relational and the object store
      report; the others are the repository's own `ImageError` variants and the
      legacy repository's ad-hoc errors. */
  datatype Error =
    | DbError             // an SQL statement failed
    | S3Error             // an object-store call failed
    | QueryFailure
    | S3OperationFailure
    | ReadFailure
    | SlicePanic          // `objects[start..end]` with start > end aborts the request
    | BadId               // the id text is not a UUID
    | Failed(reason: string)

  datatype Result<+T> = Ok(value: T) | Err(error: Error)

  /** Which statement of a multi-statement operation fails (1-based), if any. */
  datatype Fault = NoFault | FailAt(step: nat)

  predicate FailsAt(f: Fault, k: nat)
  {
    f == FailAt(k)
  }

  /** A UUID, in its hyphenated text form. */
  type Uuid = string

  /** An object-store revision id, as stored in `image_version.version`. */
  type Token = string

  newtype byte = x: int | 0 <= x < 256

  const U32_LIMIT: int := 0x1_0000_0000

  newtype u32 = x: int | 0 <= x < 0x1_0000_0000

  newtype u64 = x: int | 0 <= x < 0x1_0000_0000_0000_0000

  /** Rust's `x as i32` on a `u32`: the two's-complement reinterpretation. */
  function AsI32(x: u32): (r: int)
    ensures -0x8000_0000 <= r < 0x8000_0000
    ensures r % U32_LIMIT == x as int % U32_LIMIT
    ensures x < 0x8000_0000 <==> r == x as int
  {
    if x < 0x8000_0000 then x as int else x as int - U32_LIMIT
  }

  /** Rust's `x as i64` on a 64-bit `usize`. */
  function AsI64(x: u64): (r: int)
    ensures -0x8000_0000_0000_0000 <= r < 0x8000_0000_0000_0000
    ensures r % 0x1_0000_0000_0000_0000 == x as int % 0x1_0000_0000_0000_0000
    ensures x < 0x8000_0000_0000_0000 <==> r == x as int
  {
    if x < 0x8000_0000_0000_0000 then x as int else x as int - 0x1_0000_0000_0000_0000
  }
}
