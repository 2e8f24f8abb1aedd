/**
 Values shared by every contract model: ledger identities, machine-integer
 bounds, and the outcome types that stand for the contracts' typed errors.
 */
module Base {

  type u64 = n: nat | n <= 0xffff_ffff_ffff_ffff

  type byte = b: nat | b < 256

  /** A Stellar account or contract address. */
  datatype Address = Address(id: nat)

  /** A 32-byte content hash that names a schema or an attestation. */
  datatype Uid = Uid(id: nat)

  /** The all-zero hash, which `ref_uid` uses for "no reference". */
  const ZERO_UID := Uid(0)

  const U32_MAX: nat := 0xffff_ffff
  const U64_MAX: nat := 0xffff_ffff_ffff_ffff

  datatype Option<+T> = None | Some(value: T) {
    function GetOr(default: T): T {
      match this
      case Some(v) => v
      case None => default
    }
  }

  /** `Err` stands for a panic: the host then discards every write of the call. */
  datatype Result<+T, +E> = Ok(value: T) | Err(error: E)

  function ErrorOf<T, E>(r: Result<T, E>): Option<E> {
    if r.Err? then Some(r.error) else None
  }

  /** One line of a list of faults. */
  function When<E>(fault: bool, e: E): Option<E> {
    if fault then Some(e) else None
  }

  /** The first fault of a list. */
  function Or<E>(a: Option<E>, b: Option<E>): Option<E> {
    if a.Some? then a else b
  }

  function Min(a: int, b: int): int {
    if a <= b then a else b
  }

  function Max(a: int, b: int): int {
    if a <= b then b else a
  }

  /** Rust's `saturating_add` on an unsigned integer with the given maximum. */
  function SatAdd(a: nat, b: nat, max: nat): nat {
    Min(a + b, max)
  }

  function Get<K, V>(m: map<K, V>, k: K): Option<V> {
    if k in m then Some(m[k]) else None
  }

  lemma Assoc<T>(a: seq<T>, b: seq<T>, c: seq<T>)
    ensures a + (b + c) == (a + b) + c
  {}

  predicate Distinct<T(==)>(s: seq<T>) {
    forall i, j :: 0 <= i < j < |s| ==> s[i] != s[j]
  }
}
