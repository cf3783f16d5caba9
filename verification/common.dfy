/** Basic types shared by every component: bytes, the Rust integer widths the
    core uses, and the failure-compatible Option/Result wrappers. */
module Common {

  /** One octet, the element type of every wire format in this core. */
  type Byte = b: int | 0 <= b < 256

  /** Rust's `i64`. */
  const I64_MIN: int := -0x8000_0000_0000_0000
  const I64_MAX: int := 0x7FFF_FFFF_FFFF_FFFF
  type I64 = n: int | I64_MIN <= n <= I64_MAX

  /** Rust's `usize` on a 64-bit target. */
  const USIZE_MAX: int := 0xFFFF_FFFF_FFFF_FFFF

  /** Rust's `isize::MAX`: no allocation, and so no `Vec<u8>`, is larger. */
  const ISIZE_MAX: int := 0x7FFF_FFFF_FFFF_FFFF

  /** A byte string as Rust holds it in a `Vec<u8>`: raw bytes, not
      necessarily UTF-8, at most `isize::MAX` of them. */
  type ByteString = s: seq<Byte> | |s| <= ISIZE_MAX

  /** Rust's `[u8; 20]`: SHA-1 digests and peer ids. */
  type Bytes20 = s: seq<Byte> | |s| == 20 witness Zeros(20)

  /** Rust's `u16`, used for ports. */
  type U16 = n: int | 0 <= n < 0x1_0000

  datatype Option<+T> = None | Some(value: T) {
    predicate IsFailure() {
      None?
    }

    function PropagateFailure<U>(): Option<U>
      requires None?
    {
      None
    }

    function Extract(): T
      requires Some?
    {
      value
    }

    function GetOr(default: T): T {
      match this
      case Some(v) => v
      case None => default
    }
  }

  datatype Result<+T, +E> = Ok(value: T) | Err(error: E) {
    predicate IsFailure() {
      Err?
    }

    function PropagateFailure<U>(): Result<U, E>
      requires Err?
    {
      Err(error)
    }

    function Extract(): T
      requires Ok?
    {
      value
    }
  }

  /** `n` zero bytes. */
  function Zeros(n: nat): (r: seq<Byte>)
    ensures |r| == n
    ensures forall i :: 0 <= i < n ==> r[i] == 0
  {
    seq(n, _ => 0)
  }

  /** Concatenation of a sequence of byte strings. */
  function Flatten(chunks: seq<seq<Byte>>): seq<Byte>
  {
    if |chunks| == 0 then [] else chunks[0] + Flatten(chunks[1..])
  }

  lemma {:induction false} FlattenAppend(a: seq<seq<Byte>>, b: seq<seq<Byte>>)
    ensures Flatten(a + b) == Flatten(a) + Flatten(b)
  {
    if |a| == 0 {
      assert a + b == b;
    } else {
      assert (a + b)[1..] == a[1..] + b;
      FlattenAppend(a[1..], b);
    }
  }
}
