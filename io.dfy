/** The I/O side of the codec: the error kinds it reports and the byte source
    the stream decoder reads from. */
module Io {
  import opened Bytes

  /** The `std::io::ErrorKind`s the codec produces, plus the failure a cipher
      reports when a tag does not authenticate. */
  datatype ErrorKind = UnexpectedEof | InvalidData | AeadDecryptFailed

  datatype Result<+T> = Ok(value: T) | Err(error: ErrorKind)

  /** How many bytes `read_exact(n)` takes from a source holding `rest`:
      exactly `n` when there are enough, otherwise all of them. */
  function Taken(rest: Bytes, n: nat): (m: nat)
    ensures m <= |rest| && m <= n
    ensures m == n <==> n <= |rest|
  {
    if n <= |rest| then n else |rest|
  }

  /** The buffer after `read_exact` into its first `n` bytes: the bytes taken
      from `rest` at the front, the rest of the buffer as it was. */
  function FilledBuffer(buf: seq<byte>, rest: Bytes, n: nat): (r: seq<byte>)
    requires n <= |buf|
    ensures |r| == |buf|
    ensures r[..Taken(rest, n)] == rest[..Taken(rest, n)]
    ensures r[Taken(rest, n)..] == buf[Taken(rest, n)..]
  {
    var m := Taken(rest, n);
    rest[..m] + buf[m..]
  }

  /** A finite byte source consumed from the front, standing for the
      `AsyncRead` the stream decoder is given. */
  class ByteSource {
    const data: Bytes
    var pos: nat

    ghost predicate Valid()
      reads this
    {
      pos <= |data|
    }

    /** The bytes not yet read. */
    function Remaining(): (r: Bytes)
      reads this
      requires Valid()
    {
      data[pos..]
    }

    constructor (data: Bytes)
      ensures Valid() && this.data == data && pos == 0
    {
      this.data := data;
      pos := 0;
    }

    /** `read_exact` into `buf[..n]`: with at least `n` bytes left it takes
        exactly `n`; otherwise it takes what is left, stores it at the front
        of `buf` and fails with UnexpectedEof. */
    method ReadExact(buf: array<byte>, n: nat) returns (r: Result<()>)
      requires Valid() && n <= buf.Length
      modifies this, buf
      ensures Valid()
      ensures r == if n <= |old(Remaining())| then Ok(()) else Err(UnexpectedEof)
      ensures pos == old(pos) + Taken(old(Remaining()), n)
      ensures buf[..] == FilledBuffer(old(buf[..]), old(Remaining()), n)
    {
      var m := Taken(data[pos..], n);
      forall i | 0 <= i < m {
        buf[i] := data[pos + i];
      }
      pos := pos + m;
      r := if m == n then Ok(()) else Err(UnexpectedEof);
    }
  }
}
