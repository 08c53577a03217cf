/** Bytes, results and the few sequence facts that every other module uses. */
module Common {

  type Byte = x: int | 0 <= x < 256

  /** A Go string or []byte. */
  type Bytes = seq<Byte>

  type Int64 = x: int | -0x8000_0000_0000_0000 <= x < 0x8000_0000_0000_0000

  datatype Option<+T> = None | Some(value: T)

  /** The sentinel errors of the repository, plus one name for each failure of a library call. */
  datatype Error =
    | BlobNotFound
    | AttachmentNotFound
    | Unattachable
    | InvalidSignature
    | Expired
    | Integrity
    | ServiceNotFound
    | NotTransformable
    | NotEncodable   // a value outside the serializers' contract
    | BadInteger     // strconv.ParseInt
    | NoRandomness   // the RandomSource failed
    | BadOffset      // a negative offset
    | NoSuchFile     // os.ErrNotExist
    | BadPath        // a file where a directory is needed, or the reverse
    | ShortKey       // a key of fewer than four bytes: Go's slice expression panics

  datatype Result<+T> = Ok(value: T) | Err(error: Error)

  /** The bytes of an ASCII literal. */
  function Ascii(s: string): (b: Bytes)
    requires forall i :: 0 <= i < |s| ==> s[i] < 128 as char
    ensures |b| == |s|
    ensures forall i :: 0 <= i < |s| ==> b[i] == s[i] as int
  {
    seq(|s|, i requires 0 <= i < |s| => s[i] as int)
  }

  /** A lower-case hexadecimal digit. */
  function HexDigit(n: int): Byte
    requires 0 <= n < 16
  {
    if n < 10 then 48 + n else 87 + n
  }

  /** strings.Split(s, sep) for a one-byte separator. */
  function Split(s: Bytes, sep: Byte): (parts: seq<Bytes>)
    ensures parts != []
  {
    if s == [] then [[]]
    else
      var parts := Split(s[1..], sep);
      if s[0] == sep then [[]] + parts else [[s[0]] + parts[0]] + parts[1..]
  }

  lemma {:induction false} SplitFirst(a: Bytes, s: Bytes, sep: Byte)
    requires sep !in a
    ensures Split(a + [sep] + s, sep) == [a] + Split(s, sep)
  {
    if a == [] {
      assert (a + [sep] + s)[1..] == s;
    } else {
      assert (a + [sep] + s)[1..] == a[1..] + [sep] + s;
      SplitFirst(a[1..], s, sep);
      assert a == [a[0]] + a[1..];
    }
  }

  lemma {:induction false} SplitWhole(a: Bytes, sep: Byte)
    requires sep !in a
    ensures Split(a, sep) == [a]
  {
    if a != [] {
      SplitWhole(a[1..], sep);
      assert a == [a[0]] + a[1..];
    }
  }

  function Join(parts: seq<Bytes>, sep: Byte): Bytes {
    if parts == [] then [] else if |parts| == 1 then parts[0] else parts[0] + ([sep] + Join(parts[1..], sep))
  }

  /** The parts hold no separator, and joining them gives the text back. */
  lemma {:induction false} SplitParts(s: Bytes, sep: Byte)
    ensures Join(Split(s, sep), sep) == s && forall i :: 0 <= i < |Split(s, sep)| ==> sep !in Split(s, sep)[i]
  {
    if s != [] {
      var parts := Split(s[1..], sep);
      SplitParts(s[1..], sep);
      if s[0] == sep {
        assert ([[]] + parts)[1..] == parts;
      } else {
        var all := [[s[0]] + parts[0]] + parts[1..];
        assert all[1..] == parts[1..];
        assert forall i :: 1 <= i < |all| ==> all[i] == parts[i];
        if |parts| > 1 {
          Assoc([s[0]], parts[0], [sep] + Join(parts[1..], sep));
        }
      }
    }
  }

  /** bytes.Buffer, as far as the serializers use it. */
  class Buffer {
    var data: Bytes

    constructor ()
      ensures data == []
    {
      data := [];
    }

    method WriteByte(c: Byte)
      modifies this
      ensures data == old(data) + [c]
    {
      data := data + [c];
    }

    method WriteString(s: Bytes)
      modifies this
      ensures data == old(data) + s
    {
      data := data + s;
    }
  }

  lemma TakeDrop<T>(a: seq<T>, b: seq<T>)
    ensures (a + b)[..|a|] == a && (a + b)[|a|..] == b
  {
  }

  /** A tagged, length-prefixed text in front of `rest`. */
  lemma Tagged<T>(tag: T, a: seq<T>, b: seq<T>, rest: seq<T>)
    ensures var s := [tag] + a + b + rest; |s| > 0 && s[0] == tag && s[1..] == a + (b + rest)
  {
  }

  lemma Assoc<T>(a: seq<T>, b: seq<T>, c: seq<T>)
    ensures (a + b) + c == a + (b + c)
  {
  }
}
