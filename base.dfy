/** Values shared by every part of the topology model: an optional value,
    the error values the Go package returns, and bytes. */
module Base {

  datatype Option<+T> = None | Some(value: T)

  function GetOr<K, V>(m: map<K, V>, k: K, default: V): V
  {
    if k in m then m[k] else default
  }

  /** One unsigned 8-bit value, Go's `byte`. */
  newtype byte = x: int | 0 <= x < 0x100

  /** Go's `string(b)` conversion for a byte slice: every byte becomes one
      character of the same code. */
  function BytesToString(b: seq<byte>): (s: string)
    ensures |s| == |b|
    ensures forall i :: 0 <= i < |b| ==> s[i] as int == b[i] as int
  {
    seq(|b|, i requires 0 <= i < |b| => (b[i] as int) as char)
  }

  /** SCSI peripheral device type codes the package handles. */
  const DiskType: int := 0
  const EnclosureType: int := 13

  /** The enclosure model whose serial number is not read from page 0x80
      (lib/enclosure.go). */
  const NoPg80Model: string := "SA4600"

  /** The errors of the Go package. Log messages are not modelled, only
      which error is returned. */
  datatype Error =
    | MalformedPath(path: string)          // updatePathVars: fewer than 8 path elements
    | UnknownType                          // ErrUnknownType of lib/error.go
    | UnknownSgType(id: int, devType: int) // errUnknownType of lib/sg.go
    | AttributeUnreadable(name: string)    // a sysfs attribute read failed
    | OpenFailed                           // os.Open failed
    | ReadFailed                           // a read failed with an error other than io.EOF
    | CloseFailed                          // file.Close failed
    | AtoiFailed(text: string)             // strconv.Atoi rejected its input
}
