/** lib/vpd.go: reading the product serial number from the Unit Serial
    Number VPD page (page 0x80, section 7.6.10 of T10 SPC-3). Bytes 0-3 of
    the page are its header; the serial number starts at byte 4. */
module Vpd {
  import opened Base
  import opened Util

  /** What opening and reading the device's `vpd_pg80` attribute file gives:
      the open fails, a read fails with an error other than io.EOF, or the
      file's full contents. */
  datatype Pg80File = Unopenable | Unreadable | Pg80(data: seq<byte>)

  const PageHeaderLength: nat := 4
  const BufferLength: nat := 128

  /** The bytes `ReadAt(line, 4)` places in the 128-byte buffer: up to 128
      bytes starting at offset 4, fewer (io.EOF) when the file is shorter. */
  function Window(data: seq<byte>): (w: seq<byte>)
    ensures |w| <= BufferLength
    ensures |data| >= PageHeaderLength + BufferLength ==> |w| == BufferLength
    ensures |w| == 0 || PageHeaderLength + |w| <= |data|
    ensures forall i :: 0 <= i < |w| ==> w[i] == data[PageHeaderLength + i]
  {
    if |data| <= PageHeaderLength then []
    else if |data| >= PageHeaderLength + BufferLength then data[PageHeaderLength..PageHeaderLength + BufferLength]
    else data[PageHeaderLength..]
  }

  /** `line[start:stop]` for the trim points of `line`. */
  function Trimmed(line: seq<byte>): (r: seq<byte>)
    ensures |r| <= |line|
    ensures r != [] ==> !IsPad(r[0]) && !IsPad(r[|r| - 1])
    ensures r == [] <==> AllPad(line)
  {
    TrimPointsFacts(line);
    line[TrimStart(line)..TrimStop(line)]
  }

  /** The serial number `vpd80` extracts from the page contents `data`. */
  function Pg80Serial(data: seq<byte>): (serial: string)
    ensures |serial| <= BufferLength
    ensures serial != "" ==> serial[0] as int !in {0x00, 0x20} && serial[|serial| - 1] as int !in {0x00, 0x20}
  {
    BytesToString(Trimmed(Window(data)))
  }

  /** `vpd80`: open the page, read up to 128 bytes at offset 4 into a fresh
      buffer, and return those bytes with leading and trailing 0x00/0x20
      removed. */
  method Vpd80(file: Pg80File) returns (serial: string, err: Option<Error>)
    ensures file.Unopenable? ==> serial == "" && err == Some(OpenFailed)
    ensures file.Unreadable? ==> serial == "" && err == Some(ReadFailed)
    ensures file.Pg80? ==> err == None && serial == Pg80Serial(file.data)
    ensures file.Pg80? && |file.data| <= PageHeaderLength ==> serial == ""
    ensures |serial| <= BufferLength
  {
    if file.Unopenable? {
      return "", Some(OpenFailed);
    }
    if file.Unreadable? {
      return "", Some(ReadFailed);
    }
    var data := file.data;
    var line := new byte[BufferLength];
    // ReadAt(line, 4): copy what the file holds after the page header.
    var n := 0;
    while n < BufferLength && PageHeaderLength + n < |data|
      invariant 0 <= n <= BufferLength
      invariant PageHeaderLength + n <= |data| || n == 0
      invariant forall i :: 0 <= i < n ==> line[i] == data[PageHeaderLength + i]
    {
      line[n] := data[PageHeaderLength + n];
      n := n + 1;
    }
    ghost var w := Window(data);
    assert |w| == n;
    assert line[..n] == w;
    if n == 0 {
      return "", None;
    }
    var read := line[..n];
    var start, stop := TrimPoints(read);
    serial := BytesToString(read[start..stop]);
    err := None;
  }
}
