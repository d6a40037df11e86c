/** Reading the bootstrap token: the growing and trimming buffer of src/enroll.c. */
module Token {
  import opened Wrappers
  import opened Text

  const FIRST_CAP: nat := 256

  /** The read loop: bytes go into a buffer that doubles whenever one more byte and a terminator
      would not fit. */
  method ReadAll(file: string) returns (buf: array<char>, len: nat)
    ensures len == |file| && len < buf.Length && buf[..len] == file
    ensures buf.Length <= 256 || buf.Length <= 2 * |file|
    ensures fresh(buf)
  {
    buf, len := new char[FIRST_CAP](_ => '\0'), 0;
    while len < |file|
      invariant len <= |file| && len < buf.Length && fresh(buf)
      invariant forall i :: 0 <= i < len ==> buf[i] == file[i]
      invariant buf.Length <= FIRST_CAP || buf.Length <= 2 * len
    {
      if len + 1 >= buf.Length {
        var bigger := new char[buf.Length * 2](_ => '\0');
        forall i | 0 <= i < len { bigger[i] := buf[i]; }
        buf := bigger;
      }
      buf[len] := file[len];
      len := len + 1;
    }
  }

  /** The core of a buffer: everything between its first and last character that is not whitespace. */
  method FindCore(buf: array<char>, len: nat) returns (start: nat, end: nat)
    requires len <= buf.Length
    ensures start <= end <= len && buf[start..end] == Trim(buf[..len])
  {
    ghost var file := buf[..len];
    end := len;
    while end > 0 && IsSpace(buf[end - 1])
      invariant 0 <= end <= len
      invariant forall i :: end <= i < len ==> IsSpace(file[i])
    {
      end := end - 1;
    }
    start := 0;
    while start < end && IsSpace(buf[start])
      invariant 0 <= start <= end
      invariant forall i :: 0 <= i < start ==> IsSpace(file[i])
    {
      start := start + 1;
    }
    TrimIs(file, start, end);
  }

  /** `read_token_file` after opening, with reads and allocations succeeding: the bytes of the file
      without the whitespace at both ends, and a failure exactly if nothing is left. */
  method ReadToken(file: string) returns (token: Option<string>)
    ensures token == if Trim(file) == "" then None else Some(Trim(file))
  {
    var buf, len := ReadAll(file);
    var start, end := FindCore(buf, len);
    ghost var core := buf[start..end];
    len := end;
    if 0 < start < end {
      var moved := buf[start..end]; // memmove
      forall i | 0 <= i < end - start { buf[i] := moved[i]; }
      len := end - start;
    } else if start >= end {
      len := 0;
    }
    buf[len] := '\0';
    assert buf[..len] == core;
    if len == 0 { return None; }
    return Some(buf[..len]);
  }
}
