/** Small value types shared by the whole model. */
module Common {

  /** One octet on the wire or in a pipe. */
  newtype byte = b: int | 0 <= b < 256

  datatype Option<+T> = None | Some(value: T)

  datatype Result<+T, +E> = Ok(value: T) | Err(error: E)

  /** The bytes of a text whose characters are all 7-bit ASCII. */
  predicate IsAsciiText(t: string) {
    forall i :: 0 <= i < |t| ==> t[i] as int < 128
  }

  predicate IsAsciiBytes(b: seq<byte>) {
    forall i :: 0 <= i < |b| ==> b[i] < 128
  }

  /** Encodes an ASCII text byte for byte (Python's `str.encode('ascii')`). */
  function Ascii(t: string): (b: seq<byte>)
    requires IsAsciiText(t)
    ensures |b| == |t| && IsAsciiBytes(b)
    ensures forall i :: 0 <= i < |t| ==> b[i] as int == t[i] as int
  {
    if t == [] then [] else Ascii(t[..|t| - 1]) + [t[|t| - 1] as int as byte]
  }

  /** Decodes ASCII bytes character for character (Python's `bytes.decode('ascii')`). */
  function AsciiText(b: seq<byte>): (t: string)
    requires IsAsciiBytes(b)
    ensures |t| == |b| && IsAsciiText(t)
    ensures forall i :: 0 <= i < |b| ==> t[i] as int == b[i] as int
  {
    if b == [] then [] else AsciiText(b[..|b| - 1]) + [b[|b| - 1] as int as char]
  }

  lemma AsciiRoundTrip(t: string)
    requires IsAsciiText(t)
    ensures AsciiText(Ascii(t)) == t
  {
    var b := Ascii(t);
    var u := AsciiText(b);
    assert forall i :: 0 <= i < |t| ==> u[i] as int == t[i] as int;
    assert forall i :: 0 <= i < |t| ==> u[i] == t[i];
  }

  /** ASCII text followed by ASCII text is ASCII text. */
  lemma AsciiConcat(s: string, t: string)
    requires IsAsciiText(s) && IsAsciiText(t)
    ensures IsAsciiText(s + t)
  {
    forall i | 0 <= i < |s + t| ensures (s + t)[i] as int < 128 {
      if i < |s| { assert (s + t)[i] == s[i]; } else { assert (s + t)[i] == t[i - |s|]; }
    }
  }

  /** Encoding two ASCII texts one after the other is encoding them joined. */
  lemma AsciiAppend(s: string, t: string)
    requires IsAsciiText(s) && IsAsciiText(t)
    ensures IsAsciiText(s + t) && Ascii(s + t) == Ascii(s) + Ascii(t)
  {
    AsciiConcat(s, t);
    assert forall i :: 0 <= i < |s + t| ==> Ascii(s + t)[i] == (Ascii(s) + Ascii(t))[i] by {
      forall i | 0 <= i < |s + t| ensures Ascii(s + t)[i] == (Ascii(s) + Ascii(t))[i] {
        if i < |s| { assert (s + t)[i] == s[i]; } else { assert (s + t)[i] == t[i - |s|]; }
      }
    }
  }
}
