/** The Base Protocol framing of the Debug Adapter Protocol as the adapter
    implements it: a block of `Name: value` header lines closed by a blank
    line, then exactly `Content-Length` bytes of body. `ReadMessage` is the
    adapter's `read`; `Frame` is the byte image `writer_thread` produces. */
module Framing {
  import opened Common

  const LF: byte := 10
  const CR: byte := 13
  const ContentLength: string := "Content-Length"

  /** The bytes that Python 2's `str.strip()` removes: TAB, LF, VT, FF, CR and space. */
  predicate IsStripSpace(b: byte) {
    b == 32 || 9 <= b <= 13
  }

  /** The same set, as characters. */
  predicate IsStripSpaceChar(c: char) {
    c == ' ' || 9 <= c as int <= 13
  }

  // ---------------------------------------------------------------------
  // Lines, as `readline()` delivers them
  // ---------------------------------------------------------------------

  /** How many bytes one `readline()` takes from `s`: up to and including
      the first LF, or everything when there is no LF. */
  function LineLength(s: seq<byte>): (n: nat)
    ensures n <= |s|
    ensures (n == 0) == (s == [])
    ensures forall i :: 0 <= i < n - 1 ==> s[i] != LF
    ensures 0 < n < |s| ==> s[n - 1] == LF
  {
    if s == [] then 0
    else if s[0] == LF then 1
    else 1 + LineLength(s[1..])
  }

  /** The next line `readline()` returns from `s`. */
  function NextLine(s: seq<byte>): seq<byte> {
    s[..LineLength(s)]
  }

  /** The successive lines `readline()` returns until it returns nothing:
      each is non-empty, holds no LF before its end, and all but the last
      end in LF. */
  function Lines(s: seq<byte>): (ls: seq<seq<byte>>)
    decreases |s|
    ensures forall k :: 0 <= k < |ls| ==> IsLine(ls[k])
    ensures forall k :: 0 <= k < |ls| - 1 ==> EndsInLF(ls[k])
  {
    if s == [] then []
    else
      var n := LineLength(s);
      var tail := Lines(s[n..]);
      assert tail != [] ==> n < |s|;
      [s[..n]] + tail
  }

  predicate IsLine(l: seq<byte>) {
    l != [] && forall i :: 0 <= i < |l| - 1 ==> l[i] != LF
  }

  predicate EndsInLF(l: seq<byte>) {
    l != [] && l[|l| - 1] == LF
  }

  function Flatten(ls: seq<seq<byte>>): seq<byte> {
    if ls == [] then [] else ls[0] + Flatten(ls[1..])
  }

  /** Reading a stream line by line loses nothing and invents nothing: put
      back together, the lines are the stream. */
  lemma {:induction false} LinesPartition(s: seq<byte>)
    ensures Flatten(Lines(s)) == s
    decreases |s|
  {
    if s != [] {
      var n := LineLength(s);
      var tail := Lines(s[n..]);
      LinesPartition(s[n..]);
      var ls := Lines(s);
      assert ls == [s[..n]] + tail;
      assert ls[1..] == tail;
      calc {
        Flatten(ls);
        ls[0] + Flatten(ls[1..]);
        s[..n] + Flatten(tail);
        s[..n] + s[n..];
        s;
      }
    }
  }

  /** A byte stream being consumed: `data` is everything the peer will ever
      send, `pos` how much of it has been read. */
  class ByteStream {
    const data: seq<byte>
    var pos: nat

    ghost predicate Valid()
      reads this
    {
      pos <= |data|
    }

    /** What is still unread. */
    ghost function Remaining(): seq<byte>
      reads this
      requires Valid()
    {
      data[pos..]
    }

    constructor (data: seq<byte>)
      ensures Valid() && this.data == data && pos == 0
    {
      this.data := data;
      pos := 0;
    }

    /** `readline()`: the bytes through the next LF, or the rest of the
        stream; empty exactly at the end of the stream. */
    method ReadLine() returns (line: seq<byte>)
      requires Valid()
      modifies this
      ensures Valid()
      ensures line == NextLine(old(Remaining()))
      ensures pos == old(pos) + |line| && line == data[old(pos)..pos]
    {
      var i := pos;
      while i < |data| && data[i] != LF
        invariant pos <= i <= |data|
        invariant forall k :: pos <= k < i ==> data[k] != LF
      {
        i := i + 1;
      }
      ghost var rest := data[pos..];
      assert forall k :: 0 <= k < i - pos ==> rest[k] != LF;
      if i < |data| {
        i := i + 1;
      }
      line := data[pos..i];
      pos := i;
    }

    /** `read(size)`: up to `size` bytes, all the rest when `size` is negative. */
    method Read(size: int) returns (chunk: seq<byte>)
      requires Valid()
      modifies this
      ensures Valid()
      ensures chunk == Take(old(Remaining()), size)
      ensures pos == old(pos) + |chunk|
    {
      if size < 0 || |data| - pos <= size {
        chunk := data[pos..];
        pos := |data|;
      } else {
        chunk := data[pos..pos + size];
        pos := pos + size;
      }
    }
  }

  /** What a blocking `read(n)` delivers from `s`. */
  function Take(s: seq<byte>, n: int): (r: seq<byte>)
    ensures |r| == if 0 <= n <= |s| then n else |s|
    ensures r == s[..|r|]
  {
    if n < 0 || |s| <= n then s else s[..n]
  }

  // ---------------------------------------------------------------------
  // Stripping and splitting header lines
  // ---------------------------------------------------------------------

  /** `strip()` on the left: the leading whitespace bytes go. */
  function TrimStart(s: seq<byte>): seq<byte> {
    if s != [] && IsStripSpace(s[0]) then TrimStart(s[1..]) else s
  }

  /** `strip()` on the right: the trailing whitespace bytes go. */
  function TrimEnd(s: seq<byte>): seq<byte> {
    if s != [] && IsStripSpace(s[|s| - 1]) then TrimEnd(s[..|s| - 1]) else s
  }

  /** What the left strip drops is a run of whitespace, and all of it: the
      rest does not start with whitespace. */
  lemma {:induction false} TrimStartRun(s: seq<byte>)
    ensures var t := TrimStart(s);
            && |t| <= |s| && t == s[|s| - |t|..]
            && (t != [] ==> !IsStripSpace(t[0]))
            && (forall i :: 0 <= i < |s| - |t| ==> IsStripSpace(s[i]))
    decreases |s|
  {
    if s != [] && IsStripSpace(s[0]) {
      TrimStartRun(s[1..]);
      var t := TrimStart(s[1..]);
      assert s[1..][|s| - 1 - |t|..] == s[|s| - |t|..];
      forall i | 0 <= i < |s| - |t| ensures IsStripSpace(s[i]) {
        if i > 0 { assert s[i] == s[1..][i - 1]; }
      }
    }
  }

  /** What the right strip drops is a run of whitespace, and all of it: the
      rest does not end with whitespace. */
  lemma {:induction false} TrimEndRun(s: seq<byte>)
    ensures var t := TrimEnd(s);
            && |t| <= |s| && t == s[..|t|]
            && (t != [] ==> !IsStripSpace(t[|t| - 1]))
            && (forall i :: |t| <= i < |s| ==> IsStripSpace(s[i]))
    decreases |s|
  {
    if s != [] && IsStripSpace(s[|s| - 1]) {
      TrimEndRun(s[..|s| - 1]);
      var t := TrimEnd(s[..|s| - 1]);
      assert s[..|s| - 1][..|t|] == s[..|t|];
      forall i | |t| <= i < |s| ensures IsStripSpace(s[i]) {
        if i < |s| - 1 { assert s[i] == s[..|s| - 1][i]; }
      }
    }
  }

  /** `line.strip()` */
  function Strip(s: seq<byte>): seq<byte> {
    TrimEnd(TrimStart(s))
  }

  /** Stripping leaves a line alone when its ends are not blank, and drops a
      blank tail such as CR LF. */
  lemma StripKeepsCore(x: seq<byte>, tail: seq<byte>)
    requires x != [] && !IsStripSpace(x[0]) && !IsStripSpace(x[|x| - 1])
    requires forall i :: 0 <= i < |tail| ==> IsStripSpace(tail[i])
    ensures Strip(x + tail) == x
  {
    assert TrimStart(x + tail) == x + tail;
    TrimBlankTail(x, tail);
  }

  lemma {:induction false} TrimBlankTail(x: seq<byte>, tail: seq<byte>)
    requires x != [] && !IsStripSpace(x[|x| - 1])
    requires forall i :: 0 <= i < |tail| ==> IsStripSpace(tail[i])
    ensures TrimEnd(x + tail) == x
    decreases |tail|
  {
    if tail == [] {
      assert x + tail == x;
    } else {
      var shorter := tail[..|tail| - 1];
      assert (x + tail)[..|x + tail| - 1] == x + shorter;
      assert IsStripSpace((x + tail)[|x + tail| - 1]);
      TrimBlankTail(x, shorter);
    }
  }

  predicate IsSeparatorAt(t: string, j: int) {
    0 <= j && j + 1 < |t| && t[j] == ':' && t[j + 1] == ' '
  }

  /** Where `line.split(': ', 1)` cuts: the FIRST `": "` at or after `k`. */
  function SeparatorFrom(t: string, k: nat): (r: Option<nat>)
    decreases |t| - k
    ensures r.Some? ==> k <= r.value && IsSeparatorAt(t, r.value)
    ensures r.Some? ==> forall j :: k <= j < r.value ==> !IsSeparatorAt(t, j)
    ensures r.None? ==> forall j :: k <= j ==> !IsSeparatorAt(t, j)
  {
    if |t| <= k + 1 then None
    else if t[k] == ':' && t[k + 1] == ' ' then Some(k)
    else SeparatorFrom(t, k + 1)
  }

  // ---------------------------------------------------------------------
  // Content-Length values: Python's int() and '%s' on a non-negative int
  // ---------------------------------------------------------------------

  predicate IsDigit(c: char) {
    '0' <= c <= '9'
  }

  predicate AllDigits(ds: string) {
    forall i :: 0 <= i < |ds| ==> IsDigit(ds[i])
  }

  /** The whitespace `int()` ignores around a number. */
  predicate IsIntSpace(c: char) {
    c == ' ' || 9 <= c as int <= 13 || 28 <= c as int <= 31
  }

  /** The blanks `int()` skips before a number. */
  function TrimTextStart(t: string): string {
    if t != [] && IsIntSpace(t[0]) then TrimTextStart(t[1..]) else t
  }

  /** The blanks `int()` skips after a number. */
  function TrimTextEnd(t: string): string {
    if t != [] && IsIntSpace(t[|t| - 1]) then TrimTextEnd(t[..|t| - 1]) else t
  }

  /** What is left after the leading blanks is a suffix that does not start
      with a blank. */
  lemma {:induction false} TrimTextStartSuffix(t: string)
    ensures var r := TrimTextStart(t);
            |r| <= |t| && r == t[|t| - |r|..] && (r != [] ==> !IsIntSpace(r[0]))
    decreases |t|
  {
    if t != [] && IsIntSpace(t[0]) {
      TrimTextStartSuffix(t[1..]);
      var r := TrimTextStart(t[1..]);
      assert t[1..][|t| - 1 - |r|..] == t[|t| - |r|..];
    }
  }

  /** What is left after the trailing blanks is a prefix that does not end
      with a blank. */
  lemma {:induction false} TrimTextEndPrefix(t: string)
    ensures var r := TrimTextEnd(t);
            |r| <= |t| && r == t[..|r|] && (r != [] ==> !IsIntSpace(r[|r| - 1]))
    decreases |t|
  {
    if t != [] && IsIntSpace(t[|t| - 1]) {
      TrimTextEndPrefix(t[..|t| - 1]);
      var r := TrimTextEnd(t[..|t| - 1]);
      assert t[..|t| - 1][..|r|] == t[..|r|];
    }
  }

  function DigitsValue(ds: string): nat
    requires AllDigits(ds)
  {
    if ds == [] then 0
    else
      assert IsDigit(ds[|ds| - 1]);
      10 * DigitsValue(ds[..|ds| - 1]) + (ds[|ds| - 1] as int - '0' as int)
  }

  /** `int(value)`: optional blanks, an optional sign, optional blanks, at
      least one decimal digit, optional blanks; anything else is a
      ValueError (None). The blanks after the sign are skipped because the
      sign is read before the digit conversion, which skips blanks itself. */
  function ParseInt(v: string): (r: Option<int>)
    ensures v != [] && AllDigits(v) ==> r == Some(DigitsValue(v))
  {
    var w := TrimTextEnd(TrimTextStart(v));
    if w != [] && (w[0] == '+' || w[0] == '-') then
      match ParseDigits(TrimTextStart(w[1..]))
      case None => None
      case Some(magnitude) => Some(if w[0] == '-' then -(magnitude as int) else magnitude as int)
    else ParseDigits(w)
  }

  /** At least one decimal digit and nothing else: their value. */
  function ParseDigits(ds: string): (r: Option<nat>)
    ensures r.Some? <==> ds != [] && AllDigits(ds)
  {
    if ds != [] && AllDigits(ds) then Some(DigitsValue(ds)) else None
  }

  /** A sign, then blanks, then digits: `int()` reads the signed value, so
      `int(u'- 5')` is -5. */
  lemma ParseIntSigned(sign: char, blanks: string, ds: string)
    requires sign == '+' || sign == '-'
    requires forall i :: 0 <= i < |blanks| ==> IsIntSpace(blanks[i])
    requires ds != [] && AllDigits(ds)
    ensures ParseInt([sign] + blanks + ds) == Some(if sign == '-' then -(DigitsValue(ds) as int) else DigitsValue(ds) as int)
  {
    var v := [sign] + blanks + ds;
    assert v[0] == sign;
    assert TrimTextStart(v) == v;
    assert v[|v| - 1] == ds[|ds| - 1];
    assert TrimTextEnd(v) == v;
    assert v[1..] == blanks + ds;
    TrimBlanks(blanks, ds);
    ParseIntSignedText(v, ds);
  }

  /** `int()` of a trimmed text made of a sign and, after blanks, digits. */
  lemma ParseIntSignedText(v: string, ds: string)
    requires v != [] && (v[0] == '+' || v[0] == '-')
    requires TrimTextEnd(TrimTextStart(v)) == v
    requires TrimTextStart(v[1..]) == ds && ds != [] && AllDigits(ds)
    ensures ParseInt(v) == Some(if v[0] == '-' then -(DigitsValue(ds) as int) else DigitsValue(ds) as int)
  {
  }

  /** Leading blanks are exactly what `TrimTextStart` drops. */
  lemma {:induction false} TrimBlanks(blanks: string, t: string)
    requires forall i :: 0 <= i < |blanks| ==> IsIntSpace(blanks[i])
    requires t != [] ==> !IsIntSpace(t[0])
    ensures TrimTextStart(blanks + t) == t
    decreases |blanks|
  {
    if blanks == [] {
      assert blanks + t == t;
    } else {
      assert (blanks + t)[1..] == blanks[1..] + t;
      TrimBlanks(blanks[1..], t);
    }
  }

  /** A value without a single decimal digit is a ValueError. */
  lemma ParseIntNeedsDigit(v: string)
    requires forall i :: 0 <= i < |v| ==> !IsDigit(v[i])
    ensures ParseInt(v) == None
  {
    var u := TrimTextStart(v);
    var w := TrimTextEnd(u);
    TrimTextStartSuffix(v);
    TrimTextEndPrefix(u);
    assert forall i :: 0 <= i < |w| ==> w[i] == v[|v| - |u| + i];
    if w != [] && (w[0] == '+' || w[0] == '-') {
      var ds := TrimTextStart(w[1..]);
      TrimTextStartSuffix(w[1..]);
      if ds != [] {
        assert ds[0] == w[|w| - |ds|];
        assert !IsDigit(ds[0]);
      }
    } else if w != [] {
      assert !IsDigit(w[0]);
    }
  }

  function DigitChar(d: nat): (c: char)
    requires d < 10
    ensures IsDigit(c) && c as int - '0' as int == d
  {
    ('0' as int + d) as char
  }

  /** `'%s' % n` for a length: its decimal digits, which `int()` reads back. */
  function Decimal(n: nat): (ds: string)
    ensures ds != [] && AllDigits(ds) && IsAsciiText(ds)
    ensures DigitsValue(ds) == n
  {
    if n < 10 then [DigitChar(n)]
    else
      var prefix := Decimal(n / 10);
      var ds := prefix + [DigitChar(n % 10)];
      assert ds[..|ds| - 1] == prefix;
      ds
  }

  /** `int()` reads the decimal digits of a length back as that length. */
  lemma DecimalParses(n: nat)
    ensures ParseInt(Decimal(n)) == Some(n)
  {
  }

  /** The header the writer emits is one `read` accepts unchanged. */
  lemma ContentLengthHeader(n: nat)
    ensures WellFormedHeader(ContentLength, Decimal(n))
  {
    var value := Decimal(n);
    assert forall i :: 0 <= i < |value| ==> IsDigit(value[i]);
  }

  // ---------------------------------------------------------------------
  // read(stream)
  // ---------------------------------------------------------------------

  datatype ReadError =
    | NonAsciiHeader                       // a header line that is not ASCII
    | InvalidHeaderLine(line: string)      // a header line without ": "
    | NoHeaders                            // a blank line before any header
    | MissingContentLength                 // no Content-Length header
    | InvalidContentLength(value: string)  // int() refuses the value

  datatype ReadOutcome =
    | Eof                                  // read returns None
    | Message(body: seq<byte>)             // the body bytes handed to json.loads
    | Failed(error: ReadError)             // read raises

  /** The outcome of one `read` and how many bytes it took from the stream. */
  datatype Decoded = Decoded(outcome: ReadOutcome, consumed: int)

  datatype HeaderScan =
    | HeadersEnd(headers: map<string, string>, rest: seq<byte>)
    | HeadersEof
    | HeadersFailed(error: ReadError, rest: seq<byte>)

  /** What one raw header line amounts to once stripped and split. */
  datatype LineKind =
    | Blank
    | Header(name: string, value: string)
    | BadLine(error: ReadError)

  /** `line.strip().decode('ascii')`, the blank test, then `line.split(': ', 1)`. */
  function ClassifyLine(raw: seq<byte>): LineKind {
    var line := Strip(raw);
    if !IsAsciiBytes(line) then BadLine(NonAsciiHeader)
    else if line == [] then Blank
    else
      var text := AsciiText(line);
      match SeparatorFrom(text, 0)
      case None => BadLine(InvalidHeaderLine(text))
      case Some(i) => Header(text[..i], text[i + 2..])
  }

  /** The header loop of `read`, from the unread bytes `s`, with the headers
      gathered so far. */
  function ScanHeaders(s: seq<byte>, headers: map<string, string>): HeaderScan
    decreases |s|
  {
    if s == [] then HeadersEof
    else
      var n := LineLength(s);
      match ClassifyLine(s[..n])
      case BadLine(e) => HeadersFailed(e, s[n..])
      case Blank => HeadersEnd(headers, s[n..])
      case Header(name, value) => ScanHeaders(s[n..], headers[name := value])
  }

  /** The header loop stops inside the bytes it was given, at a bad line
      or after the blank line, unless the stream ends first; what it leaves
      unread is the rest of those bytes. */
  lemma {:induction false} ScanHeadersRest(s: seq<byte>, headers: map<string, string>)
    ensures var r := ScanHeaders(s, headers);
            !r.HeadersEof? ==> |r.rest| < |s| && r.rest == s[|s| - |r.rest|..]
    decreases |s|
  {
    if s != [] {
      var n := LineLength(s);
      match ClassifyLine(s[..n])
      case BadLine(_) =>
      case Blank =>
      case Header(name, value) =>
        ScanHeadersRest(s[n..], headers[name := value]);
        var r := ScanHeaders(s[n..], headers[name := value]);
        if !r.HeadersEof? {
          assert s[n..][|s| - n - |r.rest|..] == s[|s| - |r.rest|..];
        }
    }
  }

  /** One `read` from the unread bytes `s`. */
  function Decode(s: seq<byte>): (d: Decoded)
    ensures 0 <= d.consumed <= |s|
    ensures d.outcome.Eof? ==> d.consumed == |s|
    ensures d.outcome.Message? ==>
              0 < d.consumed && |d.outcome.body| <= d.consumed &&
              d.outcome.body == s[d.consumed - |d.outcome.body|..d.consumed]
  {
    var scan := ScanHeaders(s, map[]);
    ScanHeadersRest(s, map[]);
    AfterHeadersBounds(s, scan);
    AfterHeaders(s, scan)
  }

  /** The part of `read` after the header loop: the header checks, then the
      body read. `scan` ends somewhere in `s`; the bytes consumed are those
      before its unread rest, plus the body. */
  function AfterHeaders(s: seq<byte>, scan: HeaderScan): Decoded {
    match scan
    case HeadersEof => Decoded(Eof, |s|)
    case HeadersFailed(e, rest) => Decoded(Failed(e), |s| - |rest|)
    case HeadersEnd(headers, rest) =>
      var used := |s| - |rest|;
      if headers == map[] then Decoded(Failed(NoHeaders), used)
      else if ContentLength !in headers then Decoded(Failed(MissingContentLength), used)
      else match ParseInt(headers[ContentLength])
        case None => Decoded(Failed(InvalidContentLength(headers[ContentLength])), used)
        case Some(size) =>
          var body := Take(rest, size);
          Decoded(Message(body), used + |body|)
  }

  /** What the checks after the header loop consume lies within `s`, and a
      body is the last bytes consumed. */
  lemma AfterHeadersBounds(s: seq<byte>, scan: HeaderScan)
    requires !scan.HeadersEof? ==> |scan.rest| < |s| && scan.rest == s[|s| - |scan.rest|..]
    ensures var d := AfterHeaders(s, scan);
            && 0 <= d.consumed <= |s|
            && (d.outcome.Eof? ==> d.consumed == |s|)
            && (d.outcome.Message? ==>
                  0 < d.consumed && |d.outcome.body| <= d.consumed &&
                  d.outcome.body == s[d.consumed - |d.outcome.body|..d.consumed])
  {
    match scan
    case HeadersEof =>
    case HeadersFailed(_, _) =>
    case HeadersEnd(headers, rest) =>
      if headers != map[] && ContentLength in headers && ParseInt(headers[ContentLength]).Some? {
        BodyWithin(s, rest, Take(rest, ParseInt(headers[ContentLength]).value));
      }
  }

  /** A prefix of the unread rest of `s` is a slice of `s`. */
  lemma BodyWithin(s: seq<byte>, rest: seq<byte>, body: seq<byte>)
    requires |rest| <= |s| && rest == s[|s| - |rest|..]
    requires |body| <= |rest| && body == rest[..|body|]
    ensures body == s[|s| - |rest|..|s| - |rest| + |body|]
  {
  }

  /** `read(stream)`: gathers the header lines into a dictionary, then reads
      exactly Content-Length bytes of body. */
  method ReadMessage(stream: ByteStream) returns (r: ReadOutcome)
    requires stream.Valid()
    modifies stream
    ensures stream.Valid()
    ensures r == Decode(old(stream.Remaining())).outcome
    ensures stream.pos == old(stream.pos) + Decode(old(stream.Remaining())).consumed
  {
    ghost var start := stream.Remaining();
    var scan := ReadHeaders(stream);
    assert Decode(start) == AfterHeaders(start, scan);
    match scan
    case HeadersEof =>
      r := Eof;
    case HeadersFailed(e, _) =>
      r := Failed(e);
    case HeadersEnd(headers, _) =>
      if headers == map[] {
        return Failed(NoHeaders);
      }
      if ContentLength !in headers {
        return Failed(MissingContentLength);
      }
      var size := ParseInt(headers[ContentLength]);
      if size.None? {
        return Failed(InvalidContentLength(headers[ContentLength]));
      }
      var body := stream.Read(size.value);
      r := Message(body);
  }

  /** One pass of the header loop, on the line `data[p0..p1]`. */
  lemma ScanStep(data: seq<byte>, p0: nat, p1: nat, headers: map<string, string>)
    requires p0 < p1 <= |data| && data[p0..p1] == NextLine(data[p0..])
    ensures ScanHeaders(data[p0..], headers) == match ClassifyLine(data[p0..p1])
      case BadLine(e) => HeadersFailed(e, data[p1..])
      case Blank => HeadersEnd(headers, data[p1..])
      case Header(name, value) => ScanHeaders(data[p1..], headers[name := value])
  {
    var s := data[p0..];
    assert LineLength(s) == p1 - p0;
    assert s[p1 - p0..] == data[p1..];
  }

  /** The header loop of `read`: one `readline()` per iteration, stopping at
      end of stream, at a bad line or at the blank line. */
  method ReadHeaders(stream: ByteStream) returns (scan: HeaderScan)
    requires stream.Valid()
    modifies stream
    ensures stream.Valid()
    ensures scan == ScanHeaders(old(stream.Remaining()), map[])
    ensures scan.HeadersEof? ==> stream.Remaining() == []
    ensures !scan.HeadersEof? ==> scan.rest == stream.Remaining()
    ensures old(stream.pos) <= stream.pos
  {
    ghost var start := stream.Remaining();
    var headers: map<string, string> := map[];
    while true
      invariant stream.Valid() && old(stream.pos) <= stream.pos
      invariant ScanHeaders(start, map[]) == ScanHeaders(stream.Remaining(), headers)
      decreases |stream.data| - stream.pos
    {
      var before := stream.pos;
      var line := stream.ReadLine();
      if line == [] {
        return HeadersEof;
      }
      ScanStep(stream.data, before, stream.pos, headers);
      match ClassifyLine(line)
      case BadLine(e) =>
        return HeadersFailed(e, stream.data[stream.pos..]);
      case Blank =>
        return HeadersEnd(headers, stream.data[stream.pos..]);
      case Header(name, value) =>
        headers := headers[name := value];
    }
  }

  // ---------------------------------------------------------------------
  // Frames as the writer emits them, and what read makes of them
  // ---------------------------------------------------------------------

  /** `"Content-Length: " + len(body)` */
  function HeaderText(n: nat): (t: string)
    ensures IsAsciiText(t)
  {
    AsciiConcat("Content-Length: ", Decimal(n));
    "Content-Length: " + Decimal(n)
  }

  /** The bytes `writer_thread` writes for a body:
      `'Content-Length: %s\r\n\r\n' % len(body)` followed by the body. */
  function Frame(body: seq<byte>): seq<byte> {
    Ascii(HeaderText(|body|)) + [CR, LF, CR, LF] + body
  }

  /** A header line `name: value` followed by CR LF, as a peer sends it. */
  function HeaderLine(name: string, value: string): seq<byte>
    requires WellFormedHeader(name, value)
  {
    AsciiConcat(name + ": ", value);
    AsciiConcat(name, ": ");
    Ascii(name + ": " + value) + [CR, LF]
  }

  /** A header that survives `strip()` and `split(': ', 1)` unchanged: the
      name has no colon and the value does not end in blank space. */
  predicate WellFormedHeader(name: string, value: string) {
    && IsAsciiText(name) && IsAsciiText(value)
    && name != [] && !IsStripSpaceChar(name[0])
    && value != [] && !IsStripSpaceChar(value[|value| - 1])
    && (forall i :: 0 <= i < |name| ==> name[i] != ':' && name[i] != '\n')
    && (forall i :: 0 <= i < |value| ==> value[i] != '\n')
  }

  /** Where the first LF is, readline stops. */
  lemma LineThrough(p: seq<byte>, rest: seq<byte>)
    requires forall i :: 0 <= i < |p| ==> p[i] != LF
    ensures LineLength(p + [LF] + rest) == |p| + 1
  {
    var s := p + [LF] + rest;
    var n := LineLength(s);
    assert s[|p|] == LF;
    assert forall i :: 0 <= i < |p| ==> s[i] != LF;
    assert n > 0 ==> s[n - 1] == LF || n == |s|;
  }

  /** One well-formed header line adds its name and value to the headers;
      the split is on the first `": "`, so the value may itself hold one,
      and a later line with the same name replaces the earlier value. */
  lemma ScanHeaderLine(name: string, value: string, rest: seq<byte>, headers: map<string, string>)
    requires WellFormedHeader(name, value)
    ensures ScanHeaders(HeaderLine(name, value) + rest, headers) == ScanHeaders(rest, headers[name := value])
  {
    var line := HeaderLine(name, value);
    var s := line + rest;
    HeaderLineLength(name, value, rest);
    ClassifyHeaderLine(name, value);
    assert s[..|line|] == line;
    assert s[|line|..] == rest;
  }

  /** readline stops at the CR LF that ends a well-formed header line. */
  lemma HeaderLineLength(name: string, value: string, rest: seq<byte>)
    requires WellFormedHeader(name, value)
    ensures LineLength(HeaderLine(name, value) + rest) == |HeaderLine(name, value)|
  {
    AsciiConcat(name, ": ");
    AsciiConcat(name + ": ", value);
    var text := name + ": " + value;
    var h := Ascii(text);
    assert HeaderLine(name, value) + rest == h + [CR] + [LF] + rest;
    forall i | 0 <= i < |h + [CR]| ensures (h + [CR])[i] != LF {
      if i < |h| { assert text[i] != '\n'; }
    }
    LineThrough(h + [CR], rest);
  }

  /** Stripping and splitting a well-formed header line gives back its name
      and value. */
  lemma ClassifyHeaderLine(name: string, value: string)
    requires WellFormedHeader(name, value)
    ensures ClassifyLine(HeaderLine(name, value)) == Header(name, value)
  {
    AsciiConcat(name, ": ");
    AsciiConcat(name + ": ", value);
    var text := name + ": " + value;
    var h := Ascii(text);
    assert h[0] as int == name[0] as int;
    assert h[|h| - 1] as int == value[|value| - 1] as int;
    StripKeepsCore(h, [CR, LF]);
    AsciiRoundTrip(text);
    HeaderTextSplits(name, value);
  }

  /** `split(': ', 1)` cuts a header text at the end of its name. */
  lemma HeaderTextSplits(name: string, value: string)
    requires WellFormedHeader(name, value)
    ensures var text := name + ": " + value;
            SeparatorFrom(text, 0) == Some(|name|) && text[..|name|] == name && text[|name| + 2..] == value
  {
    var text := name + ": " + value;
    assert IsSeparatorAt(text, |name|);
    assert forall j :: 0 <= j < |name| ==> text[j] == name[j];
    assert forall j :: 0 <= j < |name| ==> !IsSeparatorAt(text, j);
  }

  /** A header line with no `": "` in it makes `read` raise as soon as it
      is read, whatever follows. */
  lemma NoSeparatorFails(text: string, rest: seq<byte>)
    requires IsAsciiText(text) && text != []
    requires !IsStripSpaceChar(text[0]) && !IsStripSpaceChar(text[|text| - 1])
    requires forall i :: 0 <= i < |text| ==> text[i] != '\n'
    requires forall j :: 0 <= j < |text| - 1 ==> !(text[j] == ':' && text[j + 1] == ' ')
    ensures Decode(Ascii(text) + [CR, LF] + rest) == Decoded(Failed(InvalidHeaderLine(text)), |text| + 2)
  {
    ScanNoSeparator(text, rest);
    DecodeAfterScan(Ascii(text) + [CR, LF] + rest);
  }

  /** The header loop stops at a line without `": "`, leaving what follows it. */
  lemma ScanNoSeparator(text: string, rest: seq<byte>)
    requires IsAsciiText(text) && text != []
    requires !IsStripSpaceChar(text[0]) && !IsStripSpaceChar(text[|text| - 1])
    requires forall i :: 0 <= i < |text| ==> text[i] != '\n'
    requires forall j :: 0 <= j < |text| - 1 ==> !(text[j] == ':' && text[j + 1] == ' ')
    ensures ScanHeaders(Ascii(text) + [CR, LF] + rest, map[]) == HeadersFailed(InvalidHeaderLine(text), rest)
  {
    var h := Ascii(text);
    var s := h + [CR, LF] + rest;
    assert forall i :: 0 <= i < |h| ==> h[i] != LF by {
      forall i | 0 <= i < |h| ensures h[i] != LF {
        assert text[i] != '\n';
      }
    }
    CrLfLine(h, rest);
    assert s[..|h| + 2] == h + [CR, LF];
    assert s[|h| + 2..] == rest;
    ClassifyNoSeparator(text);
  }

  /** readline stops at the LF of a line that ends in CR LF. */
  lemma CrLfLine(h: seq<byte>, rest: seq<byte>)
    requires forall i :: 0 <= i < |h| ==> h[i] != LF
    ensures LineLength(h + [CR, LF] + rest) == |h| + 2
  {
    assert h + [CR, LF] + rest == (h + [CR]) + [LF] + rest;
    LineThrough(h + [CR], rest);
  }

  /** Stripped and decoded, a line without `": "` fails the split. */
  lemma ClassifyNoSeparator(text: string)
    requires IsAsciiText(text) && text != []
    requires !IsStripSpaceChar(text[0]) && !IsStripSpaceChar(text[|text| - 1])
    requires forall j :: 0 <= j < |text| - 1 ==> !(text[j] == ':' && text[j + 1] == ' ')
    ensures ClassifyLine(Ascii(text) + [CR, LF]) == BadLine(InvalidHeaderLine(text))
  {
    var h := Ascii(text);
    assert h[0] as int == text[0] as int;
    assert h[|h| - 1] as int == text[|text| - 1] as int;
    StripKeepsCore(h, [CR, LF]);
    AsciiRoundTrip(text);
    match SeparatorFrom(text, 0)
    case None =>
    case Some(j) =>
      assert false;
  }

  /** A blank CR LF line ends the header block. */
  lemma ScanBlankLine(rest: seq<byte>, headers: map<string, string>)
    ensures ScanHeaders([CR, LF] + rest, headers) == HeadersEnd(headers, rest)
  {
    var s := [CR, LF] + rest;
    LineThrough([CR], rest);
    assert s == [CR] + [LF] + rest;
    assert s[..2] == [CR, LF];
    assert TrimStart([LF]) == [] by { assert [LF][1..] == []; }
    assert TrimStart([CR, LF]) == [] by { assert [CR, LF][1..] == [LF]; }
    assert s[2..] == rest;
  }

  /** The round trip of the transport: reading a frame the writer produced
      gives back exactly its body and takes exactly the frame's bytes. */
  lemma FrameRoundTrip(body: seq<byte>, rest: seq<byte>)
    ensures Decode(Frame(body) + rest) == Decoded(Message(body), |Frame(body)|)
  {
    var s := Frame(body) + rest;
    var headers := map[ContentLength := Decimal(|body|)];
    FrameScan(body, rest, map[]);
    DecodeEnds(s, headers, body + rest);
    DecimalParses(|body|);
    AfterHeadersWithLength(s, headers, body + rest, |body|);
    assert Take(body + rest, |body|) == body;
  }

  /** The header block of a frame holds exactly its Content-Length. */
  lemma FrameScan(body: seq<byte>, rest: seq<byte>, headers: map<string, string>)
    ensures ScanHeaders(Frame(body) + rest, headers)
         == HeadersEnd(headers[ContentLength := Decimal(|body|)], body + rest)
  {
    var value := Decimal(|body|);
    ContentLengthHeader(|body|);
    assert ContentLength + ": " + value == HeaderText(|body|);
    var t := [CR, LF] + (body + rest);
    assert Frame(body) + rest == HeaderLine(ContentLength, value) + t;
    ScanHeaderLine(ContentLength, value, t, headers);
    ScanBlankLine(body + rest, headers[ContentLength := value]);
  }

  /** End of stream anywhere inside the header block, not only before the
      first line, makes `read` return None. */
  lemma {:induction false} EofInsideHeaders(names: seq<string>, values: seq<string>, headers: map<string, string>)
    requires |names| == |values|
    requires forall k :: 0 <= k < |names| ==> WellFormedHeader(names[k], values[k])
    ensures ScanHeaders(HeaderLines(names, values), headers) == HeadersEof
    decreases |names|
  {
    if names != [] {
      var tail := HeaderLines(names[1..], values[1..]);
      ScanHeaderLine(names[0], values[0], tail, headers);
      EofInsideHeaders(names[1..], values[1..], headers[names[0] := values[0]]);
    }
  }

  /** Consecutive header lines. */
  function HeaderLines(names: seq<string>, values: seq<string>): seq<byte>
    requires |names| == |values|
    requires forall k :: 0 <= k < |names| ==> WellFormedHeader(names[k], values[k])
  {
    if names == [] then [] else HeaderLine(names[0], values[0]) + HeaderLines(names[1..], values[1..])
  }

  lemma EofInsideHeaderBlock(names: seq<string>, values: seq<string>)
    requires |names| == |values|
    requires forall k :: 0 <= k < |names| ==> WellFormedHeader(names[k], values[k])
    ensures Decode(HeaderLines(names, values)).outcome == Eof
  {
    EofInsideHeaders(names, values, map[]);
  }

  /** A blank line before any header is an error, not an empty message. */
  lemma BlankLineFirst(rest: seq<byte>)
    ensures Decode([CR, LF] + rest) == Decoded(Failed(NoHeaders), 2)
  {
    ScanBlankLine(rest, map[]);
  }

  /** A header block without Content-Length fails once the blank line is read. */
  lemma MissingLength(name: string, value: string, rest: seq<byte>)
    requires WellFormedHeader(name, value) && name != ContentLength
    ensures Decode(HeaderLine(name, value) + [CR, LF] + rest).outcome == Failed(MissingContentLength)
  {
    var s := HeaderLine(name, value) + [CR, LF] + rest;
    assert ScanHeaders(s, map[]) == HeadersEnd(map[name := value], rest) by {
      assert s == HeaderLine(name, value) + ([CR, LF] + rest);
      ScanHeaderLine(name, value, [CR, LF] + rest, map[]);
      ScanBlankLine(rest, map[name := value]);
    }
    var headers := map[name := value];
    assert headers != map[] && ContentLength !in headers by { assert name in headers; }
    DecodeWithoutLength(s, headers, rest);
  }

  /** `read` once the header loop ended at the blank line: the checks
      after the loop, on the rest of the stream. */
  lemma DecodeEnds(s: seq<byte>, headers: map<string, string>, rest: seq<byte>)
    requires ScanHeaders(s, map[]) == HeadersEnd(headers, rest)
    ensures |rest| < |s| && rest == s[|s| - |rest|..]
    ensures Decode(s) == AfterHeaders(s, HeadersEnd(headers, rest))
  {
    ScanEndsInside(s, headers, rest);
    DecodeAfterScan(s);
  }

  /** The header loop stops before the end of the stream it ended in. */
  lemma ScanEndsInside(s: seq<byte>, headers: map<string, string>, rest: seq<byte>)
    requires ScanHeaders(s, map[]) == HeadersEnd(headers, rest)
    ensures |rest| < |s| && rest == s[|s| - |rest|..]
  {
    ScanHeadersRest(s, map[]);
  }

  /** The checks after the header loop, with a Content-Length `int()` accepts. */
  lemma AfterHeadersWithLength(s: seq<byte>, headers: map<string, string>, rest: seq<byte>, n: int)
    requires |rest| < |s| && rest == s[|s| - |rest|..]
    requires ContentLength in headers && ParseInt(headers[ContentLength]) == Some(n)
    ensures AfterHeaders(s, HeadersEnd(headers, rest)) == Decoded(Message(Take(rest, n)), |s| - |rest| + |Take(rest, n)|)
  {
    assert headers != map[] by { assert ContentLength in headers; }
  }

  /** `read` once the header loop ended without a Content-Length. */
  lemma DecodeWithoutLength(s: seq<byte>, headers: map<string, string>, rest: seq<byte>)
    requires ScanHeaders(s, map[]) == HeadersEnd(headers, rest)
    requires headers != map[] && ContentLength !in headers
    ensures Decode(s).outcome == Failed(MissingContentLength)
  {
    DecodeEnds(s, headers, rest);
  }

  /** One `read` is the header loop followed by the checks after it. */
  lemma DecodeAfterScan(s: seq<byte>)
    ensures Decode(s) == AfterHeaders(s, ScanHeaders(s, map[]))
  {
  }

  /** A repeated Content-Length keeps the last value: the body length is the
      second header's, whatever the first one said. */
  lemma LastContentLengthWins(first: nat, body: seq<byte>, rest: seq<byte>)
    ensures Decode(HeaderLine(ContentLength, Decimal(first)) + Frame(body) + rest).outcome == Message(body)
  {
    ContentLengthHeader(first);
    var s := HeaderLine(ContentLength, Decimal(first)) + Frame(body) + rest;
    var headers := map[ContentLength := Decimal(first)][ContentLength := Decimal(|body|)];
    ScanRepeatedLength(first, body, rest);
    DecimalParses(|body|);
    DecodeMessage(s, headers, body + rest, |body|);
    assert Take(body + rest, |body|) == body;
  }

  /** `read` once the header loop ended at the blank line with a
      Content-Length `int()` accepts: the body is read after it. */
  lemma DecodeMessage(s: seq<byte>, headers: map<string, string>, rest: seq<byte>, n: int)
    requires ScanHeaders(s, map[]) == HeadersEnd(headers, rest)
    requires ContentLength in headers && ParseInt(headers[ContentLength]) == Some(n)
    ensures Decode(s) == Decoded(Message(Take(rest, n)), |s| - |rest| + |Take(rest, n)|)
  {
    DecodeEnds(s, headers, rest);
    AfterHeadersWithLength(s, headers, rest, n);
  }

  /** A second Content-Length line overwrites the first in the dictionary. */
  lemma ScanRepeatedLength(first: nat, body: seq<byte>, rest: seq<byte>)
    requires WellFormedHeader(ContentLength, Decimal(first))
    ensures ScanHeaders(HeaderLine(ContentLength, Decimal(first)) + Frame(body) + rest, map[])
         == HeadersEnd(map[ContentLength := Decimal(first)][ContentLength := Decimal(|body|)], body + rest)
  {
    var line1 := HeaderLine(ContentLength, Decimal(first));
    assert line1 + Frame(body) + rest == line1 + (Frame(body) + rest);
    ScanHeaderLine(ContentLength, Decimal(first), Frame(body) + rest, map[]);
    FrameScan(body, rest, map[ContentLength := Decimal(first)]);
  }
}
