// Chunked decoding is the inverse of chunked encoding: exactly the encodings of
// a payload decode to it (section 7.1 of RFC 9112).
module FramingLaws {
  import opened Options
  import opened Text
  import opened Framing

  /** A size line, whatever its spelling and extensions, and the data it announces. */
  datatype Chunk = Chunk(line: string, data: string)

  ghost predicate NoCrlf(s: string) {
    forall i: nat :: !MatchAt(s, i, CRLF)
  }

  ghost predicate IsChunk(c: Chunk) {
    NoCrlf(c.line) && c.data != "" && SizeOf(c.line) == Some(|c.data|)
  }

  /** The chunks, the last size line, and whatever follows: trailers and the final blank line. */
  function Encoded(chunks: seq<Chunk>, last: string, rest: string): string {
    if chunks == [] then last + CRLF + rest
    else chunks[0].line + CRLF + (chunks[0].data + CRLF + Encoded(chunks[1..], last, rest))
  }

  function Payload(chunks: seq<Chunk>): string {
    if chunks == [] then "" else chunks[0].data + Payload(chunks[1..])
  }

  ghost predicate IsEncoding(chunks: seq<Chunk>, last: string) {
    && (forall i :: 0 <= i < |chunks| ==> IsChunk(chunks[i]))
    && NoCrlf(last) && SizeOf(last) == Some(0)
  }

  /** The line ends at the first CRLF. */
  lemma FirstCrlf(body: string, pos: nat, line: string, tail: string)
    requires pos <= |body| && body[pos..] == line + CRLF + tail && NoCrlf(line)
    ensures FindFrom(body, pos, CRLF) == Some(pos + |line|)
    ensures body[pos..pos + |line|] == line && body[pos + |line| + 2..] == tail
  {
    hide NoCrlf, FindFrom, MatchAt;
    LineParts(body, pos, line, tail);
    CrlfAt(body, pos + |line|);
    forall j | pos <= j < pos + |line| ensures !MatchAt(body, j, CRLF) {
      NoEarlierCrlf(body, pos, line, j);
    }
  }

  lemma LineParts(body: string, pos: nat, line: string, tail: string)
    requires pos <= |body| && body[pos..] == line + CRLF + tail
    ensures pos + |line| + 2 <= |body|
    ensures body[pos..pos + |line|] == line && body[pos + |line| + 2..] == tail
    ensures body[pos + |line|] == '\r' && body[pos + |line| + 1] == '\n'
  {
    var rest := body[pos..];
    assert rest[..|line|] == line && rest[|line| + 2..] == tail;
    assert rest[|line|] == '\r' && rest[|line| + 1] == '\n';
  }

  lemma NoEarlierCrlf(body: string, pos: nat, line: string, j: nat)
    requires pos + |line| + 2 <= |body| && NoCrlf(line) && pos <= j < pos + |line|
    requires body[pos..pos + |line|] == line && body[pos + |line|] == '\r'
    ensures !MatchAt(body, j, CRLF)
  {
    CrlfAt(body, j);
    CrlfAt(line, j - pos);
    assert !MatchAt(line, j - pos, CRLF);
    hide MatchAt, NoCrlf;
    assert line[j - pos] == body[j];
    assert j + 1 < pos + |line| ==> line[j + 1 - pos] == body[j + 1];
  }

  lemma CrlfAt(s: string, i: nat)
    ensures MatchAt(s, i, CRLF) <==> i + 2 <= |s| && s[i] == '\r' && s[i + 1] == '\n'
  {
  }

  /** Every encoding decodes to its payload, wherever in a buffer it stands. */
  lemma {:induction false} DecodeUndoesEncode(body: string, pos: nat, chunks: seq<Chunk>, last: string, rest: string)
    requires pos <= |body| && body[pos..] == Encoded(chunks, last, rest) && IsEncoding(chunks, last)
    ensures DecodeFrom(body, pos) == Ok(Payload(chunks))
    decreases |chunks|
  {
    hide RoundAt, IsChunk, Encoded;
    if chunks == [] {
      LastRound(body, pos, last, rest);
    } else {
      ChunkRound(body, pos, chunks, last, rest);
      DecodeUndoesEncode(body, RoundAt(body, pos).next, chunks[1..], last, rest);
    }
  }

  lemma LastRound(body: string, pos: nat, last: string, rest: string)
    requires pos <= |body| && body[pos..] == Encoded([], last, rest) && IsEncoding([], last)
    ensures RoundAt(body, pos) == Finished
  {
    FirstCrlf(body, pos, last, rest);
  }

  lemma ChunkRound(body: string, pos: nat, chunks: seq<Chunk>, last: string, rest: string)
    requires pos <= |body| && body[pos..] == Encoded(chunks, last, rest) && chunks != [] && IsChunk(chunks[0])
    ensures RoundAt(body, pos).More? && RoundAt(body, pos).data == chunks[0].data
    ensures body[RoundAt(body, pos).next..] == Encoded(chunks[1..], last, rest)
  {
    hide SizeOf, NoCrlf, MatchAt;
    var c, more := chunks[0], Encoded(chunks[1..], last, rest);
    FirstCrlf(body, pos, c.line, c.data + CRLF + more);
    DataThenCrlf(body, pos + |c.line| + 2, c.data, more);
  }

  lemma DataThenCrlf(body: string, start: nat, data: string, more: string)
    requires start <= |body| && body[start..] == data + CRLF + more
    ensures
      var end := start + |data|;
      end + 2 <= |body| && body[start..end] == data && MatchAt(body, end, CRLF) && body[end + 2..] == more
  {
  }

  /** Whatever decodes is an encoding of what it decodes to. */
  lemma {:induction false} DecodedIsEncoding(body: string, pos: nat)
    returns (chunks: seq<Chunk>, last: string, rest: string)
    requires pos <= |body| && DecodeFrom(body, pos).Ok?
    ensures IsEncoding(chunks, last) && body[pos..] == Encoded(chunks, last, rest)
    ensures DecodeFrom(body, pos) == Ok(Payload(chunks))
    decreases |body| - pos
  {
    hide RoundAt, Encoded, IsChunk, NoCrlf, SizeOf;
    if RoundAt(body, pos).Finished? {
      last, rest := FinishedIs(body, pos);
      chunks := [];
    } else {
      var next := RoundAt(body, pos).next;
      var cs;
      cs, last, rest := DecodedIsEncoding(body, next);
      var c := MoreIs(body, pos);
      chunks := [c] + cs;
      assert chunks[1..] == cs;
      EncodedStep(c, cs, last, rest);
    }
  }

  lemma EncodedStep(c: Chunk, cs: seq<Chunk>, last: string, rest: string)
    ensures Encoded([c] + cs, last, rest) == c.line + CRLF + (c.data + CRLF + Encoded(cs, last, rest))
  {
  }

  lemma FinishedIs(body: string, pos: nat) returns (last: string, rest: string)
    requires pos <= |body| && RoundAt(body, pos).Finished?
    ensures IsEncoding([], last) && body[pos..] == Encoded([], last, rest)
  {
    hide SizeOf, MatchAt;
    var lineEnd := FindFrom(body, pos, CRLF).value;
    last, rest := body[pos..lineEnd], body[lineEnd + 2..];
    LineHasNoCrlf(body, pos, lineEnd);
    SplitAtLine(body, pos, lineEnd);
  }

  lemma MoreIs(body: string, pos: nat) returns (c: Chunk)
    requires pos <= |body| && RoundAt(body, pos).More? && DecodeFrom(body, RoundAt(body, pos).next).Ok?
    ensures IsChunk(c) && c.data == RoundAt(body, pos).data
    ensures body[pos..] == c.line + CRLF + (c.data + CRLF + body[RoundAt(body, pos).next..])
  {
    hide SizeOf, MatchAt, NoCrlf;
    var lineEnd := FindFrom(body, pos, CRLF).value;
    var start := lineEnd + 2;
    var end := start + SizeOf(body[pos..lineEnd]).value;
    AfterDataIsCrlf(body, end);
    assert MatchAt(body, end, CRLF);
    c := Chunk(body[pos..lineEnd], body[start..end]);
    LineHasNoCrlf(body, pos, lineEnd);
    SplitAtLine(body, pos, lineEnd);
    SplitAtLine(body, start, end);
  }

  lemma SplitAtLine(body: string, from: nat, at: nat)
    requires from <= at <= |body| && MatchAt(body, at, CRLF)
    ensures body[from..] == body[from..at] + CRLF + body[at + 2..]
  {
  }

  lemma LineHasNoCrlf(body: string, pos: nat, lineEnd: nat)
    requires pos <= lineEnd <= |body| && forall j :: pos <= j < lineEnd ==> !MatchAt(body, j, CRLF)
    ensures NoCrlf(body[pos..lineEnd])
  {
    var line := body[pos..lineEnd];
    forall i: nat ensures !MatchAt(line, i, CRLF) {
      CrlfAt(line, i);
      CrlfAt(body, pos + i);
      assert pos + i < lineEnd ==> !MatchAt(body, pos + i, CRLF);
    }
  }

  /** Data that runs to the very end of the buffer can not be followed by a last chunk. */
  lemma AfterDataIsCrlf(body: string, end: nat)
    ensures end == |body| ==> DecodeFrom(body, end) == Err(MissingSizeLine)
  {
  }

  /** A body decodes to a payload exactly when it is a chunked encoding of it. */
  lemma DecodesExactly(body: string, payload: string)
    ensures DecodeFrom(body, 0) == Ok(payload)
       <==> exists chunks, last, rest ::
              IsEncoding(chunks, last) && body == Encoded(chunks, last, rest) && Payload(chunks) == payload
  {
    assert body[0..] == body;
    if DecodeFrom(body, 0).Ok? {
      var chunks, last, rest := DecodedIsEncoding(body, 0);
    }
    forall chunks, last, rest | IsEncoding(chunks, last) && body == Encoded(chunks, last, rest)
      ensures DecodeFrom(body, 0) == Ok(Payload(chunks))
    {
      DecodeUndoesEncode(body, 0, chunks, last, rest);
    }
  }

  // --- The size lines of the standard ---------------------------------------------------------------

  lemma {:induction false} TrimEndStops(s: string, blanks: string)
    requires s != "" && !IsSpace(s[|s| - 1]) && forall i :: 0 <= i < |blanks| ==> IsSpace(blanks[i])
    ensures TrimEnd(s + blanks) == s
  {
    if blanks == "" {
      assert s + blanks == s;
    } else {
      var front := blanks[..|blanks| - 1];
      assert (s + blanks)[..|s + blanks| - 1] == s + front;
      TrimEndStops(s, front);
    }
  }

  /** `1*HEXDIG`, blanks, and any extension: the line announces the number its digits denote. */
  lemma StandardSizeLine(digits: string, blanks: string, extension: string)
    requires digits != "" && AllHex(digits) && HexValue(digits) < U64_LIMIT
    requires forall i :: 0 <= i < |blanks| ==> blanks[i] in " \t"
    requires extension == "" || extension[0] == ';'
    ensures SizeOf(digits + blanks + extension) == Some(HexValue(digits))
  {
    hide HexValue;
    forall i | 0 <= i < |digits + blanks| ensures (digits + blanks)[i] != ';' {
    }
    UntilStops(digits + blanks, ';', extension);
    assert (digits + blanks)[0] == digits[0];
    TrimEndStops(digits, blanks);
  }

  function HexText(n: nat): (s: string)
    ensures s != "" && AllHex(s) && HexValue(s) == n
  {
    var last := [HexDigit(n % 16)];
    if n < 16 then
      assert last[..0] == "";
      last
    else
      var s := HexText(n / 16) + last;
      assert s[..|s| - 1] == HexText(n / 16);
      s
  }

  /** The plain encoding of a payload cut into pieces. */
  function Chunks(pieces: seq<string>): seq<Chunk> {
    if pieces == [] then [] else [Chunk(HexText(|pieces[0]|), pieces[0])] + Chunks(pieces[1..])
  }

  function Joined(pieces: seq<string>): string {
    if pieces == [] then "" else pieces[0] + Joined(pieces[1..])
  }

  lemma HexLine(n: nat)
    requires n < U64_LIMIT
    ensures SizeOf(HexText(n)) == Some(n) && NoCrlf(HexText(n))
  {
    hide SizeOf, HexValue, HexText;
    var s := HexText(n);
    StandardSizeLine(s, "", "");
    assert s + "" + "" == s;
    HexHasNoCrlf(s);
  }

  lemma HexHasNoCrlf(s: string)
    requires AllHex(s)
    ensures NoCrlf(s)
  {
    forall i: nat ensures !MatchAt(s, i, CRLF) {
      CrlfAt(s, i);
    }
  }

  lemma {:induction false} ChunksAreEncoding(pieces: seq<string>)
    requires forall i :: 0 <= i < |pieces| ==> 0 < |pieces[i]| < U64_LIMIT
    ensures IsEncoding(Chunks(pieces), "0") && Payload(Chunks(pieces)) == Joined(pieces)
  {
    hide SizeOf, NoCrlf;
    assert SizeOf("0") == Some(0) && NoCrlf("0") by {
      HexLine(0);
      assert HexText(0) == "0";
    }
    if pieces != [] {
      HexLine(|pieces[0]|);
      ChunksAreEncoding(pieces[1..]);
      assert Chunks(pieces)[1..] == Chunks(pieces[1..]);
    }
  }

  /**
   * A whole chunked response: for every head that announces chunks, every cut
   * of the payload and anything after the last size line, the response is the
   * head's code and exactly the payload.
   */
  lemma ChunkedResponse(head: string, pieces: seq<string>, rest: string)
    requires Find(head, END_OF_HEAD) == Some(|head| - 4) && HeadOf(head).Ok? && HeadOf(head).value.chunked
    requires forall i :: 0 <= i < |pieces| ==> 0 < |pieces[i]| < U64_LIMIT
    ensures ParseResponse(head + Encoded(Chunks(pieces), "0", rest)) == Ok((HeadOf(head).value.code, Joined(pieces)))
  {
    hide HeadOf, DecodeFrom;
    var body := Encoded(Chunks(pieces), "0", rest);
    FindIsStable(head, body, END_OF_HEAD);
    assert (head + body)[..|head|] == head && (head + body)[|head|..] == body;
    ChunksAreEncoding(pieces);
    assert body[0..] == body;
    DecodeUndoesEncode(body, 0, Chunks(pieces), "0", rest);
  }

  /**
   * What is said of a body that does not decode: no line, a line that announces
   * no size, less data than announced, or data that no line end follows.
   */
  lemma DecodeErrors(line: string, rest: string)
    requires Find(line + CRLF, CRLF) == Some(|line|)
    ensures
      var r := DecodeFrom(line + CRLF + rest, 0);
      match SizeOf(line)
      case None => r == Err(BadSize)
      case Some(n) =>
        && (n == 0 ==> r == Ok(""))
        && (n > |rest| ==> r == Err(TruncatedChunk))
        && (0 < n < |rest| && !(CRLF <= rest[n..]) ==> r == Err(MissingCrlf))
  {
    hide SizeOf, MatchAt, FindFrom, DataAt;
    var body := line + CRLF + rest;
    FindIsStable(line + CRLF, rest, CRLF);
    assert body[0..|line|] == line && body[|line| + 2..] == rest;
    if SizeOf(line).Some? {
      DataErrors(body, |line| + 2, SizeOf(line).value);
    }
  }

  lemma DataErrors(body: string, start: nat, n: nat)
    requires start <= |body|
    ensures n > |body[start..]| ==> DataAt(body, start, n) == Failed(TruncatedChunk)
    ensures 0 < n < |body[start..]| && !(CRLF <= body[start..][n..]) ==> DataAt(body, start, n) == Failed(MissingCrlf)
  {
    if 0 < n < |body[start..]| {
      assert body[start..][n..] == body[start + n..];
      assert MatchAt(body, start + n, CRLF) ==> CRLF == body[start + n..][..2];
    }
  }

  lemma NoLineNoChunk(body: string)
    requires Find(body, CRLF).None?
    ensures DecodeFrom(body, 0) == Err(MissingSizeLine)
  {
  }

  /** Exactly what parses as a size: hexadecimal digits, with or without a plus sign, below 64 bits. */
  lemma HexParsesExactly(s: string, n: nat)
    ensures ParseHex(s) == Some(n) <==>
      n < U64_LIMIT && exists digits :: digits != "" && AllHex(digits) && HexValue(digits) == n &&
                                        (s == digits || s == "+" + digits)
  {
    var body := if s != "" && s[0] == '+' then s[1..] else s;
    if s != "" && s[0] == '+' {
      assert s == "+" + body;
    }
    if digits :| digits != "" && AllHex(digits) && HexValue(digits) == n && (s == digits || s == "+" + digits) {
      assert IsHex(digits[0]);
      assert ("+" + digits)[1..] == digits;
    }
  }
}
